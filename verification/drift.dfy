/** The drift history: every write appends one sample and compacts the file by tiered
    retention, keeping the freshest sample per (tier, bucket). Times are microseconds. */
module Drift {
  import opened Sequences

  const SECOND := 1_000_000
  const HOUR := 3600 * SECOND
  const DAY := 24 * HOUR
  const HISTORY_LIMIT := 50_000

  /** (maximal age, bucket width), newest tier first. */
  const RETENTION_TIERS: seq<(int, int)> :=
    [(DAY, 60 * SECOND), (7 * DAY, 15 * 60 * SECOND), (30 * DAY, HOUR), (365 * DAY, DAY)]

  datatype Point = Point(t: int, v: real, total: int)

  type Key = (int, int)

  function T(s: Point): int { s.t }

  function NegT(s: Point): int { -s.t }

  function Age(t: int, now: int): int { if now - t > 0 then now - t else 0 }

  /** Index of the first tier from `i` on that still holds a sample of this age, or -1. */
  function TierFrom(age: int, i: nat): int
    requires i <= 4
    decreases 4 - i
  {
    if i == 4 then -1 else if age <= RETENTION_TIERS[i].0 then i else TierFrom(age, i + 1)
  }

  function Tier(t: int, now: int): int { TierFrom(Age(t, now), 0) }

  function Width(tier: int): int {
    if 0 <= tier < 4 then RETENTION_TIERS[tier].1 else 1
  }

  /** The (tier, bucket) a sample taken at `t` occupies, or None once it is older than the longest tier. */
  function Slot(t: int, now: int): Option<Key> {
    if Tier(t, now) < 0 then None else Some((Tier(t, now), t / Width(Tier(t, now))))
  }

  function Slots(now: int): int -> Option<Key> { t => Slot(t, now) }

  datatype Kept = Kept(seen: set<Key>, rows: seq<Point>)

  function KeepOne(slot: int -> Option<Key>, acc: Kept, s: Point): Kept {
    match slot(s.t)
    case None => acc
    case Some(key) => if key in acc.seen then acc else Kept(acc.seen + {key}, acc.rows + [s])
  }

  /** Walk `rest`, keeping the first sample of every slot. */
  function KeepAll(slot: int -> Option<Key>, acc: Kept, rest: seq<Point>): Kept
    decreases |rest|
  {
    if rest == [] then acc else KeepAll(slot, KeepOne(slot, acc, rest[0]), rest[1..])
  }

  function Compact(history: seq<Point>, now: int): seq<Point> {
    Sort(T, KeepAll(Slots(now), Kept({}, []), Sort(NegT, history)).rows)
  }

  /** Append, compact, and cut to the newest `HISTORY_LIMIT` rows. */
  function Recorded(history: seq<Point>, s: Point): seq<Point> {
    var rows := Compact(history + [s], s.t);
    if |rows| > HISTORY_LIMIT then rows[|rows| - HISTORY_LIMIT..] else rows
  }

  /** The persisted drift-history file. */
  class DriftHistory {
    var history: seq<Point>

    constructor ()
      ensures history == []
    {
      history := [];
    }

    /** The first tier that still holds a sample of this age, and its bucket width. */
    static method FindTier(age: int) returns (tier: int, bucketSecs: int)
      ensures tier == TierFrom(age, 0) && (tier >= 0 ==> bucketSecs == Width(tier) > 0)
    {
      for i := 0 to |RETENTION_TIERS|
        invariant TierFrom(age, i) == TierFrom(age, 0)
      {
        if age <= RETENTION_TIERS[i].0 {
          return i, RETENTION_TIERS[i].1;
        }
      }
      tier, bucketSecs := -1, 0;
    }

    /** One round of the walk: keep the sample if its slot is still free. */
    static method KeepEntry(now: int, seen: set<Key>, kept: seq<Point>, entry: Point)
      returns (seen': set<Key>, kept': seq<Point>)
      ensures Kept(seen', kept') == KeepOne(Slots(now), Kept(seen, kept), entry)
    {
      var age := if now - entry.t > 0 then now - entry.t else 0;
      var tier, bucketSecs := FindTier(age);
      if tier < 0 {
        return seen, kept;
      }
      var key := (tier, entry.t / bucketSecs);
      if key in seen {
        return seen, kept;
      }
      return seen + {key}, kept + [entry];
    }

    static method KeepFreshest(now: int, newestFirst: seq<Point>) returns (kept: seq<Point>)
      ensures kept == KeepAll(Slots(now), Kept({}, []), newestFirst).rows
    {
      var seen: set<Key> := {};
      kept := [];
      for n := 0 to |newestFirst|
        invariant KeepAll(Slots(now), Kept(seen, kept), newestFirst[n..])
          == KeepAll(Slots(now), Kept({}, []), newestFirst)
      {
        assert newestFirst[n..][1..] == newestFirst[n + 1..];
        seen, kept := KeepEntry(now, seen, kept, newestFirst[n]);
      }
    }

    static method CompactHistory(history: seq<Point>, now: int) returns (kept: seq<Point>)
      ensures kept == Compact(history, now)
    {
      if history == [] {
        return history;
      }
      kept := KeepFreshest(now, Sort(NegT, history));
      kept := Sort(T, kept);
    }

    method Sample(now: int, v: real, total: int)
      modifies this
      ensures history == Recorded(old(history), Point(now, v, total))
    {
      var entry := Point(now, v, total);
      var rows := history + [entry];
      rows := CompactHistory(rows, now);
      if |rows| > HISTORY_LIMIT {
        rows := rows[|rows| - HISTORY_LIMIT..];
      }
      history := rows;
    }
  }

  // ---- Tiers and buckets ----

  lemma TierTable(t: int, now: int)
    ensures Tier(t, now) ==
      if now - t <= DAY then 0 else if now - t <= 7 * DAY then 1 else if now - t <= 30 * DAY then 2
      else if now - t <= 365 * DAY then 3 else -1
  {
    var age := Age(t, now);
    assert TierFrom(age, 4) == -1;
    assert TierFrom(age, 3) == if age <= 365 * DAY then 3 else -1;
    assert TierFrom(age, 2) == if age <= 30 * DAY then 2 else TierFrom(age, 3);
    assert TierFrom(age, 1) == if age <= 7 * DAY then 1 else TierFrom(age, 2);
  }

  lemma WidthsNest(t: int)
    ensures t / Width(1) == t / Width(0) / 15
    ensures t / Width(2) == t / Width(1) / 4
    ensures t / Width(3) == t / Width(2) / 24
  {
    assert Width(0) == 60_000_000 && Width(1) == 900_000_000 && Width(2) == 3_600_000_000 && Width(3) == 86_400_000_000;
  }

  /** Two times in one bucket of a tier stay in one bucket of every older tier: the four widths divide each other. */
  lemma BucketsNest(a: int, b: int, fine: int, coarse: int)
    requires 0 <= fine <= coarse < 4
    requires a / Width(fine) == b / Width(fine)
    ensures a / Width(coarse) == b / Width(coarse)
  {
    WidthsNest(a);
    WidthsNest(b);
  }

  // ---- One compaction ----

  /** What holds of the rows kept from `done`, a newest-first prefix of the history. */
  ghost predicate KeptOk(slot: int -> Option<Key>, acc: Kept, done: seq<Point>) {
    && |acc.seen| == |acc.rows|
    && (forall k :: k in acc.rows ==> slot(k.t).Some? && slot(k.t).value in acc.seen)
    && (forall i, j :: 0 <= i < j < |acc.rows| ==>
         acc.rows[i].t > acc.rows[j].t && slot(acc.rows[i].t) != slot(acc.rows[j].t))
    && (forall key :: key in acc.seen ==> Taken(slot, key, acc.rows))
    && (forall s :: s in done && slot(s.t).Some? ==> Represented(slot, s, acc.rows))
  }

  /** A kept row in the same slot, no older than `s`. */
  ghost predicate Represented(slot: int -> Option<Key>, s: Point, rows: seq<Point>) {
    exists k :: k in rows && k.t >= s.t && slot(k.t) == slot(s.t)
  }

  ghost predicate Taken(slot: int -> Option<Key>, key: Key, rows: seq<Point>) {
    exists k :: k in rows && slot(k.t) == Some(key)
  }

  lemma SkipOk(slot: int -> Option<Key>, acc: Kept, done: seq<Point>, s: Point)
    requires KeptOk(slot, acc, done)
    requires forall k :: k in acc.rows ==> k.t >= s.t
    requires slot(s.t).None? || slot(s.t).value in acc.seen
    ensures KeptOk(slot, acc, done + [s])
  {
    assert slot(s.t).Some? ==> Taken(slot, slot(s.t).value, acc.rows);
  }

  lemma AddOk(slot: int -> Option<Key>, acc: Kept, done: seq<Point>, s: Point)
    requires KeptOk(slot, acc, done)
    requires forall k :: k in acc.rows ==> k.t >= s.t
    requires slot(s.t).Some? && slot(s.t).value !in acc.seen
    ensures KeptOk(slot, Kept(acc.seen + {slot(s.t).value}, acc.rows + [s]), done + [s])
  {
    var rows := acc.rows + [s];
    forall i | 0 <= i < |acc.rows| ensures acc.rows[i].t > s.t && slot(acc.rows[i].t) != slot(s.t) {
      assert acc.rows[i] in acc.rows;
    }
    forall key | key in acc.seen + {slot(s.t).value} ensures Taken(slot, key, rows) {
      if key in acc.seen {
        assert Taken(slot, key, acc.rows);
        var k :| k in acc.rows && slot(k.t) == Some(key);
        assert k in rows;
      } else {
        assert s in rows;
      }
    }
    forall d | d in done + [s] && slot(d.t).Some? ensures Represented(slot, d, rows) {
      if d in done {
        var k :| k in acc.rows && k.t >= d.t && slot(k.t) == slot(d.t);
        assert k in rows;
      } else {
        assert s in rows;
      }
    }
  }

  /** Everything kept is no older than everything still to come. */
  ghost predicate Above(rows: seq<Point>, rest: seq<Point>) {
    forall k, r :: k in rows && r in rest ==> r.t <= k.t
  }

  lemma KeepOneOk(slot: int -> Option<Key>, acc: Kept, done: seq<Point>, s: Point)
    requires KeptOk(slot, acc, done) && Above(acc.rows, [s])
    ensures KeptOk(slot, KeepOne(slot, acc, s), done + [s])
  {
    assert s in [s];
    if slot(s.t).None? || slot(s.t).value in acc.seen {
      SkipOk(slot, acc, done, s);
    } else {
      AddOk(slot, acc, done, s);
    }
  }

  lemma KeepOneAbove(slot: int -> Option<Key>, acc: Kept, rest: seq<Point>)
    requires rest != [] && SortedBy(NegT, rest) && Above(acc.rows, rest)
    ensures Above(acc.rows, [rest[0]]) && Above(KeepOne(slot, acc, rest[0]).rows, rest[1..])
    ensures SortedBy(NegT, rest[1..])
  {
    SortedTail(NegT, rest);
    forall r | r in rest[1..] ensures r in rest && r.t <= rest[0].t { assert NegT(rest[0]) <= NegT(r); }
  }

  lemma {:induction false} KeepAllOk(slot: int -> Option<Key>, acc: Kept, done: seq<Point>, rest: seq<Point>)
    requires KeptOk(slot, acc, done) && SortedBy(NegT, rest) && Above(acc.rows, rest)
    ensures KeptOk(slot, KeepAll(slot, acc, rest), done + rest)
    decreases |rest|
  {
    if rest == [] {
      assert done + rest == done;
    } else {
      KeepOneAbove(slot, acc, rest);
      KeepOneOk(slot, acc, done, rest[0]);
      KeepAllOk(slot, KeepOne(slot, acc, rest[0]), done + [rest[0]], rest[1..]);
      assert done + [rest[0]] + rest[1..] == done + rest;
    }
  }

  lemma {:induction false} KeepAllSubset(slot: int -> Option<Key>, acc: Kept, rest: seq<Point>)
    ensures forall k :: k in KeepAll(slot, acc, rest).rows ==> k in acc.rows || k in rest
    decreases |rest|
  {
    if rest != [] {
      KeepAllSubset(slot, KeepOne(slot, acc, rest[0]), rest[1..]);
    }
  }
}
