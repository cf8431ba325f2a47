/** Guarantees of the drift history over whole runs of append-then-compact. */
module DriftRuns {
  import opened Sequences
  import opened Drift

  function Scan(h: seq<Point>, now: int): Kept {
    KeepAll(Slots(now), Kept({}, []), Sort(NegT, h))
  }

  lemma ScanOk(h: seq<Point>, now: int)
    ensures KeptOk(Slots(now), Scan(h, now), Sort(NegT, h))
  {
    var sorted := Sort(NegT, h);
    KeepAllOk(Slots(now), Kept({}, []), [], sorted);
    assert [] + sorted == sorted;
  }

  /** A compaction drops rows and adds none. */
  lemma CompactSubset(h: seq<Point>, now: int)
    ensures forall k :: k in Compact(h, now) ==> k in h
  {
    KeepAllSubset(Slots(now), Kept({}, []), Sort(NegT, h));
    SortMembers(NegT, h);
    SortMembers(T, Scan(h, now).rows);
  }

  /** Surviving rows are in strictly ascending time order. */
  lemma CompactSorted(h: seq<Point>, now: int)
    ensures StrictlySortedBy(T, Compact(h, now))
  {
    ScanOk(h, now);
    SortStrict(Scan(h, now).rows);
  }

  /** A sample young enough to keep is represented in its own slot by a row no older than itself. */
  lemma CompactRepresents(h: seq<Point>, s: Point, now: int) returns (k: Point)
    requires s in h && Slot(s.t, now).Some?
    ensures k in Compact(h, now) && k.t >= s.t && Slot(k.t, now) == Slot(s.t, now)
  {
    ScanOk(h, now);
    SortMembers(NegT, h);
    var rows := Scan(h, now).rows;
    SortMembers(T, rows);
    assert Represented(Slots(now), s, rows);
    k :| k in rows && k.t >= s.t && Slots(now)(k.t) == Slots(now)(s.t);
  }

  lemma DistinctTimes(rows: seq<Point>, x: Point, y: Point)
    requires forall i, j :: 0 <= i < j < |rows| ==> rows[i].t > rows[j].t
    requires x in rows && y in rows && x != y
    ensures x.t != y.t
  {
    var i :| 0 <= i < |rows| && rows[i] == x;
    var j :| 0 <= j < |rows| && rows[j] == y;
    assert i < j ==> rows[i].t > rows[j].t;
    assert j < i ==> rows[j].t > rows[i].t;
  }

  lemma StrictPair(rows: seq<Point>, r: seq<Point>, i: nat, j: nat)
    requires forall a, b :: 0 <= a < b < |rows| ==> rows[a].t > rows[b].t
    requires SortedBy(T, r) && NoDup(r) && i < j < |r| && r[i] in rows && r[j] in rows
    ensures T(r[i]) < T(r[j])
  {
    DistinctTimes(rows, r[i], r[j]);
    assert T(r[i]) <= T(r[j]);
  }

  lemma SortStrict(rows: seq<Point>)
    requires forall i, j :: 0 <= i < j < |rows| ==> rows[i].t > rows[j].t
    ensures StrictlySortedBy(T, Sort(T, rows))
  {
    var r := Sort(T, rows);
    SortNoDup(T, rows);
    SortMembers(T, rows);
    forall i, j | 0 <= i < j < |r| ensures T(r[i]) < T(r[j]) {
      assert r[i] in r && r[j] in r;
      StrictPair(rows, r, i, j);
    }
  }

  // ---- Coverage over runs ----

  /** Some surviving row is no older than `s` and shares its bucket at the width of the tier `s` is in now. */
  ghost predicate Covered(s: Point, rows: seq<Point>, now: int) {
    exists k :: k in rows && k.t >= s.t && k.t / Width(Tier(s.t, now)) == s.t / Width(Tier(s.t, now))
  }

  ghost predicate CoverageInv(rows: seq<Point>, everRecorded: seq<Point>, now: int) {
    && (forall k :: k in rows ==> k.t <= now)
    && (forall s :: s in everRecorded ==> s.t <= now)
    && (forall s :: s in everRecorded && now - s.t <= 365 * DAY ==> Covered(s, rows, now))
  }

  /** A row that shared a bucket with `s` still does after both have aged. */
  lemma CoverAges(s: Point, k: Point, now: int, later: int)
    requires s.t <= now <= later && s.t <= k.t && later - s.t <= 365 * DAY
    requires k.t / Width(Tier(s.t, now)) == s.t / Width(Tier(s.t, now))
    ensures k.t / Width(Tier(s.t, later)) == s.t / Width(Tier(s.t, later))
    ensures 0 <= Tier(k.t, later) <= Tier(s.t, later) < 4
  {
    TierTable(s.t, now);
    TierTable(s.t, later);
    TierTable(k.t, later);
    BucketsNest(k.t, s.t, Tier(s.t, now), Tier(s.t, later));
  }

  /** Compacting keeps a cover: the covering row is represented by a row of a tier at least as fine. */
  lemma CompactCovers(h: seq<Point>, s: Point, k: Point, now: int, later: int)
    requires k in h && s.t <= now <= later && s.t <= k.t && later - s.t <= 365 * DAY
    requires k.t / Width(Tier(s.t, now)) == s.t / Width(Tier(s.t, now))
    ensures Covered(s, Compact(h, later), later)
  {
    CoverAges(s, k, now, later);
    var r := CompactRepresents(h, k, later);
    var fine, coarse := Tier(k.t, later), Tier(s.t, later);
    assert Tier(r.t, later) == fine && r.t / Width(fine) == k.t / Width(fine);
    BucketsNest(r.t, k.t, fine, coarse);
  }

  lemma CoverageStep(rows: seq<Point>, everRecorded: seq<Point>, now: int, p: Point)
    requires CoverageInv(rows, everRecorded, now) && now <= p.t
    ensures CoverageInv(Recorded(rows, p), everRecorded + [p], p.t)
  {
    var h := rows + [p];
    var later := p.t;
    CompactSubset(h, later);
    CapNeverCuts(rows, p);
    forall s | s in everRecorded + [p] && later - s.t <= 365 * DAY ensures Covered(s, Compact(h, later), later) {
      if s in everRecorded {
        assert Covered(s, rows, now);
        var k :| k in rows && k.t >= s.t && k.t / Width(Tier(s.t, now)) == s.t / Width(Tier(s.t, now));
        assert k in h;
        CompactCovers(h, s, k, now, later);
      } else {
        assert s in h;
        CompactCovers(h, s, s, later, later);
      }
    }
  }

  /** The history after recording `points` in order, from an empty file. */
  function History(points: seq<Point>): seq<Point> {
    if points == [] then [] else Recorded(History(points[..|points| - 1]), points[|points| - 1])
  }

  /** Main result: after any run of samples with a non-decreasing clock, every sample ever recorded that is at
      most 365 days old is covered by a surviving row, at the bucket width of the tier it is in now. */
  lemma {:induction false} EverySampleIsCovered(points: seq<Point>)
    requires SortedBy(T, points)
    ensures points != [] ==> CoverageInv(History(points), points, points[|points| - 1].t)
  {
    if points != [] {
      var init, p := points[..|points| - 1], points[|points| - 1];
      assert points == init + [p];
      assert forall i, j :: 0 <= i < j < |init| ==> T(points[i]) <= T(points[j]);
      EverySampleIsCovered(init);
      var now := if init == [] then p.t else init[|init| - 1].t;
      assert init != [] ==> T(points[|init| - 1]) <= T(points[|init|]);
      CoverageStep(History(init), init, now, p);
    }
  }

  // ---- Size ----

  /** `n` consecutive buckets of one tier. */
  function BucketRange(tier: int, first: int, n: nat): (r: set<Key>)
    ensures |r| <= n
    ensures forall b :: first <= b < first + n ==> (tier, b) in r
  {
    if n == 0 then {} else BucketRange(tier, first, n - 1) + {(tier, first + n - 1)}
  }

  function Grid(now: int): (r: set<Key>)
    ensures |r| <= 2907
  {
    var r0 := BucketRange(0, now / Width(0) - 1440, 1441);
    var r1 := BucketRange(1, now / Width(1) - 672, 577);
    var r2 := BucketRange(2, now / Width(2) - 720, 553);
    var r3 := BucketRange(3, now / Width(3) - 365, 336);
    assert |r0 + r1| <= 2018 && |r0 + r1 + r2| <= 2571;
    r0 + r1 + r2 + r3
  }

  lemma SlotInGrid(t: int, now: int)
    requires t <= now && Slot(t, now).Some?
    ensures Slot(t, now).value in Grid(now)
  {
    TierTable(t, now);
    assert Width(0) == 60_000_000 && Width(1) == 900_000_000 && Width(2) == 3_600_000_000 && Width(3) == 86_400_000_000;
  }

  /** With no sample from the future, at most 1441 + 577 + 553 + 336 rows survive a compaction. */
  lemma CompactIsSmall(h: seq<Point>, now: int)
    requires forall s :: s in h ==> s.t <= now
    ensures |Compact(h, now)| <= 2907
  {
    var acc := Scan(h, now);
    ScanOk(h, now);
    KeepAllSubset(Slots(now), Kept({}, []), Sort(NegT, h));
    SortMembers(NegT, h);
    forall key | key in acc.seen ensures key in Grid(now) {
      assert Taken(Slots(now), key, acc.rows);
      var k :| k in acc.rows && Slots(now)(k.t) == Some(key);
      SlotInGrid(k.t, now);
    }
    SubsetSize(acc.seen, Grid(now));
  }

  /** So the 50,000-row cap of `sample` never cuts anything. */
  lemma CapNeverCuts(rows: seq<Point>, p: Point)
    requires forall k :: k in rows ==> k.t <= p.t
    ensures Recorded(rows, p) == Compact(rows + [p], p.t)
  {
    CompactIsSmall(rows + [p], p.t);
  }

  // ---- Idempotence and the newest sample ----

  lemma {:induction false} KeepAllKeepsAll(slot: int -> Option<Key>, acc: Kept, rest: seq<Point>)
    requires forall s :: s in rest ==> slot(s.t).Some? && slot(s.t).value !in acc.seen
    requires forall i, j :: 0 <= i < j < |rest| ==> slot(rest[i].t) != slot(rest[j].t)
    ensures KeepAll(slot, acc, rest).rows == acc.rows + rest
    decreases |rest|
  {
    if rest != [] {
      assert rest[0] in rest;
      forall s | s in rest[1..] ensures slot(s.t) != slot(rest[0].t) && s in rest {
        var j :| 0 <= j < |rest[1..]| && rest[1..][j] == s;
        assert rest[j + 1] == s;
      }
      KeepAllKeepsAll(slot, KeepOne(slot, acc, rest[0]), rest[1..]);
    }
  }

  lemma SlotsStayDistinct(rows: seq<Point>, perm: seq<Point>, slot: int -> Option<Key>)
    requires forall i, j :: 0 <= i < j < |rows| ==> slot(rows[i].t) != slot(rows[j].t)
    requires NoDup(perm) && forall x :: x in perm ==> x in rows
    ensures forall i, j :: 0 <= i < j < |perm| ==> slot(perm[i].t) != slot(perm[j].t)
  {
    forall i, j | 0 <= i < j < |perm| ensures slot(perm[i].t) != slot(perm[j].t) {
      assert perm[i] in rows && perm[j] in rows && perm[i] != perm[j];
      var a :| 0 <= a < |rows| && rows[a] == perm[i];
      var b :| 0 <= b < |rows| && rows[b] == perm[j];
      if a < b { assert slot(rows[a].t) != slot(rows[b].t); } else { assert slot(rows[b].t) != slot(rows[a].t); }
    }
  }

  lemma CompactSlots(h: seq<Point>, now: int)
    ensures forall k :: k in Compact(h, now) ==> Slots(now)(k.t).Some?
    ensures var r := Compact(h, now); forall i, j :: 0 <= i < j < |r| ==> Slots(now)(r[i].t) != Slots(now)(r[j].t)
  {
    var rows := Scan(h, now).rows;
    ScanOk(h, now);
    CompactSorted(h, now);
    SortMembers(T, rows);
    SlotsStayDistinct(rows, Compact(h, now), Slots(now));
  }

  lemma ScanKeepsAll(r: seq<Point>, now: int)
    requires StrictlySortedBy(T, r)
    requires forall k :: k in r ==> Slots(now)(k.t).Some?
    requires forall i, j :: 0 <= i < j < |r| ==> Slots(now)(r[i].t) != Slots(now)(r[j].t)
    ensures Scan(r, now).rows == Sort(NegT, r)
  {
    var back := Sort(NegT, r);
    SortMembers(NegT, r);
    SortNoDup(NegT, r);
    SlotsStayDistinct(r, back, Slots(now));
    KeepAllKeepsAll(Slots(now), Kept({}, []), back);
  }

  /** Compacting again at the same instant changes nothing. */
  lemma CompactIsIdempotent(h: seq<Point>, now: int)
    ensures Compact(Compact(h, now), now) == Compact(h, now)
  {
    var r := Compact(h, now);
    CompactSlots(h, now);
    CompactSorted(h, now);
    ScanKeepsAll(r, now);
    CompactSorted(r, now);
    SortMembers(NegT, r);
    SortMembers(T, Sort(NegT, r));
    StrictSortUnique(T, Compact(r, now), r);
  }

  lemma LastIsGreatest(r: seq<Point>, k: Point, t: int)
    requires StrictlySortedBy(T, r) && k in r && k.t >= t && forall x :: x in r ==> x.t <= t
    ensures r[|r| - 1].t == t
  {
    var j :| 0 <= j < |r| && r[j] == k;
    assert r[|r| - 1] in r;
    assert j < |r| - 1 ==> T(r[j]) < T(r[|r| - 1]);
  }

  /** The newest timestamp survives the compaction it is written with, as the last row. */
  lemma NewestSurvives(rows: seq<Point>, p: Point)
    requires forall k :: k in rows ==> k.t <= p.t
    ensures Recorded(rows, p) != [] && Recorded(rows, p)[|Recorded(rows, p)| - 1].t == p.t
  {
    var h := rows + [p];
    CapNeverCuts(rows, p);
    TierTable(p.t, p.t);
    assert p in h;
    var k := CompactRepresents(h, p, p.t);
    CompactSubset(h, p.t);
    CompactSorted(h, p.t);
    LastIsGreatest(Compact(h, p.t), k, p.t);
  }
}
