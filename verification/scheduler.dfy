/** The routine scheduler: pivots, the boot grace, hydration from receipts, and one polling pass. Times are
    microseconds. */
module Scheduler {
  import opened Sequences
  import opened Cron
  import Text

  const SECOND := 1_000_000
  const MINUTE := 60 * SECOND
  const GRACE := 60 * SECOND

  /** An enabled, live routine, its schedule, and whether its first fire is also its last. */
  datatype Entry = Entry(rid: string, schedule: string, singleFire: bool)

  datatype Kind = RoutineTick | RoutineFire

  /** A lake row recording that a routine fired. */
  datatype Receipt = Receipt(kind: Kind, rid: string, ts: int)

  /** How one fire goes: it fails, or it happens and its receipt lands at a lake timestamp, or is lost. */
  datatype Reply = Fails | Succeeds(receipt: Option<int>)

  /** Routine `rid` served the minute `slot` when the clock read `at`. */
  datatype Fire = Fire(rid: string, slot: int, at: int)

  function MinuteOf(t: int): int { t / MINUTE }

  /** `int(...)` of a timestamp in seconds. */
  function WholeSeconds(t: int): int {
    if t >= 0 then t / SECOND * SECOND else 0 - (0 - t) / SECOND * SECOND
  }

  function LastFire(last: map<string, int>, rid: string): int { if rid in last then last[rid] else 0 }

  function Pivot(last: map<string, int>, boot: int, rid: string): int {
    if LastFire(last, rid) > boot - GRACE then LastFire(last, rid) else boot - GRACE
  }

  // ---- Hydration ----

  function RaiseOne(seen: map<string, int>, r: Receipt): map<string, int> {
    if r.rid != "" && WholeSeconds(r.ts) > LastFire(seen, r.rid) then seen[r.rid := WholeSeconds(r.ts)] else seen
  }

  /** The latest whole-second timestamp per routine among the receipts, if later than what `seen` has. */
  function RaiseAll(seen: map<string, int>, receipts: seq<Receipt>): map<string, int>
    decreases |receipts|
  {
    if receipts == [] then seen else RaiseAll(RaiseOne(seen, receipts[0]), receipts[1..])
  }

  function Entered(m: map<string, int>, rid: string): Option<int> { if rid in m then Some(m[rid]) else None }

  /** The later of two last-fire times, where none counts as zero. */
  function LaterOf(known: Option<int>, seen: Option<int>): Option<int> {
    if seen.Some? && seen.value > (if known.Some? then known.value else 0) then seen else known
  }

  /** `merged` is `last` with every later time of `seen` outside `todo`. */
  ghost predicate MergedBut(merged: map<string, int>, last: map<string, int>, seen: map<string, int>,
                            todo: set<string>) {
    forall rid :: Entered(merged, rid)
      == if rid in todo then Entered(last, rid) else LaterOf(Entered(last, rid), Entered(seen, rid))
  }

  /** The receipts the two hydration queries return; a query that fails returns none. */
  function Answered(ticks: Option<seq<Receipt>>, fires: Option<seq<Receipt>>): seq<Receipt> {
    (if ticks.Some? then ticks.value else []) + (if fires.Some? then fires.value else [])
  }

  // ---- One polling pass ----

  datatype Decision = Fires(slot: int) | Waits | Breaks

  function Decide(pivot: int, schedule: string, cal: Calendar, now: int): Decision {
    if Text.Strip(schedule) == "" then Waits
    else
      match NextFire(Text.Strip(schedule), cal, MinuteOf(pivot))
      case At(n) => if n * MINUTE > now then Waits else Fires(n)
      case Never => Waits
      case Raised => Breaks
  }

  /** What a pass does: the new last-fire table, the fires, their receipts, the routines it then asks to delete, and
      whether an error cut it short. */
  datatype Pass = Pass(last: map<string, int>, fires: seq<Fire>, receipts: seq<Receipt>, retired: seq<string>,
                       broken: bool)

  function NewPass(last: map<string, int>): Pass { Pass(last, [], [], [], false) }

  /** One routine of a pass. */
  function CheckOne(p: Pass, boot: int, cal: Calendar, e: Entry, reply: Reply, now: int): Pass {
    if p.broken then p
    else
      match Decide(Pivot(p.last, boot, e.rid), e.schedule, cal, now)
      case Waits => p
      case Breaks => p.(broken := true)
      case Fires(slot) =>
        match reply
        case Fails => p
        case Succeeds(receipt) =>
          Pass(p.last[e.rid := now], p.fires + [Fire(e.rid, slot, now)],
               if receipt.Some? then p.receipts + [Receipt(RoutineTick, e.rid, receipt.value)] else p.receipts,
               if e.singleFire then p.retired + [e.rid] else p.retired, false)
  }

  function CheckAll(p: Pass, boot: int, cal: Calendar, specs: seq<Entry>, replies: seq<Reply>, now: int): Pass
    requires |specs| == |replies|
    decreases |specs|
  {
    if specs == [] then p
    else CheckAll(CheckOne(p, boot, cal, specs[0], replies[0], now), boot, cal, specs[1..], replies[1..], now)
  }

  lemma {:induction false} BrokenStays(p: Pass, boot: int, cal: Calendar, specs: seq<Entry>, replies: seq<Reply>,
                                       now: int)
    requires |specs| == |replies| && p.broken
    ensures CheckAll(p, boot, cal, specs, replies, now) == p
    decreases |specs|
  {
    if specs != [] { BrokenStays(p, boot, cal, specs[1..], replies[1..], now); }
  }

  class RoutineScheduler {
    var bootTime: int
    var lastFireAt: map<string, int>

    constructor (now: int)
      ensures bootTime == now && lastFireAt == map[]
    {
      bootTime, lastFireAt := now, map[];
    }

    function PivotFor(rid: string): (pivot: int)
      reads this
      ensures pivot >= bootTime - GRACE && pivot >= LastFire(lastFireAt, rid)
      ensures pivot == Pivot(lastFireAt, bootTime, rid)
    {
      var last := LastFire(lastFireAt, rid);
      if last > bootTime - GRACE then last else bootTime - GRACE
    }

    /** Raises the per-routine latest of `seen` by one query's rows. */
    static method Scan(before: map<string, int>, receipts: seq<Receipt>) returns (seen: map<string, int>)
      ensures seen == RaiseAll(before, receipts)
    {
      seen := before;
      for i := 0 to |receipts|
        invariant RaiseAll(seen, receipts[i..]) == RaiseAll(before, receipts)
      {
        assert receipts[i..][1..] == receipts[i + 1..];
        var r := receipts[i];
        if r.rid == "" {
          continue;
        }
        var ts := WholeSeconds(r.ts);
        if ts > LastFire(seen, r.rid) {
          seen := seen[r.rid := ts];
        }
      }
    }

    method Hydrate(ticks: Option<seq<Receipt>>, fires: Option<seq<Receipt>>)
      modifies this
      ensures bootTime == old(bootTime)
      ensures MergedBut(lastFireAt, old(lastFireAt), RaiseAll(map[], Answered(ticks, fires)), {})
    {
      var seen := map[];
      if ticks.Some? {
        seen := Scan(seen, ticks.value);
      }
      if fires.Some? {
        seen := Scan(seen, fires.value);
      }
      RaiseConcat(map[], if ticks.Some? then ticks.value else [], if fires.Some? then fires.value else []);
      lastFireAt := Merge(lastFireAt, seen);
    }

    static method Merge(last: map<string, int>, seen: map<string, int>) returns (merged: map<string, int>)
      ensures MergedBut(merged, last, seen, {})
    {
      merged := last;
      var todo := seen.Keys;
      while todo != {}
        invariant todo <= seen.Keys
        invariant MergedBut(merged, last, seen, todo)
        decreases |todo|
      {
        var rid :| rid in todo;
        todo := todo - {rid};
        assert Entered(merged, rid) == Entered(last, rid);
        if seen[rid] > LastFire(merged, rid) {
          merged := merged[rid := seen[rid]];
        }
      }
    }

    method CheckOnce(specs: seq<Entry>, replies: seq<Reply>, cal: Calendar, now: int)
      returns (fires: seq<Fire>, receipts: seq<Receipt>, retired: seq<string>, broken: bool)
      requires |specs| == |replies|
      modifies this`lastFireAt
      ensures Pass(lastFireAt, fires, receipts, retired, broken)
        == CheckAll(NewPass(old(lastFireAt)), bootTime, cal, specs, replies, now)
    {
      fires, receipts, retired, broken := [], [], [], false;
      for i := 0 to |specs|
        invariant !broken
        invariant CheckAll(Pass(lastFireAt, fires, receipts, retired, false), bootTime, cal, specs[i..], replies[i..],
                           now)
          == CheckAll(NewPass(old(lastFireAt)), bootTime, cal, specs, replies, now)
      {
        assert specs[i..][1..] == specs[i + 1..] && replies[i..][1..] == replies[i + 1..];
        var rid, schedule := specs[i].rid, Text.Strip(specs[i].schedule);
        if schedule == "" {
          continue;
        }
        var nextFire := ParseCronNext(schedule, MinuteOf(PivotFor(rid)), cal);
        if nextFire == Raised {
          broken := true;
          BrokenStays(Pass(lastFireAt, fires, receipts, retired, true), bootTime, cal, specs[i + 1..], replies[i + 1..],
                      now);
          return;
        }
        if nextFire == Never || nextFire.minute * MINUTE > now {
          continue;
        }
        if replies[i].Succeeds? {
          fires := fires + [Fire(rid, nextFire.minute, now)];
          if replies[i].receipt.Some? {
            receipts := receipts + [Receipt(RoutineTick, rid, replies[i].receipt.value)];
          }
          lastFireAt := lastFireAt[rid := now];
          if specs[i].singleFire {
            retired := retired + [rid];
          }
        }
      }
    }
  }

  ghost predicate FiredSingle(fires: seq<Fire>, specs: seq<Entry>, rid: string) {
    (exists f :: f in fires && f.rid == rid) && exists e :: e in specs && e.rid == rid && e.singleFire
  }

  /** Either nothing fired, or `e` did, and is retired if it fires once only. */
  ghost predicate Fired(p: Pass, p': Pass, e: Entry) {
    if |p'.fires| == |p.fires| then p'.fires == p.fires && p'.retired == p.retired
    else
      && |p'.fires| == |p.fires| + 1 && p'.fires == p.fires + [p'.fires[|p.fires|]]
      && p'.fires[|p.fires|].rid == e.rid
      && p'.retired == if e.singleFire then p.retired + [e.rid] else p.retired
  }

  /** Each fire is of one of the routines. */
  ghost predicate FromEntries(fires: seq<Fire>, entries: seq<Entry>) {
    forall f :: f in fires ==> exists d :: d in entries && d.rid == f.rid
  }

  /** Routine ids are distinct. */
  ghost predicate Apart(done: seq<Entry>, specs: seq<Entry>) {
    && (forall i, j :: 0 <= i < j < |specs| ==> specs[i].rid != specs[j].rid)
    && forall d, e :: d in done && e in specs ==> d.rid != e.rid
  }

  lemma ApartTail(done: seq<Entry>, specs: seq<Entry>)
    requires Apart(done, specs) && specs != []
    ensures Apart(done + [specs[0]], specs[1..]) && forall d :: d in done ==> d.rid != specs[0].rid
  {
    HeadIsMember(specs);
    forall d, e | d in done + [specs[0]] && e in specs[1..] ensures d.rid != e.rid {
      var j :| 0 <= j < |specs[1..]| && specs[1..][j] == e;
      assert specs[j + 1] == e && (d in done || d == specs[0]);
    }
  }

  lemma RetiresItsOwn(p: Pass, boot: int, cal: Calendar, e: Entry, reply: Reply, now: int)
    ensures Fired(p, CheckOne(p, boot, cal, e, reply, now), e)
  {
  }

  lemma {:induction false} RetiredIff(p: Pass, boot: int, cal: Calendar, done: seq<Entry>, specs: seq<Entry>,
                                      replies: seq<Reply>, now: int, rid: string)
    requires |specs| == |replies| && Apart(done, specs)
    requires FromEntries(p.fires, done)
    requires rid in p.retired <==> FiredSingle(p.fires, done, rid)
    ensures var p' := CheckAll(p, boot, cal, specs, replies, now);
      rid in p'.retired <==> FiredSingle(p'.fires, done + specs, rid)
    decreases |specs|
  {
    if specs == [] {
      assert done + specs == done;
    } else {
      var e := specs[0];
      var p1 := CheckOne(p, boot, cal, e, replies[0], now);
      ApartTail(done, specs);
      RetiresItsOwn(p, boot, cal, e, replies[0], now);
      RetiredOne(p, p1, done, e, rid);
      assert done + [e] + specs[1..] == done + specs;
      RetiredIff(p1, boot, cal, done + [e], specs[1..], replies[1..], now, rid);
    }
  }

  /** A pass over distinct routines asks to delete exactly the single-fire ones that fired in it. */
  lemma PassRetiresIff(last: map<string, int>, boot: int, cal: Calendar, specs: seq<Entry>, replies: seq<Reply>,
                       now: int, rid: string)
    requires |specs| == |replies| && Apart([], specs)
    ensures var p := CheckAll(NewPass(last), boot, cal, specs, replies, now);
      rid in p.retired <==> FiredSingle(p.fires, specs, rid)
  {
    RetiredIff(NewPass(last), boot, cal, [], specs, replies, now, rid);
    assert [] + specs == specs;
  }

  lemma RetiredOne(p: Pass, p1: Pass, done: seq<Entry>, e: Entry, rid: string)
    requires forall d :: d in done ==> d.rid != e.rid
    requires FromEntries(p.fires, done)
    requires rid in p.retired <==> FiredSingle(p.fires, done, rid)
    requires Fired(p, p1, e)
    ensures rid in p1.retired <==> FiredSingle(p1.fires, done + [e], rid)
    ensures FromEntries(p1.fires, done + [e])
  {
    assert e in done + [e];
    forall f | f in p1.fires ensures exists d :: d in done + [e] && d.rid == f.rid {
      if f in p.fires {
        var d :| d in done && d.rid == f.rid;
        assert d in done + [e];
      } else {
        assert f.rid == e.rid;
      }
    }
    if |p1.fires| != |p.fires| {
      var f := p1.fires[|p1.fires| - 1];
      assert f in p1.fires && f.rid == e.rid;
    }
    assert forall d :: d in done + [e] <==> d in done || d == e;
    assert forall f :: f in p.fires ==> f in p1.fires;
  }

  lemma {:induction false} RaiseConcat(seen: map<string, int>, a: seq<Receipt>, b: seq<Receipt>)
    ensures RaiseAll(seen, a + b) == RaiseAll(RaiseAll(seen, a), b)
    decreases |a|
  {
    if a == [] {
      assert a + b == b;
    } else {
      assert (a + b)[1..] == a[1..] + b;
      RaiseConcat(RaiseOne(seen, a[0]), a[1..], b);
    }
  }
}
