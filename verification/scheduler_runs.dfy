/** What the scheduler keeps over polls, manual fires and restarts. */
module SchedulerRuns {
  import opened Sequences
  import opened Cron
  import opened Scheduler
  import Text

  // ---- One decision ----

  /** Some minute of the horizon after `minute` is scheduled. */
  ghost predicate HorizonHits(schedule: string, cal: Calendar, minute: int) {
    exists j :: minute < j <= minute + HORIZON && Scheduled(schedule, cal, j)
  }

  /** Some scheduled minute after the pivot's has begun by `now`. */
  ghost predicate Owed(schedule: string, cal: Calendar, pivot: int, now: int) {
    exists j :: MinuteOf(pivot) < j <= MinuteOf(now) && Scheduled(schedule, cal, j)
  }

  /** The scheduler serves the first scheduled minute of the horizon, once it has begun. */
  lemma DecideIff(pivot: int, schedule: string, cal: Calendar, now: int, n: int)
    ensures Decide(pivot, schedule, cal, now) == Fires(n)
      <==> IsFirst(Text.Strip(schedule), cal, MinuteOf(pivot), HORIZON, n) && n * MINUTE <= now
  {
    NextFireIsLeast(Text.Strip(schedule), cal, MinuteOf(pivot), n);
  }

  lemma OwedFires(pivot: int, schedule: string, cal: Calendar, now: int, j: int)
    requires MinuteOf(pivot) < j <= MinuteOf(pivot) + HORIZON && j <= MinuteOf(now)
    requires Scheduled(Text.Strip(schedule), cal, j)
    ensures Decide(pivot, schedule, cal, now).Fires?
  {
    var k := FirstExists(Text.Strip(schedule), cal, MinuteOf(pivot), HORIZON, j);
    DecideIff(pivot, schedule, cal, now, k);
  }

  lemma FireWasOwed(pivot: int, schedule: string, cal: Calendar, now: int)
    requires Decide(pivot, schedule, cal, now).Fires?
    ensures var j := Decide(pivot, schedule, cal, now).slot;
      && MinuteOf(pivot) < j <= MinuteOf(pivot) + HORIZON && j <= MinuteOf(now)
      && Scheduled(Text.Strip(schedule), cal, j)
  {
    DecideIff(pivot, schedule, cal, now, Decide(pivot, schedule, cal, now).slot);
  }

  /** A poll fires a routine exactly when one is owed within the horizon of the pivot. */
  lemma FiresIffOwed(pivot: int, schedule: string, cal: Calendar, now: int)
    ensures Decide(pivot, schedule, cal, now).Fires? <==> exists j ::
      MinuteOf(pivot) < j <= MinuteOf(pivot) + HORIZON && j <= MinuteOf(now) && Scheduled(Text.Strip(schedule), cal, j)
  {
    if Decide(pivot, schedule, cal, now).Fires? {
      FireWasOwed(pivot, schedule, cal, now);
    }
    var sched := Text.Strip(schedule);
    if j :| MinuteOf(pivot) < j <= MinuteOf(pivot) + HORIZON && j <= MinuteOf(now) && Scheduled(sched, cal, j) {
      OwedFires(pivot, schedule, cal, now, j);
    }
  }

  lemma OwedWithin(sched: string, cal: Calendar, pivot: int, now: int)
    requires Owed(sched, cal, pivot, now) && HorizonHits(sched, cal, MinuteOf(pivot))
    ensures exists j ::
      MinuteOf(pivot) < j <= MinuteOf(pivot) + HORIZON && j <= MinuteOf(now) && Scheduled(sched, cal, j)
  {
    var j :| MinuteOf(pivot) < j <= MinuteOf(now) && Scheduled(sched, cal, j);
    var k :| MinuteOf(pivot) < k <= MinuteOf(pivot) + HORIZON && Scheduled(sched, cal, k);
    var least := if k <= MinuteOf(now) then k else j;
    assert MinuteOf(pivot) < least <= MinuteOf(pivot) + HORIZON && least <= MinuteOf(now);
  }

  /** One poll of one routine whose fire succeeds: afterwards something begun is still unserved exactly when
      something was and the horizon of the old pivot holds no scheduled minute. One fire absorbs the rest. */
  lemma LeftBehindIff(p: Pass, boot: int, cal: Calendar, e: Entry, receipt: Option<int>, now: int)
    requires !p.broken && boot <= now
    ensures var p' := CheckOne(p, boot, cal, e, Succeeds(receipt), now);
      var sched := Text.Strip(e.schedule);
      Owed(sched, cal, Pivot(p'.last, boot, e.rid), now)
      <==> (Owed(sched, cal, Pivot(p.last, boot, e.rid), now)
            && !HorizonHits(sched, cal, MinuteOf(Pivot(p.last, boot, e.rid))))
  {
    var p' := CheckOne(p, boot, cal, e, Succeeds(receipt), now);
    var sched, pivot := Text.Strip(e.schedule), Pivot(p.last, boot, e.rid);
    FiresIffOwed(pivot, e.schedule, cal, now);
    if Owed(sched, cal, pivot, now) && HorizonHits(sched, cal, MinuteOf(pivot)) {
      OwedWithin(sched, cal, pivot, now);
    }
    if Decide(pivot, e.schedule, cal, now).Fires? {
      assert Pivot(p'.last, boot, e.rid) == now;
      assert HorizonHits(sched, cal, MinuteOf(pivot));
    } else {
      assert p'.last == p.last;
    }
  }

  lemma GraceMinute(boot: int)
    ensures MinuteOf(boot - GRACE) + 1 == MinuteOf(boot) && MinuteOf(boot) * MINUTE <= boot
  {
  }

  /** Without a known fire the first minute a process can serve is the one it booted in, and it serves that one if
      scheduled. */
  lemma BootGrace(boot: int, schedule: string, cal: Calendar, now: int)
    requires boot <= now
    ensures var d := Decide(boot - GRACE, schedule, cal, now);
      && (d.Fires? ==> d.slot >= MinuteOf(boot))
      && (d == Fires(MinuteOf(boot)) <==> Scheduled(Text.Strip(schedule), cal, MinuteOf(boot)))
  {
    GraceMinute(boot);
    if Decide(boot - GRACE, schedule, cal, now).Fires? { FireWasOwed(boot - GRACE, schedule, cal, now); }
    DecideIff(boot - GRACE, schedule, cal, now, MinuteOf(boot));
  }

  /** A process that knows of no fire serves an already served minute again exactly when it booted within it. */
  lemma ServedAgainIff(slot: int, at: int, boot: int, schedule: string, cal: Calendar, now: int)
    requires slot * MINUTE <= at <= boot <= now && Scheduled(Text.Strip(schedule), cal, slot)
    ensures Decide(boot - GRACE, schedule, cal, now) == Fires(slot) <==> MinuteOf(boot) == slot
  {
    BootGrace(boot, schedule, cal, now);
    assert slot <= MinuteOf(boot);
  }

  // ---- Runs ----

  datatype State = State(last: map<string, int>, boot: int, receipts: seq<Receipt>, fires: seq<Fire>, clock: int)

  datatype Step =
    | Poll(now: int, specs: seq<Entry>, replies: seq<Reply>)
    | Manual(kind: Kind, rid: string, ts: int)
    | Restart(now: int, ticksAnswered: bool, firesAnswered: bool)

  /** Clocks do not run backwards and a tick's lake timestamp is not before the fire's clock reading. */
  ghost predicate StepOk(s: State, step: Step) {
    match step
    case Poll(now, specs, replies) =>
      && now >= s.clock && |specs| == |replies|
      && (forall i :: 0 <= i < |specs| ==> specs[i].rid != "")
      && (forall i :: 0 <= i < |replies| && replies[i].Succeeds? && replies[i].receipt.Some? ==>
           replies[i].receipt.value >= now)
    case Manual(_, _, _) => true
    case Restart(now, _, _) => now >= s.clock
  }

  /** Every fire's receipt is written and every restart can read the tick receipts. */
  ghost predicate Faithful(step: Step) {
    match step
    case Poll(_, _, replies) => forall i :: 0 <= i < |replies| && replies[i].Succeeds? ==> replies[i].receipt.Some?
    case Manual(_, _, _) => true
    case Restart(_, ticksAnswered, _) => ticksAnswered
  }

  function OfKind(kind: Kind): Receipt -> bool { (r: Receipt) => r.kind == kind }

  function Query(kind: Kind, receipts: seq<Receipt>, answered: bool): Option<seq<Receipt>> {
    if answered then Some(Reverse(Filter(OfKind(kind), receipts))) else None
  }

  function Hydrated(receipts: seq<Receipt>, ticksAnswered: bool, firesAnswered: bool): map<string, int> {
    RaiseAll(map[], Answered(Query(RoutineTick, receipts, ticksAnswered), Query(RoutineFire, receipts, firesAnswered)))
  }

  function After(s: State, step: Step, cal: Calendar): State
    requires step.Poll? ==> |step.specs| == |step.replies|
  {
    match step
    case Poll(now, specs, replies) =>
      var p := CheckAll(NewPass(s.last), s.boot, cal, specs, replies, now);
      State(p.last, s.boot, s.receipts + p.receipts, s.fires + p.fires, now)
    case Manual(kind, rid, ts) => s.(receipts := s.receipts + [Receipt(kind, rid, ts)])
    case Restart(now, ticksAnswered, firesAnswered) =>
      State(Hydrated(s.receipts, ticksAnswered, firesAnswered), now, s.receipts, s.fires, now)
  }

  /** A fresh process table hydrates to exactly what `Hydrate` leaves in it. */
  lemma FreshHydrate(merged: map<string, int>, receipts: seq<Receipt>)
    requires MergedBut(merged, map[], RaiseAll(map[], receipts), {})
    ensures merged == RaiseAll(map[], receipts)
  {
    RaisedPositive(map[], receipts);
    forall rid ensures Entered(merged, rid) == Entered(RaiseAll(map[], receipts), rid) {}
    assert forall rid :: rid in merged <==> Entered(merged, rid).Some?;
    assert forall rid :: rid in RaiseAll(map[], receipts) <==> Entered(RaiseAll(map[], receipts), rid).Some?;
  }

  lemma {:induction false} RaisedPositive(seen: map<string, int>, receipts: seq<Receipt>)
    requires forall rid :: rid in seen ==> seen[rid] > 0
    ensures forall rid :: rid in RaiseAll(seen, receipts) ==> RaiseAll(seen, receipts)[rid] > 0
    decreases |receipts|
  {
    if receipts != [] { RaisedPositive(RaiseOne(seen, receipts[0]), receipts[1..]); }
  }

  /** A new process is in the state a restart step leads to. */
  method Reboot(s: State, now: int, ticksAnswered: bool, firesAnswered: bool, cal: Calendar)
    returns (scheduler: RoutineScheduler)
    ensures fresh(scheduler)
    ensures var n := After(s, Restart(now, ticksAnswered, firesAnswered), cal);
      scheduler.bootTime == n.boot && scheduler.lastFireAt == n.last
  {
    scheduler := new RoutineScheduler(now);
    var ticks := Query(RoutineTick, s.receipts, ticksAnswered);
    var fires := Query(RoutineFire, s.receipts, firesAnswered);
    scheduler.Hydrate(ticks, fires);
    FreshHydrate(scheduler.lastFireAt, Answered(ticks, fires));
  }

  // ---- The invariant ----

  ghost predicate HasReceipt(receipts: seq<Receipt>, rid: string, at: int) {
    exists r :: r in receipts && r.kind == RoutineTick && r.rid == rid && r.ts >= at
  }

  /** The pivot has moved to the minute of the fire or later, and a receipt says so. */
  ghost predicate Settled(last: map<string, int>, boot: int, receipts: seq<Receipt>, now: int, f: Fire) {
    && f.rid != "" && 0 <= f.at <= now && f.slot <= MinuteOf(f.at)
    && MinuteOf(f.at) <= MinuteOf(Pivot(last, boot, f.rid))
    && HasReceipt(receipts, f.rid, f.at)
  }

  ghost predicate Ordered(fires: seq<Fire>) {
    forall i, j :: 0 <= i < j < |fires| && fires[i].rid == fires[j].rid ==> MinuteOf(fires[i].at) < fires[j].slot
  }

  ghost predicate Inv(last: map<string, int>, boot: int, receipts: seq<Receipt>, fires: seq<Fire>, now: int) {
    now >= 0 && Ordered(fires) && forall f :: f in fires ==> Settled(last, boot, receipts, now, f)
  }

  lemma TruncationKeepsMinute(t: int)
    requires t >= 0
    ensures MinuteOf(WholeSeconds(t)) == MinuteOf(t)
  {
    var s := t / SECOND;
    assert s / 60 == MinuteOf(t);
    assert (s * SECOND) / MINUTE == s / 60;
  }

  lemma {:induction false} RaisedAtLeast(seen: map<string, int>, receipts: seq<Receipt>, rid: string)
    ensures LastFire(RaiseAll(seen, receipts), rid) >= LastFire(seen, rid)
    ensures forall r :: r in receipts && r.rid == rid && rid != "" ==>
      LastFire(RaiseAll(seen, receipts), rid) >= WholeSeconds(r.ts)
    decreases |receipts|
  {
    if receipts != [] {
      RaisedAtLeast(RaiseOne(seen, receipts[0]), receipts[1..], rid);
      forall r | r in receipts && r.rid == rid && rid != ""
        ensures LastFire(RaiseAll(seen, receipts), rid) >= WholeSeconds(r.ts)
      {
        assert r == receipts[0] || r in receipts[1..];
      }
    }
  }

  lemma TickHydrates(receipts: seq<Receipt>, firesAnswered: bool, r: Receipt)
    requires r in receipts && r.kind == RoutineTick && r.rid != ""
    ensures LastFire(Hydrated(receipts, true, firesAnswered), r.rid) >= WholeSeconds(r.ts)
  {
    var ticks, others := Query(RoutineTick, receipts, true), Query(RoutineFire, receipts, firesAnswered);
    assert r in Filter(OfKind(RoutineTick), receipts);
    assert r in ticks.value;
    assert r in Answered(ticks, others);
    RaisedAtLeast(map[], Answered(ticks, others), r.rid);
  }

  lemma MinuteMonotone(a: int, b: int)
    requires a <= b
    ensures MinuteOf(a) <= MinuteOf(b)
  {
  }

  lemma HydratedMinute(last: map<string, int>, boot: int, rid: string, at: int, ts: int)
    requires 0 <= at <= ts && LastFire(last, rid) >= WholeSeconds(ts)
    ensures MinuteOf(at) <= MinuteOf(Pivot(last, boot, rid))
  {
    TruncationKeepsMinute(ts);
    MinuteMonotone(at, ts);
    MinuteMonotone(WholeSeconds(ts), Pivot(last, boot, rid));
  }

  lemma RestartKeepsInv(s: State, now: int, firesAnswered: bool)
    requires Inv(s.last, s.boot, s.receipts, s.fires, s.clock) && now >= s.clock
    ensures Inv(Hydrated(s.receipts, true, firesAnswered), now, s.receipts, s.fires, now)
  {
    var last := Hydrated(s.receipts, true, firesAnswered);
    forall f | f in s.fires ensures Settled(last, now, s.receipts, now, f) {
      assert Settled(s.last, s.boot, s.receipts, s.clock, f);
      var r :| r in s.receipts && r.kind == RoutineTick && r.rid == f.rid && r.ts >= f.at;
      TickHydrates(s.receipts, firesAnswered, r);
      HydratedMinute(last, now, f.rid, f.at, r.ts);
    }
  }

  lemma SettledStays(last: map<string, int>, boot: int, receipts: seq<Receipt>, now: int, f: Fire,
                     last': map<string, int>, receipts': seq<Receipt>, now': int)
    requires Settled(last, boot, receipts, now, f) && now <= now'
    requires Pivot(last, boot, f.rid) <= Pivot(last', boot, f.rid) || now <= Pivot(last', boot, f.rid)
    requires forall r :: r in receipts ==> r in receipts'
    ensures Settled(last', boot, receipts', now', f)
  {
    var r :| r in receipts && r.kind == RoutineTick && r.rid == f.rid && r.ts >= f.at;
    assert r in receipts';
  }

  lemma CheckOneKeepsInv(s: State, p: Pass, cal: Calendar, e: Entry, reply: Reply, now: int)
    requires Inv(p.last, s.boot, s.receipts + p.receipts, s.fires + p.fires, now)
    requires e.rid != "" && (reply.Succeeds? ==> reply.receipt.Some? && reply.receipt.value >= now)
    ensures var p' := CheckOne(p, s.boot, cal, e, reply, now);
      Inv(p'.last, s.boot, s.receipts + p'.receipts, s.fires + p'.fires, now)
  {
    var pivot := Pivot(p.last, s.boot, e.rid);
    var d := Decide(pivot, e.schedule, cal, now);
    if !p.broken && d.Fires? && reply.Succeeds? {
      FireWasOwed(pivot, e.schedule, cal, now);
      var r, f := Receipt(RoutineTick, e.rid, reply.receipt.value), Fire(e.rid, d.slot, now);
      FireKeepsInv(p.last, s.boot, s.receipts + p.receipts, s.fires + p.fires, now, f, r);
      assert s.fires + (p.fires + [f]) == s.fires + p.fires + [f];
      assert s.receipts + (p.receipts + [r]) == s.receipts + p.receipts + [r];
    }
  }

  lemma FireKeepsInv(last: map<string, int>, boot: int, receipts: seq<Receipt>, fires: seq<Fire>, now: int, f: Fire,
                     r: Receipt)
    requires Inv(last, boot, receipts, fires, now)
    requires f.rid != "" && f.at == now && MinuteOf(Pivot(last, boot, f.rid)) < f.slot <= MinuteOf(now)
    requires r.kind == RoutineTick && r.rid == f.rid && r.ts >= now
    ensures Inv(last[f.rid := now], boot, receipts + [r], fires + [f], now)
  {
    forall g | g in fires ensures Settled(last[f.rid := now], boot, receipts + [r], now, g) {
      SettledStays(last, boot, receipts, now, g, last[f.rid := now], receipts + [r], now);
    }
    assert r in receipts + [r];
    MinuteMonotone(now, Pivot(last[f.rid := now], boot, f.rid));
    assert Settled(last[f.rid := now], boot, receipts + [r], now, f);
    OrderedAppend(last, boot, receipts, fires, now, f);
  }

  lemma OrderedAppend(last: map<string, int>, boot: int, receipts: seq<Receipt>, fires: seq<Fire>, now: int, f: Fire)
    requires Inv(last, boot, receipts, fires, now) && MinuteOf(Pivot(last, boot, f.rid)) < f.slot
    ensures Ordered(fires + [f])
  {
    forall i, j | 0 <= i < j < |fires + [f]| && (fires + [f])[i].rid == (fires + [f])[j].rid
      ensures MinuteOf((fires + [f])[i].at) < (fires + [f])[j].slot
    {
      if j == |fires| { assert fires[i] in fires; }
    }
  }

  lemma {:induction false} CheckAllKeepsInv(s: State, p: Pass, cal: Calendar, specs: seq<Entry>, replies: seq<Reply>,
                                            now: int)
    requires Inv(p.last, s.boot, s.receipts + p.receipts, s.fires + p.fires, now)
    requires |specs| == |replies| && forall i :: 0 <= i < |specs| ==> specs[i].rid != ""
    requires forall i :: 0 <= i < |replies| && replies[i].Succeeds? ==>
      replies[i].receipt.Some? && replies[i].receipt.value >= now
    ensures var p' := CheckAll(p, s.boot, cal, specs, replies, now);
      Inv(p'.last, s.boot, s.receipts + p'.receipts, s.fires + p'.fires, now)
    decreases |specs|
  {
    if specs != [] {
      CheckOneKeepsInv(s, p, cal, specs[0], replies[0], now);
      CheckAllKeepsInv(s, CheckOne(p, s.boot, cal, specs[0], replies[0], now), cal, specs[1..], replies[1..], now);
    }
  }

  ghost predicate StateInv(s: State) { Inv(s.last, s.boot, s.receipts, s.fires, s.clock) }

  lemma StepKeepsInv(s: State, step: Step, cal: Calendar)
    requires StateInv(s) && StepOk(s, step) && Faithful(step)
    ensures StateInv(After(s, step, cal))
  {
    match step
    case Poll(now, specs, replies) =>
      forall f | f in s.fires ensures Settled(s.last, s.boot, s.receipts, now, f) {
        SettledStays(s.last, s.boot, s.receipts, s.clock, f, s.last, s.receipts, now);
      }
      assert s.receipts + [] == s.receipts && s.fires + [] == s.fires;
      CheckAllKeepsInv(s, NewPass(s.last), cal, specs, replies, now);
    case Manual(kind, rid, ts) =>
      var s' := After(s, step, cal);
      forall f | f in s.fires ensures Settled(s.last, s.boot, s'.receipts, s.clock, f) {
        SettledStays(s.last, s.boot, s.receipts, s.clock, f, s.last, s'.receipts, s.clock);
      }
    case Restart(now, _, firesAnswered) => RestartKeepsInv(s, now, firesAnswered);
  }

  /** `s` is reached from a first boot with no fire on record, whatever receipts are lost on the way. */
  ghost predicate AnyRun(steps: seq<Step>, boot: int, cal: Calendar, s: State)
    decreases |steps|
  {
    if steps == [] then boot >= 0 && s == State(map[], boot, [], [], boot)
    else exists before :: RunStep(steps, boot, cal, before, s)
  }

  ghost predicate RunStep(steps: seq<Step>, boot: int, cal: Calendar, before: State, s: State)
    requires steps != []
    decreases |steps|, 0
  {
    var step := steps[|steps| - 1];
    AnyRun(steps[..|steps| - 1], boot, cal, before) && StepOk(before, step) && s == After(before, step, cal)
  }

  /** A run in which no receipt is lost. */
  ghost predicate Run(steps: seq<Step>, boot: int, cal: Calendar, s: State) {
    AnyRun(steps, boot, cal, s) && forall step :: step in steps ==> Faithful(step)
  }

  lemma {:induction false} RunKeepsInv(steps: seq<Step>, boot: int, cal: Calendar, s: State)
    requires Run(steps, boot, cal, s)
    ensures StateInv(s)
    decreases |steps|
  {
    if steps != [] {
      assert AnyRun(steps, boot, cal, s);
      var before :| RunStep(steps, boot, cal, before, s);
      assert steps[|steps| - 1] in steps;
      RunKeepsInv(steps[..|steps| - 1], boot, cal, before);
      StepKeepsInv(before, steps[|steps| - 1], cal);
    }
  }

  /** No minute is served twice, across any number of restarts: the minutes served for one routine strictly increase. */
  lemma SlotsServedOnce(steps: seq<Step>, boot: int, cal: Calendar, s: State, i: nat, j: nat)
    requires Run(steps, boot, cal, s)
    requires i < j < |s.fires| && s.fires[i].rid == s.fires[j].rid
    ensures s.fires[i].slot < s.fires[j].slot
    ensures MinuteOf(s.fires[i].at) < s.fires[j].slot
  {
    RunKeepsInv(steps, boot, cal, s);
    assert s.fires[i] in s.fires;
    assert Settled(s.last, s.boot, s.receipts, s.clock, s.fires[i]);
  }

  // ---- When receipts are lost ----

  /** The pivot has moved to the minute of the fire or later, or the process booted within that minute. */
  ghost predicate Recalled(last: map<string, int>, boot: int, now: int, f: Fire) {
    && f.at <= now && f.slot <= MinuteOf(f.at)
    && (MinuteOf(f.at) <= MinuteOf(Pivot(last, boot, f.rid)) || MinuteOf(boot) == MinuteOf(f.at))
  }

  ghost predicate LossyInv(last: map<string, int>, boot: int, fires: seq<Fire>, now: int) {
    boot <= now && forall f :: f in fires ==> Recalled(last, boot, now, f)
  }

  lemma CheckOneRecalls(fires: seq<Fire>, p: Pass, boot: int, cal: Calendar, e: Entry, reply: Reply, now: int)
    requires LossyInv(p.last, boot, fires + p.fires, now)
    ensures var p' := CheckOne(p, boot, cal, e, reply, now);
      LossyInv(p'.last, boot, fires + p'.fires, now)
  {
    var pivot := Pivot(p.last, boot, e.rid);
    var p' := CheckOne(p, boot, cal, e, reply, now);
    if Decide(pivot, e.schedule, cal, now).Fires? { FireWasOwed(pivot, e.schedule, cal, now); }
    forall f | f in fires + p'.fires ensures Recalled(p'.last, boot, now, f) {
      if f in fires + p.fires {
        assert Recalled(p.last, boot, now, f);
        MinuteMonotone(f.at, now);
      }
    }
  }

  lemma {:induction false} CheckAllRecalls(fires: seq<Fire>, p: Pass, boot: int, cal: Calendar, specs: seq<Entry>,
                                           replies: seq<Reply>, now: int)
    requires |specs| == |replies| && LossyInv(p.last, boot, fires + p.fires, now)
    ensures var p' := CheckAll(p, boot, cal, specs, replies, now);
      LossyInv(p'.last, boot, fires + p'.fires, now)
    decreases |specs|
  {
    if specs != [] {
      CheckOneRecalls(fires, p, boot, cal, specs[0], replies[0], now);
      var p1 := CheckOne(p, boot, cal, specs[0], replies[0], now);
      CheckAllRecalls(fires, p1, boot, cal, specs[1..], replies[1..], now);
    }
  }

  lemma StepRecalls(s: State, step: Step, cal: Calendar)
    requires LossyInv(s.last, s.boot, s.fires, s.clock) && StepOk(s, step)
    ensures var n := After(s, step, cal);
      LossyInv(n.last, n.boot, n.fires, n.clock)
  {
    match step
    case Poll(now, specs, replies) =>
      assert s.fires + [] == s.fires;
      CheckAllRecalls(s.fires, NewPass(s.last), s.boot, cal, specs, replies, now);
    case Manual(_, _, _) =>
    case Restart(now, _, _) =>
      var n := After(s, step, cal);
      forall f | f in s.fires ensures Recalled(n.last, now, now, f) {
        GraceMinute(now);
        MinuteMonotone(f.at, now);
        MinuteMonotone(now - GRACE, Pivot(n.last, now, f.rid));
      }
  }

  lemma {:induction false} RunRecalls(steps: seq<Step>, boot: int, cal: Calendar, s: State)
    requires AnyRun(steps, boot, cal, s)
    ensures LossyInv(s.last, s.boot, s.fires, s.clock)
    decreases |steps|
  {
    if steps != [] {
      var before :| RunStep(steps, boot, cal, before, s);
      RunRecalls(steps[..|steps| - 1], boot, cal, before);
      StepRecalls(before, steps[|steps| - 1], cal);
    }
  }

  /** Over every run, whatever receipts are lost or unreadable, a minute already served is served again exactly by a
      process that booted within it and knows of no fire in it or later. */
  lemma ServedTwiceIff(steps: seq<Step>, boot: int, cal: Calendar, s: State, f: Fire, schedule: string, now: int)
    requires AnyRun(steps, boot, cal, s) && f in s.fires && s.clock <= now
    requires Scheduled(Text.Strip(schedule), cal, f.slot)
    ensures Decide(Pivot(s.last, s.boot, f.rid), schedule, cal, now) == Fires(f.slot)
      <==> MinuteOf(s.boot) == f.slot && MinuteOf(LastFire(s.last, f.rid)) < f.slot
  {
    RunRecalls(steps, boot, cal, s);
    assert Recalled(s.last, s.boot, s.clock, f);
    PivotMinute(s.last, s.boot, f.rid);
    DecideIff(Pivot(s.last, s.boot, f.rid), schedule, cal, now, f.slot);
    GraceMinute(s.boot);
  }

  lemma PivotMinute(last: map<string, int>, boot: int, rid: string)
    ensures MinuteOf(Pivot(last, boot, rid)) >= MinuteOf(boot) - 1
    ensures MinuteOf(Pivot(last, boot, rid)) >= MinuteOf(LastFire(last, rid))
    ensures MinuteOf(Pivot(last, boot, rid)) == MinuteOf(boot) - 1
      || MinuteOf(Pivot(last, boot, rid)) == MinuteOf(LastFire(last, rid))
  {
    GraceMinute(boot);
    var pivot := Pivot(last, boot, rid);
    MinuteMonotone(boot - GRACE, pivot);
    MinuteMonotone(LastFire(last, rid), pivot);
  }
}
