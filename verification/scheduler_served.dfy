/** Which scheduled minutes a running process serves: all of them when the schedule is dense enough for the
    search, none at all once the horizon is empty. */
module SchedulerServed {
  import opened Sequences
  import opened Cron
  import opened CronMeaning
  import opened Scheduler
  import opened SchedulerRuns
  import Text

  // ---- Runs of one incarnation ----

  ghost predicate KeepsSchedule(step: Step, rid: string, schedule: string) {
    && !step.Restart? && (step.Poll? ==> |step.specs| == |step.replies|)
    && (step.Poll? ==> forall e :: e in step.specs && e.rid == rid ==> e.schedule == schedule)
  }

  /** Steps of one process in which the routine, wherever it is listed, has the one schedule. */
  ghost predicate Continues(steps: seq<Step>, rid: string, schedule: string) {
    forall step :: step in steps ==> KeepsSchedule(step, rid, schedule)
  }

  ghost function RunFrom(s: State, steps: seq<Step>, cal: Calendar): State
    requires forall step :: step in steps && step.Poll? ==> |step.specs| == |step.replies|
    decreases |steps|
  {
    if steps == [] then s
    else
      HeadIsMember(steps);
      RunFrom(After(s, steps[0], cal), steps[1..], cal)
  }

  /** The fires `s'` has on top of those of `s`. */
  ghost function NewFires(s: State, s': State): seq<Fire> {
    if |s.fires| <= |s'.fires| then s'.fires[|s.fires|..] else []
  }

  ghost predicate Extends(s: State, s': State) {
    |s.fires| <= |s'.fires| && s'.fires[..|s.fires|] == s.fires
  }

  ghost predicate NoneOf(fires: seq<Fire>, rid: string) { forall f :: f in fires ==> f.rid != rid }

  /** Between `s` and `s'` fires were only added, and none of them is of `rid`. */
  ghost predicate Silent(s: State, s': State, rid: string) {
    Extends(s, s') && NoneOf(NewFires(s, s'), rid)
  }

  lemma NewFiresCompose(s: State, t: State, u: State)
    requires Extends(s, t) && Extends(t, u)
    ensures Extends(s, u) && NewFires(s, u) == NewFires(s, t) + NewFires(t, u)
  {
    assert u.fires[..|s.fires|] == u.fires[..|t.fires|][..|s.fires|];
    assert u.fires == t.fires + NewFires(t, u);
  }

  lemma {:induction false} PassGrows(p: Pass, boot: int, cal: Calendar, specs: seq<Entry>, replies: seq<Reply>,
                                     now: int)
    requires |specs| == |replies|
    ensures var p' := CheckAll(p, boot, cal, specs, replies, now);
      |p.fires| <= |p'.fires| && p'.fires[..|p.fires|] == p.fires
    decreases |specs|
  {
    if specs != [] {
      var p1 := CheckOne(p, boot, cal, specs[0], replies[0], now);
      PassGrows(p1, boot, cal, specs[1..], replies[1..], now);
      var p' := CheckAll(p, boot, cal, specs, replies, now);
      assert p'.fires[..|p.fires|] == p'.fires[..|p1.fires|][..|p.fires|];
    }
  }

  lemma StepGrows(s: State, step: Step, cal: Calendar)
    requires step.Poll? ==> |step.specs| == |step.replies|
    ensures Extends(s, After(s, step, cal))
  {
  }

  lemma {:induction false} RunGrows(s: State, steps: seq<Step>, cal: Calendar)
    requires forall step :: step in steps && step.Poll? ==> |step.specs| == |step.replies|
    ensures Extends(s, RunFrom(s, steps, cal))
    decreases |steps|
  {
    if steps != [] {
      HeadIsMember(steps);
      var s1 := After(s, steps[0], cal);
      StepGrows(s, steps[0], cal);
      RunGrows(s1, steps[1..], cal);
      NewFiresCompose(s, s1, RunFrom(s, steps, cal));
    }
  }

  // ---- An empty horizon silences a routine ----

  lemma {:induction false} DeadPass(p: Pass, boot: int, cal: Calendar, specs: seq<Entry>, replies: seq<Reply>,
                                    now: int, rid: string, schedule: string)
    requires |specs| == |replies| && forall e :: e in specs && e.rid == rid ==> e.schedule == schedule
    requires !HorizonHits(Text.Strip(schedule), cal, MinuteOf(Pivot(p.last, boot, rid))) && NoneOf(p.fires, rid)
    ensures var p' := CheckAll(p, boot, cal, specs, replies, now);
      Pivot(p'.last, boot, rid) == Pivot(p.last, boot, rid) && NoneOf(p'.fires, rid)
    decreases |specs|
  {
    if specs != [] {
      HeadIsMember(specs);
      var pivot := Pivot(p.last, boot, specs[0].rid);
      if specs[0].rid == rid {
        FiresIffOwed(pivot, schedule, cal, now);
        assert !Decide(pivot, schedule, cal, now).Fires?;
      }
      var p1 := CheckOne(p, boot, cal, specs[0], replies[0], now);
      DeadPass(p1, boot, cal, specs[1..], replies[1..], now, rid, schedule);
    }
  }

  lemma DeadStep(s: State, step: Step, cal: Calendar, rid: string, schedule: string)
    requires KeepsSchedule(step, rid, schedule)
    requires !HorizonHits(Text.Strip(schedule), cal, MinuteOf(Pivot(s.last, s.boot, rid)))
    ensures var s' := After(s, step, cal);
      Silent(s, s', rid) && s'.boot == s.boot && Pivot(s'.last, s'.boot, rid) == Pivot(s.last, s.boot, rid)
  {
    if step.Poll? {
      var p := NewPass(s.last);
      DeadPass(p, s.boot, cal, step.specs, step.replies, step.now, rid, schedule);
      assert NewFires(s, After(s, step, cal)) == CheckAll(p, s.boot, cal, step.specs, step.replies, step.now).fires;
    }
  }

  /** A routine with no scheduled minute within the horizon of its pivot never fires again until a restart,
      however late it gets. */
  lemma {:induction false} SparseRoutineStops(s: State, steps: seq<Step>, cal: Calendar, rid: string, schedule: string)
    requires Continues(steps, rid, schedule)
    requires !HorizonHits(Text.Strip(schedule), cal, MinuteOf(Pivot(s.last, s.boot, rid)))
    ensures Silent(s, RunFrom(s, steps, cal), rid)
    decreases |steps|
  {
    if steps != [] {
      HeadIsMember(steps);
      var s1 := After(s, steps[0], cal);
      DeadStep(s, steps[0], cal, rid, schedule);
      SparseRoutineStops(s1, steps[1..], cal, rid, schedule);
      NewFiresCompose(s, s1, RunFrom(s, steps, cal));
    }
  }

  /** While the horizon of its pivot holds a scheduled minute, a routine can still be fired by a single poll. */
  lemma HorizonWakes(s: State, cal: Calendar, rid: string, schedule: string) returns (poll: Step)
    requires rid != "" && HorizonHits(Text.Strip(schedule), cal, MinuteOf(Pivot(s.last, s.boot, rid)))
    ensures StepOk(s, poll) && KeepsSchedule(poll, rid, schedule) && !Silent(s, After(s, poll, cal), rid)
  {
    var pivot := Pivot(s.last, s.boot, rid);
    var j :| MinuteOf(pivot) < j <= MinuteOf(pivot) + HORIZON && Scheduled(Text.Strip(schedule), cal, j);
    var now := if j * MINUTE > s.clock then j * MINUTE else s.clock;
    MinuteMonotone(j * MINUTE, now);
    OwedFires(pivot, schedule, cal, now, j);
    var e, reply := Entry(rid, schedule, false), Succeeds(Some(now));
    poll := Poll(now, [e], [reply]);
    PollOne(s, cal, e, reply, now);
    var fires := CheckOne(NewPass(s.last), s.boot, cal, e, reply, now).fires;
    assert fires[0] in fires && fires[0].rid == rid;
  }

  /** A poll that lists one routine does what checking that routine does. */
  lemma PollOne(s: State, cal: Calendar, e: Entry, reply: Reply, now: int)
    ensures NewFires(s, After(s, Poll(now, [e], [reply]), cal))
      == CheckOne(NewPass(s.last), s.boot, cal, e, reply, now).fires
  {
    var p1 := CheckOne(NewPass(s.last), s.boot, cal, e, reply, now);
    assert CheckAll(p1, s.boot, cal, [e][1..], [reply][1..], now) == p1;
  }

  ghost predicate NeverFiresAgain(s: State, cal: Calendar, rid: string, schedule: string) {
    forall steps :: Continues(steps, rid, schedule) ==> Silent(s, RunFrom(s, steps, cal), rid)
  }

  /** A routine is silent for the rest of the process exactly when the horizon of its pivot is empty. */
  lemma SilencedIff(s: State, cal: Calendar, rid: string, schedule: string)
    requires rid != ""
    ensures NeverFiresAgain(s, cal, rid, schedule)
      <==> !HorizonHits(Text.Strip(schedule), cal, MinuteOf(Pivot(s.last, s.boot, rid)))
  {
    if HorizonHits(Text.Strip(schedule), cal, MinuteOf(Pivot(s.last, s.boot, rid))) {
      var poll := HorizonWakes(s, cal, rid, schedule);
      assert Continues([poll], rid, schedule);
      assert RunFrom(After(s, poll, cal), [poll][1..], cal) == After(s, poll, cal);
      assert !Silent(s, RunFrom(s, [poll], cal), rid);
    } else {
      forall steps | Continues(steps, rid, schedule) ensures Silent(s, RunFrom(s, steps, cal), rid) {
        SparseRoutineStops(s, steps, cal, rid, schedule);
      }
    }
  }

  // ---- A fire moves the pivot to its own instant ----

  ghost predicate ServesAt(f: Fire, schedule: string, cal: Calendar, now: int) {
    Scheduled(Text.Strip(schedule), cal, f.slot) && f.slot <= MinuteOf(now)
  }

  lemma {:induction false} PassFired(p: Pass, boot: int, cal: Calendar, specs: seq<Entry>, replies: seq<Reply>,
                                     now: int, rid: string, schedule: string)
    requires |specs| == |replies| && forall e :: e in specs && e.rid == rid ==> e.schedule == schedule
    requires LastFire(p.last, rid) == now || NoneOf(p.fires, rid)
    requires forall f :: f in p.fires && f.rid == rid ==> ServesAt(f, schedule, cal, now)
    ensures var p' := CheckAll(p, boot, cal, specs, replies, now);
      && (LastFire(p'.last, rid) == now || NoneOf(p'.fires, rid))
      && (forall f :: f in p'.fires && f.rid == rid ==> ServesAt(f, schedule, cal, now))
    decreases |specs|
  {
    if specs != [] {
      HeadIsMember(specs);
      var pivot := Pivot(p.last, boot, specs[0].rid);
      if Decide(pivot, specs[0].schedule, cal, now).Fires? { FireWasOwed(pivot, specs[0].schedule, cal, now); }
      var p1 := CheckOne(p, boot, cal, specs[0], replies[0], now);
      PassFired(p1, boot, cal, specs[1..], replies[1..], now, rid, schedule);
    }
  }

  lemma PollFired(s: State, poll: Step, cal: Calendar, rid: string, schedule: string, f: Fire)
    requires poll.Poll? && KeepsSchedule(poll, rid, schedule) && s.boot <= poll.now
    requires f in NewFires(s, After(s, poll, cal)) && f.rid == rid
    ensures Pivot(After(s, poll, cal).last, s.boot, rid) == poll.now && ServesAt(f, schedule, cal, poll.now)
  {
    var p := NewPass(s.last);
    PassFired(p, s.boot, cal, poll.specs, poll.replies, poll.now, rid, schedule);
    assert NewFires(s, After(s, poll, cal)) == CheckAll(p, s.boot, cal, poll.specs, poll.replies, poll.now).fires;
  }

  /** After a poll in which a routine fired, it is silent for the rest of the process exactly when no scheduled minute
      lies within eight days of that poll. */
  lemma FiredThenSilentIff(s: State, poll: Step, cal: Calendar, rid: string, schedule: string, f: Fire)
    requires rid != "" && poll.Poll? && KeepsSchedule(poll, rid, schedule) && s.boot <= poll.now
    requires f in NewFires(s, After(s, poll, cal)) && f.rid == rid
    ensures NeverFiresAgain(After(s, poll, cal), cal, rid, schedule)
      <==> !HorizonHits(Text.Strip(schedule), cal, MinuteOf(poll.now))
  {
    PollFired(s, poll, cal, rid, schedule, f);
    SilencedIff(After(s, poll, cal), cal, rid, schedule);
  }

  // ---- The monthly schedule ----

  const MONTHLY := "0 10 1 * *"

  predicate FirstAtTen(c: Civil) { c.day == 1 && c.hour == 10 && c.minute == 0 }

  function OneNumber(n: nat): FieldSpec { OneOf([Part(n, None)]) }

  function MonthlySpec(): CronMeaning.Spec { CronMeaning.Spec(OneNumber(0), OneNumber(10), OneNumber(1), Every, Every) }

  lemma OneNumberFits(n: nat, v: int)
    ensures Fits(OneNumber(n), v) <==> v == n
    ensures WriteField(OneNumber(n)) == Text.NatToString(n)
  {
    assert Holds(OneNumber(n).parts[0], v) <==> v == n;
  }

  lemma MonthlyIsWritten()
    ensures Write(MonthlySpec()) == MONTHLY
  {
    OneNumberFits(0, 0);
    OneNumberFits(10, 0);
    OneNumberFits(1, 0);
    assert Text.NatToString(0) == "0" && Text.NatToString(1) == "1" && Text.NatToString(10) == "10";
    MonthlySpaced(["0", "10", "1", "*", "*"]);
  }

  lemma MonthlySpaced(ws: seq<string>)
    requires ws == ["0", "10", "1", "*", "*"]
    ensures Spaced(ws) == MONTHLY
  {
    assert ws[1..] == ["10", "1", "*", "*"] && ws[2..] == ["1", "*", "*"] && ws[3..] == ["*", "*"] && ws[4..] == ["*"];
    assert ws[1..][1..] == ws[2..] && ws[2..][1..] == ws[3..] && ws[3..][1..] == ws[4..];
    assert Spaced(ws[4..]) == "*";
    assert Spaced(ws[3..]) == "* *";
    assert Spaced(ws[2..]) == "1 * *";
    assert Spaced(ws[1..]) == "10 1 * *";
  }

  /** The monthly schedule names ten o'clock on the first and nothing else. */
  lemma MonthlyMeans(cal: Calendar, minute: int)
    ensures Scheduled(MONTHLY, cal, minute) <==> FirstAtTen(cal(minute))
  {
    MonthlyIsWritten();
    ScheduleMeans(MonthlySpec(), cal, minute);
    OneNumberFits(0, cal(minute).minute);
    OneNumberFits(10, cal(minute).hour);
    OneNumberFits(1, cal(minute).day);
  }

  ghost predicate FirstWithin(cal: Calendar, minute: int, n: int) {
    exists j :: minute < j <= minute + n && FirstAtTen(cal(j))
  }

  /** The search finds the monthly schedule exactly when a first of the month at ten is within eight days. */
  lemma MonthlyFoundIff(cal: Calendar, minute: int)
    ensures HorizonHits(MONTHLY, cal, minute) <==> FirstWithin(cal, minute, HORIZON)
  {
    forall j ensures Scheduled(MONTHLY, cal, j) <==> FirstAtTen(cal(j)) {
      MonthlyMeans(cal, j);
    }
  }

  lemma MonthlyStripped()
    ensures Text.Strip(MONTHLY) == MONTHLY
  {
    Text.StripTight(MONTHLY);
  }

  const DAY: int := 24 * 60

  /** Any two firsts of a month at ten are at least 28 days apart. */
  ghost predicate RealMonths(cal: Calendar) {
    forall i, j :: i < j && FirstAtTen(cal(i)) && FirstAtTen(cal(j)) ==> i + 28 * DAY <= j
  }

  lemma FarFromNext(cal: Calendar, slot: int, minute: int)
    requires RealMonths(cal) && FirstAtTen(cal(slot)) && slot <= minute < slot + 20 * DAY
    ensures !FirstWithin(cal, minute, HORIZON)
  {
  }

  /** A monthly routine that has fired less than twenty days late never fires again in this process. */
  lemma MonthlySilentAfterFire(s: State, poll: Step, cal: Calendar, rid: string, f: Fire)
    requires rid != "" && poll.Poll? && KeepsSchedule(poll, rid, MONTHLY) && s.boot <= poll.now && RealMonths(cal)
    requires f in NewFires(s, After(s, poll, cal)) && f.rid == rid
    requires MinuteOf(poll.now) < f.slot + 20 * DAY
    ensures NeverFiresAgain(After(s, poll, cal), cal, rid, MONTHLY)
  {
    MonthlyStripped();
    PollFired(s, poll, cal, rid, MONTHLY, f);
    MonthlyMeans(cal, f.slot);
    FarFromNext(cal, f.slot, MinuteOf(poll.now));
    MonthlyFoundIff(cal, MinuteOf(poll.now));
    FiredThenSilentIff(s, poll, cal, rid, MONTHLY, f);
  }

  // ---- A dense schedule is served in full ----

  /** From some minute on, every eight days hold a scheduled minute. */
  ghost predicate Dense(sched: string, cal: Calendar, from: int) {
    forall minute :: minute >= from ==> HorizonHits(sched, cal, minute)
  }

  /** The fire serves the minute or, made later, absorbs it. */
  ghost predicate Serves(f: Fire, rid: string, minute: int) {
    f.rid == rid && f.slot <= minute <= MinuteOf(f.at)
  }

  ghost predicate ServedBy(fires: seq<Fire>, rid: string, minute: int) {
    exists f :: f in fires && Serves(f, rid, minute)
  }

  lemma {:induction false} PassMovesPivot(p: Pass, boot: int, cal: Calendar, specs: seq<Entry>, replies: seq<Reply>,
                                          now: int, rid: string)
    requires |specs| == |replies| && boot <= now
    ensures var p' := CheckAll(p, boot, cal, specs, replies, now);
      || Pivot(p'.last, boot, rid) == Pivot(p.last, boot, rid)
      || (Pivot(p'.last, boot, rid) == now && MinuteOf(Pivot(p.last, boot, rid)) <= MinuteOf(now))
    decreases |specs|
  {
    if specs != [] {
      var pivot := Pivot(p.last, boot, specs[0].rid);
      if Decide(pivot, specs[0].schedule, cal, now).Fires? { FireWasOwed(pivot, specs[0].schedule, cal, now); }
      var p1 := CheckOne(p, boot, cal, specs[0], replies[0], now);
      PassMovesPivot(p1, boot, cal, specs[1..], replies[1..], now, rid);
    }
  }

  /** One routine, owed the minute, with a reachable horizon: its fire serves it. */
  lemma OneServes(p: Pass, boot: int, cal: Calendar, e: Entry, reply: Reply, now: int, minute: int)
    requires !p.broken && boot <= now && reply.Succeeds?
    requires MinuteOf(Pivot(p.last, boot, e.rid)) < minute <= MinuteOf(now)
    requires Scheduled(Text.Strip(e.schedule), cal, minute)
    requires HorizonHits(Text.Strip(e.schedule), cal, MinuteOf(Pivot(p.last, boot, e.rid)))
    ensures ServedBy(CheckOne(p, boot, cal, e, reply, now).fires, e.rid, minute)
  {
    var pivot := Pivot(p.last, boot, e.rid);
    OwedWithin(Text.Strip(e.schedule), cal, pivot, now);
    FiresIffOwed(pivot, e.schedule, cal, now);
    var slot := Decide(pivot, e.schedule, cal, now).slot;
    DecideIff(pivot, e.schedule, cal, now, slot);
    var fires := CheckOne(p, boot, cal, e, reply, now).fires;
    assert fires[|fires| - 1] in fires && Serves(fires[|fires| - 1], e.rid, minute);
  }

  /** The routine is listed with its schedule and each of its fires in this pass succeeds. */
  ghost predicate Listed(specs: seq<Entry>, replies: seq<Reply>, rid: string, schedule: string)
    requires |specs| == |replies|
  {
    && (exists e :: e in specs && e.rid == rid)
    && forall i :: 0 <= i < |specs| && specs[i].rid == rid ==> specs[i].schedule == schedule && replies[i].Succeeds?
  }

  lemma ServedStays(fires: seq<Fire>, more: seq<Fire>, rid: string, minute: int)
    requires ServedBy(fires, rid, minute) && |fires| <= |more| && more[..|fires|] == fires
    ensures ServedBy(more, rid, minute)
  {
    var f :| f in fires && Serves(f, rid, minute);
    assert f in more[..|fires|];
  }

  lemma ListedTail(specs: seq<Entry>, replies: seq<Reply>, rid: string, schedule: string)
    requires specs != [] && |specs| == |replies| && Listed(specs, replies, rid, schedule) && specs[0].rid != rid
    ensures Listed(specs[1..], replies[1..], rid, schedule)
  {
    assert specs == [specs[0]] + specs[1..];
  }

  lemma OthersPivot(p: Pass, boot: int, cal: Calendar, e: Entry, reply: Reply, now: int, rid: string)
    requires e.rid != rid
    ensures Pivot(CheckOne(p, boot, cal, e, reply, now).last, boot, rid) == Pivot(p.last, boot, rid)
  {
  }

  lemma {:induction false} PassServes(p: Pass, boot: int, cal: Calendar, specs: seq<Entry>, replies: seq<Reply>,
                                      now: int, rid: string, schedule: string, minute: int)
    requires |specs| == |replies| && boot <= now && Listed(specs, replies, rid, schedule)
    requires !CheckAll(p, boot, cal, specs, replies, now).broken
    requires MinuteOf(Pivot(p.last, boot, rid)) < minute <= MinuteOf(now)
    requires Scheduled(Text.Strip(schedule), cal, minute)
    requires HorizonHits(Text.Strip(schedule), cal, MinuteOf(Pivot(p.last, boot, rid)))
    ensures ServedBy(CheckAll(p, boot, cal, specs, replies, now).fires, rid, minute)
    decreases |specs|
  {
    if p.broken { BrokenStays(p, boot, cal, specs, replies, now); }
    var p1 := CheckOne(p, boot, cal, specs[0], replies[0], now);
    if specs[0].rid == rid {
      OneServes(p, boot, cal, specs[0], replies[0], now, minute);
      PassGrows(p1, boot, cal, specs[1..], replies[1..], now);
      ServedStays(p1.fires, CheckAll(p, boot, cal, specs, replies, now).fires, rid, minute);
    } else {
      ListedTail(specs, replies, rid, schedule);
      OthersPivot(p, boot, cal, specs[0], replies[0], now, rid);
      PassServes(p1, boot, cal, specs[1..], replies[1..], now, rid, schedule, minute);
    }
  }

  /** A step under which a dense routine is looked after: no restart, and every poll lists it, fires it with success
      and gets through its whole list. */
  ghost predicate Tended(s: State, step: Step, cal: Calendar, rid: string, schedule: string) {
    match step
    case Poll(now, specs, replies) =>
      && s.boot <= now && |specs| == |replies| && Listed(specs, replies, rid, schedule)
      && !CheckAll(NewPass(s.last), s.boot, cal, specs, replies, now).broken
    case Manual(_, _, _) => true
    case Restart(_, _, _) => false
  }

  ghost predicate TendedRun(s: State, steps: seq<Step>, cal: Calendar, rid: string, schedule: string)
    decreases |steps|
  {
    steps != [] ==>
      && Tended(s, steps[0], cal, rid, schedule)
      && TendedRun(After(s, steps[0], cal), steps[1..], cal, rid, schedule)
  }

  lemma {:induction false} TendedSizes(s: State, steps: seq<Step>, cal: Calendar, rid: string, schedule: string)
    requires TendedRun(s, steps, cal, rid, schedule)
    ensures forall step :: step in steps && step.Poll? ==> |step.specs| == |step.replies|
    decreases |steps|
  {
    if steps != [] {
      TendedSizes(After(s, steps[0], cal), steps[1..], cal, rid, schedule);
      forall step | step in steps && step.Poll? ensures |step.specs| == |step.replies| {
        assert step == steps[0] || step in steps[1..];
      }
    }
  }

  lemma PollServes(s: State, poll: Step, cal: Calendar, rid: string, schedule: string, minute: int)
    requires poll.Poll? && Tended(s, poll, cal, rid, schedule)
    requires MinuteOf(Pivot(s.last, s.boot, rid)) < minute <= MinuteOf(poll.now)
    requires Scheduled(Text.Strip(schedule), cal, minute)
    requires HorizonHits(Text.Strip(schedule), cal, MinuteOf(Pivot(s.last, s.boot, rid)))
    ensures ServedBy(NewFires(s, After(s, poll, cal)), rid, minute)
  {
    var p := NewPass(s.last);
    PassServes(p, s.boot, cal, poll.specs, poll.replies, poll.now, rid, schedule, minute);
    assert NewFires(s, After(s, poll, cal)) == CheckAll(p, s.boot, cal, poll.specs, poll.replies, poll.now).fires;
  }

  /** The pivot a tended step leaves is the old one or the poll's clock reading. */
  lemma TendedPivot(s: State, step: Step, cal: Calendar, rid: string, schedule: string)
    requires Tended(s, step, cal, rid, schedule)
    ensures var s' := After(s, step, cal);
      && s'.boot == s.boot
      && (Pivot(s'.last, s.boot, rid) == Pivot(s.last, s.boot, rid)
          || (&& step.Poll? && Pivot(s'.last, s.boot, rid) == step.now
              && MinuteOf(Pivot(s.last, s.boot, rid)) <= MinuteOf(step.now)))
  {
    if step.Poll? {
      PassMovesPivot(NewPass(s.last), s.boot, cal, step.specs, step.replies, step.now, rid);
    }
  }

  lemma ServedGrows(s: State, t: State, u: State, rid: string, minute: int)
    requires Extends(s, t) && Extends(t, u)
    requires ServedBy(NewFires(s, t), rid, minute) || ServedBy(NewFires(t, u), rid, minute)
    ensures ServedBy(NewFires(s, u), rid, minute)
  {
    NewFiresCompose(s, t, u);
    var f :| (f in NewFires(s, t) || f in NewFires(t, u)) && Serves(f, rid, minute);
    assert f in NewFires(s, u);
  }

  /** Every scheduled minute of a dense routine that lies between the first pivot and the clock of the last poll has
      been served by then, or absorbed by a later fire. */
  lemma {:induction false} EveryMinuteIsServed(s: State, steps: seq<Step>, cal: Calendar, rid: string, schedule: string,
                                               minute: int)
    requires TendedRun(s, steps, cal, rid, schedule) && steps != [] && steps[|steps| - 1].Poll?
    requires Dense(Text.Strip(schedule), cal, MinuteOf(Pivot(s.last, s.boot, rid)))
    requires MinuteOf(Pivot(s.last, s.boot, rid)) < minute <= MinuteOf(steps[|steps| - 1].now)
    requires Scheduled(Text.Strip(schedule), cal, minute)
    ensures forall step :: step in steps && step.Poll? ==> |step.specs| == |step.replies|
    ensures ServedBy(NewFires(s, RunFrom(s, steps, cal)), rid, minute)
    decreases |steps|
  {
    TendedSizes(s, steps, cal, rid, schedule);
    var step, rest := steps[0], steps[1..];
    var s1 := After(s, step, cal);
    StepGrows(s, step, cal);
    RunGrows(s1, rest, cal);
    if step.Poll? && minute <= MinuteOf(step.now) {
      PollServes(s, step, cal, rid, schedule, minute);
    } else {
      TendedPivot(s, step, cal, rid, schedule);
      EveryMinuteIsServed(s1, rest, cal, rid, schedule, minute);
    }
    ServedGrows(s, s1, RunFrom(s, steps, cal), rid, minute);
  }
}
