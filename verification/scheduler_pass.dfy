/** Which routines one polling pass fires, entry by entry. */
module SchedulerPass {
  import opened Sequences
  import opened Cron
  import opened Scheduler
  import opened SchedulerRuns
  import Text

  /** The minute the search for a routine starts after: that of its last fire, or of one minute before boot if later. */
  function StartMinute(last: map<string, int>, boot: int, rid: string): int {
    var fired := if rid in last then last[rid] else 0;
    (if fired > boot - 60_000_000 then fired else boot - 60_000_000) / 60_000_000
  }

  /** `slot` is the first scheduled minute of the eight days after `minute`, and has begun. */
  ghost predicate Begun(schedule: string, cal: Calendar, minute: int, slot: int, now: int) {
    IsFirst(Text.Strip(schedule), cal, minute, 11_520, slot) && slot * 60_000_000 <= now
  }

  /** The first scheduled minute of the eight days from the start has begun. */
  ghost predicate DueNow(e: Entry, last: map<string, int>, boot: int, cal: Calendar, now: int) {
    exists slot :: Begun(e.schedule, cal, StartMinute(last, boot, e.rid), slot, now)
  }

  /** The search divides by zero, which ends the pass. */
  predicate Stops(e: Entry, last: map<string, int>, boot: int, cal: Calendar) {
    Text.Strip(e.schedule) != "" && NextFire(Text.Strip(e.schedule), cal, StartMinute(last, boot, e.rid)) == Raised
  }

  ghost predicate FiredIn(fires: seq<Fire>, rid: string) { exists f :: f in fires && f.rid == rid }

  // ---- One entry ----

  lemma StartIs(last: map<string, int>, boot: int, rid: string)
    ensures MinuteOf(Pivot(last, boot, rid)) == StartMinute(last, boot, rid)
  {
    assert MINUTE == 60_000_000 == GRACE;
  }

  lemma BreaksIff(pivot: int, schedule: string, cal: Calendar, now: int)
    ensures Decide(pivot, schedule, cal, now).Breaks? <==>
      Text.Strip(schedule) != "" && NextFire(Text.Strip(schedule), cal, MinuteOf(pivot)) == Raised
  {
  }

  lemma FiresAt(pivot: int, schedule: string, cal: Calendar, now: int, slot: int)
    ensures Decide(pivot, schedule, cal, now) == Fires(slot) <==> Begun(schedule, cal, MinuteOf(pivot), slot, now)
  {
    assert MINUTE == 60_000_000 && HORIZON == 11_520;
    DecideIff(pivot, schedule, cal, now, slot);
  }

  lemma DecideMeans(e: Entry, last: map<string, int>, boot: int, cal: Calendar, now: int)
    ensures var d := Decide(Pivot(last, boot, e.rid), e.schedule, cal, now);
      (d.Fires? <==> DueNow(e, last, boot, cal, now)) && (d.Breaks? <==> Stops(e, last, boot, cal))
  {
    var pivot := Pivot(last, boot, e.rid);
    var d := Decide(pivot, e.schedule, cal, now);
    StartIs(last, boot, e.rid);
    BreaksIff(pivot, e.schedule, cal, now);
    if d.Fires? { FiresAt(pivot, e.schedule, cal, now, d.slot); }
    if slot :| Begun(e.schedule, cal, MinuteOf(pivot), slot, now) { FiresAt(pivot, e.schedule, cal, now, slot); }
  }

  lemma OneEntry(p: Pass, boot: int, cal: Calendar, e: Entry, reply: Reply, now: int)
    requires !p.broken && !FiredIn(p.fires, e.rid)
    ensures var p' := CheckOne(p, boot, cal, e, reply, now);
      && (p'.broken <==> Stops(e, p.last, boot, cal))
      && (FiredIn(p'.fires, e.rid) <==> reply.Succeeds? && DueNow(e, p.last, boot, cal, now))
      && (forall rid :: rid != e.rid ==> (FiredIn(p'.fires, rid) <==> FiredIn(p.fires, rid)))
      && p'.last == if FiredIn(p'.fires, e.rid) then p.last[e.rid := now] else p.last
  {
    DecideMeans(e, p.last, boot, cal, now);
    var p' := CheckOne(p, boot, cal, e, reply, now);
    if p'.fires != p.fires {
      var f := p'.fires[|p.fires|];
      assert f in p'.fires && f.rid == e.rid && p'.fires == p.fires + [f];
      forall rid | rid != e.rid ensures FiredIn(p'.fires, rid) <==> FiredIn(p.fires, rid) {
        assert forall g :: g in p'.fires <==> g in p.fires || g == f;
      }
    }
  }

  // ---- A whole pass ----

  ghost predicate DistinctIds(specs: seq<Entry>) {
    forall i, j :: 0 <= i < j < |specs| ==> specs[i].rid != specs[j].rid
  }

  /** A routine that is not listed neither fires nor has its last fire changed. */
  lemma {:induction false} OthersKept(p: Pass, boot: int, cal: Calendar, specs: seq<Entry>, replies: seq<Reply>,
                                      now: int, rid: string)
    requires |specs| == |replies| && forall e :: e in specs ==> e.rid != rid
    ensures var p' := CheckAll(p, boot, cal, specs, replies, now);
      && (FiredIn(p'.fires, rid) <==> FiredIn(p.fires, rid))
      && (rid in p'.last <==> rid in p.last) && (rid in p.last ==> p'.last[rid] == p.last[rid])
    decreases |specs|
  {
    if specs != [] {
      var p1 := CheckOne(p, boot, cal, specs[0], replies[0], now);
      HeadIsMember(specs);
      if p1.fires != p.fires {
        assert p1.fires == p.fires + [p1.fires[|p.fires|]] && p1.fires[|p.fires|].rid == specs[0].rid;
        assert forall g :: g in p1.fires <==> g in p.fires || g == p1.fires[|p.fires|];
      }
      assert forall e :: e in specs[1..] ==> e in specs;
      OthersKept(p1, boot, cal, specs[1..], replies[1..], now, rid);
    }
  }

  lemma TailKept(specs: seq<Entry>)
    requires DistinctIds(specs) && specs != []
    ensures DistinctIds(specs[1..]) && forall e :: e in specs[1..] ==> e.rid != specs[0].rid
  {
    forall e | e in specs[1..] ensures e.rid != specs[0].rid {
      var j :| 0 <= j < |specs[1..]| && specs[1..][j] == e;
      assert specs[j + 1] == e;
    }
  }

  /** No entry before `i` stops the pass. */
  ghost predicate Reached(specs: seq<Entry>, i: nat, last: map<string, int>, boot: int, cal: Calendar) {
    i < |specs| && forall j :: 0 <= j < i ==> !Stops(specs[j], last, boot, cal)
  }

  lemma SameStart(e: Entry, last: map<string, int>, other: string, at: int, boot: int, cal: Calendar, now: int)
    requires e.rid != other
    ensures Stops(e, last[other := at], boot, cal) <==> Stops(e, last, boot, cal)
    ensures DueNow(e, last[other := at], boot, cal, now) <==> DueNow(e, last, boot, cal, now)
  {
    assert StartMinute(last[other := at], boot, e.rid) == StartMinute(last, boot, e.rid);
  }

  lemma ReachedLater(specs: seq<Entry>, i: nat, last: map<string, int>, last1: map<string, int>, boot: int,
                     cal: Calendar, now: int)
    requires 0 < i < |specs| && DistinctIds(specs) && !Stops(specs[0], last, boot, cal)
    requires last1 == last || last1 == last[specs[0].rid := now]
    ensures Reached(specs[1..], i - 1, last1, boot, cal) <==> Reached(specs, i, last, boot, cal)
    ensures DueNow(specs[i], last1, boot, cal, now) <==> DueNow(specs[i], last, boot, cal, now)
  {
    forall j | 0 < j < |specs|
      ensures Stops(specs[j], last1, boot, cal) <==> Stops(specs[j], last, boot, cal)
      ensures DueNow(specs[j], last1, boot, cal, now) <==> DueNow(specs[j], last, boot, cal, now)
    {
      SameStart(specs[j], last, specs[0].rid, now, boot, cal, now);
    }
    if Reached(specs[1..], i - 1, last1, boot, cal) {
      forall j | 0 <= j < i ensures !Stops(specs[j], last, boot, cal) {
        if j > 0 { assert specs[1..][j - 1] == specs[j]; }
      }
    }
  }

  ghost predicate NoneFired(fires: seq<Fire>, specs: seq<Entry>) {
    forall e :: e in specs ==> !FiredIn(fires, e.rid)
  }

  lemma NoneFiredLater(p: Pass, p1: Pass, specs: seq<Entry>)
    requires specs != [] && DistinctIds(specs) && NoneFired(p.fires, specs)
    requires forall rid :: rid != specs[0].rid ==> (FiredIn(p1.fires, rid) <==> FiredIn(p.fires, rid))
    ensures NoneFired(p1.fires, specs[1..])
  {
    TailKept(specs);
    forall e | e in specs[1..] ensures !FiredIn(p1.fires, e.rid) { assert e in specs; }
  }

  /** What a pass does about entry `i`. */
  ghost predicate FiresAsDue(p: Pass, p': Pass, boot: int, cal: Calendar, specs: seq<Entry>, replies: seq<Reply>,
                             now: int, i: nat)
    requires i < |specs| == |replies|
  {
    FiredIn(p'.fires, specs[i].rid) <==>
      Reached(specs, i, p.last, boot, cal) && replies[i].Succeeds? && DueNow(specs[i], p.last, boot, cal, now)
  }

  lemma {:induction false} PassFires(p: Pass, boot: int, cal: Calendar, specs: seq<Entry>, replies: seq<Reply>,
                                     now: int, i: nat)
    requires |specs| == |replies| && DistinctIds(specs) && i < |specs| && !p.broken && NoneFired(p.fires, specs)
    ensures FiresAsDue(p, CheckAll(p, boot, cal, specs, replies, now), boot, cal, specs, replies, now, i)
    decreases |specs|
  {
    var p1 := CheckOne(p, boot, cal, specs[0], replies[0], now);
    HeadIsMember(specs);
    OneEntry(p, boot, cal, specs[0], replies[0], now);
    TailKept(specs);
    NoneFiredLater(p, p1, specs);
    if i == 0 {
      OthersKept(p1, boot, cal, specs[1..], replies[1..], now, specs[0].rid);
    } else if p1.broken {
      assert specs[i] == specs[1..][i - 1] && specs[i] in specs[1..];
      BrokenStays(p1, boot, cal, specs[1..], replies[1..], now);
    } else {
      PassFires(p1, boot, cal, specs[1..], replies[1..], now, i - 1);
      ReachedLater(specs, i, p.last, p1.last, boot, cal, now);
    }
  }

  /** Main result: a pass over distinct routines fires one exactly when no routine before it stops the pass, its first
      scheduled minute after its last fire, or after a minute before boot, has begun, and the fire succeeds. */
  lemma PassFiresIff(last: map<string, int>, boot: int, cal: Calendar, specs: seq<Entry>, replies: seq<Reply>, now: int,
                     i: nat)
    requires |specs| == |replies| && DistinctIds(specs) && i < |specs|
    ensures FiredIn(CheckAll(NewPass(last), boot, cal, specs, replies, now).fires, specs[i].rid) <==>
      Reached(specs, i, last, boot, cal) && replies[i].Succeeds? && DueNow(specs[i], last, boot, cal, now)
  {
    PassFires(NewPass(last), boot, cal, specs, replies, now, i);
  }

  // ---- What the pass leaves ----

  /** A routine's last fire is now if it fired, and else what it was. */
  ghost predicate Moved(before: map<string, int>, after: map<string, int>, fires: seq<Fire>, now: int) {
    forall rid :: Entered(after, rid) == if FiredIn(fires, rid) then Some(now) else Entered(before, rid)
  }

  /** Every fire is of a listed routine, at this instant; the last fires move with them. */
  lemma {:induction false} PassMoves(p: Pass, before: map<string, int>, boot: int, cal: Calendar, specs: seq<Entry>,
                                     replies: seq<Reply>, now: int)
    requires |specs| == |replies| && Moved(before, p.last, p.fires, now) && forall f :: f in p.fires ==> f.at == now
    ensures var p' := CheckAll(p, boot, cal, specs, replies, now);
      Moved(before, p'.last, p'.fires, now) && forall f :: f in p'.fires ==> f.at == now
    decreases |specs|
  {
    if specs != [] {
      var p1 := CheckOne(p, boot, cal, specs[0], replies[0], now);
      if p1.fires != p.fires {
        var f := p1.fires[|p.fires|];
        assert p1.fires == p.fires + [f] && f.rid == specs[0].rid;
        assert forall g :: g in p1.fires <==> g in p.fires || g == f;
        forall rid ensures Entered(p1.last, rid) == if FiredIn(p1.fires, rid) then Some(now) else Entered(before, rid) {
          assert FiredIn(p1.fires, rid) <==> FiredIn(p.fires, rid) || rid == f.rid by { assert f in p1.fires; }
        }
      }
      PassMoves(p1, before, boot, cal, specs[1..], replies[1..], now);
    }
  }

  /** After a pass a routine's last fire is now exactly if it fired; a fire that fails leaves it owed as it was. */
  lemma PassKeepsOwed(last: map<string, int>, boot: int, cal: Calendar, specs: seq<Entry>, replies: seq<Reply>,
                      now: int)
    requires |specs| == |replies|
    ensures var p := CheckAll(NewPass(last), boot, cal, specs, replies, now);
      Moved(last, p.last, p.fires, now) && forall f :: f in p.fires ==> f.at == now
  {
    PassMoves(NewPass(last), last, boot, cal, specs, replies, now);
  }

  // ---- What hydration leaves ----

  /** A whole number of seconds, not after the time and less than a second before it. */
  lemma SecondsAre(t: int)
    requires t >= 0
    ensures var w := WholeSeconds(t); w <= t < w + 1_000_000 && w % 1_000_000 == 0
  {
  }

  /** Of the receipts of a routine the latest counts, to the second, unless what was known is later. */
  lemma {:induction false} RaisedIsLatest(seen: map<string, int>, receipts: seq<Receipt>, rid: string)
    requires rid != ""
    ensures var at := LastFire(RaiseAll(seen, receipts), rid);
      && LastFire(seen, rid) <= at
      && (forall r :: r in receipts && r.rid == rid ==> WholeSeconds(r.ts) <= at)
      && (at == LastFire(seen, rid) || exists r :: r in receipts && r.rid == rid && WholeSeconds(r.ts) == at)
    decreases |receipts|
  {
    if receipts != [] {
      RaisedIsLatest(RaiseOne(seen, receipts[0]), receipts[1..], rid);
      assert receipts[0] in receipts && forall r :: r in receipts <==> r == receipts[0] || r in receipts[1..];
    }
  }

  /** The receipt is of a kind that hydration got an answer for. */
  predicate Read(r: Receipt, rid: string, ticksAnswered: bool, firesAnswered: bool) {
    r.rid == rid && (r.kind == RoutineTick ==> ticksAnswered) && (r.kind == RoutineFire ==> firesAnswered)
  }

  lemma AnsweredAre(receipts: seq<Receipt>, ticksAnswered: bool, firesAnswered: bool, rid: string)
    ensures var got := Answered(Query(RoutineTick, receipts, ticksAnswered),
                                Query(RoutineFire, receipts, firesAnswered));
      forall r :: r in got && r.rid == rid <==> r in receipts && Read(r, rid, ticksAnswered, firesAnswered)
  {
  }

  /** A restart takes as a routine's last fire the latest receipt of it, to the second, that the queries return; a query
      that fails hides its own receipts only. */
  lemma RestartRecalls(s: State, now: int, ticksAnswered: bool, firesAnswered: bool, cal: Calendar, rid: string)
    requires rid != ""
    ensures var n := After(s, Restart(now, ticksAnswered, firesAnswered), cal);
      var at := LastFire(n.last, rid);
      && n.boot == now && at >= 0
      && (forall r :: r in s.receipts && Read(r, rid, ticksAnswered, firesAnswered) ==> WholeSeconds(r.ts) <= at)
      && (at == 0 || exists r ::
            r in s.receipts && Read(r, rid, ticksAnswered, firesAnswered) && WholeSeconds(r.ts) == at)
  {
    var got := Answered(Query(RoutineTick, s.receipts, ticksAnswered), Query(RoutineFire, s.receipts, firesAnswered));
    AnsweredAre(s.receipts, ticksAnswered, firesAnswered, rid);
    RaisedIsLatest(map[], got, rid);
  }
}
