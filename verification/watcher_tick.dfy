/** What one tick mints on a lake snapshot, and what it loses when its reads are torn. */
module WatcherTick {
  import opened Sequences
  import opened Watcher
  import opened WatcherRuns
  import Text

  // ---- A tick on a snapshot mints exactly what is due ----

  /** `i` is a reply of the open task `t` above its scan start, with content, whose query and write succeed. */
  ghost predicate ReplyDue(i: Intent, t: Task, floor: map<string, nat>, lake: seq<Delta>, down: set<string>,
                           fails: set<Intent>) {
    && i == Intent(t.corr, i.source, false)
    && i.source in lake && Carries(["assistant", "session:" + t.sid], i.source)
    && i.source.ts > ScanStart(floor, t) && !Blank(i.source)
    && t.corr !in down && i !in fails
  }

  /** `i` is the newest closure of the closed task `t`, above its floor, with content, whose write succeeds. */
  ghost predicate ClosureDue(i: Intent, t: Task, floor: map<string, nat>, fails: set<Intent>) {
    && i == Intent(t.corr, i.source, true)
    && t.closure == Some(i.source)
    && i.source.id != "" && i.source.ts > FloorOf(floor, t.corr) && !Blank(i.source)
    && i !in fails
  }

  ghost predicate DistinctCorrs(ts: seq<Task>) {
    forall i, j :: 0 <= i < j < |ts| ==> ts[i].corr != ts[j].corr
  }

  ghost predicate Grew(m: Ledger, n: Ledger) {
    |m.intents| <= |n.intents| && n.intents[..|m.intents|] == m.intents
  }

  lemma MintableIsDue(i: Intent, t: Task, m: Ledger, lake: seq<Delta>, down: set<string>, fails: set<Intent>)
    requires NoDup(lake)
    ensures Mintable(i, t.corr, ScanStart(m.floor, t), Scanned(m, t, lake, t.corr !in down), fails)
      <==> ReplyDue(i, t, m.floor, lake, down, fails)
  {
    RepliesReady(lake, t, ScanStart(m.floor, t));
  }

  lemma ReplyPassDue(m: Ledger, t: Task, lake: seq<Delta>, down: set<string>, fails: set<Intent>)
    requires NoDup(lake)
    ensures var n := ReplyPass(m, t, lake, t.corr !in down, fails);
      && Grew(m, n)
      && (forall corr :: corr != t.corr ==> FloorOf(n.floor, corr) == FloorOf(m.floor, corr))
      && (forall i :: i in n.intents[|m.intents|..] <==> ReplyDue(i, t, m.floor, lake, down, fails))
      && (forall i :: i in n.intents[|m.intents|..] ==> i.source.ts <= FloorOf(n.floor, t.corr))
  {
    var n := ReplyPass(m, t, lake, t.corr !in down, fails);
    ReplyPassMints(m, t, lake, t.corr !in down, fails);
    forall i
      ensures i in n.intents[|m.intents|..] <==> ReplyDue(i, t, m.floor, lake, down, fails)
      ensures i in n.intents[|m.intents|..] ==> i.source.ts <= FloorOf(n.floor, t.corr)
    {
      MintableIsDue(i, t, m, lake, down, fails);
      if i in n.intents[|m.intents|..] {
        var k :| 0 <= k < |n.intents| - |m.intents| && n.intents[|m.intents|..][k] == i;
        assert n.intents[|m.intents| + k] == i;
      }
    }
  }

  lemma SplitGrowth(m: Ledger, m1: Ledger, n: Ledger)
    requires Grew(m, m1) && Grew(m1, n)
    ensures Grew(m, n) && n.intents[|m.intents|..] == m1.intents[|m.intents|..] + n.intents[|m1.intents|..]
  {
    assert n.intents == m1.intents + n.intents[|m1.intents|..];
    assert m1.intents == m.intents + m1.intents[|m.intents|..];
  }

  lemma {:induction false} ReplyPassesDue(m: Ledger, ts: seq<Task>, lake: seq<Delta>, down: set<string>,
                                          fails: set<Intent>)
    requires NoDup(lake) && DistinctCorrs(ts)
    ensures var n := ReplyPasses(m, ts, lake, down, fails);
      && Grew(m, n)
      && (forall corr :: (forall t :: t in ts ==> t.corr != corr) ==> FloorOf(n.floor, corr) == FloorOf(m.floor, corr))
      && (forall i ::
            i in n.intents[|m.intents|..] <==> exists t :: t in ts && ReplyDue(i, t, m.floor, lake, down, fails))
    decreases |ts|
  {
    if ts != [] {
      var m1, n := ReplyPass(m, ts[0], lake, ts[0].corr !in down, fails), ReplyPasses(m, ts, lake, down, fails);
      ReplyPassDue(m, ts[0], lake, down, fails);
      ReplyPassesDue(m1, ts[1..], lake, down, fails);
      SplitGrowth(m, m1, n);
      assert forall t :: t in ts <==> t == ts[0] || t in ts[1..];
      forall t, i | t in ts[1..]
        ensures ReplyDue(i, t, m1.floor, lake, down, fails) <==> ReplyDue(i, t, m.floor, lake, down, fails)
      {
        var k :| 0 <= k < |ts[1..]| && ts[1..][k] == t;
        assert ts[0].corr != ts[k + 1].corr;
        assert FloorOf(m1.floor, t.corr) == FloorOf(m.floor, t.corr);
        assert ScanStart(m1.floor, t) == ScanStart(m.floor, t);
      }
      forall i
        ensures i in n.intents[|m.intents|..] <==> exists t :: t in ts && ReplyDue(i, t, m.floor, lake, down, fails)
      {
        assert i in n.intents[|m.intents|..] <==> i in m1.intents[|m.intents|..] || i in n.intents[|m1.intents|..];
        assert i in m1.intents[|m.intents|..] <==> ReplyDue(i, ts[0], m.floor, lake, down, fails);
        if t :| t in ts[1..] && ReplyDue(i, t, m1.floor, lake, down, fails) {
          assert t in ts && ReplyDue(i, t, m.floor, lake, down, fails);
        }
        if t :| t in ts && ReplyDue(i, t, m.floor, lake, down, fails) {
          assert t == ts[0] || (t in ts[1..] && ReplyDue(i, t, m1.floor, lake, down, fails));
        }
      }
    }
  }

  lemma ClosurePassDue(m: Ledger, t: Task, fails: set<Intent>)
    ensures var n := ClosurePass(m, t, fails);
      && Grew(m, n)
      && (forall corr :: corr != t.corr ==> FloorOf(n.floor, corr) == FloorOf(m.floor, corr))
      && (forall i :: i in n.intents[|m.intents|..] <==> ClosureDue(i, t, m.floor, fails))
  {
  }

  lemma {:induction false} ClosurePassesDue(m: Ledger, ts: seq<Task>, fails: set<Intent>)
    requires DistinctCorrs(ts)
    ensures var n := ClosurePasses(m, ts, fails);
      && Grew(m, n)
      && (forall i :: i in n.intents[|m.intents|..] <==> exists t :: t in ts && ClosureDue(i, t, m.floor, fails))
    decreases |ts|
  {
    if ts != [] {
      var m1, n := ClosurePass(m, ts[0], fails), ClosurePasses(m, ts, fails);
      ClosurePassDue(m, ts[0], fails);
      ClosurePassesDue(m1, ts[1..], fails);
      SplitGrowth(m, m1, n);
      assert forall t :: t in ts <==> t == ts[0] || t in ts[1..];
      forall t, i | t in ts[1..] ensures ClosureDue(i, t, m1.floor, fails) <==> ClosureDue(i, t, m.floor, fails) {
        var k :| 0 <= k < |ts[1..]| && ts[1..][k] == t;
        assert ts[0].corr != ts[k + 1].corr;
        assert FloorOf(m1.floor, t.corr) == FloorOf(m.floor, t.corr);
      }
    }
  }

  /** A snapshot tick mints the due replies of the open tasks and the due newest closures of the closed
      ones, and nothing else; a failing query or write only withholds its own rows. */
  lemma TickMintsExactlyWhatIsDue(m: Ledger, lake: seq<Delta>, down: set<string>, fails: set<Intent>, i: Intent)
    requires NoDup(lake)
    ensures Grew(m, TickLedger(m, lake, down, fails))
    ensures i in TickLedger(m, lake, down, fails).intents[|m.intents|..] <==>
      || (exists t :: t in PlanFor(lake).active && ReplyDue(i, t, m.floor, lake, down, fails))
      || (exists t :: t in PlanFor(lake).closing && ClosureDue(i, t, m.floor, fails))
  {
    var p := PlanFor(lake);
    PlanForOk(lake);
    var m1 := ReplyPasses(m, p.active, lake, down, fails);
    var n := ClosurePasses(m1, p.closing, fails);
    ReplyPassesDue(m, p.active, lake, down, fails);
    ClosurePassesDue(m1, p.closing, fails);
    SplitGrowth(m, m1, n);
    forall t | t in p.closing ensures ClosureDue(i, t, m1.floor, fails) <==> ClosureDue(i, t, m.floor, fails) {
      PlannedTask(lake, t);
      forall u | u in p.active ensures u.corr != t.corr {
        PlannedTask(lake, u);
      }
      assert FloorOf(m1.floor, t.corr) == FloorOf(m.floor, t.corr);
    }
  }

  // ---- The tick method is the protocol's steps taken without an append in between ----

  function TickSteps(p: Plan, down: set<string>, fails: set<Intent>): seq<Step> {
    seq(|p.active|, k requires 0 <= k < |p.active| => ReplyStep(p.active[k].corr !in down, fails))
      + seq(|p.closing|, k => ClosureStep(fails))
  }

  /** The first step of a tick leaves the steps of what remains of the plan. */
  lemma TickStepsTail(s: State, down: set<string>, fails: set<Intent>)
    requires s.plan.active != [] || s.plan.closing != []
    ensures var steps := TickSteps(s.plan, down, fails);
      steps != [] && steps[1..] == TickSteps(Next(s, steps[0]).plan, down, fails)
  {
    var steps := TickSteps(s.plan, down, fails);
    var rest := TickSteps(Next(s, steps[0]).plan, down, fails);
    if s.plan.active != [] {
      assert Next(s, steps[0]).plan == s.plan.(active := s.plan.active[1..]);
      forall k | 0 <= k < |rest| ensures steps[1..][k] == rest[k] {
        if k < |s.plan.active| - 1 { assert s.plan.active[1..][k] == s.plan.active[k + 1]; }
      }
    } else {
      assert Next(s, steps[0]).plan == s.plan.(closing := s.plan.closing[1..]);
    }
    assert |steps| == |rest| + 1;
  }

  lemma {:induction false} DrainPlan(s: State, down: set<string>, fails: set<Intent>)
    ensures Run(s, TickSteps(s.plan, down, fails)) ==
      s.(plan := NOTHING,
         ledger := ClosurePasses(ReplyPasses(s.ledger, s.plan.active, s.lake, down, fails), s.plan.closing, fails))
    decreases |s.plan.active| + |s.plan.closing|
  {
    if s.plan.active != [] || s.plan.closing != [] {
      TickStepsTail(s, down, fails);
      DrainPlan(Next(s, TickSteps(s.plan, down, fails)[0]), down, fails);
    }
  }

  /** `Tick` on the current lake and the run BeginTick, ReplySteps, ClosureSteps end in the same ledger. */
  lemma TickIsItsSteps(s: State, down: set<string>, fails: set<Intent>)
    requires s.primed && s.plan == NOTHING
    ensures Run(s, [BeginTick] + TickSteps(PlanFor(s.lake), down, fails)) ==
      s.(ledger := TickLedger(s.ledger, s.lake, down, fails))
  {
    var rest := TickSteps(PlanFor(s.lake), down, fails);
    assert ([BeginTick] + rest)[1..] == rest;
    DrainPlan(Next(s, BeginTick), down, fails);
  }

  // ---- A clock behind the lake's ----

  lemma {:induction false} RaiseKeepsAbsent(floor: map<string, nat>, cs: seq<Delta>, corr: string)
    requires corr !in floor && forall c :: c in cs ==> Corr(c) != corr
    ensures corr !in RaiseFloor(floor, cs)
    decreases |cs|
  {
    if cs != [] {
      HeadIsMember(cs);
      RaiseKeepsAbsent(RaiseOne(floor, cs[0]), cs[1..], corr);
    }
  }

  /** A prime in a new process puts the floor of an open correlation at its own clock reading. */
  lemma OpenPrimed(lake: seq<Delta>, now: nat, t: Task)
    requires t in PlanFor(lake).active
    ensures var floor := PrimeFloor(map[], lake, true, true, now);
      t.corr in floor && floor[t.corr] == now
  {
    PlannedTask(lake, t);
    ClosureMembers(lake);
    assert forall c :: c in Closures(lake) ==> Corr(c) != t.corr;
    RaiseKeepsAbsent(map[], Closures(lake), t.corr);
    var raised := RaiseFloor(map[], Closures(lake));
    SpawnsClamp(lake, raised, now, t.corr);
    ClampFloorEffect(raised, Query(lake, ["task-spawn"], 0), now, t.corr);
  }

  /** Whatever the clock of the prime reads: a reply of an open correlation, minted before or not, is minted by the
      first complete tick of a new process exactly when that clock reads before the reply's timestamp. */
  lemma RemintedIff(intents: seq<Intent>, lake: seq<Delta>, now: nat, t: Task, r: Delta)
    requires NoDup(lake) && t in PlanFor(lake).active
    requires r in lake && Carries(["assistant", "session:" + t.sid], r) && !Blank(r)
    ensures var n := TickLedger(Ledger(PrimeFloor(map[], lake, true, true, now), intents), lake, {}, {});
      |intents| <= |n.intents| && (Intent(t.corr, r, false) in n.intents[|intents|..] <==> now < r.ts)
  {
    var m := Ledger(PrimeFloor(map[], lake, true, true, now), intents);
    TickMintsExactlyWhatIsDue(m, lake, {}, {}, Intent(t.corr, r, false));
    DueAfterPrime(m.floor, lake, now, t, r);
    SameCorrSameTask(lake, t);
  }

  lemma DueAfterPrime(floor: map<string, nat>, lake: seq<Delta>, now: nat, t: Task, r: Delta)
    requires t in PlanFor(lake).active && floor == PrimeFloor(map[], lake, true, true, now)
    requires r in lake && Carries(["assistant", "session:" + t.sid], r) && !Blank(r)
    ensures ReplyDue(Intent(t.corr, r, false), t, floor, lake, {}, {}) <==> now < r.ts
  {
    OpenPrimed(lake, now, t);
  }

  lemma SameCorrSameTask(lake: seq<Delta>, t: Task)
    requires t in PlanFor(lake).active
    ensures forall u :: u in PlanFor(lake).active && u.corr == t.corr ==> u == t
  {
    PlanForOk(lake);
    var active := PlanFor(lake).active;
    var i :| 0 <= i < |active| && active[i] == t;
    forall u | u in active && u.corr == t.corr ensures u == t {
      var j :| 0 <= j < |active| && active[j] == u;
      assert i == j;
    }
  }

  // ---- Torn ticks ----

  lemma DueIsAssistant(i: Intent, t: Task, floor: map<string, nat>, lake: seq<Delta>, down: set<string>,
                       fails: set<Intent>)
    requires ReplyDue(i, t, floor, lake, down, fails)
    ensures "assistant" in i.source.tags
  {
    assert ["assistant", "session:" + t.sid][0] == "assistant";
  }

  lemma ReplyPassSkipsClosure(m: Ledger, t: Task, lake: seq<Delta>, fails: set<Intent>, c: Delta, r: Delta)
    requires NoDup(lake) && "assistant" !in c.tags && c.ts <= r.ts
    requires ReplyDue(Intent(t.corr, r, false), t, m.floor, lake, {}, fails)
    ensures var n := ReplyPass(m, t, lake, true, fails);
      && Grew(m, n) && c.ts <= FloorOf(n.floor, t.corr)
      && forall k :: |m.intents| <= k < |n.intents| ==> n.intents[k].source != c
  {
    var n := ReplyPass(m, t, lake, true, fails);
    ReplyPassDue(m, t, lake, {}, fails);
    assert Intent(t.corr, r, false) in n.intents[|m.intents|..];
    forall k | |m.intents| <= k < |n.intents| ensures n.intents[k].source != c {
      assert n.intents[k] == n.intents[|m.intents|..][k - |m.intents|];
      DueIsAssistant(n.intents[k], t, m.floor, lake, {}, fails);
    }
  }

  lemma TornReplyPass(s: State, fails: set<Intent>, c: Delta, r: Delta)
    requires NoDup(s.lake) && s.plan.active != [] && s.primed
    requires c in s.lake && IsClosure(s.plan.active[0].corr, c) && "assistant" !in c.tags && c.ts <= r.ts
    requires ReplyDue(Intent(s.plan.active[0].corr, r, false), s.plan.active[0], s.ledger.floor, s.lake, {}, fails)
    ensures var n := Next(s, ReplyStep(true, fails));
      Passed(n, s.plan.active[0].corr, c) && NotMinted(s, n, s.plan.active[0].corr, c)
  {
    ReplyPassSkipsClosure(s.ledger, s.plan.active[0], s.lake, fails, c, r);
  }

  /** A closure that lands between the correlation scan and the reply query, together with a reply the query
      already sees, falls below the floor: once that reply is minted, no later run mints the closure. */
  lemma TornTickLosesClosure(s: State, fails: set<Intent>, c: Delta, r: Delta, steps: seq<Step>)
    requires WellFormed(s) && s.plan.active != [] && s.primed
    requires c in s.lake && IsClosure(s.plan.active[0].corr, c) && "assistant" !in c.tags && c.ts <= r.ts
    requires ReplyDue(Intent(s.plan.active[0].corr, r, false), s.plan.active[0], s.ledger.floor, s.lake, {}, fails)
    ensures NotMinted(s, Run(s, [ReplyStep(true, fails)] + steps), s.plan.active[0].corr, c)
  {
    var n := Next(s, ReplyStep(true, fails));
    TornReplyPass(s, fails, c, r);
    NextWellFormed(s, ReplyStep(true, fails));
    PassedIsFinal(n, steps, s.plan.active[0].corr, c);
    assert ([ReplyStep(true, fails)] + steps)[1..] == steps;
    NotMintedTrans(s, n, Run(n, steps), s.plan.active[0].corr, c);
  }

  // ---- When a torn tick loses a closure ----

  /** A scan of replies only appends; if it appends, the floor is the time of the last intent it appended. */
  lemma {:induction false} FloorIsLastMinted(m: Ledger, corr: string, start: nat, rs: seq<Delta>, fails: set<Intent>)
    ensures var n := MintReplies(m, corr, start, rs, fails);
      && Grew(m, n)
      && (|n.intents| == |m.intents| ==> n == m)
      && (|n.intents| > |m.intents| ==> FloorOf(n.floor, corr) == n.intents[|n.intents| - 1].source.ts)
    decreases |rs|
  {
    if rs != [] {
      var m1 := MintReply(m, corr, start, rs[0], fails);
      FloorIsLastMinted(m1, corr, start, rs[1..], fails);
      var n := MintReplies(m, corr, start, rs, fails);
      assert n.intents[..|m.intents|] == n.intents[..|m1.intents|][..|m.intents|];
    }
  }

  /** A reply that is minted in this pass and is no older than the row `c`. */
  ghost predicate Overtaken(c: Delta, t: Task, floor: map<string, nat>, lake: seq<Delta>, down: set<string>,
                            fails: set<Intent>) {
    exists r :: ReplyDue(Intent(t.corr, r, false), t, floor, lake, down, fails) && c.ts <= r.ts
  }

  /** The last intent a pass appends is a due reply. */
  lemma LastMintedIsDue(m: Ledger, t: Task, lake: seq<Delta>, down: set<string>, fails: set<Intent>)
    requires NoDup(lake)
    ensures var n := ReplyPass(m, t, lake, t.corr !in down, fails);
      |n.intents| > |m.intents| ==> ReplyDue(n.intents[|n.intents| - 1], t, m.floor, lake, down, fails)
  {
    var n := ReplyPass(m, t, lake, t.corr !in down, fails);
    ReplyPassDue(m, t, lake, down, fails);
    if |n.intents| > |m.intents| {
      assert n.intents[|n.intents| - 1] == n.intents[|m.intents|..][|n.intents| - 1 - |m.intents|];
    }
  }

  /** After a pass the floor is the old floor, or the time of a reply that was due. */
  lemma FloorComesFromDue(m: Ledger, t: Task, lake: seq<Delta>, down: set<string>, fails: set<Intent>)
    requires NoDup(lake)
    ensures var f := FloorOf(ReplyPass(m, t, lake, t.corr !in down, fails).floor, t.corr);
      f == FloorOf(m.floor, t.corr)
      || exists r :: ReplyDue(Intent(t.corr, r, false), t, m.floor, lake, down, fails) && r.ts == f
  {
    var n := ReplyPass(m, t, lake, t.corr !in down, fails);
    FloorIsLastMinted(m, t.corr, ScanStart(m.floor, t), Scanned(m, t, lake, t.corr !in down), fails);
    if |n.intents| > |m.intents| {
      var i := n.intents[|n.intents| - 1];
      LastMintedIsDue(m, t, lake, down, fails);
      assert i == Intent(t.corr, i.source, false);
    }
  }

  /** After a pass the floor is at or above every reply that was due. */
  lemma FloorCoversDue(m: Ledger, t: Task, lake: seq<Delta>, down: set<string>, fails: set<Intent>, r: Delta)
    requires NoDup(lake) && ReplyDue(Intent(t.corr, r, false), t, m.floor, lake, down, fails)
    ensures r.ts <= FloorOf(ReplyPass(m, t, lake, t.corr !in down, fails).floor, t.corr)
  {
    var n := ReplyPass(m, t, lake, t.corr !in down, fails);
    ReplyPassDue(m, t, lake, down, fails);
    assert Intent(t.corr, r, false) in n.intents[|m.intents|..];
  }

  /** The floor rises to a row above it exactly when the pass mints a reply no older than that row. */
  lemma FloorPassesIff(m: Ledger, t: Task, lake: seq<Delta>, down: set<string>, fails: set<Intent>, c: Delta)
    requires NoDup(lake) && FloorOf(m.floor, t.corr) < c.ts
    ensures c.ts <= FloorOf(ReplyPass(m, t, lake, t.corr !in down, fails).floor, t.corr)
      <==> Overtaken(c, t, m.floor, lake, down, fails)
  {
    FloorComesFromDue(m, t, lake, down, fails);
    if Overtaken(c, t, m.floor, lake, down, fails) {
      var r :| ReplyDue(Intent(t.corr, r, false), t, m.floor, lake, down, fails) && c.ts <= r.ts;
      FloorCoversDue(m, t, lake, down, fails, r);
    }
  }

  /** One correlation's due replies depend on no floor but its own. */
  lemma OvertakenByOwnFloor(c: Delta, t: Task, f: map<string, nat>, g: map<string, nat>, lake: seq<Delta>,
                            down: set<string>, fails: set<Intent>)
    requires FloorOf(f, t.corr) == FloorOf(g, t.corr)
    ensures Overtaken(c, t, f, lake, down, fails) ==> Overtaken(c, t, g, lake, down, fails)
  {
    if Overtaken(c, t, f, lake, down, fails) {
      var r :| ReplyDue(Intent(t.corr, r, false), t, f, lake, down, fails) && c.ts <= r.ts;
      assert ScanStart(f, t) == ScanStart(g, t);
      assert ReplyDue(Intent(t.corr, r, false), t, g, lake, down, fails);
    }
  }

  lemma {:induction false} PassesFloorIff(m: Ledger, ts: seq<Task>, t: Task, lake: seq<Delta>, down: set<string>,
                                          fails: set<Intent>, c: Delta)
    requires NoDup(lake) && DistinctCorrs(ts) && t in ts && FloorOf(m.floor, t.corr) < c.ts
    ensures c.ts <= FloorOf(ReplyPasses(m, ts, lake, down, fails).floor, t.corr)
      <==> Overtaken(c, t, m.floor, lake, down, fails)
    decreases |ts|
  {
    var m1 := ReplyPass(m, ts[0], lake, ts[0].corr !in down, fails);
    ReplyPassDue(m, ts[0], lake, down, fails);
    if t == ts[0] {
      FloorPassesIff(m, t, lake, down, fails, c);
      forall u | u in ts[1..] ensures u.corr != t.corr {
        var k :| 0 <= k < |ts[1..]| && ts[1..][k] == u;
        assert ts[0].corr != ts[k + 1].corr;
      }
      ReplyPassesDue(m1, ts[1..], lake, down, fails);
    } else {
      var k :| 1 <= k < |ts| && ts[k] == t;
      assert t == ts[1..][k - 1] && ts[0].corr != ts[k].corr;
      PassesFloorIff(m1, ts[1..], t, lake, down, fails, c);
      OvertakenByOwnFloor(c, t, m.floor, m1.floor, lake, down, fails);
      OvertakenByOwnFloor(c, t, m1.floor, m.floor, lake, down, fails);
    }
  }

  lemma {:induction false} ClosurePassesFrame(m: Ledger, ts: seq<Task>, fails: set<Intent>, corr: string)
    requires forall t :: t in ts ==> t.corr != corr
    ensures FloorOf(ClosurePasses(m, ts, fails).floor, corr) == FloorOf(m.floor, corr)
    decreases |ts|
  {
    if ts != [] {
      assert ts[0] in ts;
      ClosurePassesFrame(ClosurePass(m, ts[0], fails), ts[1..], fails, corr);
    }
  }

  /** The tick in progress, begun on the snapshot `scanned`, still has `t` open; since then the closure `c` landed,
      is the newest one, lies above the floor and has content. */
  ghost predicate LandedLate(s: State, scanned: seq<Delta>, t: Task, c: Delta) {
    && Inv(s) && s.primed && s.plan == PlanFor(scanned) && t in s.plan.active
    && (forall d :: d in scanned ==> d in s.lake)
    && c in s.lake && IsClosure(t.corr, c) && c.id != "" && !Blank(c)
    && (forall d :: d in s.lake && IsClosure(t.corr, d) && d != c ==> d.ts < c.ts)
    && FloorOf(s.ledger.floor, t.corr) < c.ts
  }

  /** The ledger after the rest of the tick in progress. */
  function Torn(s: State, down: set<string>, fails: set<Intent>): Ledger {
    ClosurePasses(ReplyPasses(s.ledger, s.plan.active, s.lake, down, fails), s.plan.closing, fails)
  }

  lemma OthersClose(scanned: seq<Delta>, t: Task)
    requires t in PlanFor(scanned).active
    ensures forall u :: u in PlanFor(scanned).closing ==> u.corr != t.corr
  {
    PlannedTask(scanned, t);
    forall u | u in PlanFor(scanned).closing ensures u.corr != t.corr { PlannedTask(scanned, u); }
  }

  lemma RepliesMintNoClosure(m: Ledger, ts: seq<Task>, lake: seq<Delta>, down: set<string>, fails: set<Intent>,
                             i: Intent)
    requires NoDup(lake) && DistinctCorrs(ts) && i.closure && i !in m.intents
    ensures Grew(m, ReplyPasses(m, ts, lake, down, fails)) && i !in ReplyPasses(m, ts, lake, down, fails).intents
  {
    ReplyPassesDue(m, ts, lake, down, fails);
    GrownWithout(m, ReplyPasses(m, ts, lake, down, fails), i);
  }

  lemma OthersMintNoClosure(m: Ledger, ts: seq<Task>, fails: set<Intent>, i: Intent)
    requires DistinctCorrs(ts) && i !in m.intents && forall u :: u in ts ==> u.corr != i.corr
    ensures Grew(m, ClosurePasses(m, ts, fails)) && i !in ClosurePasses(m, ts, fails).intents
  {
    ClosurePassesDue(m, ts, fails);
    GrownWithout(m, ClosurePasses(m, ts, fails), i);
  }

  /** The torn tick mints no closure of the correlation it saw open. */
  lemma TornMintsNoClosure(s: State, scanned: seq<Delta>, t: Task, c: Delta, down: set<string>, fails: set<Intent>)
    requires LandedLate(s, scanned, t, c)
    ensures Intent(t.corr, c, true) !in Torn(s, down, fails).intents && Grew(s.ledger, Torn(s, down, fails))
  {
    var i, m1 := Intent(t.corr, c, true), ReplyPasses(s.ledger, s.plan.active, s.lake, down, fails);
    PlanForOk(scanned);
    OthersClose(scanned, t);
    NotMintedBefore(s, t.corr, c);
    RepliesMintNoClosure(s.ledger, s.plan.active, s.lake, down, fails, i);
    OthersMintNoClosure(m1, s.plan.closing, fails, i);
    SplitGrowth(s.ledger, m1, Torn(s, down, fails));
  }

  lemma GrownWithout(m: Ledger, n: Ledger, i: Intent)
    requires Grew(m, n) && i !in m.intents && i !in n.intents[|m.intents|..]
    ensures i !in n.intents
  {
    assert n.intents == m.intents + n.intents[|m.intents|..];
  }

  /** It moves the floor past a late closure exactly when it mints a reply no older. */
  lemma TornFloorIff(s: State, scanned: seq<Delta>, t: Task, c: Delta, down: set<string>, fails: set<Intent>)
    requires LandedLate(s, scanned, t, c)
    ensures c.ts <= FloorOf(Torn(s, down, fails).floor, t.corr)
      <==> Overtaken(c, t, s.ledger.floor, s.lake, down, fails)
  {
    PlanForOk(scanned);
    OthersClose(scanned, t);
    PassesFloorIff(s.ledger, s.plan.active, t, s.lake, down, fails, c);
    ClosurePassesFrame(ReplyPasses(s.ledger, s.plan.active, s.lake, down, fails), s.plan.closing, fails, t.corr);
  }

  /** A closure above the floor has not been minted. */
  lemma NotMintedBefore(s: State, corr: string, c: Delta)
    requires Inv(s) && s.primed && IsClosure(corr, c) && FloorOf(s.ledger.floor, corr) < c.ts
    ensures Intent(corr, c, true) !in s.ledger.intents
  {
    assert forall i :: i in s.ledger.intents ==> Accounted(s, i);
    assert Accounted(s, Intent(corr, c, true)) ==> Passed(s, corr, c);
  }

  /** In a later tick the closure is the one due for its correlation, as long as it lies above the floor. */
  lemma NewestIsPlanned(lake: seq<Delta>, corr: string, c: Delta) returns (u: Task)
    requires UsablySpawned(lake, corr) && c in lake && IsClosure(corr, c)
    requires forall d :: d in lake && IsClosure(corr, d) && d != c ==> d.ts < c.ts
    ensures u in PlanFor(lake).closing && u.corr == corr && u.closure == Some(c)
    ensures forall v :: v in PlanFor(lake).closing && v.corr == corr ==> v.closure == Some(c)
  {
    PlanSplitsByClosure(lake, corr);
    u :| u in PlanFor(lake).closing && u.corr == corr;
    forall v | v in PlanFor(lake).closing && v.corr == corr ensures v.closure == Some(c) { PlannedTask(lake, v); }
  }

  lemma StillSpawned(scanned: seq<Delta>, lake: seq<Delta>, t: Task)
    requires t in PlanFor(scanned).active && forall d :: d in scanned ==> d in lake
    ensures UsablySpawned(lake, t.corr)
  {
    PlannedTask(scanned, t);
    var sp :| sp in scanned && "task-spawn" in sp.tags && Usable(sp) && Corr(sp) == t.corr;
    assert sp in lake;
  }

  lemma NextTickMintsIff(m: Ledger, lake: seq<Delta>, corr: string, c: Delta)
    requires NoDup(lake) && UsablySpawned(lake, corr) && c in lake && IsClosure(corr, c) && c.id != "" && !Blank(c)
    requires forall d :: d in lake && IsClosure(corr, d) && d != c ==> d.ts < c.ts
    requires Intent(corr, c, true) !in m.intents
    ensures Intent(corr, c, true) in TickLedger(m, lake, {}, {}).intents <==> FloorOf(m.floor, corr) < c.ts
  {
    var i, n := Intent(corr, c, true), TickLedger(m, lake, {}, {});
    var u := NewestIsPlanned(lake, corr, c);
    TickMintsExactlyWhatIsDue(m, lake, {}, {}, i);
    DueIffAbove(m.floor, PlanFor(lake), lake, u, i);
    NewOrOld(m, n, i);
  }

  lemma NewOrOld(m: Ledger, n: Ledger, i: Intent)
    requires Grew(m, n)
    ensures i in n.intents <==> i in m.intents || i in n.intents[|m.intents|..]
  {
    assert n.intents == m.intents + n.intents[|m.intents|..];
  }

  lemma DueIffAbove(floor: map<string, nat>, p: Plan, lake: seq<Delta>, u: Task, i: Intent)
    requires u in p.closing && u.corr == i.corr && u.closure == Some(i.source) && i.closure
    requires i.source.id != "" && !Blank(i.source)
    ensures ((exists t :: t in p.active && ReplyDue(i, t, floor, lake, {}, {}))
             || (exists t :: t in p.closing && ClosureDue(i, t, floor, {})))
      <==> FloorOf(floor, i.corr) < i.source.ts
  {
    if FloorOf(floor, i.corr) < i.source.ts { assert ClosureDue(i, u, floor, {}); }
  }

  /** Main result on torn ticks: a closure that lands during a tick is minted by the next complete, failure-free tick
      if and only if the tick in progress mints no reply of its correlation that is as new as the closure. */
  lemma LateClosureMintedIff(s: State, scanned: seq<Delta>, t: Task, c: Delta, down: set<string>, fails: set<Intent>)
    requires LandedLate(s, scanned, t, c)
    ensures var rest, next := TickSteps(s.plan, down, fails), [BeginTick] + TickSteps(PlanFor(s.lake), {}, {});
      Intent(t.corr, c, true) in Run(s, rest + next).ledger.intents
      <==> !Overtaken(c, t, s.ledger.floor, s.lake, down, fails)
  {
    var rest, next := TickSteps(s.plan, down, fails), [BeginTick] + TickSteps(PlanFor(s.lake), {}, {});
    var n := s.(plan := NOTHING, ledger := Torn(s, down, fails));
    RunConcat(s, rest, next);
    DrainPlan(s, down, fails);
    TickIsItsSteps(n, {}, {});
    TornMintsNoClosure(s, scanned, t, c, down, fails);
    TornFloorIff(s, scanned, t, c, down, fails);
    StillSpawned(scanned, s.lake, t);
    NextTickMintsIff(n.ledger, s.lake, t.corr, c);
  }

  /** And if the tick in progress does mint such a reply, no run whatever mints the closure after that. */
  lemma OvertakenIsLost(s: State, scanned: seq<Delta>, t: Task, c: Delta, down: set<string>, fails: set<Intent>,
                        steps: seq<Step>)
    requires LandedLate(s, scanned, t, c) && Overtaken(c, t, s.ledger.floor, s.lake, down, fails)
    ensures forall i :: i in Run(s, TickSteps(s.plan, down, fails) + steps).ledger.intents ==>
      i != Intent(t.corr, c, true)
  {
    var rest := TickSteps(s.plan, down, fails);
    var n := s.(plan := NOTHING, ledger := Torn(s, down, fails));
    RunConcat(s, rest, steps);
    DrainPlan(s, down, fails);
    RunKeepsInv(s, rest);
    TornMintsNoClosure(s, scanned, t, c, down, fails);
    TornFloorIff(s, scanned, t, c, down, fails);
    PassedIsFinal(n, steps, t.corr, c);
    var z := Run(n, steps);
    forall i | i in z.ledger.intents ensures i != Intent(t.corr, c, true) {
      var k :| 0 <= k < |z.ledger.intents| && z.ledger.intents[k] == i;
      assert k < |n.ledger.intents| ==> i == n.ledger.intents[k];
    }
  }

  // ---- A concrete torn tick ----

  const SPAWN := Delta("s", 1, ["task-spawn", "task-corr:a", "helper-session:b"], "")
  const DONE := Delta("c", 2, ["task-complete", "task-corr:a"], "done")
  const LAST_WORD := Delta("r", 3, ["assistant", "session:b"], "hi")

  /** A tick torn by `DONE` and `LAST_WORD` landing after its correlation scan. */
  const TORN: seq<Step> := [Prime(true, true, 0), Append(SPAWN), BeginTick, Append(DONE), Append(LAST_WORD)]

  lemma TornTags()
    ensures Corr(SPAWN) == "a" && Session(SPAWN) == "b" && Corr(DONE) == "a" && !Blank(LAST_WORD)
  {
    assert "task-spawn"[5] != "task-corr:"[5];
    assert "task-corr:a"[..10] == "task-corr:" && "task-corr:a"[10..] == "a";
    assert !Text.StartsWith("task-spawn", "helper-session:") && !Text.StartsWith("task-corr:a", "helper-session:");
    assert "helper-session:b"[..15] == "helper-session:" && "helper-session:b"[15..] == "b";
    assert SPAWN.tags[1..] == ["task-corr:a", "helper-session:b"] && SPAWN.tags[1..][1..] == ["helper-session:b"];
    assert "task-complete"[7] != "task-corr:"[7];
    assert DONE.tags[1..] == ["task-corr:a"];
  }

  lemma {:induction false} RunConcat(s: State, a: seq<Step>, b: seq<Step>)
    ensures Run(s, a + b) == Run(Run(s, a), b)
    decreases |a|
  {
    if a == [] {
      assert a + b == b;
    } else {
      assert (a + b)[1..] == a[1..] + b;
      RunConcat(Next(s, a[0]), a[1..], b);
    }
  }

  lemma PrimeEmpty()
    ensures Next(INIT, Prime(true, true, 0)) == State([], Ledger(map[], []), 0, true, NOTHING)
  {
    assert Query([], ["task-complete"], 0) == Query([], ["task-abandoned"], 0) == Query([], ["task-spawn"], 0) == [];
    assert Closures([]) == [];
  }

  /** Appending a row with a new id and a later time. */
  lemma AppendNext(s: State, d: Delta, lake: seq<Delta>)
    requires s.clock <= d.ts && (forall e :: e in s.lake ==> e.id != d.id) && lake == s.lake + [d]
    ensures Next(s, Append(d)) == s.(lake := lake, clock := d.ts)
  {
  }

  lemma RunOne(s: State, a: Step, rest: seq<Step>, n: State)
    requires n == Next(s, a)
    ensures Run(s, [a] + rest) == Run(n, rest)
  {
    assert ([a] + rest)[1..] == rest;
  }

  lemma RunFive(a: Step, b: Step, c: Step, d: Step, e: Step, s: State, s0: State, s1: State, s2: State, s3: State,
                s4: State)
    requires Next(s, a) == s0 && Next(s0, b) == s1 && Next(s1, c) == s2 && Next(s2, d) == s3 && Next(s3, e) == s4
    ensures Run(s, [a, b, c, d, e]) == s4
  {
    RunOne(s3, e, [], s4);
    RunOne(s2, d, [e], s3);
    RunOne(s1, c, [d, e], s2);
    RunOne(s0, b, [c, d, e], s1);
    RunOne(s, a, [b, c, d, e], s0);
  }

  /** Three rows, the latter two landing after the correlation scan. */
  lemma ThreeRows(x: Delta, y: Delta, z: Delta, plan: Plan)
    requires x.ts <= y.ts <= z.ts && x.id != y.id && y.id != z.id && x.id != z.id && plan == PlanFor([x])
    ensures Run(INIT, [Prime(true, true, 0), Append(x), BeginTick, Append(y), Append(z)])
      == State([x, y, z], Ledger(map[], []), z.ts, true, plan)
  {
    var none := Ledger(map[], []);
    var s0, s1 := State([], none, 0, true, NOTHING), State([x], none, x.ts, true, NOTHING);
    var s2, s3 := s1.(plan := plan), State([x, y], none, y.ts, true, plan);
    PrimeEmpty();
    AppendNext(s0, x, [x]);
    BeginNext(s1, s2);
    AppendNext(s2, y, [x, y]);
    AppendNext(s3, z, [x, y, z]);
    RunFive(Prime(true, true, 0), Append(x), BeginTick, Append(y), Append(z), INIT, s0, s1, s2, s3,
            State([x, y, z], none, z.ts, true, plan));
  }

  lemma TornRun()
    ensures Run(INIT, TORN) == State([SPAWN, DONE, LAST_WORD], Ledger(map[], []), 3, true, PlanFor([SPAWN]))
  {
    ThreeRows(SPAWN, DONE, LAST_WORD, PlanFor([SPAWN]));
  }

  lemma BeginNext(s: State, n: State)
    requires s.primed && s.plan == NOTHING && n == s.(plan := PlanFor(s.lake))
    ensures Next(s, BeginTick) == n
  {
  }

  lemma TornPlan()
    ensures var p := PlanFor([SPAWN]);
      |p.active| > 0 && p.active[0].corr == "a" && p.active[0].sid == "b" && p.active[0].spawnTs == 1
  {
    TornTags();
    assert SPAWN in [SPAWN] && "task-spawn" in SPAWN.tags && Usable(SPAWN);
    assert !Closed([SPAWN], "a") by {
      assert SPAWN.tags[0] != "task-complete" && SPAWN.tags[0] != "task-abandoned";
    }
    PlanSplitsByClosure([SPAWN], "a");
    var p := PlanFor([SPAWN]);
    PlanForOk([SPAWN]);
    var t := p.active[0];
    assert t in p.active;
    assert FromNewestSpawn(t, Query([SPAWN], ["task-spawn"], 0), NewestClosures([SPAWN]));
    QueryMembers([SPAWN], ["task-spawn"], 0);
  }

  lemma TornDue(t: Task)
    requires t.corr == "a" && t.sid == "b" && t.spawnTs == 1
    ensures IsClosure("a", DONE) && "assistant" !in DONE.tags
    ensures ReplyDue(Intent("a", LAST_WORD, false), t, map[], [SPAWN, DONE, LAST_WORD], {}, {})
  {
    TornTags();
    assert DONE.tags[0] == "task-complete";
    assert DONE.tags[0] != "assistant" && DONE.tags[1] != "assistant";
    assert "session:" + t.sid == "session:b";
    assert LAST_WORD.tags[0] == "assistant" && LAST_WORD.tags[1] == "session:b";
  }

  /** The claim that every closure landing after the prime gets minted fails for torn ticks: in this run, and
      in every continuation of it, the closure `DONE` of the spawned task is never minted. */
  lemma TornTickCounterexample(steps: seq<Step>)
    ensures forall i :: i in Run(INIT, TORN + ([ReplyStep(true, {})] + steps)).ledger.intents ==>
      i.corr != "a" || i.source != DONE
  {
    var s := Run(INIT, TORN);
    RunKeepsInv(INIT, TORN);
    RunConcat(INIT, TORN, [ReplyStep(true, {})] + steps);
    TornRun();
    TornPlan();
    TornDue(s.plan.active[0]);
    TornTickLosesClosure(s, {}, DONE, LAST_WORD, steps);
    var n := Run(s, [ReplyStep(true, {})] + steps);
    forall i | i in n.ledger.intents ensures i.corr != "a" || i.source != DONE {
      var k :| 0 <= k < |n.ledger.intents| && n.ledger.intents[k] == i;
    }
  }
}
