/** Runs of the watcher: appends, ticks taken apart into their single lake reads and puddle
    writes, prime attempts and restarts, interleaved in any order. */
module WatcherRuns {
  import opened Sequences
  import opened Watcher

  /** `plan` is what is left of the tick in progress, `clock` the latest time seen by the lake. */
  datatype State = State(lake: seq<Delta>, ledger: Ledger, clock: nat, primed: bool, plan: Plan)

  datatype Step =
    | Append(d: Delta)
    | Prime(closuresOk: bool, spawnsOk: bool, now: nat)
    | BeginTick
    | ReplyStep(queryOk: bool, fails: set<Intent>)
    | ClosureStep(fails: set<Intent>)
    | Abort
    | Restart

  const INIT := State([], Ledger(map[], []), 0, false, NOTHING)

  /** A step that is not enabled changes nothing. */
  function Next(s: State, step: Step): State {
    match step
    case Append(d) =>
      if s.clock <= d.ts && (forall e :: e in s.lake ==> e.id != d.id)
      then s.(lake := s.lake + [d], clock := d.ts) else s
    case Prime(closuresOk, spawnsOk, now) =>
      if s.primed || now < s.clock then s
      else
        var floor := PrimeFloor(s.ledger.floor, s.lake, closuresOk, spawnsOk, now);
        s.(ledger := s.ledger.(floor := floor), clock := now, primed := closuresOk && spawnsOk)
    case BeginTick =>
      if s.primed && s.plan == NOTHING then s.(plan := PlanFor(s.lake)) else s
    case ReplyStep(queryOk, fails) =>
      if s.plan.active == [] then s
      else
        var t := s.plan.active[0];
        s.(ledger := ReplyPass(s.ledger, t, s.lake, queryOk, fails), plan := s.plan.(active := s.plan.active[1..]))
    case ClosureStep(fails) =>
      if s.plan.active != [] || s.plan.closing == [] then s
      else
        var t := s.plan.closing[0];
        s.(ledger := ClosurePass(s.ledger, t, fails), plan := s.plan.(closing := s.plan.closing[1..]))
    case Abort => s.(plan := NOTHING)
    case Restart => State(s.lake, Ledger(map[], s.ledger.intents), s.clock, false, NOTHING)
  }

  function Run(s: State, steps: seq<Step>): State
    decreases |steps|
  {
    if steps == [] then s else Run(Next(s, steps[0]), steps[1..])
  }

  // ---- What one pass does to the floor and the intents ----

  /** `n` grew from `m` by reply intents for `corr` minted from `rs` above `start`, oldest first. */
  ghost predicate RepliesMinted(m: Ledger, n: Ledger, corr: string, start: nat, rs: seq<Delta>, fails: set<Intent>) {
    && |m.intents| <= |n.intents|
    && n.intents[..|m.intents|] == m.intents
    && (forall c :: c != corr ==> FloorOf(n.floor, c) == FloorOf(m.floor, c))
    && (forall k :: |m.intents| <= k < |n.intents| ==>
          && Mintable(n.intents[k], corr, start, rs, fails)
          && n.intents[k].source.ts <= FloorOf(n.floor, corr))
    && (forall r :: r in rs && Mintable(Intent(corr, r, false), corr, start, rs, fails) ==>
          Intent(corr, r, false) in n.intents[|m.intents|..])
    && (|n.intents| == |m.intents| ==> n.floor == m.floor)
    && (|n.intents| > |m.intents| ==> FloorOf(n.floor, corr) > start)
    && NoDup(n.intents[|m.intents|..])
  }

  ghost predicate Mintable(i: Intent, corr: string, start: nat, rs: seq<Delta>, fails: set<Intent>) {
    && i == Intent(corr, i.source, false)
    && i.source in rs && i.source.ts > start && !Blank(i.source) && i !in fails
  }

  lemma {:induction false} MintRepliesEffect(m: Ledger, corr: string, start: nat, rs: seq<Delta>, fails: set<Intent>)
    requires SortedBy(Ts, rs) && NoDup(rs)
    ensures RepliesMinted(m, MintReplies(m, corr, start, rs, fails), corr, start, rs, fails)
    decreases |rs|
  {
    if rs != [] {
      var r, rest := rs[0], rs[1..];
      var m1 := MintReply(m, corr, start, r, fails);
      var n := MintReplies(m1, corr, start, rest, fails);
      SortedTail(Ts, rs);
      assert forall d :: d in rest ==> Ts(r) <= Ts(d) && d != r && d in rs;
      MintRepliesEffect(m1, corr, start, rest, fails);
      MintRepliesCons(m, m1, n, corr, start, rs, fails);
    }
  }

  lemma MintRepliesCons(m: Ledger, m1: Ledger, n: Ledger, corr: string, start: nat, rs: seq<Delta>, fails: set<Intent>)
    requires rs != [] && m1 == MintReply(m, corr, start, rs[0], fails)
    requires forall d :: d in rs[1..] ==> rs[0].ts <= d.ts && d != rs[0] && d in rs
    requires RepliesMinted(m1, n, corr, start, rs[1..], fails)
    ensures RepliesMinted(m, n, corr, start, rs, fails)
  {
    MintRepliesWiden(m1, n, corr, start, rs, fails);
    if m1 != m { MintRepliesTake(m, m1, n, corr, start, rs, fails); }
  }

  lemma GrownByOne<T(!new)>(a: seq<T>, x: T, n: seq<T>)
    requires |a| < |n| && n[..|a| + 1] == a + [x]
    ensures n[|a|] == x && n[..|a|] == a && n[|a|..] == [x] + n[|a| + 1..]
  {
    assert n[..|a| + 1][|a|] == x && n[..|a| + 1][..|a|] == n[..|a|];
  }

  lemma NoDupPrepend<T(!new)>(x: T, s: seq<T>)
    requires NoDup(s) && x !in s
    ensures NoDup([x] + s)
  {
  }

  lemma MintRepliesTake(m: Ledger, m1: Ledger, n: Ledger, corr: string, start: nat, rs: seq<Delta>, fails: set<Intent>)
    requires rs != [] && m1 == MintReply(m, corr, start, rs[0], fails) && m1 != m
    requires forall d :: d in rs[1..] ==> rs[0].ts <= d.ts && d != rs[0] && d in rs
    requires RepliesMinted(m1, n, corr, start, rs[1..], fails)
    ensures RepliesMinted(m, n, corr, start, rs, fails)
  {
    MintRepliesWiden(m1, n, corr, start, rs, fails);
    var i, rest := Intent(corr, rs[0], false), n.intents[|m1.intents|..];
    GrownByOne(m.intents, i, n.intents);
    assert i !in rest;
    NoDupPrepend(i, rest);
    if |n.intents| > |m1.intents| {
      assert n.intents[|m1.intents|].source.ts >= rs[0].ts;
    }
  }

  lemma MintRepliesWiden(m1: Ledger, n: Ledger, corr: string, start: nat, rs: seq<Delta>, fails: set<Intent>)
    requires rs != []
    requires forall d :: d in rs[1..] ==> rs[0].ts <= d.ts && d != rs[0] && d in rs
    requires RepliesMinted(m1, n, corr, start, rs[1..], fails)
    ensures forall k :: |m1.intents| <= k < |n.intents| ==>
      && Mintable(n.intents[k], corr, start, rs, fails)
      && n.intents[k].source != rs[0] && n.intents[k].source.ts >= rs[0].ts
    ensures forall d :: d in rs && d != rs[0] && Mintable(Intent(corr, d, false), corr, start, rs, fails) ==>
      Intent(corr, d, false) in n.intents[|m1.intents|..]
  {
    assert forall d :: d in rs <==> d == rs[0] || d in rs[1..];
    forall k | |m1.intents| <= k < |n.intents|
      ensures Mintable(n.intents[k], corr, start, rs, fails)
      ensures n.intents[k].source != rs[0] && n.intents[k].source.ts >= rs[0].ts
    {
      assert Mintable(n.intents[k], corr, start, rs[1..], fails);
    }
    forall d | d in rs && d != rs[0] && Mintable(Intent(corr, d, false), corr, start, rs, fails)
      ensures Intent(corr, d, false) in n.intents[|m1.intents|..]
    {
      assert Mintable(Intent(corr, d, false), corr, start, rs[1..], fails);
    }
  }

  // ---- The lake and the plan stay well formed ----

  ghost predicate WellFormed(s: State) {
    && NoDup(s.lake)
    && (forall d, e :: d in s.lake && e in s.lake && d.id == e.id ==> d == e)
    && (forall d :: d in s.lake ==> d.ts <= s.clock)
    && (!s.primed ==> s.plan == NOTHING)
    && (forall t :: t in s.plan.active || t in s.plan.closing ==> Spawned(s.lake, t.corr))
    && (forall t :: t in s.plan.closing ==> ClosureInLake(s.lake, t))
  }

  ghost predicate ClosureInLake(lake: seq<Delta>, t: Task) {
    t.closure.Some? && t.closure.value in lake && IsClosure(t.corr, t.closure.value)
  }

  lemma AppendWellFormed(s: State, d: Delta)
    requires WellFormed(s)
    ensures WellFormed(Next(s, Append(d)))
  {
    var n := Next(s, Append(d));
    assert forall e :: e in n.lake ==> e in s.lake || (n.lake == s.lake + [d] && e == d);
    assert forall e :: e in s.lake ==> e in n.lake;
  }

  lemma PlanWellFormed(lake: seq<Delta>)
    ensures forall t :: t in PlanFor(lake).active || t in PlanFor(lake).closing ==> Spawned(lake, t.corr)
    ensures forall t :: t in PlanFor(lake).closing ==> ClosureInLake(lake, t)
  {
    var p := PlanFor(lake);
    forall t | t in p.active || t in p.closing
      ensures Spawned(lake, t.corr) && (t in p.closing ==> ClosureInLake(lake, t))
    {
      PlannedTask(lake, t);
    }
  }

  lemma NextWellFormed(s: State, step: Step)
    requires WellFormed(s)
    ensures WellFormed(Next(s, step))
    ensures forall d :: d in s.lake ==> d in Next(s, step).lake
  {
    match step
    case Append(d) => AppendWellFormed(s, d);
    case BeginTick => PlanWellFormed(s.lake);
    case _ =>
  }

  // ---- Rows the watcher has passed ----

  /** The floor, or the closure of the correlation, keeps the watcher from minting row `d` for `corr` from here on. */
  ghost predicate Passed(s: State, corr: string, d: Delta) {
    && d in s.lake
    && (Spawned(s.lake, corr) || IsClosure(corr, d))
    && (s.primed ==> corr in s.ledger.floor)
    && (corr in s.ledger.floor ==> d.ts <= s.ledger.floor[corr] || (Retired(s, corr) && !IsClosure(corr, d)))
  }

  /** A closure of `corr` is in the lake and the tick in progress, if any, does not scan its replies. */
  ghost predicate Retired(s: State, corr: string) {
    Closed(s.lake, corr) && forall t :: t in s.plan.active ==> t.corr != corr
  }

  ghost predicate NotMinted(s: State, n: State, corr: string, d: Delta) {
    && |s.ledger.intents| <= |n.ledger.intents|
    && s.ledger.intents == n.ledger.intents[..|s.ledger.intents|]
    && forall k :: |s.ledger.intents| <= k < |n.ledger.intents| ==>
         n.ledger.intents[k].corr != corr || n.ledger.intents[k].source != d
  }

  lemma RepliesReady(lake: seq<Delta>, t: Task, start: nat)
    requires NoDup(lake)
    ensures SortedBy(Ts, Replies(lake, t, start)) && NoDup(Replies(lake, t, start))
    ensures forall d :: d in Replies(lake, t, start) <==>
      d in lake && Carries(["assistant", "session:" + t.sid], d) && d.ts >= start
  {
    var wanted := ["assistant", "session:" + t.sid];
    FilterNoDup((d: Delta) => Carries(wanted, d) && d.ts >= start, lake);
    var q := Query(lake, wanted, start);
    assert NoDup(q);
    SortNoDup(Ts, q);
    SortMembers(Ts, q);
  }

  lemma ReplyPassMints(m: Ledger, t: Task, lake: seq<Delta>, queryOk: bool, fails: set<Intent>)
    requires NoDup(lake)
    ensures RepliesMinted(m, ReplyPass(m, t, lake, queryOk, fails), t.corr, ScanStart(m.floor, t),
                          Scanned(m, t, lake, queryOk), fails)
  {
    var rs := Scanned(m, t, lake, queryOk);
    RepliesReady(lake, t, ScanStart(m.floor, t));
    MintRepliesEffect(m, t.corr, ScanStart(m.floor, t), rs, fails);
  }

  function Scanned(m: Ledger, t: Task, lake: seq<Delta>, queryOk: bool): seq<Delta> {
    if queryOk then Replies(lake, t, ScanStart(m.floor, t)) else []
  }

  lemma PassedReplyStep(s: State, queryOk: bool, fails: set<Intent>, corr: string, d: Delta)
    requires WellFormed(s) && Passed(s, corr, d) && s.plan.active != []
    ensures Passed(Next(s, ReplyStep(queryOk, fails)), corr, d)
    ensures NotMinted(s, Next(s, ReplyStep(queryOk, fails)), corr, d)
  {
    var n := Next(s, ReplyStep(queryOk, fails));
    var t := s.plan.active[0];
    assert t in s.plan.active;
    ReplyPassMints(s.ledger, t, s.lake, queryOk, fails);
    assert FloorOf(s.ledger.floor, corr) <= FloorOf(n.ledger.floor, corr);
    assert corr in n.ledger.floor;
    assert forall u :: u in n.plan.active ==> u in s.plan.active;
  }

  lemma PassedClosureStep(s: State, fails: set<Intent>, corr: string, d: Delta)
    requires WellFormed(s) && Passed(s, corr, d)
    ensures Passed(Next(s, ClosureStep(fails)), corr, d)
    ensures NotMinted(s, Next(s, ClosureStep(fails)), corr, d)
  {
    if s.plan.active == [] && s.plan.closing != [] {
      assert ClosureInLake(s.lake, s.plan.closing[0]);
    }
  }

  lemma {:induction false} RaiseFloorEffect(floor: map<string, nat>, cs: seq<Delta>, corr: string)
    ensures FloorOf(floor, corr) <= FloorOf(RaiseFloor(floor, cs), corr)
    ensures corr != "" ==> forall c :: c in cs && Corr(c) == corr ==> c.ts <= FloorOf(RaiseFloor(floor, cs), corr)
    ensures corr !in floor && corr in RaiseFloor(floor, cs) ==> corr != "" && exists c :: c in cs && Corr(c) == corr
    decreases |cs|
  {
    if cs != [] {
      RaiseFloorEffect(RaiseOne(floor, cs[0]), cs[1..], corr);
      assert forall c :: c in cs <==> c == cs[0] || c in cs[1..];
    }
  }

  lemma {:induction false} ClampFloorEffect(floor: map<string, nat>, spawns: seq<Delta>, now: nat, corr: string)
    ensures corr in floor ==>
      corr in ClampFloor(floor, spawns, now) && ClampFloor(floor, spawns, now)[corr] == floor[corr]
    ensures corr !in floor && corr in ClampFloor(floor, spawns, now) ==> ClampFloor(floor, spawns, now)[corr] == now
    ensures corr != "" && (exists c :: c in spawns && Corr(c) == corr) ==> corr in ClampFloor(floor, spawns, now)
    decreases |spawns|
  {
    if spawns != [] {
      ClampFloorEffect(ClampOne(floor, spawns[0], now), spawns[1..], now, corr);
      assert forall c :: c in spawns <==> c == spawns[0] || c in spawns[1..];
    }
  }

  lemma ClosuresRaise(lake: seq<Delta>, floor: map<string, nat>, corr: string)
    ensures FloorOf(floor, corr) <= FloorOf(RaiseFloor(floor, Closures(lake)), corr)
    ensures forall d :: d in lake && IsClosure(corr, d) ==> d.ts <= FloorOf(RaiseFloor(floor, Closures(lake)), corr)
    ensures corr !in floor && corr in RaiseFloor(floor, Closures(lake)) ==> Closed(lake, corr)
  {
    RaiseFloorEffect(floor, Closures(lake), corr);
    ClosureMembers(lake);
  }

  lemma SpawnsClamp(lake: seq<Delta>, floor: map<string, nat>, now: nat, corr: string)
    requires Spawned(lake, corr)
    ensures corr in ClampFloor(floor, Query(lake, ["task-spawn"], 0), now)
  {
    var spawns := Query(lake, ["task-spawn"], 0);
    ClampFloorEffect(floor, spawns, now, corr);
    var sp :| sp in lake && "task-spawn" in sp.tags && Corr(sp) == corr;
    assert Carries(["task-spawn"], sp);
    QueryMembers(lake, ["task-spawn"], 0);
    assert sp in spawns;
  }

  lemma PassedPrime(s: State, closuresOk: bool, spawnsOk: bool, now: nat, corr: string, d: Delta)
    requires WellFormed(s) && Passed(s, corr, d)
    ensures Passed(Next(s, Prime(closuresOk, spawnsOk, now)), corr, d)
  {
    if !s.primed && now >= s.clock {
      var raised := RaiseFloor(s.ledger.floor, if closuresOk then Closures(s.lake) else []);
      ClosuresRaise(s.lake, s.ledger.floor, corr);
      ClampFloorEffect(raised, if spawnsOk then Query(s.lake, ["task-spawn"], 0) else [], now, corr);
      if spawnsOk && Spawned(s.lake, corr) { SpawnsClamp(s.lake, raised, now, corr); }
    }
  }

  lemma PassedAppend(s: State, e: Delta, corr: string, d: Delta)
    requires WellFormed(s) && Passed(s, corr, d)
    ensures Passed(Next(s, Append(e)), corr, d)
  {
    AppendWellFormed(s, e);
    assert forall x :: x in s.lake ==> x in Next(s, Append(e)).lake;
  }

  lemma PassedBegin(s: State, corr: string, d: Delta)
    requires WellFormed(s) && Passed(s, corr, d)
    ensures Passed(Next(s, BeginTick), corr, d)
  {
    forall t | t in PlanFor(s.lake).active && Closed(s.lake, corr) ensures t.corr != corr {
      PlannedTask(s.lake, t);
    }
  }

  /** A passed row stays passed, and no step mints it. */
  lemma PassedStep(s: State, step: Step, corr: string, d: Delta)
    requires WellFormed(s) && Passed(s, corr, d)
    ensures Passed(Next(s, step), corr, d)
    ensures NotMinted(s, Next(s, step), corr, d)
  {
    match step
    case Append(e) => PassedAppend(s, e, corr, d);
    case Prime(closuresOk, spawnsOk, now) => PassedPrime(s, closuresOk, spawnsOk, now, corr, d);
    case BeginTick => PassedBegin(s, corr, d);
    case ReplyStep(queryOk, fails) =>
      if s.plan.active != [] { PassedReplyStep(s, queryOk, fails, corr, d); }
    case ClosureStep(fails) => PassedClosureStep(s, fails, corr, d);
    case Abort =>
    case Restart =>
  }

  // ---- The run invariant ----

  ghost predicate NoRepeat(intents: seq<Intent>) {
    forall a, b :: 0 <= a < b < |intents| ==>
      intents[a].corr != intents[b].corr || intents[a].source.id != intents[b].source.id
  }

  ghost predicate ClosuresAscend(intents: seq<Intent>) {
    forall a, b ::
      (0 <= a < b < |intents| && intents[a].closure && intents[b].closure && intents[a].corr == intents[b].corr) ==>
        intents[a].source.ts < intents[b].source.ts
  }

  ghost predicate Inv(s: State) {
    && WellFormed(s)
    && NoRepeat(s.ledger.intents)
    && ClosuresAscend(s.ledger.intents)
    && (forall i :: i in s.ledger.intents ==> Accounted(s, i))
  }

  ghost predicate Accounted(s: State, i: Intent) {
    Passed(s, i.corr, i.source) && (i.closure ==> IsClosure(i.corr, i.source))
  }

  /** Every intent a step adds is passed at once, newer than the closures already minted for it, and unlike its
      siblings. */
  lemma MintedAccounted(s: State, step: Step)
    requires WellFormed(s)
    ensures var old_, new_ := s.ledger.intents, Next(s, step).ledger.intents;
      && |old_| <= |new_| && new_[..|old_|] == old_
      && (forall k :: |old_| <= k < |new_| ==> Accounted(Next(s, step), new_[k]))
      && (forall k, l :: |old_| <= k < l < |new_| ==> new_[k].corr != new_[l].corr || new_[k].source != new_[l].source)
      && (forall k :: |old_| <= k < |new_| && new_[k].closure ==>
            |new_| == |old_| + 1 && s.primed && new_[k].source.ts > FloorOf(s.ledger.floor, new_[k].corr))
  {
    match step
    case ReplyStep(queryOk, fails) =>
      if s.plan.active != [] { ReplyStepAccounted(s, queryOk, fails); }
    case ClosureStep(fails) =>
      if s.plan.active == [] && s.plan.closing != [] {
        assert ClosureInLake(s.lake, s.plan.closing[0]);
      }
    case _ =>
  }

  lemma ReplyStepAccounted(s: State, queryOk: bool, fails: set<Intent>)
    requires WellFormed(s) && s.plan.active != []
    ensures var old_, new_ := s.ledger.intents, Next(s, ReplyStep(queryOk, fails)).ledger.intents;
      && |old_| <= |new_| && new_[..|old_|] == old_
      && (forall k :: |old_| <= k < |new_| ==>
           Accounted(Next(s, ReplyStep(queryOk, fails)), new_[k]) && !new_[k].closure)
      && (forall k, l :: |old_| <= k < l < |new_| ==> new_[k].source != new_[l].source)
  {
    var n := Next(s, ReplyStep(queryOk, fails));
    var t := s.plan.active[0];
    var base := |s.ledger.intents|;
    assert t in s.plan.active;
    var start := ScanStart(s.ledger.floor, t);
    ReplyPassMints(s.ledger, t, s.lake, queryOk, fails);
    RepliesReady(s.lake, t, start);
    forall k | base <= k < |n.ledger.intents|
      ensures Accounted(n, n.ledger.intents[k])
      ensures n.ledger.intents[k] == Intent(t.corr, n.ledger.intents[k].source, false)
    {
      assert Mintable(n.ledger.intents[k], t.corr, start, Scanned(s.ledger, t, s.lake, queryOk), fails);
    }
    forall k, l | base <= k < l < |n.ledger.intents| ensures n.ledger.intents[k].source != n.ledger.intents[l].source {
      assert n.ledger.intents[base..][k - base] != n.ledger.intents[base..][l - base];
    }
  }

  /** An intent of before stays accounted for and is not minted again. */
  lemma OldIntentKept(s: State, step: Step, a: nat)
    requires Inv(s) && a < |s.ledger.intents|
    ensures var new_ := Next(s, step).ledger.intents;
      && |s.ledger.intents| <= |new_| && new_[a] == s.ledger.intents[a] && Accounted(Next(s, step), new_[a])
      && forall b :: |s.ledger.intents| <= b < |new_| ==>
        && (new_[a].corr != new_[b].corr || new_[a].source != new_[b].source)
        && (new_[a].closure && new_[b].closure && new_[a].corr == new_[b].corr ==>
              new_[a].source.ts < new_[b].source.ts)
  {
    var old_, new_ := s.ledger.intents, Next(s, step).ledger.intents;
    MintedAccounted(s, step);
    assert new_[a] == new_[..|old_|][a] == old_[a] && old_[a] in old_;
    PassedStep(s, step, old_[a].corr, old_[a].source);
  }

  lemma NoRepeatExtends(n: State, old_: seq<Intent>, new_: seq<Intent>)
    requires WellFormed(n) && |old_| <= |new_| && new_[..|old_|] == old_ && NoRepeat(old_)
    requires forall k :: 0 <= k < |new_| ==> Accounted(n, new_[k])
    requires forall a, b :: 0 <= a < b < |new_| && |old_| <= b ==>
      new_[a].corr != new_[b].corr || new_[a].source != new_[b].source
    ensures NoRepeat(new_)
  {
    forall a, b | 0 <= a < b < |new_|
      ensures new_[a].corr != new_[b].corr || new_[a].source.id != new_[b].source.id
    {
      assert Accounted(n, new_[a]) && Accounted(n, new_[b]);
      if b < |old_| { assert new_[a] == old_[a] && new_[b] == old_[b]; }
    }
  }

  lemma AscendExtends(old_: seq<Intent>, new_: seq<Intent>)
    requires |old_| <= |new_| && new_[..|old_|] == old_ && ClosuresAscend(old_)
    requires forall a, b ::
      (0 <= a < b < |new_| && |old_| <= b && new_[a].closure && new_[b].closure && new_[a].corr == new_[b].corr) ==>
        new_[a].source.ts < new_[b].source.ts
    ensures ClosuresAscend(new_)
  {
    forall a, b | 0 <= a < b < |new_| && new_[a].closure && new_[b].closure && new_[a].corr == new_[b].corr
      ensures new_[a].source.ts < new_[b].source.ts
    {
      if b < |old_| { assert new_[a] == old_[a] && new_[b] == old_[b]; }
    }
  }

  lemma InvStep(s: State, step: Step)
    requires Inv(s)
    ensures Inv(Next(s, step))
  {
    var n := Next(s, step);
    var old_, new_ := s.ledger.intents, n.ledger.intents;
    NextWellFormed(s, step);
    MintedAccounted(s, step);
    forall a | 0 <= a < |old_|
      ensures Accounted(n, new_[a])
      ensures forall b :: |old_| <= b < |new_| ==>
        && (new_[a].corr != new_[b].corr || new_[a].source != new_[b].source)
        && (new_[a].closure && new_[b].closure && new_[a].corr == new_[b].corr ==>
              new_[a].source.ts < new_[b].source.ts)
    {
      OldIntentKept(s, step, a);
    }
    NoRepeatExtends(n, old_, new_);
    AscendExtends(old_, new_);
  }

  lemma {:induction false} RunKeepsInv(s: State, steps: seq<Step>)
    requires Inv(s)
    ensures Inv(Run(s, steps))
    decreases |steps|
  {
    if steps != [] {
      InvStep(s, steps[0]);
      RunKeepsInv(Next(s, steps[0]), steps[1..]);
    }
  }

  // ---- Main results ----

  /** Over every run no (correlation, source row) pair is minted twice, whatever fails and whenever the
      process restarts, and the closures minted for a correlation get strictly newer. */
  lemma AtMostOnce(steps: seq<Step>)
    ensures NoRepeat(Run(INIT, steps).ledger.intents)
    ensures ClosuresAscend(Run(INIT, steps).ledger.intents)
  {
    RunKeepsInv(INIT, steps);
  }

  /** Within one incarnation the floor never falls. */
  lemma FloorNeverFalls(s: State, step: Step, corr: string)
    requires WellFormed(s) && step != Restart
    ensures FloorOf(s.ledger.floor, corr) <= FloorOf(Next(s, step).ledger.floor, corr)
  {
    match step
    case ReplyStep(queryOk, fails) =>
      if s.plan.active != [] { ReplyPassMints(s.ledger, s.plan.active[0], s.lake, queryOk, fails); }
    case Prime(closuresOk, spawnsOk, now) =>
      var raised := RaiseFloor(s.ledger.floor, if closuresOk then Closures(s.lake) else []);
      RaiseFloorEffect(s.ledger.floor, if closuresOk then Closures(s.lake) else [], corr);
      ClampFloorEffect(raised, if spawnsOk then Query(s.lake, ["task-spawn"], 0) else [], now, corr);
    case _ =>
  }

  /** A passed row is never minted again by any run, restarts included. */
  lemma {:induction false} PassedIsFinal(s: State, steps: seq<Step>, corr: string, d: Delta)
    requires WellFormed(s) && Passed(s, corr, d)
    ensures NotMinted(s, Run(s, steps), corr, d)
    decreases |steps|
  {
    if steps != [] {
      var s1, n := Next(s, steps[0]), Run(s, steps);
      PassedStep(s, steps[0], corr, d);
      NextWellFormed(s, steps[0]);
      PassedIsFinal(s1, steps[1..], corr, d);
      NotMintedTrans(s, s1, n, corr, d);
    }
  }

  lemma NotMintedTrans(s: State, s1: State, n: State, corr: string, d: Delta)
    requires NotMinted(s, s1, corr, d) && NotMinted(s1, n, corr, d)
    ensures NotMinted(s, n, corr, d)
  {
    assert n.ledger.intents[..|s.ledger.intents|] == n.ledger.intents[..|s1.ledger.intents|][..|s.ledger.intents|];
    forall k | |s.ledger.intents| <= k < |n.ledger.intents|
      ensures n.ledger.intents[k].corr != corr || n.ledger.intents[k].source != d
    {
      if k < |s1.ledger.intents| { assert n.ledger.intents[k] == n.ledger.intents[..|s1.ledger.intents|][k]; }
    }
  }

  /** No closure already in the lake when the prime succeeds is ever minted afterwards. */
  lemma PrimedClosuresNeverMinted(s: State, now: nat, steps: seq<Step>, corr: string, d: Delta)
    requires WellFormed(s) && !s.primed && s.clock <= now
    requires d in s.lake && IsClosure(corr, d)
    ensures NotMinted(s, Run(Next(s, Prime(true, true, now)), steps), corr, d)
  {
    var n := Next(s, Prime(true, true, now));
    var raised := RaiseFloor(s.ledger.floor, Closures(s.lake));
    ClosuresRaise(s.lake, s.ledger.floor, corr);
    ClampFloorEffect(raised, Query(s.lake, ["task-spawn"], 0), now, corr);
    PassedIsFinal(n, steps, corr, d);
  }

  /** Once a task is closed and no tick that saw it open is still scanning it, every later intent for it is a closure
      intent. */
  lemma {:induction false} RetiredMintsOnlyClosures(s: State, steps: seq<Step>, corr: string)
    requires WellFormed(s) && Retired(s, corr)
    ensures var old_, new_ := s.ledger.intents, Run(s, steps).ledger.intents;
      && |old_| <= |new_| && new_[..|old_|] == old_
      && forall k :: |old_| <= k < |new_| && new_[k].corr == corr ==> new_[k].closure
    decreases |steps|
  {
    if steps != [] {
      var s1, n := Next(s, steps[0]), Run(s, steps);
      NextWellFormed(s, steps[0]);
      MintedAccounted(s, steps[0]);
      RetiredStep(s, steps[0], corr);
      RetiredMintsOnlyClosures(s1, steps[1..], corr);
      forall k | |s.ledger.intents| <= k < |n.ledger.intents| && n.ledger.intents[k].corr == corr
        ensures n.ledger.intents[k].closure
      {
        if k < |s1.ledger.intents| { assert n.ledger.intents[k] == n.ledger.intents[..|s1.ledger.intents|][k]; }
      }
      assert n.ledger.intents[..|s.ledger.intents|] == n.ledger.intents[..|s1.ledger.intents|][..|s.ledger.intents|];
    }
  }

  lemma RetiredReplyStep(s: State, queryOk: bool, fails: set<Intent>, corr: string)
    requires WellFormed(s) && Retired(s, corr) && s.plan.active != []
    ensures var n := Next(s, ReplyStep(queryOk, fails));
      && Retired(n, corr)
      && forall k :: |s.ledger.intents| <= k < |n.ledger.intents| ==> n.ledger.intents[k].corr != corr
  {
    var t, n := s.plan.active[0], Next(s, ReplyStep(queryOk, fails));
    var start, rs := ScanStart(s.ledger.floor, t), Scanned(s.ledger, t, s.lake, queryOk);
    assert t in s.plan.active;
    ReplyPassMints(s.ledger, t, s.lake, queryOk, fails);
    assert forall u :: u in n.plan.active ==> u in s.plan.active;
    forall k | |s.ledger.intents| <= k < |n.ledger.intents| ensures n.ledger.intents[k].corr != corr {
      assert Mintable(n.ledger.intents[k], t.corr, start, rs, fails);
    }
  }

  lemma RetiredStep(s: State, step: Step, corr: string)
    requires WellFormed(s) && Retired(s, corr)
    ensures var n := Next(s, step);
      && Retired(n, corr)
      && forall k :: |s.ledger.intents| <= k < |n.ledger.intents| && n.ledger.intents[k].corr == corr ==>
        n.ledger.intents[k].closure
  {
    NextWellFormed(s, step);
    match step
    case BeginTick =>
      forall t | t in PlanFor(s.lake).active ensures t.corr != corr {
        PlannedTask(s.lake, t);
      }
    case ReplyStep(queryOk, fails) =>
      if s.plan.active != [] { RetiredReplyStep(s, queryOk, fails, corr); }
    case _ =>
  }
}
