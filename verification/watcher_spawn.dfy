/** Where the reply scan of a correlation starts before anything has been minted for it. */
module WatcherSpawn {
  import opened Sequences
  import opened Watcher
  import opened WatcherRuns
  import opened WatcherTick
  import Text

  /** A spawn row that names the correlation and a session to watch for it. */
  predicate SpawnOf(sp: Delta, corr: string) {
    && "task-spawn" in sp.tags
    && corr != "" && Text.TagValue(sp.tags, "task-corr:") == corr
    && Text.TagValue(sp.tags, "helper-session:") != ""
  }

  /** Row `k` is the last spawn row of the correlation. */
  ghost predicate LastSpawn(lake: seq<Delta>, corr: string, k: nat) {
    k < |lake| && SpawnOf(lake[k], corr) && forall j :: k < j < |lake| ==> !SpawnOf(lake[j], corr)
  }

  // ---- The plan's task comes from the last spawn row ----

  lemma {:induction false} TaskStays(p: Plan, spawns: seq<Delta>, cs: map<string, Delta>, t: Task)
    requires t in p.active || t in p.closing
    ensures t in AddSpawns(p, spawns, cs).active || t in AddSpawns(p, spawns, cs).closing
    decreases |spawns|
  {
    if spawns != [] { TaskStays(AddSpawn(p, spawns[0], cs), spawns[1..], cs, t); }
  }

  /** The first usable spawn row of a correlation not yet planned makes its task. */
  lemma {:induction false} FirstSpawnWins(p: Plan, spawns: seq<Delta>, cs: map<string, Delta>, corr: string, i: nat)
    requires !Planned(p, corr) && i < |spawns| && Usable(spawns[i]) && Corr(spawns[i]) == corr
    requires forall j :: 0 <= j < i ==> !(Usable(spawns[j]) && Corr(spawns[j]) == corr)
    ensures var t, q := TaskOf(spawns[i], cs), AddSpawns(p, spawns, cs);
      t in q.active || t in q.closing
    decreases |spawns|
  {
    var q := AddSpawn(p, spawns[0], cs);
    if i == 0 {
      TaskStays(q, spawns[1..], cs, TaskOf(spawns[0], cs));
    } else {
      FirstSpawnWins(q, spawns[1..], cs, corr, i - 1);
    }
  }

  /** The row stands after row `k`. */
  ghost predicate Follows(lake: seq<Delta>, k: nat, d: Delta) { exists l :: k < l < |lake| && lake[l] == d }

  /** In `r` only later rows come before row `k`, which stands at `i`. */
  ghost predicate LaterFirst(lake: seq<Delta>, k: nat, r: seq<Delta>, i: nat) {
    k < |lake| && i < |r| && r[i] == lake[k] && forall j :: 0 <= j < i ==> Follows(lake, k, r[j])
  }

  lemma StillFollows(init: seq<Delta>, last: Delta, k: nat, d: Delta)
    requires Follows(init, k, d)
    ensures Follows(init + [last], k, d)
  {
    var l :| k < l < |init| && init[l] == d;
    assert (init + [last])[l] == d;
  }

  lemma LaterStays(init: seq<Delta>, last: Delta, k: nat, r: seq<Delta>, i: nat)
    requires LaterFirst(init, k, r, i)
    ensures LaterFirst(init + [last], k, r, i) && LaterFirst(init + [last], k, [last] + r, i + 1)
  {
    var lake := init + [last];
    forall j | 0 <= j < i ensures Follows(lake, k, r[j]) { StillFollows(init, last, k, r[j]); }
    assert lake[|init|] == last;
    forall j | 0 <= j < i + 1 ensures Follows(lake, k, ([last] + r)[j]) {
      if j > 0 { assert ([last] + r)[j] == r[j - 1]; }
    }
  }

  lemma TurnedStep(kept: seq<Delta>, last: Delta)
    ensures Reverse(kept + [last]) == [last] + Reverse(kept)
  {
    assert (kept + [last])[..|kept|] == kept;
  }

  /** Filtering and turning round puts only later rows before row `k`. */
  lemma {:induction false} KeptAt(p: Delta -> bool, lake: seq<Delta>, k: nat) returns (i: nat)
    requires k < |lake| && p(lake[k])
    ensures LaterFirst(lake, k, Reverse(Filter(p, lake)), i)
    decreases |lake|
  {
    var init, last := lake[..|lake| - 1], lake[|lake| - 1];
    TurnedStep(Filter(p, init), last);
    if k == |lake| - 1 {
      i := 0;
    } else {
      i := KeptAt(p, init, k);
      LaterStays(init, last, k, Reverse(Filter(p, init)), i);
      assert lake == init + [last];
      if p(last) { i := i + 1; }
    }
  }

  /** The query answers newest first. */
  lemma LastIsQueriedFirst(lake: seq<Delta>, corr: string, k: nat) returns (i: nat)
    requires LastSpawn(lake, corr, k)
    ensures var spawns := Query(lake, ["task-spawn"], 0);
      && i < |spawns| && spawns[i] == lake[k]
      && forall j :: 0 <= j < i ==> !(Usable(spawns[j]) && Corr(spawns[j]) == corr)
  {
    var wanted, start: nat := ["task-spawn"], 0;
    i := KeptAt((d: Delta) => Carries(wanted, d) && d.ts >= start, lake, k);
    var spawns := Query(lake, wanted, start);
    forall j | 0 <= j < i ensures !(Usable(spawns[j]) && Corr(spawns[j]) == corr) {
      assert spawns[j] in spawns;
      LaterIsNoSpawn(lake, corr, k, spawns[j]);
    }
  }

  lemma LaterIsNoSpawn(lake: seq<Delta>, corr: string, k: nat, d: Delta)
    requires LastSpawn(lake, corr, k) && Follows(lake, k, d) && Carries(["task-spawn"], d)
    ensures !(Usable(d) && Corr(d) == corr)
  {
    var l :| k < l < |lake| && lake[l] == d;
    assert !SpawnOf(lake[l], corr);
    assert ["task-spawn"][0] == "task-spawn";
  }

  /** An open correlation's task watches the session its last spawn row names, from that row on. */
  lemma OpenTask(lake: seq<Delta>, corr: string, k: nat) returns (t: Task)
    requires LastSpawn(lake, corr, k) && !Closed(lake, corr)
    ensures t in PlanFor(lake).active && t.corr == corr
    ensures t.sid == Text.TagValue(lake[k].tags, "helper-session:") && t.spawnTs == lake[k].ts
    ensures forall u :: u in PlanFor(lake).active && u.corr == corr ==> u == t
    ensures forall u :: u in PlanFor(lake).closing ==> u.corr != corr
  {
    var i := LastIsQueriedFirst(lake, corr, k);
    var spawns, cs := Query(lake, ["task-spawn"], 0), NewestClosures(lake);
    FirstSpawnWins(NOTHING, spawns, cs, corr, i);
    t := TaskOf(spawns[i], cs);
    if t in PlanFor(lake).closing { PlannedTask(lake, t); }
    SameCorrSameTask(lake, t);
    OthersClose(lake, t);
  }

  // ---- What a tick mints for an open correlation ----

  lemma RepliesTags(sid: string, r: Delta)
    ensures Carries(["assistant", "session:" + sid], r) <==> "assistant" in r.tags && "session:" + sid in r.tags
  {
    assert ["assistant", "session:" + sid][0] == "assistant" && ["assistant", "session:" + sid][1] == "session:" + sid;
  }

  /** Main result on replies: a tick mints a row for an open correlation exactly when the row is a non-blank reply of
      the session its last spawn row names, newer than the correlation's floor or, before it has one, newer than that
      spawn row; a failing query or write withholds it. */
  lemma ReplyMintedIff(m: Ledger, lake: seq<Delta>, corr: string, k: nat, r: Delta, down: set<string>,
                       fails: set<Intent>)
    requires NoDup(lake) && LastSpawn(lake, corr, k) && !Closed(lake, corr)
    ensures var n, i := TickLedger(m, lake, down, fails), Intent(corr, r, false);
      && |m.intents| <= |n.intents|
      && (i in n.intents[|m.intents|..] <==>
            && r in lake && "assistant" in r.tags
            && "session:" + Text.TagValue(lake[k].tags, "helper-session:") in r.tags
            && Text.Strip(r.content) != ""
            && r.ts > (if corr in m.floor then m.floor[corr] else lake[k].ts)
            && corr !in down && i !in fails)
  {
    var t := OpenTask(lake, corr, k);
    TickMintsExactlyWhatIsDue(m, lake, down, fails, Intent(corr, r, false));
    RepliesTags(t.sid, r);
    DueOfTask(m.floor, lake, t, r, down, fails);
  }

  lemma DueOfTask(floor: map<string, nat>, lake: seq<Delta>, t: Task, r: Delta, down: set<string>, fails: set<Intent>)
    requires t in PlanFor(lake).active && forall u :: u in PlanFor(lake).active && u.corr == t.corr ==> u == t
    ensures var i := Intent(t.corr, r, false);
      (exists u :: u in PlanFor(lake).active && ReplyDue(i, u, floor, lake, down, fails))
      || (exists u :: u in PlanFor(lake).closing && ClosureDue(i, u, floor, fails))
      <==> ReplyDue(i, t, floor, lake, down, fails)
  {
  }

  // ---- What a tick mints for a closed correlation ----

  /** A row that says the correlation's task is complete or abandoned. */
  predicate Closes(c: Delta, corr: string) {
    && corr != "" && Text.TagValue(c.tags, "task-corr:") == corr
    && ("task-complete" in c.tags || "task-abandoned" in c.tags)
  }

  /** A tick mints the newest closure of a spawned correlation, and no other, exactly when it has content and an id and
      lies above the floor, if there is one, and its write succeeds. */
  lemma ClosureMintedIff(m: Ledger, lake: seq<Delta>, corr: string, k: nat, c: Delta, d: Delta, down: set<string>,
                         fails: set<Intent>)
    requires NoDup(lake) && LastSpawn(lake, corr, k) && c in lake && Closes(c, corr)
    requires forall e :: e in lake && Closes(e, corr) && e != c ==> e.ts < c.ts
    ensures var n, i := TickLedger(m, lake, down, fails), Intent(corr, d, true);
      && |m.intents| <= |n.intents|
      && (i in n.intents[|m.intents|..] <==>
            d == c && c.id != "" && Text.Strip(c.content) != ""
            && (corr in m.floor ==> c.ts > m.floor[corr]) && i !in fails)
  {
    assert forall e :: Closes(e, corr) <==> IsClosure(corr, e);
    assert SpawnOf(lake[k], corr) && UsablySpawned(lake, corr);
    var t := NewestIsPlanned(lake, corr, c);
    TickMintsExactlyWhatIsDue(m, lake, down, fails, Intent(corr, d, true));
    ClosureDueOf(m.floor, PlanFor(lake).closing, t, d, fails);
  }

  lemma ClosureDueOf(floor: map<string, nat>, closing: seq<Task>, t: Task, d: Delta, fails: set<Intent>)
    requires t in closing && t.closure.Some?
    requires forall u :: u in closing && u.corr == t.corr ==> u.closure == t.closure
    ensures var i, c := Intent(t.corr, d, true), t.closure.value;
      (exists u :: u in closing && ClosureDue(i, u, floor, fails)) <==>
        d == c && c.id != "" && Text.Strip(c.content) != ""
        && (t.corr in floor ==> c.ts > floor[t.corr]) && i !in fails
  {
    var i := Intent(t.corr, d, true);
    assert ClosureDue(i, t, floor, fails) <==> (exists u :: u in closing && ClosureDue(i, u, floor, fails));
  }

  /** A closed task's own pass alone moves its floor. */
  lemma {:induction false} ClosurePassesFloor(m: Ledger, ts: seq<Task>, t: Task, c: Delta, fails: set<Intent>)
    requires DistinctCorrs(ts) && t in ts && t.closure == Some(c)
    ensures FloorOf(ClosurePasses(m, ts, fails).floor, t.corr) == FloorAfter(FloorOf(m.floor, t.corr), t.corr, c, fails)
    decreases |ts|
  {
    var m1 := ClosurePass(m, ts[0], fails);
    if t == ts[0] {
      forall u | u in ts[1..] ensures u.corr != t.corr {
        var j :| 0 <= j < |ts[1..]| && ts[1..][j] == u;
        assert ts[j + 1] == u;
      }
      ClosurePassesFrame(m1, ts[1..], fails, t.corr);
    } else {
      var k :| 0 <= k < |ts| && ts[k] == t;
      assert ts[1..][k - 1] == t && ts[0].corr != ts[k].corr;
      ClosurePassesFloor(m1, ts[1..], t, c, fails);
    }
  }

  /** A closure without an id, and one whose write fails, leave the floor; any other raises it, a blank one too. */
  function FloorAfter(floor: int, corr: string, c: Delta, fails: set<Intent>): int {
    if c.id == "" || (Text.Strip(c.content) != "" && Intent(corr, c, true) in fails) || floor >= c.ts then floor
    else c.ts
  }

  /** Where a tick leaves the floor of a closed correlation. */
  lemma ClosedFloorIs(m: Ledger, lake: seq<Delta>, corr: string, k: nat, c: Delta, down: set<string>,
                      fails: set<Intent>)
    requires NoDup(lake) && LastSpawn(lake, corr, k) && c in lake && Closes(c, corr)
    requires forall e :: e in lake && Closes(e, corr) && e != c ==> e.ts < c.ts
    ensures FloorOf(TickLedger(m, lake, down, fails).floor, corr)
      == FloorAfter(FloorOf(m.floor, corr), corr, c, fails)
  {
    assert forall e :: Closes(e, corr) <==> IsClosure(corr, e);
    assert SpawnOf(lake[k], corr) && UsablySpawned(lake, corr);
    var t := NewestIsPlanned(lake, corr, c);
    var p := PlanFor(lake);
    PlanForOk(lake);
    forall u | u in p.active ensures u.corr != corr { OthersClose(lake, u); }
    ReplyPassesDue(m, p.active, lake, down, fails);
    ClosurePassesFloor(ReplyPasses(m, p.active, lake, down, fails), p.closing, t, c, fails);
  }

  // ---- Where a prime puts the floor ----

  /** Some row of the lake closes the correlation. */
  ghost predicate ClosedBy(lake: seq<Delta>, corr: string, ts: int) {
    exists c :: c in lake && Closes(c, corr) && c.ts == ts
  }

  lemma {:induction false} RaisedTo(floor: map<string, nat>, cs: seq<Delta>, corr: string)
    requires corr != ""
    ensures var f := FloorOf(RaiseFloor(floor, cs), corr);
      f == FloorOf(floor, corr) || exists c :: c in cs && Corr(c) == corr && c.ts == f
    decreases |cs|
  {
    if cs != [] {
      HeadIsMember(cs);
      RaisedTo(RaiseOne(floor, cs[0]), cs[1..], corr);
      assert forall c :: c in cs[1..] ==> c in cs;
    }
  }

  lemma RaisedToClosure(floor: map<string, nat>, lake: seq<Delta>, corr: string)
    requires corr != ""
    ensures var f := FloorOf(RaiseFloor(floor, Closures(lake)), corr);
      && FloorOf(floor, corr) <= f
      && (f == FloorOf(floor, corr) || ClosedBy(lake, corr, f))
      && forall ts :: ClosedBy(lake, corr, ts) ==> ts <= f
  {
    var cs := Closures(lake);
    ClosureMembers(lake);
    RaisedTo(floor, cs, corr);
    ClosuresRaise(lake, floor, corr);
    assert forall c :: Closes(c, corr) <==> IsClosure(corr, c);
    var f := FloorOf(RaiseFloor(floor, cs), corr);
    if f != FloorOf(floor, corr) {
      var c :| c in cs && Corr(c) == corr && c.ts == f;
      assert c in lake && Closes(c, corr);
    }
  }

  /** A prime raises a correlation's floor to its newest closure, and clamps a spawned correlation that has neither a
      floor nor a closure to the clock; no other correlation gets a floor, and a failed query adds nothing. */
  lemma PrimedFloorIs(floor: map<string, nat>, lake: seq<Delta>, closuresOk: bool, spawnsOk: bool, now: nat,
                      corr: string)
    requires corr != ""
    ensures var f := PrimeFloor(floor, lake, closuresOk, spawnsOk, now);
      var held := corr in floor || (closuresOk && exists ts :: ClosedBy(lake, corr, ts));
      && (held ==> corr in f && FloorOf(floor, corr) <= f[corr])
      && (held ==> f[corr] == FloorOf(floor, corr) || (closuresOk && ClosedBy(lake, corr, f[corr])))
      && (held && closuresOk ==> forall ts :: ClosedBy(lake, corr, ts) ==> ts <= f[corr])
      && (!held && corr in f ==> f[corr] == now)
      && (!held ==> (corr in f <==> spawnsOk && Spawned(lake, corr)))
  {
    var raised := RaiseFloor(floor, if closuresOk then Closures(lake) else []);
    var spawns := if spawnsOk then Query(lake, ["task-spawn"], 0) else [];
    if closuresOk { RaisedToClosure(floor, lake, corr); }
    ClampFloorEffect(raised, spawns, now, corr);
    if corr !in raised && corr in ClampFloor(raised, spawns, now) { ClampedAre(raised, spawns, now, corr); }
    SpawnRows(lake);
    if spawnsOk && Spawned(lake, corr) { SpawnsClamp(lake, raised, now, corr); }
  }

  lemma {:induction false} ClampedAre(floor: map<string, nat>, spawns: seq<Delta>, now: nat, corr: string)
    requires corr !in floor && corr in ClampFloor(floor, spawns, now)
    ensures exists s :: s in spawns && Corr(s) == corr
    decreases |spawns|
  {
    if spawns != [] {
      HeadIsMember(spawns);
      if Corr(spawns[0]) != corr { ClampedAre(ClampOne(floor, spawns[0], now), spawns[1..], now, corr); }
    }
  }

  // ---- The same over runs ----

  lemma OrderedAppend(lake: seq<Delta>, d: Delta, clock: nat)
    requires SortedBy(Ts, lake) && (forall e :: e in lake ==> e.ts <= clock) && clock <= d.ts
    ensures SortedBy(Ts, lake + [d])
  {
    forall i | 0 <= i < |lake| ensures Ts(lake[i]) <= Ts(d) { assert lake[i] in lake; }
  }

  /** The lake stays in the order of its timestamps. */
  lemma {:induction false} RunKeepsOrder(s: State, steps: seq<Step>)
    requires WellFormed(s) && SortedBy(Ts, s.lake)
    ensures SortedBy(Ts, Run(s, steps).lake)
    decreases |steps|
  {
    if steps != [] {
      if steps[0].Append? && s.clock <= steps[0].d.ts { OrderedAppend(s.lake, steps[0].d, s.clock); }
      NextWellFormed(s, steps[0]);
      RunKeepsOrder(Next(s, steps[0]), steps[1..]);
    }
  }

  /** Above the last spawn row means above all of them. */
  lemma LastIsNewest(lake: seq<Delta>, corr: string, k: nat, r: Delta)
    requires SortedBy(Ts, lake) && LastSpawn(lake, corr, k)
    ensures r.ts > lake[k].ts <==> forall sp :: sp in lake && SpawnOf(sp, corr) ==> r.ts > sp.ts
  {
    assert lake[k] in lake;
    forall sp | sp in lake && SpawnOf(sp, corr) ensures sp.ts <= lake[k].ts {
      var j :| 0 <= j < |lake| && lake[j] == sp;
      assert j < k ==> Ts(lake[j]) <= Ts(lake[k]);
    }
  }

  /** A reply of the session the last spawn row names. */
  ghost predicate ReplyTo(lake: seq<Delta>, k: nat, r: Delta)
    requires k < |lake|
  {
    && r in lake && "assistant" in r.tags && Text.Strip(r.content) != ""
    && "session:" + Text.TagValue(lake[k].tags, "helper-session:") in r.tags
  }

  lemma FirstTick(s: State, corr: string, k: nat, r: Delta)
    requires WellFormed(s) && SortedBy(Ts, s.lake) && corr !in s.ledger.floor
    requires LastSpawn(s.lake, corr, k) && !Closed(s.lake, corr) && ReplyTo(s.lake, k, r)
    ensures var m := TickLedger(s.ledger, s.lake, {}, {});
      && |s.ledger.intents| <= |m.intents|
      && (Intent(corr, r, false) in m.intents[|s.ledger.intents|..] <==>
            forall sp :: sp in s.lake && SpawnOf(sp, corr) ==> r.ts > sp.ts)
  {
    ReplyMintedIff(s.ledger, s.lake, corr, k, r, {}, {});
    LastIsNewest(s.lake, corr, k, r);
  }

  /** In every run, the first failure-free tick to scan a correlation without a floor mints a non-blank reply of its
      session exactly when the reply is newer than every spawn row of the correlation. */
  lemma FirstScanStartsAtSpawn(steps: seq<Step>, s: State, corr: string, k: nat, r: Delta)
    requires s == Run(INIT, steps) && s.primed && s.plan == NOTHING && corr !in s.ledger.floor
    requires LastSpawn(s.lake, corr, k) && !Closed(s.lake, corr) && ReplyTo(s.lake, k, r)
    ensures var n := Run(s, [BeginTick] + TickSteps(PlanFor(s.lake), {}, {}));
      && |s.ledger.intents| <= |n.ledger.intents|
      && (Intent(corr, r, false) in n.ledger.intents[|s.ledger.intents|..] <==>
            forall sp :: sp in s.lake && SpawnOf(sp, corr) ==> r.ts > sp.ts)
  {
    RunKeepsInv(INIT, steps);
    RunKeepsOrder(INIT, steps);
    TickIsItsSteps(s, {}, {});
    FirstTick(s, corr, k, r);
  }
}
