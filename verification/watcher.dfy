/** The helper-reply watcher: `_last_minted` is a floor per correlation, rebuilt from the
    lake after a restart, and every tick mints intents strictly above it. */
module Watcher {
  import opened Sequences
  import Text

  // ---- The lake ----

  /** A lake row: server-assigned id and timestamp, tags, content. */
  datatype Delta = Delta(id: string, ts: nat, tags: seq<string>, content: string)

  function Ts(d: Delta): int { d.ts }

  function NegTs(d: Delta): int { 0 - d.ts as int }

  function Corr(d: Delta): string { Text.TagValue(d.tags, "task-corr:") }

  function Session(d: Delta): string { Text.TagValue(d.tags, "helper-session:") }

  predicate Blank(d: Delta) { Text.Strip(d.content) == "" }

  predicate Carries(wanted: seq<string>, d: Delta) {
    forall t :: t in wanted ==> t in d.tags
  }

  /** `delta_client.query(tags_include=..., time_start=...)`: newest first, start inclusive, no limit. */
  function Query(lake: seq<Delta>, wanted: seq<string>, start: nat): seq<Delta> {
    Reverse(Filter((d: Delta) => Carries(wanted, d) && d.ts >= start, lake))
  }

  /** `d` closes the correlation `corr`: the helper's own wrap-up, or the report that its window died. */
  predicate IsClosure(corr: string, d: Delta) {
    corr != "" && Corr(d) == corr && ("task-complete" in d.tags || "task-abandoned" in d.tags)
  }

  ghost predicate Closed(lake: seq<Delta>, corr: string) {
    exists d :: d in lake && IsClosure(corr, d)
  }

  ghost predicate Spawned(lake: seq<Delta>, corr: string) {
    corr != "" && exists d :: d in lake && "task-spawn" in d.tags && Corr(d) == corr
  }

  // ---- Correlation state ----

  /** A spawned task; `closure` is its newest closure, if any has landed. */
  datatype Task = Task(corr: string, sid: string, spawnTs: nat, closure: Option<Delta>)

  datatype Plan = Plan(active: seq<Task>, closing: seq<Task>)

  const NOTHING := Plan([], [])

  function Closures(lake: seq<Delta>): seq<Delta> {
    Query(lake, ["task-complete"], 0) + Query(lake, ["task-abandoned"], 0)
  }

  /** First closure per correlation in `cs`, on top of those already found. */
  function FirstPerCorr(found: map<string, Delta>, cs: seq<Delta>): map<string, Delta>
    decreases |cs|
  {
    if cs == [] then found
    else
      var corr := Corr(cs[0]);
      FirstPerCorr(if corr != "" && corr !in found then found[corr := cs[0]] else found, cs[1..])
  }

  function NewestClosures(lake: seq<Delta>): map<string, Delta> {
    FirstPerCorr(map[], Sort(NegTs, Closures(lake)))
  }

  predicate Usable(s: Delta) { Corr(s) != "" && Session(s) != "" }

  function TaskOf(s: Delta, closures: map<string, Delta>): Task {
    Task(Corr(s), Session(s), s.ts, if Corr(s) in closures then Some(closures[Corr(s)]) else None)
  }

  predicate Planned(p: Plan, corr: string) {
    (exists t :: t in p.active && t.corr == corr) || (exists t :: t in p.closing && t.corr == corr)
  }

  function AddSpawn(p: Plan, s: Delta, closures: map<string, Delta>): Plan {
    if !Usable(s) || Planned(p, Corr(s)) then p
    else
      var t := TaskOf(s, closures);
      if t.closure.Some? then p.(closing := p.closing + [t]) else p.(active := p.active + [t])
  }

  function AddSpawns(p: Plan, spawns: seq<Delta>, closures: map<string, Delta>): Plan
    decreases |spawns|
  {
    if spawns == [] then p else AddSpawns(AddSpawn(p, spawns[0], closures), spawns[1..], closures)
  }

  /** What `_correlation_state` returns on a lake snapshot. */
  function PlanFor(lake: seq<Delta>): Plan {
    AddSpawns(NOTHING, Query(lake, ["task-spawn"], 0), NewestClosures(lake))
  }

  // ---- Minting ----

  /** An intent written to the puddle, with the lake row it was minted from. */
  datatype Intent = Intent(corr: string, source: Delta, closure: bool)

  datatype Ledger = Ledger(floor: map<string, nat>, intents: seq<Intent>)

  function FloorOf(floor: map<string, nat>, corr: string): int {
    if corr in floor then floor[corr] else -1
  }

  /** Where the reply scan for `t` starts: the floor, or the spawn itself the first time. */
  function ScanStart(floor: map<string, nat>, t: Task): nat {
    if t.corr in floor then floor[t.corr] else t.spawnTs
  }

  function Replies(lake: seq<Delta>, t: Task, start: nat): seq<Delta> {
    Sort(Ts, Query(lake, ["assistant", "session:" + t.sid], start))
  }

  /** One reply; a write listed in `fails` raises and leaves both the floor and the puddle alone. */
  function MintReply(m: Ledger, corr: string, start: nat, r: Delta, fails: set<Intent>): Ledger {
    if r.ts <= start || Blank(r) || Intent(corr, r, false) in fails then m
    else Ledger(m.floor[corr := r.ts], m.intents + [Intent(corr, r, false)])
  }

  function MintReplies(m: Ledger, corr: string, start: nat, rs: seq<Delta>, fails: set<Intent>): Ledger
    decreases |rs|
  {
    if rs == [] then m else MintReplies(MintReply(m, corr, start, rs[0], fails), corr, start, rs[1..], fails)
  }

  function ReplyPass(m: Ledger, t: Task, lake: seq<Delta>, queryOk: bool, fails: set<Intent>): Ledger {
    if !queryOk then m
    else
      var start := ScanStart(m.floor, t);
      MintReplies(m, t.corr, start, Replies(lake, t, start), fails)
  }

  function ClosurePass(m: Ledger, t: Task, fails: set<Intent>): Ledger {
    match t.closure
    case None => m
    case Some(c) =>
      if c.id == "" || FloorOf(m.floor, t.corr) >= c.ts then m
      else if Blank(c) then m.(floor := m.floor[t.corr := c.ts])
      else if Intent(t.corr, c, true) in fails then m
      else Ledger(m.floor[t.corr := c.ts], m.intents + [Intent(t.corr, c, true)])
  }

  function ReplyPasses(m: Ledger, ts: seq<Task>, lake: seq<Delta>, down: set<string>, fails: set<Intent>): Ledger
    decreases |ts|
  {
    if ts == [] then m
    else ReplyPasses(ReplyPass(m, ts[0], lake, ts[0].corr !in down, fails), ts[1..], lake, down, fails)
  }

  function ClosurePasses(m: Ledger, ts: seq<Task>, fails: set<Intent>): Ledger
    decreases |ts|
  {
    if ts == [] then m else ClosurePasses(ClosurePass(m, ts[0], fails), ts[1..], fails)
  }

  /** One whole tick on a lake snapshot. */
  function TickLedger(m: Ledger, lake: seq<Delta>, down: set<string>, fails: set<Intent>): Ledger {
    var plan := PlanFor(lake);
    ClosurePasses(ReplyPasses(m, plan.active, lake, down, fails), plan.closing, fails)
  }

  // ---- Priming after a restart ----

  function RaiseOne(floor: map<string, nat>, c: Delta): map<string, nat> {
    if Corr(c) != "" && c.ts > FloorOf(floor, Corr(c)) then floor[Corr(c) := c.ts] else floor
  }

  function RaiseFloor(floor: map<string, nat>, cs: seq<Delta>): map<string, nat>
    decreases |cs|
  {
    if cs == [] then floor else RaiseFloor(RaiseOne(floor, cs[0]), cs[1..])
  }

  function ClampOne(floor: map<string, nat>, s: Delta, now: nat): map<string, nat> {
    if Corr(s) != "" && Corr(s) !in floor then floor[Corr(s) := now] else floor
  }

  function ClampFloor(floor: map<string, nat>, spawns: seq<Delta>, now: nat): map<string, nat>
    decreases |spawns|
  {
    if spawns == [] then floor else ClampFloor(ClampOne(floor, spawns[0], now), spawns[1..], now)
  }

  /** One `_prime_last_minted` attempt; a failed query counts as an empty answer. */
  function PrimeFloor(floor: map<string, nat>, lake: seq<Delta>, closuresOk: bool, spawnsOk: bool, now: nat):
    map<string, nat>
  {
    var raised := RaiseFloor(floor, if closuresOk then Closures(lake) else []);
    ClampFloor(raised, if spawnsOk then Query(lake, ["task-spawn"], 0) else [], now)
  }

  // ---- What a plan says about the lake ----

  lemma QueryMembers(lake: seq<Delta>, wanted: seq<string>, start: nat)
    ensures forall d :: d in Query(lake, wanted, start) <==> d in lake && Carries(wanted, d) && d.ts >= start
  {
  }

  lemma ClosureMembers(lake: seq<Delta>)
    ensures forall d, corr :: corr != "" && Corr(d) == corr ==>
      (d in Closures(lake) <==> d in lake && IsClosure(corr, d))
  {
    forall d, corr | corr != "" && Corr(d) == corr
      ensures d in Closures(lake) <==> d in lake && IsClosure(corr, d)
    {
      assert Carries(["task-complete"], d) <==> "task-complete" in d.tags;
      assert Carries(["task-abandoned"], d) <==> "task-abandoned" in d.tags;
    }
  }

  lemma {:induction false} FoundStays(found: map<string, Delta>, cs: seq<Delta>, corr: string)
    requires corr in found
    ensures corr in FirstPerCorr(found, cs) && FirstPerCorr(found, cs)[corr] == found[corr]
    decreases |cs|
  {
    if cs != [] {
      var c := cs[0];
      FoundStays(if Corr(c) != "" && Corr(c) !in found then found[Corr(c) := c] else found, cs[1..], corr);
    }
  }

  lemma {:induction false} FirstPerCorrIsNewest(found: map<string, Delta>, cs: seq<Delta>, corr: string)
    requires SortedBy(NegTs, cs) && corr !in found
    ensures corr in FirstPerCorr(found, cs) <==> corr != "" && exists c :: c in cs && Corr(c) == corr
    ensures corr in FirstPerCorr(found, cs) ==>
      var r := FirstPerCorr(found, cs)[corr];
      r in cs && Corr(r) == corr && forall c :: c in cs && Corr(c) == corr ==> c.ts <= r.ts
    decreases |cs|
  {
    if cs != [] {
      var c := cs[0];
      var found' := if Corr(c) != "" && Corr(c) !in found then found[Corr(c) := c] else found;
      SortedTail(NegTs, cs);
      assert forall d :: d in cs <==> d == c || d in cs[1..];
      if corr in found' {
        FoundStays(found', cs[1..], corr);
        assert forall d :: d in cs[1..] ==> NegTs(c) <= NegTs(d);
      } else {
        FirstPerCorrIsNewest(found', cs[1..], corr);
      }
    }
  }

  /** The closure kept for a correlation is the newest of its complete and abandoned rows. */
  lemma NewestClosureWins(lake: seq<Delta>, corr: string)
    ensures corr in NewestClosures(lake) <==> Closed(lake, corr)
    ensures corr in NewestClosures(lake) ==>
      var c := NewestClosures(lake)[corr];
      && c in lake && IsClosure(corr, c)
      && forall d :: d in lake && IsClosure(corr, d) ==> d.ts <= c.ts
  {
    var cs := Closures(lake);
    var sorted := Sort(NegTs, cs);
    SortMembers(NegTs, cs);
    ClosureMembers(lake);
    FirstPerCorrIsNewest(map[], sorted, corr);
  }

  /** What holds of a plan built from the spawns in `done`. */
  ghost predicate PlanOk(p: Plan, done: seq<Delta>, closures: map<string, Delta>) {
    && (forall t :: t in p.active ==> t.closure == None)
    && (forall t :: t in p.closing ==> t.closure.Some?)
    && (forall t :: t in p.active || t in p.closing ==> FromNewestSpawn(t, done, closures))
    && (forall s :: s in done && Usable(s) ==> Planned(p, Corr(s)))
    && (forall i, j :: 0 <= i < j < |p.active| ==> p.active[i].corr != p.active[j].corr)
    && (forall i, j :: 0 <= i < j < |p.closing| ==> p.closing[i].corr != p.closing[j].corr)
  }

  /** `t` was built from a spawn in `done`, the newest one of its correlation when `done` is newest first. */
  ghost predicate FromNewestSpawn(t: Task, done: seq<Delta>, closures: map<string, Delta>) {
    exists s :: s in done && Usable(s) && t == TaskOf(s, closures) && Newest(s, done)
  }

  ghost predicate Newest(s: Delta, done: seq<Delta>) {
    SortedBy(NegTs, done) ==> forall d :: d in done && Usable(d) && Corr(d) == Corr(s) ==> d.ts <= s.ts
  }

  lemma StaysNewest(s0: Delta, done: seq<Delta>, s: Delta)
    requires s0 in done && Newest(s0, done)
    ensures Newest(s0, done + [s])
  {
    if SortedBy(NegTs, done + [s]) {
      forall i, j | 0 <= i < j < |done| ensures NegTs(done[i]) <= NegTs(done[j]) {
        assert (done + [s])[i] == done[i] && (done + [s])[j] == done[j];
      }
      var k :| 0 <= k < |done| && done[k] == s0;
      assert NegTs((done + [s])[k]) <= NegTs((done + [s])[|done|]);
    }
  }

  lemma AddedFromNewest(p: Plan, done: seq<Delta>, s: Delta, closures: map<string, Delta>, u: Task)
    requires PlanOk(p, done, closures)
    requires u in AddSpawn(p, s, closures).active || u in AddSpawn(p, s, closures).closing
    ensures FromNewestSpawn(u, done + [s], closures)
  {
    if u in p.active || u in p.closing {
      var s0 :| s0 in done && Usable(s0) && u == TaskOf(s0, closures) && Newest(s0, done);
      StaysNewest(s0, done, s);
      assert s0 in done + [s];
    } else {
      assert u == TaskOf(s, closures) && Newest(s, done + [s]) && s in done + [s];
    }
  }

  lemma AddedPlanned(p: Plan, done: seq<Delta>, s: Delta, closures: map<string, Delta>, d: Delta)
    requires PlanOk(p, done, closures) && d in done + [s] && Usable(d)
    ensures Planned(AddSpawn(p, s, closures), Corr(d))
  {
    var q, t := AddSpawn(p, s, closures), TaskOf(s, closures);
    if d in done {
      StillPlanned(p, s, closures, Corr(d));
    } else if Planned(p, Corr(s)) {
      StillPlanned(p, s, closures, Corr(s));
    } else {
      assert t in q.active || t in q.closing;
    }
  }

  /** An added task has a correlation of its own, and goes where its closure says. */
  lemma AddedApart(p: Plan, done: seq<Delta>, s: Delta, closures: map<string, Delta>)
    requires PlanOk(p, done, closures)
    ensures var q := AddSpawn(p, s, closures);
      && (forall t :: t in q.active ==> t.closure == None)
      && (forall t :: t in q.closing ==> t.closure.Some?)
      && (forall i, j :: 0 <= i < j < |q.active| ==> q.active[i].corr != q.active[j].corr)
      && (forall i, j :: 0 <= i < j < |q.closing| ==> q.closing[i].corr != q.closing[j].corr)
  {
    if !Planned(p, Corr(s)) {
      forall i | 0 <= i < |p.active| ensures p.active[i].corr != Corr(s) { assert p.active[i] in p.active; }
      forall i | 0 <= i < |p.closing| ensures p.closing[i].corr != Corr(s) { assert p.closing[i] in p.closing; }
    }
  }

  lemma AddSpawnOk(p: Plan, done: seq<Delta>, s: Delta, closures: map<string, Delta>)
    requires PlanOk(p, done, closures)
    ensures PlanOk(AddSpawn(p, s, closures), done + [s], closures)
  {
    var q := AddSpawn(p, s, closures);
    AddedApart(p, done, s, closures);
    forall u | u in q.active || u in q.closing ensures FromNewestSpawn(u, done + [s], closures) {
      AddedFromNewest(p, done, s, closures, u);
    }
    forall d | d in done + [s] && Usable(d) ensures Planned(q, Corr(d)) {
      AddedPlanned(p, done, s, closures, d);
    }
  }

  lemma StillPlanned(p: Plan, s: Delta, closures: map<string, Delta>, corr: string)
    requires Planned(p, corr)
    ensures Planned(AddSpawn(p, s, closures), corr)
  {
    var q := AddSpawn(p, s, closures);
    if u :| u in p.active && u.corr == corr {
      assert u in q.active;
    } else {
      var u :| u in p.closing && u.corr == corr;
      assert u in q.closing;
    }
  }

  lemma {:induction false} AddSpawnsOk(p: Plan, done: seq<Delta>, rest: seq<Delta>, closures: map<string, Delta>)
    requires PlanOk(p, done, closures)
    ensures PlanOk(AddSpawns(p, rest, closures), done + rest, closures)
    decreases |rest|
  {
    if rest == [] {
      assert done + rest == done;
    } else {
      AddSpawnOk(p, done, rest[0], closures);
      assert done + [rest[0]] + rest[1..] == done + rest;
      AddSpawnsOk(AddSpawn(p, rest[0], closures), done + [rest[0]], rest[1..], closures);
    }
  }

  lemma PlanForOk(lake: seq<Delta>)
    ensures PlanOk(PlanFor(lake), Query(lake, ["task-spawn"], 0), NewestClosures(lake))
  {
    var spawns := Query(lake, ["task-spawn"], 0);
    AddSpawnsOk(NOTHING, [], spawns, NewestClosures(lake));
    assert [] + spawns == spawns;
  }

  lemma SpawnRows(lake: seq<Delta>)
    ensures forall s :: s in Query(lake, ["task-spawn"], 0) ==> s in lake && "task-spawn" in s.tags
  {
    QueryMembers(lake, ["task-spawn"], 0);
    assert "task-spawn" in ["task-spawn"];
  }

  lemma TaskHasSpawn(lake: seq<Delta>, p: Plan, spawns: seq<Delta>, cs: map<string, Delta>, t: Task)
    requires PlanOk(p, spawns, cs) && (t in p.active || t in p.closing)
    requires forall s :: s in spawns ==> s in lake && "task-spawn" in s.tags
    ensures UsablySpawned(lake, t.corr) && Spawned(lake, t.corr)
    ensures t.closure == if t.corr in cs then Some(cs[t.corr]) else None
    ensures t in p.active ==> t.closure.None?
    ensures t in p.closing ==> t.closure.Some?
  {
    assert FromNewestSpawn(t, spawns, cs);
    var s :| s in spawns && Usable(s) && t == TaskOf(s, cs);
    assert s in lake && "task-spawn" in s.tags;
  }

  lemma PlannedTask(lake: seq<Delta>, t: Task)
    requires t in PlanFor(lake).active || t in PlanFor(lake).closing
    ensures UsablySpawned(lake, t.corr) && Spawned(lake, t.corr)
    ensures t in PlanFor(lake).active ==> t.closure.None? && !Closed(lake, t.corr)
    ensures t in PlanFor(lake).closing ==> Closed(lake, t.corr) && HasNewestClosure(t, lake)
  {
    PlanForOk(lake);
    SpawnRows(lake);
    TaskHasSpawn(lake, PlanFor(lake), Query(lake, ["task-spawn"], 0), NewestClosures(lake), t);
    NewestClosureWins(lake, t.corr);
  }

  /** `_correlation_state` splits the usable spawned correlations by whether a closure has landed. */
  lemma PlanSplitsByClosure(lake: seq<Delta>, corr: string)
    ensures (exists t :: t in PlanFor(lake).active && t.corr == corr)
      <==> UsablySpawned(lake, corr) && !Closed(lake, corr)
    ensures (exists t :: t in PlanFor(lake).closing && t.corr == corr)
      <==> UsablySpawned(lake, corr) && Closed(lake, corr)
  {
    var p := PlanFor(lake);
    forall t | t in p.active || t in p.closing
      ensures UsablySpawned(lake, t.corr)
      ensures t in p.active ==> !Closed(lake, t.corr)
      ensures t in p.closing ==> Closed(lake, t.corr)
    {
      PlannedTask(lake, t);
    }
    if UsablySpawned(lake, corr) {
      var s :| s in lake && "task-spawn" in s.tags && Usable(s) && Corr(s) == corr;
      assert Carries(["task-spawn"], s);
      PlanForOk(lake);
      assert Planned(p, corr);
    }
  }

  ghost predicate HasNewestClosure(t: Task, lake: seq<Delta>) {
    && t.closure.Some?
    && t.closure.value in lake
    && IsClosure(t.corr, t.closure.value)
    && forall d :: d in lake && IsClosure(t.corr, d) ==> d.ts <= t.closure.value.ts
  }

  ghost predicate UsablySpawned(lake: seq<Delta>, corr: string) {
    exists s :: s in lake && "task-spawn" in s.tags && Usable(s) && Corr(s) == corr
  }

  // ---- The watcher object ----

  /** The module-level `_last_minted` table and the puddle's intents it guards. */
  class ClaudeCodeWatcher {
    var lastMinted: map<string, nat>
    var intents: seq<Intent>

    ghost function Now(): Ledger
      reads this
    {
      Ledger(lastMinted, intents)
    }

    constructor ()
      ensures Now() == Ledger(map[], [])
    {
      lastMinted, intents := map[], [];
    }

    static method CorrelationState(lake: seq<Delta>) returns (plan: Plan)
      ensures plan == PlanFor(lake)
    {
      var found := KeepNewest(Sort(NegTs, Closures(lake)));
      plan := SplitSpawns(Query(lake, ["task-spawn"], 0), found);
    }

    /** The first closure of each correlation, newest first. */
    static method KeepNewest(sorted: seq<Delta>) returns (found: map<string, Delta>)
      ensures found == FirstPerCorr(map[], sorted)
    {
      found := map[];
      for i := 0 to |sorted|
        invariant FirstPerCorr(found, sorted[i..]) == FirstPerCorr(map[], sorted)
      {
        assert sorted[i..][1..] == sorted[i + 1..];
        var corr := Corr(sorted[i]);
        if corr != "" && corr !in found {
          found := found[corr := sorted[i]];
        }
      }
    }

    /** Each usable spawn becomes an active or a closing task, one per correlation. */
    static method SplitSpawns(spawns: seq<Delta>, found: map<string, Delta>) returns (plan: Plan)
      ensures plan == AddSpawns(NOTHING, spawns, found)
    {
      var active: seq<Task>, closing: seq<Task> := [], [];
      for i := 0 to |spawns|
        invariant AddSpawns(Plan(active, closing), spawns[i..], found) == AddSpawns(NOTHING, spawns, found)
      {
        assert spawns[i..][1..] == spawns[i + 1..];
        var s := spawns[i];
        var corr, sid := Corr(s), Session(s);
        if corr == "" || sid == "" {
          continue;
        }
        if Planned(Plan(active, closing), corr) {
          continue;
        }
        if corr in found {
          closing := closing + [Task(corr, sid, s.ts, Some(found[corr]))];
        } else {
          active := active + [Task(corr, sid, s.ts, None)];
        }
      }
      plan := Plan(active, closing);
    }

    method Prime(lake: seq<Delta>, closuresOk: bool, spawnsOk: bool, now: nat) returns (success: bool)
      modifies this`lastMinted
      ensures success == (closuresOk && spawnsOk)
      ensures lastMinted == PrimeFloor(old(lastMinted), lake, closuresOk, spawnsOk, now)
    {
      success := true;
      var completes, abandoned := Query(lake, ["task-complete"], 0), Query(lake, ["task-abandoned"], 0);
      if !closuresOk {
        completes, abandoned := [], [];
        success := false;
      }
      RaiseFromClosures(completes + abandoned);
      var spawns := Query(lake, ["task-spawn"], 0);
      if !spawnsOk {
        spawns := [];
        success := false;
      }
      ClampFromSpawns(spawns, now);
    }

    method RaiseFromClosures(cs: seq<Delta>)
      modifies this`lastMinted
      ensures lastMinted == RaiseFloor(old(lastMinted), cs)
    {
      for i := 0 to |cs|
        invariant RaiseFloor(lastMinted, cs[i..]) == RaiseFloor(old(lastMinted), cs)
      {
        assert cs[i..][1..] == cs[i + 1..];
        var corr := Corr(cs[i]);
        if corr == "" {
          continue;
        }
        if cs[i].ts > FloorOf(lastMinted, corr) {
          lastMinted := lastMinted[corr := cs[i].ts];
        }
      }
    }

    method ClampFromSpawns(spawns: seq<Delta>, now: nat)
      modifies this`lastMinted
      ensures lastMinted == ClampFloor(old(lastMinted), spawns, now)
    {
      for i := 0 to |spawns|
        invariant ClampFloor(lastMinted, spawns[i..], now) == ClampFloor(old(lastMinted), spawns, now)
      {
        assert spawns[i..][1..] == spawns[i + 1..];
        var corr := Corr(spawns[i]);
        if corr == "" || corr in lastMinted {
          continue;
        }
        lastMinted := lastMinted[corr := now];
      }
    }

    /** One tick on a lake snapshot. Reply queries raise for the correlations in `down`,
        intent writes raise for the intents in `fails`. */
    method Tick(lake: seq<Delta>, down: set<string>, fails: set<Intent>)
      modifies this
      ensures Now() == TickLedger(old(Now()), lake, down, fails)
    {
      var plan := CorrelationState(lake);
      var active, closing := plan.active, plan.closing;
      for i := 0 to |active|
        invariant ReplyPasses(Now(), active[i..], lake, down, fails)
          == ReplyPasses(old(Now()), active, lake, down, fails)
      {
        assert active[i..][1..] == active[i + 1..];
        if active[i].corr in down {
          continue;
        }
        MintActive(active[i], lake, fails);
      }
      ghost var replied := Now();
      for i := 0 to |closing|
        invariant ClosurePasses(Now(), closing[i..], fails) == ClosurePasses(replied, closing, fails)
      {
        assert closing[i..][1..] == closing[i + 1..];
        assert closing[i].closure.Some? by { PlannedTask(lake, closing[i]); }
        MintClosing(closing[i], fails);
      }
    }

    method MintClosing(t: Task, fails: set<Intent>)
      requires t.closure.Some?
      modifies this
      ensures Now() == ClosurePass(old(Now()), t, fails)
    {
      var c := t.closure.value;
      if c.id == "" || FloorOf(lastMinted, t.corr) >= c.ts {
        return;
      }
      if Blank(c) {
        lastMinted := lastMinted[t.corr := c.ts];
        return;
      }
      if Intent(t.corr, c, true) !in fails {
        intents := intents + [Intent(t.corr, c, true)];
        lastMinted := lastMinted[t.corr := c.ts];
      }
    }

    method MintActive(t: Task, lake: seq<Delta>, fails: set<Intent>)
      modifies this
      ensures Now() == ReplyPass(old(Now()), t, lake, true, fails)
    {
      var start := ScanStart(lastMinted, t);
      var rs := Replies(lake, t, start);
      for i := 0 to |rs|
        invariant MintReplies(Now(), t.corr, start, rs[i..], fails) == MintReplies(old(Now()), t.corr, start, rs, fails)
      {
        assert rs[i..][1..] == rs[i + 1..];
        var r := rs[i];
        if r.ts <= start || Blank(r) {
          continue;
        }
        if Intent(t.corr, r, false) !in fails {
          intents := intents + [Intent(t.corr, r, false)];
          lastMinted := lastMinted[t.corr := r.ts];
        }
      }
    }
  }
}
