/** The threaded supervisor as a counter machine: fires, resets, anti-spin and probes. */
module Supervisor {
  import opened Sequences
  import opened LlmGate
  import Thread

  const MAX_CONSECUTIVE_FIRES: nat := 5
  const PROBE_KEY := "supervisor:hard"

  datatype FireResult = Completed | Crashed | Cancelled

  /** What one poll meets: a window that cannot be read, or a pending count, the gate's answer and how a fire would
      go. */
  datatype Poll =
    | WindowCrash
    | Window(pending: nat, down: bool, now: int, result: FireResult)

  /** The loop's variables and the time of the last granted probe. */
  datatype State = State(consecutive: nat, lastPending: int, lastProbe: int)

  const ARMED := State(0, -1, 0)

  /** What one poll does: whether it fires, and whether it ends with the counter reset. */
  datatype Effect = Effect(fired: bool, reset: bool)

  predicate Spinning(s: State, pending: nat) {
    s.consecutive >= MAX_CONSECUTIVE_FIRES && pending >= s.lastPending && s.lastPending > 0
  }

  /** Past the gate: the anti-spin check, then the fire. */
  function Admitted(s: State, pending: nat, result: FireResult): (State, Effect) {
    if Spinning(s, pending) then (State(0, -1, s.lastProbe), Effect(false, true))
    else if result == Cancelled then (State(0, -1, s.lastProbe), Effect(true, true))
    else (State(s.consecutive + 1, pending, s.lastProbe), Effect(true, false))
  }

  function Step(s: State, poll: Poll, interval: int): (State, Effect) {
    match poll
    case WindowCrash => (s.(consecutive := 0), Effect(false, true))
    case Window(pending, down, now, result) =>
      if pending == 0 then (State(0, -1, s.lastProbe), Effect(false, true))
      else if down && now - s.lastProbe < interval then (State(0, -1, s.lastProbe), Effect(false, true))
      else Admitted(s.(lastProbe := if down then now else s.lastProbe), pending, result)
  }

  class SupervisorLoop {
    var consecutiveFires: nat
    var lastPendingCount: int
    const gate: Gate

    constructor ()
      ensures consecutiveFires == 0 && lastPendingCount == -1
      ensures fresh(gate) && gate.cache == None && gate.lastProbeAt == map[]
    {
      consecutiveFires, lastPendingCount := 0, -1;
      gate := new Gate();
    }

    function Now(): State
      reads this, gate
    {
      State(consecutiveFires, lastPendingCount, LastProbe(gate.lastProbeAt, PROBE_KEY))
    }

    /** The gate is down and grants no probe. */
    method Held(lake: int -> Reading, now: int, interval: int) returns (held: bool, ghost down: bool)
      requires gate.Valid(lake, now)
      modifies gate
      ensures gate.Valid(lake, now)
      ensures exists at :: now - 5 < at <= now && down == Down(lake(at))
      ensures held <==> down && now - old(Now()).lastProbe < interval
      ensures Now().lastProbe == if down && !held then now else old(Now()).lastProbe
    {
      held := false;
      var d := gate.IsDown(lake, now);
      down := d;
      if d {
        var granted := gate.ClaimProbe(PROBE_KEY, interval, now);
        held := !granted;
      }
    }

    /** One turn of the loop. `window` is the thread and its marks, or None when reading them fails. */
    method Turn(window: Option<(seq<Thread.Row>, seq<Thread.Row>)>, lake: int -> Reading, now: int, interval: int,
                result: FireResult)
      returns (ghost poll: Poll, effect: Effect)
      requires gate.Valid(lake, now)
      modifies this, gate
      ensures gate.Valid(lake, now)
      ensures (Now(), effect) == Step(old(Now()), poll, interval)
      ensures window.None? <==> poll.WindowCrash?
      ensures poll.Window? ==> poll.pending <= Thread.WINDOW && poll.now == now && poll.result == result
      ensures poll.Window? && poll.pending > 0 ==>
        exists at :: now - 5 < at <= now && poll.down == Down(lake(at))
      ensures effect.fired ==> gate.cache == None
    {
      if window.None? {
        consecutiveFires := 0;
        return WindowCrash, Effect(false, true);
      }
      var messages, unaddressed := Thread.BuildWindow(window.value.0, window.value.1, Thread.WINDOW, None);
      var pending := |unaddressed|;
      if pending == 0 {
        consecutiveFires, lastPendingCount := 0, -1;
        return Window(0, false, now, result), Effect(false, true);
      }
      ghost var down;
      down, effect := OnPending(pending, lake, now, interval, result);
      poll := Window(pending, down, now, result);
    }

    /** What a turn does with pending messages. */
    method OnPending(pending: nat, lake: int -> Reading, now: int, interval: int, result: FireResult)
      returns (ghost down: bool, effect: Effect)
      requires gate.Valid(lake, now) && pending > 0
      modifies this, gate
      ensures gate.Valid(lake, now)
      ensures exists at :: now - 5 < at <= now && down == Down(lake(at))
      ensures (Now(), effect) == Step(old(Now()), Window(pending, down, now, result), interval)
      ensures effect.fired ==> gate.cache == None
    {
      var held: bool;
      held, down := Held(lake, now, interval);
      if held {
        consecutiveFires, lastPendingCount := 0, -1;
        return down, Effect(false, true);
      }
      effect := MaybeFire(pending, result);
      if effect.fired {
        gate.InvalidateCache();
      }
    }

    /** The anti-spin check and the fire. */
    method MaybeFire(pending: nat, result: FireResult) returns (effect: Effect)
      requires pending > 0
      modifies this
      ensures (State(consecutiveFires, lastPendingCount, 0), effect)
        == Admitted(State(old(consecutiveFires), old(lastPendingCount), 0), pending, result)
    {
      if consecutiveFires >= MAX_CONSECUTIVE_FIRES && pending >= lastPendingCount && lastPendingCount > 0 {
        consecutiveFires, lastPendingCount := 0, -1;
        return Effect(false, true);
      }
      lastPendingCount := pending;
      consecutiveFires := consecutiveFires + 1;
      if result == Cancelled {
        consecutiveFires, lastPendingCount := 0, -1;
      }
      effect := Effect(true, result == Cancelled);
    }
  }

  // ---- Runs ----

  /** The pending count comes from a window of at most 15 messages. */
  predicate PollOk(poll: Poll) { poll.Window? ==> poll.pending <= Thread.WINDOW }

  function Run(polls: seq<Poll>, interval: int): (State, seq<Effect>)
  {
    if polls == [] then (ARMED, [])
    else
      var (s, effects) := Run(polls[..|polls| - 1], interval);
      var (s', e) := Step(s, polls[|polls| - 1], interval);
      (s', effects + [e])
  }

  function Fires(effects: seq<Effect>): nat {
    if effects == [] then 0
    else Fires(effects[..|effects| - 1]) + if effects[|effects| - 1].fired then 1 else 0
  }

  /** After five fires each further fire needs fewer pending messages than the fire before. */
  ghost predicate Inv(s: State) {
    && (s.consecutive > 0 ==> 1 <= s.lastPending <= Thread.WINDOW)
    && (s.consecutive >= MAX_CONSECUTIVE_FIRES ==>
         s.consecutive + s.lastPending <= MAX_CONSECUTIVE_FIRES + Thread.WINDOW)
  }

  lemma StepKeepsInv(s: State, poll: Poll, interval: int)
    requires Inv(s) && PollOk(poll)
    ensures Inv(Step(s, poll, interval).0)
    ensures Step(s, poll, interval).1.fired ==> s.consecutive < MAX_CONSECUTIVE_FIRES + Thread.WINDOW - 1
  {
  }

  lemma {:induction false} RunKeepsInv(polls: seq<Poll>, interval: int)
    requires forall poll :: poll in polls ==> PollOk(poll)
    ensures Inv(Run(polls, interval).0) && |Run(polls, interval).1| == |polls|
    decreases |polls|
  {
    if polls != [] {
      RunKeepsInv(polls[..|polls| - 1], interval);
      assert polls[|polls| - 1] in polls;
      StepKeepsInv(Run(polls[..|polls| - 1], interval).0, polls[|polls| - 1], interval);
    }
  }

  ghost predicate NoReset(effects: seq<Effect>) { forall e :: e in effects ==> !e.reset }

  /** While no poll resets the counter, it counts the fires. */
  lemma {:induction false} CounterCountsFires(polls: seq<Poll>, interval: int, from: nat)
    requires from <= |polls| && |Run(polls, interval).1| == |polls| && NoReset(Run(polls, interval).1[from..])
    ensures Fires(Run(polls, interval).1[from..]) <= Run(polls, interval).0.consecutive
    decreases |polls|
  {
    if from < |polls| {
      var init, effects := polls[..|polls| - 1], Run(polls, interval).1;
      var e := effects[|polls| - 1];
      assert effects[from..] == Run(init, interval).1[from..] + [e];
      assert effects[from..][|polls| - 1 - from] == e && e in effects[from..];
      forall d | d in Run(init, interval).1[from..] ensures !d.reset { assert d in effects[from..]; }
      CounterCountsFires(init, interval, from);
      assert effects[from..][..|polls| - 1 - from] == Run(init, interval).1[from..];
    }
  }

  /** However many messages arrive and whatever the model addresses, at most 19 fires happen between two resets,
      the fire that is cancelled by a reset included. */
  lemma AtMostNineteenFires(polls: seq<Poll>, interval: int, from: nat)
    requires forall poll :: poll in polls ==> PollOk(poll)
    requires from < |polls| == |Run(polls, interval).1| && NoReset(Run(polls, interval).1[from..|polls| - 1])
    ensures Fires(Run(polls, interval).1[from..]) <= 19
  {
    var init, effects := polls[..|polls| - 1], Run(polls, interval).1;
    RunKeepsInv(init, interval);
    assert effects[from..|polls| - 1] == Run(init, interval).1[from..];
    CounterCountsFires(init, interval, from);
    assert effects[from..][..|polls| - 1 - from] == Run(init, interval).1[from..];
    assert polls[|polls| - 1] in polls;
    StepKeepsInv(Run(init, interval).0, polls[|polls| - 1], interval);
  }

  // ---- A queue that never shrinks ----

  /** No poll meets fewer pending messages than an earlier one. */
  ghost predicate NeverShrinks(polls: seq<Poll>) {
    forall i, j :: 0 <= i <= j < |polls| && polls[i].Window? && polls[j].Window? ==>
      polls[i].pending <= polls[j].pending
  }

  /** Some poll met this many pending messages. */
  ghost predicate Met(polls: seq<Poll>, pending: int) {
    exists i :: 0 <= i < |polls| && polls[i].Window? && polls[i].pending == pending
  }

  /** `from` is where the run or a new count starts. */
  ghost predicate CountStarts(polls: seq<Poll>, interval: int, from: nat) {
    from <= |polls| && (from == 0 || (from <= |Run(polls, interval).1| && Run(polls, interval).1[from - 1].reset))
  }

  lemma {:induction false} PrefixEffects(polls: seq<Poll>, interval: int, n: nat)
    requires n <= |polls|
    ensures |Run(polls, interval).1| == |polls| && Run(polls, interval).1[..n] == Run(polls[..n], interval).1
    decreases |polls|
  {
    if n == |polls| {
      assert polls[..n] == polls;
      if polls != [] { PrefixEffects(polls[..n - 1], interval, 0); }
    } else {
      PrefixEffects(polls[..|polls| - 1], interval, n);
      assert polls[..|polls| - 1][..n] == polls[..n];
    }
  }

  lemma StartsAtZero(polls: seq<Poll>, interval: int, from: nat)
    requires CountStarts(polls, interval, from)
    ensures Run(polls[..from], interval).0.consecutive == 0
  {
    PrefixEffects(polls, interval, from);
    if from > 0 {
      PrefixEffects(polls[..from], interval, from);
      assert Run(polls[..from], interval).1[from - 1].reset;
    }
  }

  lemma {:induction false} StuckCounter(polls: seq<Poll>, interval: int, from: nat)
    requires from <= |polls| && Run(polls[..from], interval).0.consecutive == 0 && NeverShrinks(polls[from..])
    ensures var s := Run(polls, interval).0;
      && s.consecutive <= MAX_CONSECUTIVE_FIRES
      && (s.consecutive > 0 ==> s.lastPending > 0 && Met(polls[from..], s.lastPending))
    decreases |polls|
  {
    if from == |polls| {
      assert polls[..from] == polls;
    } else {
      var init, last := polls[..|polls| - 1], polls[|polls| - 1];
      var stuck := polls[from..];
      assert init[..from] == polls[..from] && init[from..] == stuck[..|stuck| - 1] && stuck[|stuck| - 1] == last;
      StuckCounter(init, interval, from);
      StuckStep(Run(init, interval).0, stuck[..|stuck| - 1], stuck, interval);
    }
  }

  /** One more poll of a queue that never shrinks: the sixth fire is refused. */
  lemma StuckStep(s: State, init: seq<Poll>, polls: seq<Poll>, interval: int)
    requires polls != [] && init == polls[..|polls| - 1] && NeverShrinks(polls)
    requires s.consecutive <= MAX_CONSECUTIVE_FIRES
    requires s.consecutive > 0 ==> s.lastPending > 0 && Met(init, s.lastPending)
    ensures var (s', e) := Step(s, polls[|polls| - 1], interval);
      && s'.consecutive <= MAX_CONSECUTIVE_FIRES
      && (s'.consecutive > 0 ==> s'.lastPending > 0 && Met(polls, s'.lastPending))
      && (e.fired ==> s.consecutive < MAX_CONSECUTIVE_FIRES)
  {
    var last := polls[|polls| - 1];
    if last.Window? && s.consecutive > 0 {
      var i :| 0 <= i < |init| && init[i].Window? && init[i].pending == s.lastPending;
      assert polls[i].pending <= polls[|polls| - 1].pending;
    }
    if last.Window? { assert polls[|polls| - 1].pending == last.pending; }
  }

  /** While the queue never shrinks, at most five fires happen between two resets, one that a reset cancels included. */
  lemma StuckQueueStopsAtFive(polls: seq<Poll>, interval: int, from: nat)
    requires CountStarts(polls, interval, from) && NeverShrinks(polls[from..])
    requires from < |polls| == |Run(polls, interval).1| && NoReset(Run(polls, interval).1[from..|polls| - 1])
    ensures Fires(Run(polls, interval).1[from..]) <= MAX_CONSECUTIVE_FIRES
  {
    var init, effects := polls[..|polls| - 1], Run(polls, interval).1;
    StuckLast(polls, interval, from);
    assert effects[from..|polls| - 1] == Run(init, interval).1[from..];
    CounterCountsFires(init, interval, from);
    assert effects[from..] == Run(init, interval).1[from..] + [effects[|polls| - 1]];
    FiresAppend(Run(init, interval).1[from..], effects[|polls| - 1]);
  }

  lemma StuckLast(polls: seq<Poll>, interval: int, from: nat)
    requires from < |polls| && CountStarts(polls, interval, from) && NeverShrinks(polls[from..])
    ensures var s := Run(polls[..|polls| - 1], interval).0;
      && s.consecutive <= MAX_CONSECUTIVE_FIRES
      && (Step(s, polls[|polls| - 1], interval).1.fired ==> s.consecutive < MAX_CONSECUTIVE_FIRES)
  {
    var init, stuck := polls[..|polls| - 1], polls[from..];
    StartsAtZero(polls, interval, from);
    assert init[..from] == polls[..from] && init[from..] == stuck[..|stuck| - 1];
    StuckCounter(init, interval, from);
    StuckStep(Run(init, interval).0, stuck[..|stuck| - 1], stuck, interval);
  }

  // ---- The bound is sharp ----

  /** A queue that stays full for five fires and then loses one message a fire. */
  function Draining(k: nat): Poll
    requires k < 19
  {
    Window(if k < 5 then Thread.WINDOW else 19 - k, false, 0, Completed)
  }

  function DrainingRun(n: nat): seq<Poll>
    requires n <= 19
  {
    if n == 0 then [] else DrainingRun(n - 1) + [Draining(n - 1)]
  }

  lemma DrainingFires(s: State, k: nat, interval: int)
    requires k < 19 && s.consecutive == k && (k > 0 ==> s.lastPending == Draining(k - 1).pending)
    ensures var (s', e) := Step(s, Draining(k), interval);
      e == Effect(true, false) && s'.consecutive == k + 1 && s'.lastPending == Draining(k).pending
  {
  }

  lemma RunAppend(polls: seq<Poll>, poll: Poll, interval: int)
    ensures var (s, effects) := Run(polls, interval);
      var (s', e) := Step(s, poll, interval);
      Run(polls + [poll], interval) == (s', effects + [e])
  {
    assert (polls + [poll])[..|polls|] == polls;
  }

  lemma FiresAppend(effects: seq<Effect>, e: Effect)
    ensures Fires(effects + [e]) == Fires(effects) + if e.fired then 1 else 0
  {
    assert (effects + [e])[..|effects|] == effects;
  }

  /** Nineteen fires without a reset do happen. */
  lemma {:induction false} NineteenFiresHappen(n: nat, interval: int)
    requires n <= 19
    ensures forall poll :: poll in DrainingRun(n) ==> PollOk(poll)
    ensures var (s, effects) := Run(DrainingRun(n), interval);
      && NoReset(effects) && Fires(effects) == n && s.consecutive == n
      && (n > 0 ==> s.lastPending == Draining(n - 1).pending)
  {
    if n > 0 {
      NineteenFiresHappen(n - 1, interval);
      var (s, effects) := Run(DrainingRun(n - 1), interval);
      DrainingFires(s, n - 1, interval);
      RunAppend(DrainingRun(n - 1), Draining(n - 1), interval);
      FiresAppend(effects, Effect(true, false));
    }
  }

  // ---- A stuck queue is fired at without end ----

  /** The same messages are pending at every poll, the model tier is up and no fire is cancelled. */
  ghost predicate Stuck(polls: seq<Poll>, pending: nat) {
    pending > 0 && forall i :: 0 <= i < |polls| ==> StuckPoll(polls[i], pending)
  }

  predicate StuckPoll(poll: Poll, pending: nat) {
    poll.Window? && poll.pending == pending && !poll.down && poll.result != Cancelled
  }

  lemma StuckTurn(s: State, poll: Poll, pending: nat, interval: int, n: nat)
    requires StuckPoll(poll, pending) && pending > 0
    requires s.consecutive == n % 6 && (n % 6 > 0 ==> s.lastPending == pending)
    ensures var (s', e) := Step(s, poll, interval);
      && e.fired == (n % 6 < 5)
      && s'.consecutive == (n + 1) % 6 && ((n + 1) % 6 > 0 ==> s'.lastPending == pending)
  {
  }

  /** A queue that does not move is fired at five times in every six polls, however long it stays. */
  lemma {:induction false} StuckQueueFiresOn(polls: seq<Poll>, pending: nat, interval: int)
    requires Stuck(polls, pending)
    ensures var (s, effects) := Run(polls, interval);
      && s.consecutive == |polls| % 6 && (|polls| % 6 > 0 ==> s.lastPending == pending)
      && Fires(effects) == 5 * (|polls| / 6) + |polls| % 6
    decreases |polls|
  {
    if polls != [] {
      var init, last := polls[..|polls| - 1], polls[|polls| - 1];
      StuckQueueFiresOn(init, pending, interval);
      var (s, effects) := Run(init, interval);
      StuckTurn(s, last, pending, interval, |init|);
      FiresAppend(effects, Step(s, last, interval).1);
    }
  }

  // ---- When a turn fires, told by its history ----

  /** How many fires have happened since the last turn that did not fire, or whose fire was cancelled. */
  function FiresSince(effects: seq<Effect>): nat {
    if effects == [] || effects[|effects| - 1].reset then 0
    else FiresSince(effects[..|effects| - 1]) + if effects[|effects| - 1].fired then 1 else 0
  }

  /** The pending count at the latest fire. */
  function LastFired(polls: seq<Poll>, effects: seq<Effect>): int
    requires |polls| == |effects|
  {
    if polls == [] then -1
    else
      var n := |polls| - 1;
      if effects[n].fired && polls[n].Window? then polls[n].pending else LastFired(polls[..n], effects[..n])
  }

  /** When the latest probe was granted: the gate was down, something was pending, and the probe before was an interval
      ago. */
  function Probed(polls: seq<Poll>, interval: int): int {
    if polls == [] then 0
    else
      var before, last := Probed(polls[..|polls| - 1], interval), polls[|polls| - 1];
      if last.Window? && last.pending > 0 && last.down && last.now - before >= interval then last.now else before
  }

  lemma {:induction false} StateIsHistory(polls: seq<Poll>, interval: int)
    ensures var (s, effects) := Run(polls, interval);
      && |effects| == |polls|
      && s.consecutive == FiresSince(effects) && s.lastProbe == Probed(polls, interval)
      && (s.consecutive > 0 ==> s.lastPending == LastFired(polls, effects))
    decreases |polls|
  {
    if polls != [] {
      var init, last := polls[..|polls| - 1], polls[|polls| - 1];
      StateIsHistory(init, interval);
      var (s, effects) := Run(init, interval);
      var e := Step(s, last, interval).1;
      assert (effects + [e])[..|effects|] == effects;
    }
  }

  /** Main result on turns: after any run a turn fires exactly when something is pending, the gate is up or grants a
      probe, and fewer messages are pending than at the latest fire if five or more have gone by since the count was
      last reset. A turn that does not fire resets the count, and so does a cancelled fire. */
  lemma TurnFiresIff(polls: seq<Poll>, poll: Poll, interval: int)
    requires forall p :: p in polls ==> PollOk(p)
    ensures |Run(polls, interval).1| == |polls|
    ensures var (s, effects) := Run(polls, interval);
      var e := Step(s, poll, interval).1;
      && (e.fired <==>
            && poll.Window? && poll.pending > 0
            && (poll.down ==> poll.now - Probed(polls, interval) >= interval)
            && !(FiresSince(effects) >= 5 && poll.pending >= LastFired(polls, effects)))
      && (e.reset <==> !e.fired || poll.result == Cancelled)
  {
    StateIsHistory(polls, interval);
    RunKeepsInv(polls, interval);
  }

  // ---- Probes ----

  ghost predicate Ordered(polls: seq<Poll>) {
    forall i, j :: 0 <= i <= j < |polls| && polls[i].Window? && polls[j].Window? ==> polls[i].now <= polls[j].now
  }

  /** The poll at `i` fired although the gate was down. */
  ghost predicate ProbeFire(polls: seq<Poll>, interval: int, i: nat) {
    i < |polls| == |Run(polls, interval).1| && polls[i].Window? && polls[i].down && Run(polls, interval).1[i].fired
  }

  /** The last probe is no earlier than any fire made while down. */
  lemma {:induction false} ProbeRemembered(polls: seq<Poll>, interval: int, i: nat)
    requires Ordered(polls) && ProbeFire(polls, interval, i)
    ensures Run(polls, interval).0.lastProbe >= polls[i].now
    decreases |polls|
  {
    if i < |polls| - 1 {
      var init := polls[..|polls| - 1];
      assert init[i] == polls[i];
      assert Run(polls, interval).1[i] == Run(init, interval).1[i];
      ProbeRemembered(init, interval, i);
    }
  }

  /** Two fires made while the gate is down are at least the probe interval apart. */
  lemma ProbesSpaced(polls: seq<Poll>, interval: int, i: nat, j: nat)
    requires Ordered(polls) && i < j && ProbeFire(polls, interval, i) && ProbeFire(polls, interval, j)
    ensures polls[j].now - polls[i].now >= interval
    decreases |polls|
  {
    var init := polls[..|polls| - 1];
    assert init[i] == polls[i] && Run(polls, interval).1[i] == Run(init, interval).1[i];
    if j == |polls| - 1 {
      ProbeRemembered(init, interval, i);
    } else {
      assert init[j] == polls[j] && Run(polls, interval).1[j] == Run(init, interval).1[j];
      ProbesSpaced(init, interval, i, j);
    }
  }
}
