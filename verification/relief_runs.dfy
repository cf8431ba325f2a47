/** Runs of the relief valve: fires of every kind, in sequence, with volume arriving in between. */
module ReliefRuns {
  import opened Sequences
  import opened Relief

  datatype Fire = Fire(tier: Tier, at: int, request: Request)

  /** `clock` is the latest clock reading, `fires` every fire so far. */
  datatype World = World(s: State, clock: int, fires: seq<Fire>)

  datatype Step = Arrive(volume: real) | Try(request: Request, m: Moment)

  const INIT := World(State(Cooldowns(map[], None), Pressure(0.0, 0.0)), 0, [])

  predicate Enabled(w: World, step: Step) {
    match step
    case Arrive(v) => v >= 0.0
    case Try(_, m) => w.clock <= m.now <= m.stampedAt
  }

  /** A step that is not enabled changes nothing. */
  function Next(w: World, step: Step, meter: Meter): World {
    if !Enabled(w, step) then w
    else
      match step
      case Arrive(v) => w.(s := w.s.(pressure := w.s.pressure.(arrived := v)))
      case Try(request, m) =>
        var fired := Fired(w.s, request, meter, m);
        World(AfterFire(w.s, request, meter, m), m.stampedAt,
              if fired.Some? then w.fires + [Fire(fired.value, m.stampedAt, request)] else w.fires)
  }

  function Run(w: World, steps: seq<Step>, meter: Meter): World
    decreases |steps|
  {
    if steps == [] then w else Run(Next(w, steps[0], meter), steps[1..], meter)
  }

  // ---- Rotation ----

  function OtherSit(t: Tier): Tier { if t == Reflection then Drift else Reflection }

  /** The flavour other than the last one has no later stamp. */
  ghost predicate Rotated(cd: Cooldowns) {
    match cd.lastSit
    case None => Reflection !in cd.stamps && Drift !in cd.stamps
    case Some(t) =>
      && InSitGroup(t) && t in cd.stamps
      && (OtherSit(t) in cd.stamps ==> cd.stamps[OtherSit(t)] <= cd.stamps[t])
  }

  /** Tier of the latest sit fire. */
  function LastSitFire(fires: seq<Fire>): Option<Tier> {
    if fires == [] then None
    else
      var t := fires[|fires| - 1].tier;
      if InSitGroup(t) then Some(t) else LastSitFire(fires[..|fires| - 1])
  }

  /** The pick of every automatically chosen sit was in rotation, and same-tier fires keep their cooldown apart. */
  ghost predicate FiresOk(fires: seq<Fire>) {
    && (forall k :: 0 <= k < |fires| && fires[k].request != Forced(fires[k].tier) && InSitGroup(fires[k].tier) ==>
          LastSitFire(fires[..k]) != Some(fires[k].tier))
    && (forall i, j :: 0 <= i < j < |fires| && fires[i].tier == fires[j].tier ==>
          fires[j].at - fires[i].at >= CooldownSeconds(fires[i].tier))
  }

  ghost predicate Inv(w: World) {
    && Rotated(w.s.cd)
    && (forall t :: t in w.s.cd.stamps ==> w.s.cd.stamps[t] <= w.clock)
    && w.s.cd.lastSit == LastSitFire(w.fires)
    && (forall f :: f in w.fires ==> f.tier in w.s.cd.stamps && f.at <= w.s.cd.stamps[f.tier])
    && FiresOk(w.fires)
  }

  /** The first scan, read off its five rounds. */
  lemma FirstScanTable(cd: Cooldowns, ratio: real, bypass: bool, now: int)
    ensures FirstScan(0, cd, ratio, bypass, now) ==
      if Eligible(Alert, cd, ratio, bypass, now) then Some(Alert)
      else if Eligible(Bridging, cd, ratio, bypass, now) then Some(Bridging)
      else if Eligible(NextSit(cd), cd, ratio, bypass, now) then Some(NextSit(cd))
      else None
  {
    assert RELIEF_TIERS[0] == Alert && RELIEF_TIERS[1] == Bridging && RELIEF_TIERS[2] == Reflection
      && RELIEF_TIERS[3] == Drift && RELIEF_TIERS[4] == Feed;
    assert FirstScan(5, cd, ratio, bypass, now) == None;
    assert FirstScan(4, cd, ratio, bypass, now) == None;
    assert FirstScan(3, cd, ratio, bypass, now) ==
      if Eligible(Drift, cd, ratio, bypass, now) && NextSit(cd) == Drift then Some(Drift) else None;
    assert FirstScan(2, cd, ratio, bypass, now) ==
      if Eligible(NextSit(cd), cd, ratio, bypass, now) then Some(NextSit(cd)) else None;
    assert FirstScan(1, cd, ratio, bypass, now) ==
      if Eligible(Bridging, cd, ratio, bypass, now) then Some(Bridging) else FirstScan(2, cd, ratio, bypass, now);
  }

  /** In a rotated state the second scan of `pick_tier` never finds a tier the first one missed. */
  lemma SecondScanIsDead(cd: Cooldowns, ratio: real, bypass: bool, now: int)
    requires Rotated(cd)
    ensures FirstScan(0, cd, ratio, bypass, now).None? ==> SecondScan(0, cd, ratio, bypass, now).None?
    ensures PickTier(cd, ratio, bypass, now) == FirstScan(0, cd, ratio, bypass, now)
  {
    FirstScanTable(cd, ratio, bypass, now);
    ScanPicksEligible(0, cd, ratio, bypass, now);
    if SecondScan(0, cd, ratio, bypass, now).Some? {
      var t := SecondScan(0, cd, ratio, bypass, now).value;
      var next := NextSit(cd);
      assert t == next || cd.lastSit == None || cd.lastSit == Some(t);
      assert MinRatio(t) == MinRatio(next) && CooldownSeconds(t) == CooldownSeconds(next);
      assert Eligible(next, cd, ratio, bypass, now);
    }
  }

  lemma ChosenInRotation(s: State, request: Request, meter: Meter, now: int)
    requires Rotated(s.cd) && Chosen(s, request, meter, now).Some?
    ensures var t := Chosen(s, request, meter, now).value;
      !OnCooldown(t, s.cd, now) && (InSitGroup(t) && request != Forced(t) ==> t == NextSit(s.cd))
  {
    var ratio := meter.ratio(s.pressure);
    if !request.Forced? {
      SecondScanIsDead(s.cd, ratio, request.Pulse?, now);
      FirstScanTable(s.cd, ratio, request.Pulse?, now);
    }
  }

  lemma StampKeepsRotation(cd: Cooldowns, t: Tier, clock: int, at: int)
    requires Rotated(cd) && clock <= at && forall u :: u in cd.stamps ==> cd.stamps[u] <= clock
    ensures Rotated(Stamped(cd, t, at))
  {
  }

  /** Stamping keeps every fire at or before its tier's stamp; a new fire is stamped with its own time. */
  lemma StampRemembersFires(cd: Cooldowns, t: Tier, clock: int, at: int, fires: seq<Fire>)
    requires clock <= at && forall u :: u in cd.stamps ==> cd.stamps[u] <= clock
    requires forall f :: f in fires ==> f.tier in cd.stamps && f.at <= cd.stamps[f.tier]
    ensures var cd' := Stamped(cd, t, at);
      && (forall u :: u in cd'.stamps ==> cd'.stamps[u] <= at)
      && (forall f :: f in fires ==> f.tier in cd'.stamps && f.at <= cd'.stamps[f.tier])
      && t in cd'.stamps && cd'.stamps[t] == at
  {
  }

  lemma TryKeepsInv(w: World, request: Request, m: Moment, meter: Meter)
    requires Inv(w) && Enabled(w, Try(request, m))
    ensures Inv(Next(w, Try(request, m), meter))
  {
    var n := Next(w, Try(request, m), meter);
    var chosen := Chosen(w.s, request, meter, m.now);
    if chosen.Some? {
      var t := chosen.value;
      ChosenInRotation(w.s, request, meter, m.now);
      StampKeepsRotation(w.s.cd, t, w.clock, m.stampedAt);
      StampRemembersFires(w.s.cd, t, w.clock, m.stampedAt, w.fires);
      assert n.s.cd == Stamped(w.s.cd, t, m.stampedAt);
      if n.fires == w.fires {
        assert t == Alert;
      } else {
        NewFireOk(w, n, t, request, m);
      }
    }
  }

  lemma NewFireOk(w: World, n: World, t: Tier, request: Request, m: Moment)
    requires Inv(w) && w.clock <= m.now <= m.stampedAt
    requires n.fires == w.fires + [Fire(t, m.stampedAt, request)]
    requires !OnCooldown(t, w.s.cd, m.now)
    requires InSitGroup(t) && request != Forced(t) ==> t == NextSit(w.s.cd)
    ensures FiresOk(n.fires)
    ensures LastSitFire(n.fires) == if InSitGroup(t) then Some(t) else LastSitFire(w.fires)
  {
    assert n.fires[..|w.fires|] == w.fires;
    forall k | 0 <= k < |n.fires| && n.fires[k].request != Forced(n.fires[k].tier) && InSitGroup(n.fires[k].tier)
      ensures LastSitFire(n.fires[..k]) != Some(n.fires[k].tier)
    {
      if k < |w.fires| {
        assert n.fires[..k] == w.fires[..k];
      }
    }
    forall i, j | 0 <= i < j < |n.fires| && n.fires[i].tier == n.fires[j].tier
      ensures n.fires[j].at - n.fires[i].at >= CooldownSeconds(n.fires[i].tier)
    {
      if j == |w.fires| {
        assert w.fires[i] in w.fires;
      }
    }
  }

  lemma {:induction false} RunKeepsInv(w: World, steps: seq<Step>, meter: Meter)
    requires Inv(w)
    ensures Inv(Run(w, steps, meter))
    decreases |steps|
  {
    if steps != [] {
      if steps[0].Try? && Enabled(w, steps[0]) { TryKeepsInv(w, steps[0].request, steps[0].m, meter); }
      RunKeepsInv(Next(w, steps[0], meter), steps[1..], meter);
    }
  }

  /** Main result: in every state reachable from an empty cooldown file, forced fires included, the rotation
      invariant holds, the second scan is dead, every sit picked by the picker differs from the sit fired
      before it, and two fires of one tier are at least its cooldown apart. */
  lemma RotationHoldsOverRuns(steps: seq<Step>, threshold: real)
    ensures var w := Run(INIT, steps, MeterAt(threshold));
      && Rotated(w.s.cd) && FiresOk(w.fires) && w.s.cd.lastSit == LastSitFire(w.fires)
      && forall ratio, bypass, now :: PickTier(w.s.cd, ratio, bypass, now) == FirstScan(0, w.s.cd, ratio, bypass, now)
  {
    RunKeepsInv(INIT, steps, MeterAt(threshold));
    var cd := Run(INIT, steps, MeterAt(threshold)).s.cd;
    forall ratio, bypass, now ensures PickTier(cd, ratio, bypass, now) == FirstScan(0, cd, ratio, bypass, now) {
      SecondScanIsDead(cd, ratio, bypass, now);
    }
  }

  // ---- What a fire leaves ----

  /** What one fire of `t` leaves of the volume `v`. */
  function Leave(t: Tier, v: real): real {
    match t
    case Alert => 0.8 * v
    case Bridging => 0.5 * v
    case Reflection => 0.0
    case Drift => 0.0
    case Feed => 0.7 * v
  }

  lemma LeaveWeight(t: Tier, v: real)
    ensures Leave(t, v) == v * (1.0 - ConsumeWeight(t))
  {
    match t
    case Alert => assert 1.0 - ConsumeWeight(t) == 0.8;
    case Bridging => assert 1.0 - ConsumeWeight(t) == 0.5;
    case Reflection => assert 1.0 - ConsumeWeight(t) == 0.0;
    case Drift => assert 1.0 - ConsumeWeight(t) == 0.0;
    case Feed => assert 1.0 - ConsumeWeight(t) == 0.7;
  }

  ghost predicate NonNegative(p: Pressure) { p.arrived >= 0.0 && p.floor >= 0.0 }

  /** Consuming leaves what `Leave` says, with fresh volume back at zero; no pressure means ratio zero. */
  ghost predicate Sound(meter: Meter) {
    && meter.ratio(Pressure(0.0, 0.0)) == 0.0
    && forall p, t :: NonNegative(p) ==>
         meter.consumed(p, ConsumeWeight(t)) == Pressure(0.0, Leave(t, Volume(p)))
  }

  lemma MeterSound(threshold: real)
    ensures Sound(MeterAt(threshold))
  {
    var meter := MeterAt(threshold);
    assert meter.ratio(Pressure(0.0, 0.0)) == 0.0 by { EmptyRatio(threshold); }
    forall p, t | NonNegative(p) ensures meter.consumed(p, ConsumeWeight(t)) == Pressure(0.0, Leave(t, Volume(p))) {
      ConsumedLeaves(p, t);
      MeterConsumes(threshold, p, ConsumeWeight(t));
    }
  }

  lemma EmptyRatio(threshold: real)
    ensures Ratio(Pressure(0.0, 0.0), threshold) == 0.0
  {
    var th := EffectiveThreshold(threshold);
    if th > 0.0 { assert 0.0 / th == 0.0; }
  }

  /** Consuming never raises the ratio. */
  ghost predicate Falling(meter: Meter) {
    forall p, t :: NonNegative(p) ==> meter.ratio(Pressure(0.0, Leave(t, Volume(p)))) <= meter.ratio(p)
  }

  lemma MeterFalling(threshold: real)
    ensures Falling(MeterAt(threshold))
  {
    forall p, t | NonNegative(p)
      ensures MeterAt(threshold).ratio(Pressure(0.0, Leave(t, Volume(p)))) <= MeterAt(threshold).ratio(p)
    {
      RatioMonotone(threshold, Pressure(0.0, Leave(t, Volume(p))), p);
    }
  }

  lemma RatioMonotone(threshold: real, p: Pressure, q: Pressure)
    requires Volume(p) <= Volume(q)
    ensures Ratio(p, threshold) <= Ratio(q, threshold)
  {
    var th := EffectiveThreshold(threshold);
    if th > 0.0 { DivMonotone(Volume(p), Volume(q), th); }
  }

  lemma DivMonotone(a: real, b: real, th: real)
    requires th > 0.0 && a <= b
    ensures a / th <= b / th
  {
    var x, y := a / th, b / th;
    assert x * th == a && y * th == b;
    assert (y - x) * th >= 0.0;
  }

  lemma MeterConsumes(threshold: real, p: Pressure, w: real)
    ensures MeterAt(threshold).consumed(p, w) == Consumed(p, w)
  {
  }

  lemma ConsumedLeaves(p: Pressure, t: Tier)
    requires NonNegative(p)
    ensures Consumed(p, ConsumeWeight(t)) == Pressure(0.0, Leave(t, Volume(p)))
  {
    LeaveWeight(t, Volume(p));
    assert Leave(t, Volume(p)) >= 0.0;
  }

  // ---- Quiescence ----

  /** Volume only decays. */
  predicate Quiet(w: World, step: Step) {
    match step
    case Arrive(v) => v <= w.s.pressure.arrived
    case Try(_, _) => true
  }

  ghost predicate QuietRun(w: World, steps: seq<Step>, meter: Meter)
    decreases |steps|
  {
    steps == [] || (Quiet(w, steps[0]) && QuietRun(Next(w, steps[0], meter), steps[1..], meter))
  }

  /** The step fires. */
  predicate Fires(w: World, step: Step, meter: Meter) { |Next(w, step, meter).fires| > |w.fires| }

  /** The step fires automatically and consumes: its synthesis marker is written. */
  predicate FiresAuto(w: World, step: Step, meter: Meter) {
    && step.Try? && step.request == Auto && Fires(w, step, meter)
    && !(Fired(w.s, Auto, meter, step.m).value in step.m.unmarked)
  }

  /** How many automatic fires of the run consume. */
  function AutoFires(w: World, steps: seq<Step>, meter: Meter): nat
    decreases |steps|
  {
    if steps == [] then 0
    else
      (if FiresAuto(w, steps[0], meter) then 1 else 0) + AutoFires(Next(w, steps[0], meter), steps[1..], meter)
  }

  function Pow45(k: nat): real {
    if k == 0 then 1.0 else 0.8 * Pow45(k - 1)
  }

  /** `v` cut to four fifths `k` times. */
  function Decayed(k: nat, v: real): real {
    if k == 0 then v else 0.8 * Decayed(k - 1, v)
  }

  lemma {:induction false} DecayedIsPow(k: nat, v: real)
    ensures Decayed(k, v) == Pow45(k) * v
  {
    if k > 0 {
      DecayedIsPow(k - 1, v);
      assert 0.8 * (Pow45(k - 1) * v) == 0.8 * Pow45(k - 1) * v;
    }
  }

  lemma {:induction false} DecayedMonotone(k: nat, a: real, b: real)
    requires a <= b
    ensures Decayed(k, a) <= Decayed(k, b)
  {
    if k > 0 { DecayedMonotone(k - 1, a, b); }
  }

  lemma {:induction false} DecayedOnce(k: nat, v: real)
    ensures Decayed(k, 0.8 * v) == Decayed(k + 1, v)
  {
    if k > 0 { DecayedOnce(k - 1, v); }
  }

  /** The least volume from which `k` automatic fires are possible is at least this: a quarter more for each further
      fire. */
  function Needed(k: nat, th: real): real {
    if k == 0 then 0.0 else if k == 1 then 0.3 * th else 1.25 * Needed(k - 1, th)
  }

  function Pow54(k: nat): real { if k == 0 then 1.0 else 1.25 * Pow54(k - 1) }

  lemma {:induction false} NeededAtLeast(k: nat, th: real)
    requires k > 0 && th > 0.0
    ensures Needed(k, th) >= 0.3 * th
  {
    if k > 1 { NeededAtLeast(k - 1, th); }
  }

  lemma {:induction false} NeededClosedForm(k: nat, th: real)
    requires k > 0
    ensures Needed(k, th) == Pow54(k - 1) * (0.3 * th)
  {
    if k > 1 {
      NeededClosedForm(k - 1, th);
      assert 1.25 * (Pow54(k - 2) * (0.3 * th)) == (1.25 * Pow54(k - 2)) * (0.3 * th);
    }
  }

  /** Ratio 3/10 means three tenths of a positive threshold. */
  ghost predicate Calibrated(meter: Meter, th: real) {
    Sound(meter) && forall p :: meter.ratio(p) >= 0.3 ==> th > 0.0 && Volume(p) >= 0.3 * th
  }

  lemma LeaveBound(t: Tier, v: real)
    requires v >= 0.0
    ensures 0.0 <= Leave(t, v) <= 0.8 * v
  {
  }

  lemma FiredMeans(s: State, request: Request, meter: Meter, m: Moment)
    requires Fired(s, request, meter, m).Some?
    ensures var t := Fired(s, request, meter, m).value;
      AfterFire(s, request, meter, m).pressure
        == if t in m.unmarked then s.pressure else meter.consumed(s.pressure, ConsumeWeight(t))
    ensures request == Auto ==> meter.ratio(s.pressure) >= 0.3
  {
    ScanPicksEligible(0, s.cd, meter.ratio(s.pressure), false, m.now);
  }

  /** One quiet step never adds pressure; a consuming automatic fire takes at least a fifth of it, and every automatic
      fire needs ratio 3/10. */
  lemma QuietStep(w: World, step: Step, meter: Meter, th: real)
    requires NonNegative(w.s.pressure) && Quiet(w, step) && Calibrated(meter, th)
    ensures var n := Next(w, step, meter);
      && NonNegative(n.s.pressure) && Volume(n.s.pressure) <= Volume(w.s.pressure)
      && (FiresAuto(w, step, meter) ==> Volume(n.s.pressure) <= 0.8 * Volume(w.s.pressure))
      && (Fires(w, step, meter) && step.request == Auto ==> th > 0.0 && Volume(w.s.pressure) >= 0.3 * th)
  {
    if step.Try? && Enabled(w, step) && Fired(w.s, step.request, meter, step.m).Some? {
      var t := Fired(w.s, step.request, meter, step.m).value;
      FiredMeans(w.s, step.request, meter, step.m);
      assert meter.consumed(w.s.pressure, ConsumeWeight(t)) == Pressure(0.0, Leave(t, Volume(w.s.pressure)));
      LeaveBound(t, Volume(w.s.pressure));
    }
  }

  lemma RatioBound(p: Pressure, threshold: real)
    requires Ratio(p, threshold) >= 0.3
    ensures EffectiveThreshold(threshold) > 0.0 && Volume(p) >= 0.3 * EffectiveThreshold(threshold)
  {
    var th := EffectiveThreshold(threshold);
    DivBound(Volume(p), th);
  }

  lemma DivBound(v: real, th: real)
    requires th > 0.0 && v / th >= 0.3
    ensures v >= 0.3 * th
  {
    var q := v / th;
    assert q * th == v;
    assert (q - 0.3) * th >= 0.0;
  }

  lemma MeterCalibrated(threshold: real)
    ensures Calibrated(MeterAt(threshold), EffectiveThreshold(threshold))
  {
    MeterSound(threshold);
    forall p | MeterAt(threshold).ratio(p) >= 0.3
      ensures EffectiveThreshold(threshold) > 0.0 && Volume(p) >= 0.3 * EffectiveThreshold(threshold)
    {
      RatioBound(p, threshold);
    }
  }

  /** From volume `v`, `k` automatic fires ended at volume `left`. */
  ghost predicate FiredDown(k: nat, th: real, v: real, left: real) {
    left <= Decayed(k, v) && (k > 0 ==> th > 0.0 && Needed(k, th) <= v)
  }

  lemma FiredDownWiden(k: nat, th: real, v: real, v1: real, left: real)
    requires v1 <= v && FiredDown(k, th, v1, left)
    ensures FiredDown(k, th, v, left)
  {
    DecayedMonotone(k, v1, v);
  }

  lemma FiredDownOnce(k: nat, th: real, v: real, v1: real, left: real)
    requires v1 <= 0.8 * v && th > 0.0 && v >= 0.3 * th && FiredDown(k, th, v1, left)
    ensures FiredDown(k + 1, th, v, left)
  {
    DecayedMonotone(k, v1, 0.8 * v);
    DecayedOnce(k, v);
    if k > 0 { assert Needed(k + 1, th) == 1.25 * Needed(k, th); }
  }

  lemma FiredDownStep(k: nat, fired: bool, th: real, v: real, v1: real, left: real)
    requires v1 <= v && FiredDown(k, th, v1, left)
    requires fired ==> v1 <= 0.8 * v && th > 0.0 && v >= 0.3 * th
    ensures FiredDown(if fired then k + 1 else k, th, v, left)
  {
    if fired { FiredDownOnce(k, th, v, v1, left); } else { FiredDownWiden(k, th, v, v1, left); }
  }

  lemma {:induction false} QuietRunDecays(w: World, steps: seq<Step>, meter: Meter, th: real)
    requires NonNegative(w.s.pressure) && QuietRun(w, steps, meter) && Calibrated(meter, th)
    ensures FiredDown(AutoFires(w, steps, meter), th, Volume(w.s.pressure), Volume(Run(w, steps, meter).s.pressure))
    decreases |steps|
  {
    if steps == [] {
      assert FiredDown(0, th, Volume(w.s.pressure), Volume(w.s.pressure));
    } else {
      var n := Next(w, steps[0], meter);
      QuietStep(w, steps[0], meter, th);
      QuietRunDecays(n, steps[1..], meter, th);
      FiredDownStep(AutoFires(n, steps[1..], meter), FiresAuto(w, steps[0], meter), th, Volume(w.s.pressure),
                    Volume(n.s.pressure), Volume(Run(n, steps[1..], meter).s.pressure));
    }
  }

  /** Main result: with no volume arriving, k automatic fires that consume leave at most (4/5)^k of the pressure,
      whatever else fires or fails to consume in between, and k is bounded by the starting pressure, which must be at
      least 3/10 of the threshold times (5/4)^(k - 1). */
  lemma Quiescence(w: World, steps: seq<Step>, threshold: real)
    requires NonNegative(w.s.pressure) && QuietRun(w, steps, MeterAt(threshold))
    ensures var k, v, left := AutoFires(w, steps, MeterAt(threshold)), Volume(w.s.pressure),
                              Volume(Run(w, steps, MeterAt(threshold)).s.pressure);
      QuietBound(k, EffectiveThreshold(threshold), v, left)
  {
    MeterCalibrated(threshold);
    QuietRunDecays(w, steps, MeterAt(threshold), EffectiveThreshold(threshold));
    FiredDownBound(AutoFires(w, steps, MeterAt(threshold)), EffectiveThreshold(threshold), Volume(w.s.pressure),
                   Volume(Run(w, steps, MeterAt(threshold)).s.pressure));
  }

  ghost predicate QuietBound(k: nat, th: real, v: real, left: real) {
    && left <= Pow45(k) * v
    && (k > 0 ==> th > 0.0 && Pow54(k - 1) * (0.3 * th) <= v)
  }

  lemma FiredDownBound(k: nat, th: real, v: real, left: real)
    requires FiredDown(k, th, v, left)
    ensures QuietBound(k, th, v, left)
  {
    DecayedIsPow(k, v);
    if k > 0 { NeededClosedForm(k, th); }
  }

  // ---- What each request fires ----

  /** The tier fired less than ten minutes, half an hour or three hours ago. */
  predicate Resting(t: Tier, cd: Cooldowns, now: int) {
    t in cd.stamps && now - cd.stamps[t] <
      match t
      case Alert => 600
      case Bridging => 1800
      case Reflection => 10_800
      case Drift => 10_800
      case Feed => 1800
  }

  /** The volume is three, five or seven tenths of the threshold, which counts as one when it is zero. */
  predicate Presses(t: Tier, volume: real, threshold: real) {
    var th := if threshold == 0.0 then 1.0 else threshold;
    th > 0.0 && volume >= th *
      match t
      case Alert => 0.3
      case Bridging => 0.5
      case Reflection => 0.7
      case Drift => 0.7
      case Feed => 0.0
  }

  /** The flavour that did not fire last, reflection at first. */
  function SitInTurn(fires: seq<Fire>): Tier { if LastSitFire(fires) == Some(Reflection) then Drift else Reflection }

  /** What the request may fire: a forced one its own tier, the others alert, bridging and the sit in turn, cheapest
      first; resting tiers never, and on an automatic fire only tiers for which there is pressure enough. */
  function Offered(w: World, request: Request, now: int, threshold: real): Option<Tier> {
    var ready := (t: Tier) =>
      !Resting(t, w.s.cd, now) && (request != Auto || Presses(t, Volume(w.s.pressure), threshold));
    var sit := SitInTurn(w.fires);
    match request
    case Forced(t) => if ready(t) then Some(t) else None
    case _ =>
      if ready(Alert) then Some(Alert) else if ready(Bridging) then Some(Bridging)
      else if ready(sit) then Some(sit) else None
  }

  /** The offered tier is stamped and, unless it is an alert while an alert card is recent, fires and leaves its part of
      the pressure, all of it when its marker fails; without an offer nothing changes. */
  ghost predicate AnsweredBy(w: World, n: World, request: Request, m: Moment, offered: Option<Tier>) {
    match offered
    case None => n.s == w.s && n.fires == w.fires
    case Some(t) =>
      var suppressed := t == Alert && m.recentAlert;
      && n.s.cd.stamps == w.s.cd.stamps[t := m.stampedAt]
      && n.fires == (if suppressed then w.fires else w.fires + [Fire(t, m.stampedAt, request)])
      && n.s.pressure == (if suppressed || t in m.unmarked then w.s.pressure
                          else Pressure(0.0, Leave(t, Volume(w.s.pressure))))
  }

  lemma RatioReaches(p: Pressure, threshold: real, c: real)
    requires c > 0.0
    ensures var th := EffectiveThreshold(threshold);
      Ratio(p, threshold) >= c <==> th > 0.0 && Volume(p) >= th * c
  {
    var th := EffectiveThreshold(threshold);
    if th > 0.0 { DivReaches(Volume(p), th, c); }
  }

  lemma DivReaches(v: real, th: real, c: real)
    requires th > 0.0
    ensures v / th >= c <==> v >= th * c
  {
    var q := v / th;
    assert q * th == v;
    if q >= c { assert (q - c) * th >= 0.0; } else { assert (c - q) * th > 0.0; }
  }

  lemma EligibleMeans(t: Tier, s: State, threshold: real, bypass: bool, now: int)
    requires t != Feed
    ensures Eligible(t, s.cd, Ratio(s.pressure, threshold), bypass, now) <==>
      !Resting(t, s.cd, now) && (bypass || Presses(t, Volume(s.pressure), threshold))
  {
    RatioReaches(s.pressure, threshold, MinRatio(t));
  }

  lemma ChosenIsOffered(w: World, request: Request, now: int, threshold: real)
    requires Inv(w)
    ensures Chosen(w.s, request, MeterAt(threshold), now) == Offered(w, request, now, threshold)
  {
    if !request.Forced? {
      var ratio := Ratio(w.s.pressure, threshold);
      SecondScanIsDead(w.s.cd, ratio, request.Pulse?, now);
      FirstScanTable(w.s.cd, ratio, request.Pulse?, now);
      EligibleMeans(Alert, w.s, threshold, request.Pulse?, now);
      EligibleMeans(Bridging, w.s, threshold, request.Pulse?, now);
      EligibleMeans(SitInTurn(w.fires), w.s, threshold, request.Pulse?, now);
    }
  }

  lemma {:induction false} RunNonNegative(w: World, steps: seq<Step>, meter: Meter)
    requires NonNegative(w.s.pressure) && Sound(meter)
    ensures NonNegative(Run(w, steps, meter).s.pressure)
    decreases |steps|
  {
    if steps != [] {
      if steps[0].Try? && Fired(w.s, steps[0].request, meter, steps[0].m).Some? {
        LeaveBound(Fired(w.s, steps[0].request, meter, steps[0].m).value, Volume(w.s.pressure));
      }
      RunNonNegative(Next(w, steps[0], meter), steps[1..], meter);
    }
  }

  /** Main result on requests: in every reachable state a pulse fires the first of alert, bridging and the sit in turn
      that is not resting, whatever the pressure; an automatic fire the first of them for which there is also pressure
      enough; a forced one its tier, unless it rests. */
  lemma RequestFires(steps: seq<Step>, w: World, request: Request, m: Moment, threshold: real)
    requires w == Run(INIT, steps, MeterAt(threshold)) && w.clock <= m.now <= m.stampedAt
    ensures AnsweredBy(w, Next(w, Try(request, m), MeterAt(threshold)), request, m,
                   Offered(w, request, m.now, threshold))
  {
    RunKeepsInv(INIT, steps, MeterAt(threshold));
    MeterSound(threshold);
    RunNonNegative(INIT, steps, MeterAt(threshold));
    ChosenIsOffered(w, request, m.now, threshold);
    FireAfter(w, request, m, threshold);
  }

  lemma FireAfter(w: World, request: Request, m: Moment, threshold: real)
    requires NonNegative(w.s.pressure) && w.clock <= m.now <= m.stampedAt
    ensures AnsweredBy(w, Next(w, Try(request, m), MeterAt(threshold)), request, m,
                   Chosen(w.s, request, MeterAt(threshold), m.now))
  {
    var chosen := Chosen(w.s, request, MeterAt(threshold), m.now);
    if chosen.Some? {
      ConsumedLeaves(w.s.pressure, chosen.value);
      MeterConsumes(threshold, w.s.pressure, ConsumeWeight(chosen.value));
    }
  }

  /** A pulse fires nothing exactly when alert, bridging and the sit in turn all rest, or an alert is suppressed. */
  lemma PulseFiresIff(steps: seq<Step>, w: World, m: Moment, threshold: real)
    requires w == Run(INIT, steps, MeterAt(threshold)) && w.clock <= m.now <= m.stampedAt
    ensures var n, cd := Next(w, Try(Pulse, m), MeterAt(threshold)), w.s.cd;
      n.fires == w.fires <==>
        if Resting(Alert, cd, m.now) then Resting(Bridging, cd, m.now) && Resting(SitInTurn(w.fires), cd, m.now)
        else m.recentAlert
  {
    RequestFires(steps, w, Pulse, m, threshold);
  }
}
