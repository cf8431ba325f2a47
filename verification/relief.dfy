/** Pressure relief: the tier picker with its cooldown table and sit rotation, the fractional
    consumption of feed pressure, and the watcher's gate and cascade. Times are clock readings. */
module Relief {
  import opened Sequences

  datatype Tier = Alert | Bridging | Reflection | Drift | Feed

  const RELIEF_TIERS: seq<Tier> := [Alert, Bridging, Reflection, Drift, Feed]

  function MinRatio(t: Tier): real {
    match t
    case Alert => 0.3
    case Bridging => 0.5
    case Reflection => 0.7
    case Drift => 0.7
    case Feed => 0.0
  }

  function ConsumeWeight(t: Tier): real {
    match t
    case Alert => 0.2
    case Bridging => 0.5
    case Reflection => 1.0
    case Drift => 1.0
    case Feed => 0.3
  }

  function CooldownSeconds(t: Tier): int {
    match t
    case Alert => 600
    case Bridging => 1800
    case Reflection => 10_800
    case Drift => 10_800
    case Feed => 1800
  }

  predicate ManualOnly(t: Tier) { t == Feed }

  predicate InSitGroup(t: Tier) { t == Reflection || t == Drift }

  // ---- The cooldown file ----

  /** Last fire per tier, and the sit flavour that fired last. */
  datatype Cooldowns = Cooldowns(stamps: map<Tier, int>, lastSit: Option<Tier>)

  predicate OnCooldown(t: Tier, cd: Cooldowns, now: int) {
    t in cd.stamps && now - cd.stamps[t] < CooldownSeconds(t)
  }

  function NextSit(cd: Cooldowns): Tier {
    if cd.lastSit == Some(Reflection) then Drift else Reflection
  }

  function Stamped(cd: Cooldowns, t: Tier, now: int): Cooldowns {
    Cooldowns(cd.stamps[t := now], if InSitGroup(t) then Some(t) else cd.lastSit)
  }

  /** Pressure floor (unless bypassed) and cooldown, the two gates every tier passes. */
  predicate Eligible(t: Tier, cd: Cooldowns, ratio: real, bypassFloor: bool, now: int) {
    (bypassFloor || ratio >= MinRatio(t)) && !OnCooldown(t, cd, now)
  }

  /** First scan of `pick_tier` from index `i`: cheapest eligible tier, sit flavours only in rotation. */
  function FirstScan(i: nat, cd: Cooldowns, ratio: real, bypassFloor: bool, now: int): Option<Tier>
    requires i <= |RELIEF_TIERS|
    decreases |RELIEF_TIERS| - i
  {
    if i == |RELIEF_TIERS| then None
    else
      var t := RELIEF_TIERS[i];
      if ManualOnly(t) || !Eligible(t, cd, ratio, bypassFloor, now) || (InSitGroup(t) && t != NextSit(cd))
      then FirstScan(i + 1, cd, ratio, bypassFloor, now)
      else Some(t)
  }

  /** Second scan: any eligible sit flavour, rotation ignored. */
  function SecondScan(i: nat, cd: Cooldowns, ratio: real, bypassFloor: bool, now: int): Option<Tier>
    requires i <= |RELIEF_TIERS|
    decreases |RELIEF_TIERS| - i
  {
    if i == |RELIEF_TIERS| then None
    else
      var t := RELIEF_TIERS[i];
      if !InSitGroup(t) || !Eligible(t, cd, ratio, bypassFloor, now)
      then SecondScan(i + 1, cd, ratio, bypassFloor, now)
      else Some(t)
  }

  function PickTier(cd: Cooldowns, ratio: real, bypassFloor: bool, now: int): Option<Tier> {
    var first := FirstScan(0, cd, ratio, bypassFloor, now);
    if first.Some? then first else SecondScan(0, cd, ratio, bypassFloor, now)
  }

  // ---- Pressure ----

  /** Volume in the lake since the last synthesis, and the residue earlier partial bites left. */
  datatype Pressure = Pressure(arrived: real, floor: real)

  function Volume(p: Pressure): real { p.arrived + p.floor }

  /** `p.get("threshold") or 1.0` */
  function EffectiveThreshold(threshold: real): real { if threshold == 0.0 then 1.0 else threshold }

  function Ratio(p: Pressure, threshold: real): real {
    var th := EffectiveThreshold(threshold);
    if th > 0.0 then Volume(p) / th else 0.0
  }

  /** `mark_synthesis`: the anchor moves to now, so fresh volume restarts from zero. */
  function Consumed(p: Pressure, weight: real): Pressure {
    var w := if weight < 0.0 then 0.0 else if weight > 1.0 then 1.0 else weight;
    if w >= 1.0 then Pressure(0.0, 0.0)
    else Pressure(0.0, if Volume(p) * (1.0 - w) > 0.0 then Volume(p) * (1.0 - w) else 0.0)
  }

  /** How pressure is read and consumed; the fire logic below depends on nothing else about it. */
  datatype Meter = Meter(ratio: Pressure -> real, consumed: (Pressure, real) -> Pressure)

  function MeterAt(threshold: real): Meter {
    Meter(p => Ratio(p, threshold), (p, weight) => Consumed(p, weight))
  }

  // ---- Firing ----

  /** What a caller asked for: the watcher's automatic fire, the FIRE button, or a per-tier button. */
  datatype Request = Auto | Pulse | Forced(tier: Tier)

  /** Surroundings of `fire_relief`: the clock at the pick and at the stamp, whether an alert card is recent, and the
      tiers whose fire cannot write its synthesis marker. */
  datatype Moment = Moment(now: int, stampedAt: int, recentAlert: bool, unmarked: set<Tier>)

  datatype State = State(cd: Cooldowns, pressure: Pressure)

  function Chosen(s: State, request: Request, meter: Meter, now: int): Option<Tier> {
    match request
    case Auto => PickTier(s.cd, meter.ratio(s.pressure), false, now)
    case Pulse => PickTier(s.cd, meter.ratio(s.pressure), true, now)
    case Forced(t) => if OnCooldown(t, s.cd, now) then None else Some(t)
  }

  /** The tier that fires, if any: a chosen alert is suppressed while an alert card is recent. */
  function Fired(s: State, request: Request, meter: Meter, m: Moment): Option<Tier> {
    var chosen := Chosen(s, request, meter, m.now);
    if chosen == Some(Alert) && m.recentAlert then None else chosen
  }

  function AfterFire(s: State, request: Request, meter: Meter, m: Moment): State {
    match Chosen(s, request, meter, m.now)
    case None => s
    case Some(t) =>
      var cd := Stamped(s.cd, t, m.stampedAt);
      if Fired(s, request, meter, m).None? || t in m.unmarked then State(cd, s.pressure)
      else State(cd, meter.consumed(s.pressure, ConsumeWeight(t)))
  }

  // ---- The watcher's gate ----

  /** When pressure was last consumed, and when a wake was last marked. */
  datatype Anchors = Anchors(lastSynthesis: Option<int>, lastWake: Option<int>)

  datatype Reason = Pressing | FirstRun | ContrastWake | BelowThreshold

  /** The settings the watcher runs under. */
  datatype Watch = Watch(threshold: real, wakeAfter: int, disabled: bool)

  /** `should_synthesize` */
  function Verdict(volume: real, a: Anchors, watch: Watch, now: int): Reason {
    if volume >= watch.threshold then Pressing
    else if a.lastSynthesis.None? then FirstRun
    else if a.lastWake.Some? && now - a.lastWake.value >= watch.wakeAfter then ContrastWake
    else BelowThreshold
  }

  /** The watcher goes on to fire: never on a first run, nor when it is disabled. */
  predicate Armed(volume: real, a: Anchors, watch: Watch, now: int) {
    Verdict(volume, a, watch, now) in {Pressing, ContrastWake} && !watch.disabled
  }

  /** The anchors after one call. */
  function AnchoredOnce(a: Anchors, fired: Option<Tier>, m: Moment): Anchors {
    if fired.None? || fired.value in m.unmarked then a else a.(lastSynthesis := Some(m.stampedAt))
  }

  /** The anchors after these tiers fired. */
  function Anchored(a: Anchors, tiers: seq<Tier>, m: Moment): Anchors {
    if tiers == [] then a
    else
      var b := Anchored(a, tiers[..|tiers| - 1], m);
      AnchoredOnce(b, Some(tiers[|tiers| - 1]), m)
  }

  /** The relief module's persisted state. */
  class ReliefValve {
    var stamps: map<Tier, int>
    var lastSit: Option<Tier>
    var arrived: real
    var floor: real
    var lastSynthesis: Option<int>
    var lastWake: Option<int>
    const watch: Watch

    ghost function Now(): State
      reads this
    {
      State(Cooldowns(stamps, lastSit), Pressure(arrived, floor))
    }

    ghost function Marks(): Anchors
      reads this
    {
      Anchors(lastSynthesis, lastWake)
    }

    constructor (watch: Watch)
      ensures Now() == State(Cooldowns(map[], None), Pressure(0.0, 0.0)) && Marks() == Anchors(None, None)
      ensures this.watch == watch
    {
      stamps, lastSit, arrived, floor := map[], None, 0.0, 0.0;
      lastSynthesis, lastWake := None, None;
      this.watch := watch;
    }

    method StampCooldown(t: Tier, now: int)
      modifies this`stamps, this`lastSit
      ensures Now() == State(Stamped(old(Now()).cd, t, now), old(Now()).pressure)
    {
      stamps := stamps[t := now];
      if InSitGroup(t) {
        lastSit := Some(t);
      }
    }

    method MarkSynthesis(weight: real, now: int)
      modifies this`arrived, this`floor, this`lastSynthesis
      ensures Now() == State(old(Now()).cd, Consumed(old(Now()).pressure, weight))
      ensures Marks() == Anchors(Some(now), old(lastWake))
    {
      lastSynthesis := Some(now);
      var w := if weight < 0.0 then 0.0 else if weight > 1.0 then 1.0 else weight;
      if w >= 1.0 {
        arrived, floor := 0.0, 0.0;
        return;
      }
      var preFire := arrived + floor;
      var newFloor := preFire * (1.0 - w);
      if newFloor < 0.0 {
        newFloor := 0.0;
      }
      arrived, floor := 0.0, newFloor;
    }

    method FireRelief(request: Request, m: Moment) returns (fired: Option<Tier>)
      modifies this
      ensures fired == Fired(old(Now()), request, MeterAt(watch.threshold), m)
      ensures Now() == AfterFire(old(Now()), request, MeterAt(watch.threshold), m)
      ensures Marks() == AnchoredOnce(old(Marks()), fired, m)
    {
      var cd := Cooldowns(stamps, lastSit);
      var ratio := Ratio(Pressure(arrived, floor), watch.threshold);
      var tier: Option<Tier>;
      if request.Forced? {
        if OnCooldown(request.tier, cd, m.now) {
          return None;
        }
        tier := Some(request.tier);
      } else {
        tier := PickTier(cd, ratio, request.Pulse?, m.now);
        if tier.None? {
          return None;
        }
      }
      if tier == Some(Alert) && m.recentAlert {
        StampCooldown(Alert, m.stampedAt);
        return None;
      }
      StampCooldown(tier.value, m.stampedAt);
      if tier.value !in m.unmarked {
        MarkSynthesis(ConsumeWeight(tier.value), m.stampedAt);
      }
      fired := tier;
    }

    /** The watcher's burst, all picks at one instant: fire until nothing is eligible. */
    method Cascade(m: Moment) returns (burst: seq<Tier>)
      requires m.now <= m.stampedAt
      modifies this
      ensures burst == CascadeTiers(old(Now()), MeterAt(watch.threshold), m)
      ensures Now() == CascadeState(old(Now()), MeterAt(watch.threshold), m)
      ensures Marks() == Anchored(old(Marks()), burst, m)
    {
      ghost var meter, s0 := MeterAt(watch.threshold), Now();
      burst := [];
      while true
        invariant CascadeSplit(s0, burst, Now(), meter, m)
        invariant Marks() == Anchored(old(Marks()), burst, m)
        decreases Cool(Now().cd, m.now)
      {
        ghost var s := Now();
        CascadeStepDecreases(s, meter, m);
        var fired := FireRelief(Auto, m);
        SplitNext(s0, burst, s, meter, m);
        if fired.None? {
          break;
        }
        AnchoredAppend(old(Marks()), burst, fired.value, m);
        burst := burst + [fired.value];
      }
    }

    method ShouldSynthesize(now: int) returns (should: bool, reason: Reason)
      ensures reason == Verdict(arrived + floor, Marks(), watch, now) && should == (reason != BelowThreshold)
    {
      if arrived + floor >= watch.threshold {
        return true, Pressing;
      }
      if lastSynthesis.None? {
        return true, FirstRun;
      }
      if lastWake.Some? && now - lastWake.value >= watch.wakeAfter {
        return true, ContrastWake;
      }
      return false, BelowThreshold;
    }

    method MarkWake(now: int)
      modifies this`lastWake
      ensures lastWake == Some(now)
    {
      lastWake := Some(now);
    }

    /** One tick of the pressure watcher, at one instant. */
    method Tick(m: Moment) returns (burst: seq<Tier>)
      requires m.now <= m.stampedAt
      modifies this
      ensures burst == TickTiers(old(Now()), old(Marks()), watch, m)
      ensures Now() == TickState(old(Now()), old(Marks()), watch, m)
      ensures Marks() == Anchored(old(Marks()), burst, m)
    {
      burst := [];
      var should, reason := ShouldSynthesize(m.now);
      if should && (reason == Pressing || reason == ContrastWake) && !watch.disabled {
        burst := Cascade(m);
      }
    }
  }

  lemma AnchoredAppend(a: Anchors, tiers: seq<Tier>, t: Tier, m: Moment)
    ensures Anchored(a, tiers + [t], m) == AnchoredOnce(Anchored(a, tiers, m), Some(t), m)
  {
    assert (tiers + [t])[..|tiers|] == tiers;
  }

  // ---- The cascade as a function ----

  /** Tiers not on cooldown. */
  function Cool(cd: Cooldowns, now: int): set<Tier> {
    set t | t in {Alert, Bridging, Reflection, Drift, Feed} && !OnCooldown(t, cd, now)
  }

  lemma ScanPicksEligible(i: nat, cd: Cooldowns, ratio: real, bypassFloor: bool, now: int)
    requires i <= |RELIEF_TIERS|
    ensures FirstScan(i, cd, ratio, bypassFloor, now).Some? ==>
      var t := FirstScan(i, cd, ratio, bypassFloor, now).value;
      Eligible(t, cd, ratio, bypassFloor, now) && !ManualOnly(t) && (InSitGroup(t) ==> t == NextSit(cd))
    ensures SecondScan(i, cd, ratio, bypassFloor, now).Some? ==>
      var t := SecondScan(i, cd, ratio, bypassFloor, now).value;
      Eligible(t, cd, ratio, bypassFloor, now) && InSitGroup(t)
    decreases |RELIEF_TIERS| - i
  {
    if i < |RELIEF_TIERS| { ScanPicksEligible(i + 1, cd, ratio, bypassFloor, now); }
  }

  lemma CascadeStepDecreases(s: State, meter: Meter, m: Moment)
    requires m.now <= m.stampedAt
    ensures Fired(s, Auto, meter, m).Some? ==> Cool(AfterFire(s, Auto, meter, m).cd, m.now) < Cool(s.cd, m.now)
  {
    if Fired(s, Auto, meter, m).Some? {
      var t := Fired(s, Auto, meter, m).value;
      ScanPicksEligible(0, s.cd, meter.ratio(s.pressure), false, m.now);
      assert t in Cool(s.cd, m.now) && t !in Cool(AfterFire(s, Auto, meter, m).cd, m.now);
    }
  }

  function CascadeTiers(s: State, meter: Meter, m: Moment): seq<Tier>
    requires m.now <= m.stampedAt
    decreases Cool(s.cd, m.now)
  {
    CascadeStepDecreases(s, meter, m);
    match Fired(s, Auto, meter, m)
    case None => []
    case Some(t) => [t] + CascadeTiers(AfterFire(s, Auto, meter, m), meter, m)
  }

  function CascadeState(s: State, meter: Meter, m: Moment): State
    requires m.now <= m.stampedAt
    decreases Cool(s.cd, m.now)
  {
    CascadeStepDecreases(s, meter, m);
    var n := AfterFire(s, Auto, meter, m);
    if Fired(s, Auto, meter, m).None? then n else CascadeState(n, meter, m)
  }

  lemma CascadeUnfolds(s: State, meter: Meter, m: Moment, n: State)
    requires m.now <= m.stampedAt && n == AfterFire(s, Auto, meter, m)
    ensures match Fired(s, Auto, meter, m)
      case None => CascadeTiers(s, meter, m) == [] && CascadeState(s, meter, m) == n
      case Some(t) =>
        CascadeTiers(s, meter, m) == [t] + CascadeTiers(n, meter, m)
        && CascadeState(s, meter, m) == CascadeState(n, meter, m)
  {
    CascadeStepDecreases(s, meter, m);
  }

  /** The burst from `s0` has fired `burst` and goes on from `s`. */
  ghost predicate CascadeSplit(s0: State, burst: seq<Tier>, s: State, meter: Meter, m: Moment)
    requires m.now <= m.stampedAt
  {
    && burst + CascadeTiers(s, meter, m) == CascadeTiers(s0, meter, m)
    && CascadeState(s, meter, m) == CascadeState(s0, meter, m)
  }

  lemma SplitNext(s0: State, burst: seq<Tier>, s: State, meter: Meter, m: Moment)
    requires m.now <= m.stampedAt && CascadeSplit(s0, burst, s, meter, m)
    ensures var n := AfterFire(s, Auto, meter, m);
      match Fired(s, Auto, meter, m)
      case None => burst == CascadeTiers(s0, meter, m) && n == CascadeState(s0, meter, m)
      case Some(t) => CascadeSplit(s0, burst + [t], n, meter, m)
  {
    var n := AfterFire(s, Auto, meter, m);
    CascadeUnfolds(s, meter, m, n);
    match Fired(s, Auto, meter, m)
    case None =>
    case Some(t) => assert burst + [t] + CascadeTiers(n, meter, m) == burst + ([t] + CascadeTiers(n, meter, m));
  }

  // ---- A tick as a function ----

  function TickTiers(s: State, a: Anchors, watch: Watch, m: Moment): seq<Tier>
    requires m.now <= m.stampedAt
  {
    if Armed(Volume(s.pressure), a, watch, m.now) then CascadeTiers(s, MeterAt(watch.threshold), m) else []
  }

  function TickState(s: State, a: Anchors, watch: Watch, m: Moment): State
    requires m.now <= m.stampedAt
  {
    if Armed(Volume(s.pressure), a, watch, m.now) then CascadeState(s, MeterAt(watch.threshold), m) else s
  }
}
