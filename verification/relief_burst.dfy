/** The watcher's bursts: the cascade loop is one sweep over the tier table, and what ticks fire over whole runs. */
module ReliefBurst {
  import opened Sequences
  import opened Relief
  import opened ReliefRuns

  // ---- One sweep ----

  /** The tiers in the order a burst can fire them: the sit flavour next in rotation comes before the other. */
  function Order(cd: Cooldowns): seq<Tier> { [Alert, Bridging, NextSit(cd), OtherSit(NextSit(cd))] }

  /** What a fire of `t` makes of the pressure: nothing, if its synthesis marker cannot be written. */
  function Bite(p: Pressure, t: Tier, m: Moment): Pressure {
    if t in m.unmarked then p else Pressure(0.0, Leave(t, Volume(p)))
  }

  function BiteAll(p: Pressure, tiers: seq<Tier>, m: Moment): Pressure
    decreases |tiers|
  {
    if tiers == [] then p else BiteAll(Bite(p, tiers[0], m), tiers[1..], m)
  }

  /** One pass over the tiers: each fires if it is off cooldown and the pressure left so far reaches its floor. */
  function Sweep(order: seq<Tier>, cd: Cooldowns, p: Pressure, meter: Meter, m: Moment): seq<Tier>
    decreases |order|
  {
    if order == [] then []
    else if Eligible(order[0], cd, meter.ratio(p), false, m.now)
    then [order[0]] + Sweep(order[1..], cd, Bite(p, order[0], m), meter, m)
    else Sweep(order[1..], cd, p, meter, m)
  }

  /** The state of a valve on which calls never overlapped. */
  ghost predicate Ready(s: State, m: Moment) {
    && m.now <= m.stampedAt && Rotated(s.cd) && NonNegative(s.pressure)
    && forall t :: t in s.cd.stamps ==> s.cd.stamps[t] <= m.stampedAt
  }

  /** A meter as every threshold gives one. */
  ghost predicate Fair(meter: Meter) { Sound(meter) && Falling(meter) }

  lemma BiteShrinks(p: Pressure, t: Tier, meter: Meter, m: Moment)
    requires NonNegative(p) && Fair(meter)
    ensures NonNegative(Bite(p, t, m)) && Volume(Bite(p, t, m)) <= Volume(p)
    ensures meter.ratio(Bite(p, t, m)) <= meter.ratio(p)
  {
  }

  /** What an automatic call fires, and the state after a fire. */
  lemma Fires1(s: State, meter: Meter, m: Moment)
    requires Ready(s, m)
    ensures var ratio := meter.ratio(s.pressure);
      Chosen(s, Auto, meter, m.now) ==
      if Eligible(Alert, s.cd, ratio, false, m.now) then Some(Alert)
      else if Eligible(Bridging, s.cd, ratio, false, m.now) then Some(Bridging)
      else if Eligible(NextSit(s.cd), s.cd, ratio, false, m.now) then Some(NextSit(s.cd))
      else None
  {
    SecondScanIsDead(s.cd, meter.ratio(s.pressure), false, m.now);
    FirstScanTable(s.cd, meter.ratio(s.pressure), false, m.now);
  }

  /** The state after a fire, as the fire logic computes it. */
  lemma AfterOne(s: State, t: Tier, n: State, meter: Meter, m: Moment)
    requires NonNegative(s.pressure) && Sound(meter) && Fired(s, Auto, meter, m) == Some(t)
    requires n == State(Stamped(s.cd, t, m.stampedAt), Bite(s.pressure, t, m))
    ensures AfterFire(s, Auto, meter, m) == n
  {
    assert meter.consumed(s.pressure, ConsumeWeight(t)) == Pressure(0.0, Leave(t, Volume(s.pressure)));
  }

  lemma StampedReady(s: State, t: Tier, n: State, m: Moment)
    requires Ready(s, m) && n.cd == Stamped(s.cd, t, m.stampedAt) && NonNegative(n.pressure)
    ensures Ready(n, m)
  {
    StampKeepsRotation(s.cd, t, m.stampedAt, m.stampedAt);
  }

  lemma {:induction false} FireNext(s: State, t: Tier, meter: Meter, m: Moment) returns (n: State)
    requires Ready(s, m) && Fair(meter) && Fired(s, Auto, meter, m) == Some(t)
    ensures n == State(Stamped(s.cd, t, m.stampedAt), Bite(s.pressure, t, m)) && AfterFire(s, Auto, meter, m) == n
    ensures Ready(n, m) && meter.ratio(n.pressure) <= meter.ratio(s.pressure)
  {
    n := State(Stamped(s.cd, t, m.stampedAt), Bite(s.pressure, t, m));
    BiteShrinks(s.pressure, t, meter, m);
    AfterOne(s, t, n, meter, m);
    StampedReady(s, t, n, m);
  }

  /** The burst from `s` fires these tiers, in this order, and bites accordingly. */
  ghost predicate BurstIs(s: State, meter: Meter, m: Moment, tiers: seq<Tier>)
    requires m.now <= m.stampedAt
  {
    && CascadeTiers(s, meter, m) == tiers
    && CascadeState(s, meter, m).pressure == BiteAll(s.pressure, tiers, m)
  }

  lemma {:induction false} BurstCons(s: State, t: Tier, n: State, meter: Meter, m: Moment, rest: seq<Tier>)
    requires m.now <= m.stampedAt && Fired(s, Auto, meter, m) == Some(t) && n == AfterFire(s, Auto, meter, m)
    requires BurstIs(n, meter, m, rest) && n.pressure == Bite(s.pressure, t, m)
    ensures BurstIs(s, meter, m, [t] + rest)
  {
    CascadeUnfolds(s, meter, m, n);
    assert ([t] + rest)[1..] == rest;
  }

  /** With no automatic tier eligible nothing fires. */
  lemma {:induction false} BurstEnds(s: State, meter: Meter, m: Moment)
    requires Ready(s, m)
    requires Out(Alert, s, meter, m) && Out(Bridging, s, meter, m) && Out(NextSit(s.cd), s, meter, m)
    ensures BurstIs(s, meter, m, [])
  {
    Fires1(s, meter, m);
    CascadeUnfolds(s, meter, m, AfterFire(s, Auto, meter, m));
  }

  /** The tier cannot fire at this point of the burst. */
  ghost predicate Out(t: Tier, s: State, meter: Meter, m: Moment) {
    !Eligible(t, s.cd, meter.ratio(s.pressure), false, m.now)
  }

  /** Once out a tier stays out, and one that fires is out. */
  lemma StaysOut(u: Tier, t: Tier, s: State, n: State, meter: Meter, m: Moment)
    requires n.cd == Stamped(s.cd, t, m.stampedAt) && meter.ratio(n.pressure) <= meter.ratio(s.pressure)
    requires m.now <= m.stampedAt && (u == t || Out(u, s, meter, m))
    ensures Out(u, n, meter, m)
  {
  }

  lemma SweepSkips(t: Tier, rest: seq<Tier>, cd: Cooldowns, p: Pressure, meter: Meter, m: Moment)
    requires !Eligible(t, cd, meter.ratio(p), false, m.now)
    ensures Sweep([t] + rest, cd, p, meter, m) == Sweep(rest, cd, p, meter, m)
  {
    assert ([t] + rest)[1..] == rest;
  }

  lemma SweepTakes(t: Tier, rest: seq<Tier>, cd: Cooldowns, p: Pressure, meter: Meter, m: Moment)
    requires Eligible(t, cd, meter.ratio(p), false, m.now)
    ensures Sweep([t] + rest, cd, p, meter, m) == [t] + Sweep(rest, cd, Bite(p, t, m), meter, m)
  {
    assert ([t] + rest)[1..] == rest;
  }

  /** A sweep looks only at the cooldowns of the tiers it passes. */
  lemma {:induction false} SweepFrame(order: seq<Tier>, cd: Cooldowns, cd': Cooldowns, p: Pressure, meter: Meter,
                                      m: Moment)
    requires forall t :: t in order ==> (OnCooldown(t, cd, m.now) <==> OnCooldown(t, cd', m.now))
    ensures Sweep(order, cd, p, meter, m) == Sweep(order, cd', p, meter, m)
    decreases |order|
  {
    if order != [] {
      HeadIsMember(order);
      SweepFrame(order[1..], cd, cd', Bite(p, order[0], m), meter, m);
      SweepFrame(order[1..], cd, cd', p, meter, m);
    }
  }

  /** In a rotated state the other sit flavour is out whenever the next one is. */
  lemma RotationBlocks(s: State, meter: Meter, m: Moment)
    requires Rotated(s.cd) && Out(NextSit(s.cd), s, meter, m)
    ensures Out(OtherSit(NextSit(s.cd)), s, meter, m)
  {
  }

  /** A tier that is out is passed over. */
  lemma {:induction false} StageSkips(s: State, t: Tier, tail: seq<Tier>, meter: Meter, m: Moment)
    requires m.now <= m.stampedAt && Out(t, s, meter, m)
    requires BurstIs(s, meter, m, Sweep(tail, s.cd, s.pressure, meter, m))
    ensures BurstIs(s, meter, m, Sweep([t] + tail, s.cd, s.pressure, meter, m))
  {
    SweepSkips(t, tail, s.cd, s.pressure, meter, m);
  }

  /** A tier that fires is followed by the sweep over the rest. */
  lemma {:induction false} StageFires(s: State, t: Tier, n: State, tail: seq<Tier>, meter: Meter, m: Moment)
    requires m.now <= m.stampedAt && Fired(s, Auto, meter, m) == Some(t) && !Out(t, s, meter, m)
    requires n == AfterFire(s, Auto, meter, m) == State(Stamped(s.cd, t, m.stampedAt), Bite(s.pressure, t, m))
    requires t !in tail && BurstIs(n, meter, m, Sweep(tail, n.cd, n.pressure, meter, m))
    ensures BurstIs(s, meter, m, Sweep([t] + tail, s.cd, s.pressure, meter, m))
  {
    SweepFrame(tail, n.cd, s.cd, n.pressure, meter, m);
    BurstCons(s, t, n, meter, m, Sweep(tail, n.cd, n.pressure, meter, m));
    SweepTakes(t, tail, s.cd, s.pressure, meter, m);
  }

  /** The state after the fire of `t`, and what is out from then on. */
  lemma {:induction false} OutAfter(s: State, t: Tier, meter: Meter, m: Moment) returns (n: State)
    requires Ready(s, m) && Fair(meter) && Fired(s, Auto, meter, m) == Some(t)
    ensures Ready(n, m)
    ensures n == AfterFire(s, Auto, meter, m) == State(Stamped(s.cd, t, m.stampedAt), Bite(s.pressure, t, m))
    ensures Out(t, n, meter, m)
    ensures Out(Alert, s, meter, m) ==> Out(Alert, n, meter, m)
    ensures Out(Bridging, s, meter, m) ==> Out(Bridging, n, meter, m)
    ensures Out(OtherSit(t), s, meter, m) ==> Out(OtherSit(t), n, meter, m)
  {
    n := FireNext(s, t, meter, m);
    StaysOut(t, t, s, n, meter, m);
    if Out(Alert, s, meter, m) { StaysOut(Alert, t, s, n, meter, m); }
    if Out(Bridging, s, meter, m) { StaysOut(Bridging, t, s, n, meter, m); }
    if Out(OtherSit(t), s, meter, m) { StaysOut(OtherSit(t), t, s, n, meter, m); }
  }

  lemma EmptySweep(cd: Cooldowns, p: Pressure, meter: Meter, m: Moment)
    ensures Sweep([], cd, p, meter, m) == []
  {
  }

  lemma SitFires(s: State, t: Tier, meter: Meter, m: Moment)
    requires Ready(s, m) && t == NextSit(s.cd)
    requires Out(Alert, s, meter, m) && Out(Bridging, s, meter, m) && !Out(t, s, meter, m)
    ensures Fired(s, Auto, meter, m) == Some(t)
  {
    Fires1(s, meter, m);
  }

  lemma BridgingFires(s: State, meter: Meter, m: Moment)
    requires Ready(s, m) && Out(Alert, s, meter, m) && !Out(Bridging, s, meter, m)
    ensures Fired(s, Auto, meter, m) == Some(Bridging)
  {
    Fires1(s, meter, m);
  }

  lemma AlertFires(s: State, meter: Meter, m: Moment)
    requires Ready(s, m) && !Out(Alert, s, meter, m) && !m.recentAlert
    ensures Fired(s, Auto, meter, m) == Some(Alert)
  {
    Fires1(s, meter, m);
  }

  /** The sit flavour `t`, the other one being out. */
  lemma {:induction false} LastSitStage(s: State, t: Tier, meter: Meter, m: Moment)
    requires Ready(s, m) && Fair(meter) && t == NextSit(s.cd)
    requires Out(Alert, s, meter, m) && Out(Bridging, s, meter, m) && Out(OtherSit(t), s, meter, m)
    ensures BurstIs(s, meter, m, Sweep([t] + [], s.cd, s.pressure, meter, m))
  {
    EmptySweep(s.cd, s.pressure, meter, m);
    if Out(t, s, meter, m) {
      BurstEnds(s, meter, m);
      StageSkips(s, t, [], meter, m);
    } else {
      SitFires(s, t, meter, m);
      var n := OutAfter(s, t, meter, m);
      BurstEnds(n, meter, m);
      EmptySweep(n.cd, n.pressure, meter, m);
      StageFires(s, t, n, [], meter, m);
    }
  }

  /** The sits of a burst. */
  lemma {:induction false} SitStage(s: State, t: Tier, u: Tier, meter: Meter, m: Moment)
    requires Ready(s, m) && Fair(meter) && Out(Alert, s, meter, m) && Out(Bridging, s, meter, m)
    requires t == NextSit(s.cd) && u == OtherSit(t)
    ensures BurstIs(s, meter, m, Sweep([t] + ([u] + []), s.cd, s.pressure, meter, m))
  {
    if Out(t, s, meter, m) {
      RotationBlocks(s, meter, m);
      BurstEnds(s, meter, m);
      EmptySweep(s.cd, s.pressure, meter, m);
      StageSkips(s, u, [], meter, m);
      StageSkips(s, t, [u] + [], meter, m);
    } else {
      SitFires(s, t, meter, m);
      var n := OutAfter(s, t, meter, m);
      LastSitStage(n, u, meter, m);
      StageFires(s, t, n, [u] + [], meter, m);
    }
  }

  /** Bridging and the sits. */
  lemma {:induction false} BridgingStage(s: State, t: Tier, u: Tier, sits: seq<Tier>, meter: Meter, m: Moment)
    requires Ready(s, m) && Fair(meter) && Out(Alert, s, meter, m)
    requires t == NextSit(s.cd) && u == OtherSit(t) && sits == [t] + ([u] + [])
    ensures BurstIs(s, meter, m, Sweep([Bridging] + sits, s.cd, s.pressure, meter, m))
  {
    if Out(Bridging, s, meter, m) {
      SitStage(s, t, u, meter, m);
      StageSkips(s, Bridging, sits, meter, m);
    } else {
      BridgingFires(s, meter, m);
      var n := OutAfter(s, Bridging, meter, m);
      SitStage(n, t, u, meter, m);
      StageFires(s, Bridging, n, sits, meter, m);
    }
  }

  /** All tiers. */
  lemma {:induction false} AlertStage(s: State, t: Tier, u: Tier, sits: seq<Tier>, rest: seq<Tier>, meter: Meter,
                                      m: Moment)
    requires Ready(s, m) && Fair(meter) && !Suppressed(s, meter, m)
    requires t == NextSit(s.cd) && u == OtherSit(t) && sits == [t] + ([u] + []) && rest == [Bridging] + sits
    ensures BurstIs(s, meter, m, Sweep([Alert] + rest, s.cd, s.pressure, meter, m))
  {
    if Out(Alert, s, meter, m) {
      BridgingStage(s, t, u, sits, meter, m);
      StageSkips(s, Alert, rest, meter, m);
    } else {
      AlertFires(s, meter, m);
      var n := OutAfter(s, Alert, meter, m);
      BridgingStage(n, t, u, sits, meter, m);
      StageFires(s, Alert, n, rest, meter, m);
    }
  }

  /** A chosen alert is suppressed while an alert card is recent, which ends the burst before it starts. */
  predicate Suppressed(s: State, meter: Meter, m: Moment) {
    m.recentAlert && Eligible(Alert, s.cd, meter.ratio(s.pressure), false, m.now)
  }

  function Burst(s: State, meter: Meter, m: Moment): seq<Tier> {
    if Suppressed(s, meter, m) then [] else Sweep(Order(s.cd), s.cd, s.pressure, meter, m)
  }

  lemma SuppressedBurst(s: State, meter: Meter, m: Moment)
    requires Ready(s, m) && Suppressed(s, meter, m)
    ensures BurstIs(s, meter, m, [])
  {
    Fires1(s, meter, m);
    CascadeUnfolds(s, meter, m, AfterFire(s, Auto, meter, m));
  }

  /** Main result on bursts: the loop that fires until nothing is eligible fires exactly what one pass over the tier
      table fires, whatever the cooldowns, the pressure and the markers that fail, and leaves what those bites leave. */
  lemma {:induction false} CascadeIsSweep(s: State, meter: Meter, m: Moment)
    requires Ready(s, m) && Fair(meter)
    ensures BurstIs(s, meter, m, Burst(s, meter, m))
  {
    if Suppressed(s, meter, m) {
      SuppressedBurst(s, meter, m);
    } else {
      var t, u := NextSit(s.cd), OtherSit(NextSit(s.cd));
      var sits := [t] + ([u] + []);
      assert Order(s.cd) == [Alert] + ([Bridging] + sits);
      AlertStage(s, t, u, sits, [Bridging] + sits, meter, m);
    }
  }

  // ---- How long a burst is and what it leaves ----

  /** Where a tier stands in the order of a burst. */
  function Rank(cd: Cooldowns, t: Tier): nat {
    match t
    case Alert => 0
    case Bridging => 1
    case Feed => 4
    case _ => if t == NextSit(cd) then 2 else 3
  }

  /** The part of the pressure that a fire does not consume. */
  function Kept(t: Tier, m: Moment): real { if t in m.unmarked then 1.0 else 1.0 - ConsumeWeight(t) }

  /** The part that fires of these tiers do not consume. */
  function Residue(tiers: seq<Tier>, m: Moment): real
    decreases |tiers|
  {
    if tiers == [] then 1.0 else Kept(tiers[0], m) * Residue(tiers[1..], m)
  }

  /** What a fire of `t` leaves of a volume or a ratio. */
  function BitRatio(r: real, t: Tier, m: Moment): real { if t in m.unmarked then r else Leave(t, r) }

  lemma Associate(v: real, w: real, r: real)
    ensures v * w * r == v * (w * r)
  {
  }

  lemma KeptWeight(t: Tier, v: real, m: Moment)
    ensures BitRatio(v, t, m) == v * Kept(t, m)
  {
    if t in m.unmarked {
      assert v * 1.0 == v;
    } else {
      LeaveWeight(t, v);
    }
  }

  /** What fires of these tiers leave of `v`. */
  function LeaveAll(tiers: seq<Tier>, v: real, m: Moment): real
    decreases |tiers|
  {
    if tiers == [] then v else LeaveAll(tiers[1..], BitRatio(v, tiers[0], m), m)
  }

  lemma {:induction false} BiteAllVolume(p: Pressure, tiers: seq<Tier>, m: Moment)
    ensures Volume(BiteAll(p, tiers, m)) == LeaveAll(tiers, Volume(p), m)
    decreases |tiers|
  {
    if tiers != [] { BiteAllVolume(Bite(p, tiers[0], m), tiers[1..], m); }
  }

  lemma {:induction false} LeaveIsResidue(tiers: seq<Tier>, v: real, m: Moment)
    ensures LeaveAll(tiers, v, m) == v * Residue(tiers, m)
    decreases |tiers|
  {
    if tiers != [] {
      var r, w := Residue(tiers[1..], m), Kept(tiers[0], m);
      LeaveIsResidue(tiers[1..], BitRatio(v, tiers[0], m), m);
      KeptWeight(tiers[0], v, m);
      Associate(v, w, r);
    }
  }

  /** Tiers in the order of a burst that starts at rank `k`, a sit followed only if its marker could not be written. */
  ghost predicate BurstShape(cd: Cooldowns, tiers: seq<Tier>, m: Moment, k: nat) {
    && (forall i, j :: 0 <= i < j < |tiers| ==> Rank(cd, tiers[i]) < Rank(cd, tiers[j]))
    && (forall i :: 0 <= i < |tiers| ==> k <= Rank(cd, tiers[i]) <= 3)
    && (forall i :: 0 <= i < |tiers| - 1 && InSitGroup(tiers[i]) ==> tiers[i] in m.unmarked)
  }

  /** Without pressure a sweep fires nothing. */
  lemma {:induction false} SweepsNothing(order: seq<Tier>, cd: Cooldowns, p: Pressure, meter: Meter, m: Moment)
    requires meter.ratio(p) == 0.0 && forall t :: t in order ==> !ManualOnly(t)
    ensures Sweep(order, cd, p, meter, m) == []
    decreases |order|
  {
    if order != [] {
      HeadIsMember(order);
      SweepsNothing(order[1..], cd, p, meter, m);
    }
  }

  ghost predicate Ranked(order: seq<Tier>, cd: Cooldowns, k: nat) {
    |order| + k == 4 && forall i :: 0 <= i < |order| ==> Rank(cd, order[i]) == k + i
  }

  lemma RankedTail(order: seq<Tier>, cd: Cooldowns, k: nat)
    requires Ranked(order, cd, k) && order != []
    ensures Ranked(order[1..], cd, k + 1) && Rank(cd, order[0]) == k && forall t :: t in order[1..] ==> !ManualOnly(t)
  {
  }

  lemma ShapeCons(cd: Cooldowns, t: Tier, rest: seq<Tier>, m: Moment, k: nat)
    requires BurstShape(cd, rest, m, k + 1) && Rank(cd, t) == k <= 3
    requires InSitGroup(t) && t !in m.unmarked ==> rest == []
    ensures BurstShape(cd, [t] + rest, m, k)
  {
  }

  lemma {:induction false} SweepShape(order: seq<Tier>, cd: Cooldowns, p: Pressure, meter: Meter, m: Moment, k: nat)
    requires Ranked(order, cd, k) && meter.ratio(Pressure(0.0, 0.0)) == 0.0
    ensures BurstShape(cd, Sweep(order, cd, p, meter, m), m, k)
    decreases |order|
  {
    if order != [] {
      RankedTail(order, cd, k);
      var t, q := order[0], Bite(p, order[0], m);
      SweepShape(order[1..], cd, p, meter, m, k + 1);
      SweepShape(order[1..], cd, q, meter, m, k + 1);
      if Eligible(t, cd, meter.ratio(p), false, m.now) {
        if InSitGroup(t) && t !in m.unmarked { SweepsNothing(order[1..], cd, q, meter, m); }
        ShapeCons(cd, t, Sweep(order[1..], cd, q, meter, m), m, k);
      }
    }
  }

  lemma {:induction false} RankAtLeast(cd: Cooldowns, tiers: seq<Tier>, m: Moment, i: nat)
    requires BurstShape(cd, tiers, m, 0) && i < |tiers|
    ensures Rank(cd, tiers[i]) >= i
  {
    if i > 0 {
      RankAtLeast(cd, tiers, m, i - 1);
      assert Rank(cd, tiers[i - 1]) < Rank(cd, tiers[i]);
    }
  }

  /** A burst fires at most four tiers, and four only if the first sit's marker could not be written. */
  lemma ShapeIsShort(cd: Cooldowns, tiers: seq<Tier>, m: Moment)
    requires BurstShape(cd, tiers, m, 0)
    ensures |tiers| <= 4
    ensures |tiers| == 4 ==> tiers[2] == NextSit(cd) && NextSit(cd) in m.unmarked
  {
    if |tiers| >= 4 {
      RankAtLeast(cd, tiers, m, 3);
      RankAtLeast(cd, tiers, m, 2);
      RankAtLeast(cd, tiers, m, |tiers| - 1);
      assert Rank(cd, tiers[2]) < Rank(cd, tiers[3]);
    }
  }

  /** Strictly deeper tiers, at most three, or four when the sit next in rotation cannot write its marker. */
  ghost predicate BurstBound(cd: Cooldowns, tiers: seq<Tier>, m: Moment) {
    BurstShape(cd, tiers, m, 0) && |tiers| <= (if NextSit(cd) in m.unmarked then 4 else 3)
  }

  lemma MeterFair(threshold: real)
    ensures Fair(MeterAt(threshold))
  {
    MeterSound(threshold);
    MeterFalling(threshold);
  }

  /** Fires of these tiers made `left` of the volume `v`. */
  ghost predicate Left(tiers: seq<Tier>, v: real, left: real, m: Moment) { left == v * Residue(tiers, m) }

  lemma {:induction false} LeftIs(tiers: seq<Tier>, v: real, left: real, m: Moment)
    requires left == LeaveAll(tiers, v, m)
    ensures Left(tiers, v, left, m)
  {
    LeaveIsResidue(tiers, v, m);
  }

  lemma {:induction false} BurstHasShape(s: State, meter: Meter, m: Moment)
    requires meter.ratio(Pressure(0.0, 0.0)) == 0.0
    ensures BurstBound(s.cd, Burst(s, meter, m), m)
  {
    if !Suppressed(s, meter, m) {
      SweepShape(Order(s.cd), s.cd, s.pressure, meter, m, 0);
      ShapeIsShort(s.cd, Burst(s, meter, m), m);
    }
  }

  /** The cascade at a threshold is its sweep. */
  lemma {:induction false} CascadeAt(s: State, threshold: real, m: Moment)
    requires Ready(s, m)
    ensures BurstIs(s, MeterAt(threshold), m, Burst(s, MeterAt(threshold), m))
    ensures MeterAt(threshold).ratio(Pressure(0.0, 0.0)) == 0.0
  {
    MeterFair(threshold);
    CascadeIsSweep(s, MeterAt(threshold), m);
  }

  /** A burst with no new volume and no lapsing cooldown fires strictly deeper tiers, at most three of them, or four
      when the sit next in rotation cannot write its marker; a sit that writes it is last; and the pressure left is the
      starting pressure times the product of what each tier that wrote its marker does not consume. */
  lemma {:induction false} CascadeIsShort(s: State, threshold: real, m: Moment)
    requires Ready(s, m)
    ensures var tiers := CascadeTiers(s, MeterAt(threshold), m);
      && BurstBound(s.cd, tiers, m)
      && Left(tiers, Volume(s.pressure), Volume(CascadeState(s, MeterAt(threshold), m).pressure), m)
  {
    var burst := Burst(s, MeterAt(threshold), m);
    CascadeAt(s, threshold, m);
    BurstHasShape(s, MeterAt(threshold), m);
    BiteAllVolume(s.pressure, burst, m);
    LeftIs(burst, Volume(s.pressure), Volume(BiteAll(s.pressure, burst, m)), m);
  }

  // ---- When a burst goes on ----

  /** After the first fire `t` of a burst, the ratio that is left lets a deeper tier fire. */
  ghost predicate GoesOn(s: State, meter: Meter, m: Moment, t: Tier) {
    exists u :: u in Order(s.cd) && Deeper(s.cd, t, u, meter.ratio(Bite(s.pressure, t, m)), m.now)
  }

  /** A tier that stands after `t` and is eligible at the ratio. */
  ghost predicate Deeper(cd: Cooldowns, t: Tier, u: Tier, ratio: real, now: int) {
    Rank(cd, u) > Rank(cd, t) && Eligible(u, cd, ratio, false, now)
  }

  lemma {:induction false} SweepEmptyIff(order: seq<Tier>, cd: Cooldowns, p: Pressure, meter: Meter, m: Moment)
    ensures Sweep(order, cd, p, meter, m) == []
      <==> forall u :: u in order ==> !Eligible(u, cd, meter.ratio(p), false, m.now)
    decreases |order|
  {
    if order != [] {
      HeadIsMember(order);
      SweepEmptyIff(order[1..], cd, p, meter, m);
      assert forall u :: u in order <==> u == order[0] || u in order[1..];
    }
  }

  lemma {:induction false} SweepGoesOn(order: seq<Tier>, cd: Cooldowns, p: Pressure, meter: Meter, m: Moment, k: nat)
    requires Ranked(order, cd, k) && Sweep(order, cd, p, meter, m) != []
    ensures var tiers := Sweep(order, cd, p, meter, m);
      |tiers| >= 2 <==> exists u :: u in order && Deeper(cd, tiers[0], u, meter.ratio(Bite(p, tiers[0], m)), m.now)
    decreases |order|
  {
    RankedTail(order, cd, k);
    var rest := order[1..];
    assert forall u :: u in order <==> u == order[0] || u in rest;
    assert forall u :: u in rest ==> Rank(cd, u) > k;
    if Eligible(order[0], cd, meter.ratio(p), false, m.now) {
      SweepEmptyIff(rest, cd, Bite(p, order[0], m), meter, m);
    } else {
      SweepGoesOn(rest, cd, p, meter, m, k + 1);
      SweepStarts(rest, cd, p, meter, m, k + 1);
    }
  }

  lemma {:induction false} SweepStarts(order: seq<Tier>, cd: Cooldowns, p: Pressure, meter: Meter, m: Moment, k: nat)
    requires Ranked(order, cd, k) && Sweep(order, cd, p, meter, m) != []
    ensures Rank(cd, Sweep(order, cd, p, meter, m)[0]) >= k
    decreases |order|
  {
    RankedTail(order, cd, k);
    if !Eligible(order[0], cd, meter.ratio(p), false, m.now) { SweepStarts(order[1..], cd, p, meter, m, k + 1); }
  }

  lemma FiredHead(s: State, meter: Meter, m: Moment)
    requires m.now <= m.stampedAt
    ensures CascadeTiers(s, meter, m) == [] <==> Fired(s, Auto, meter, m).None?
    ensures CascadeTiers(s, meter, m) != [] ==> Fired(s, Auto, meter, m) == Some(CascadeTiers(s, meter, m)[0])
  {
    CascadeUnfolds(s, meter, m, AfterFire(s, Auto, meter, m));
  }

  /** A burst fires more than one tier exactly when its first fire leaves a ratio that lets a deeper one fire. */
  lemma BurstGoesOnIff(s: State, meter: Meter, m: Moment)
    requires Ready(s, m) && Fair(meter)
    ensures |CascadeTiers(s, meter, m)| >= 2
      <==> Fired(s, Auto, meter, m).Some? && GoesOn(s, meter, m, Fired(s, Auto, meter, m).value)
  {
    CascadeIsSweep(s, meter, m);
    FiredHead(s, meter, m);
    if CascadeTiers(s, meter, m) != [] {
      SweepGoesOn(Order(s.cd), s.cd, s.pressure, meter, m, 0);
    }
  }

  // ---- Bursts from lapsed cooldowns ----

  /** No automatic tier is on cooldown. */
  ghost predicate Lapsed(cd: Cooldowns, now: int) { forall t :: t in Order(cd) ==> !OnCooldown(t, cd, now) }

  /** The sweep on ratios alone. */
  function Table(order: seq<Tier>, r: real, m: Moment): seq<Tier>
    decreases |order|
  {
    if order == [] then []
    else if r >= MinRatio(order[0]) then [order[0]] + Table(order[1..], BitRatio(r, order[0], m), m)
    else Table(order[1..], r, m)
  }

  lemma LeaveRatio(p: Pressure, t: Tier, threshold: real)
    ensures Ratio(Pressure(0.0, Leave(t, Volume(p))), threshold) == Leave(t, Ratio(p, threshold))
  {
    var th, v := EffectiveThreshold(threshold), Volume(p);
    if th > 0.0 {
      var q := v / th;
      assert v == q * th;
      LeaveScales(t, q, th);
      assert Leave(t, v) / th == Leave(t, q);
    }
  }

  lemma LeaveScales(t: Tier, q: real, th: real)
    requires th > 0.0
    ensures Leave(t, q * th) == Leave(t, q) * th
    ensures Leave(t, q * th) / th == Leave(t, q)
  {
    LeaveWeight(t, q * th);
    LeaveWeight(t, q);
    var w := 1.0 - ConsumeWeight(t);
    assert q * th * w == q * w * th;
    Divides(Leave(t, q), th);
  }

  lemma Divides(x: real, th: real)
    requires th > 0.0
    ensures x * th / th == x
  {
  }

  lemma {:induction false} BiteRatio(p: Pressure, t: Tier, threshold: real, m: Moment)
    ensures Ratio(Bite(p, t, m), threshold) == BitRatio(Ratio(p, threshold), t, m)
  {
    if t !in m.unmarked { LeaveRatio(p, t, threshold); }
  }

  lemma {:induction false} SweepIsTable(order: seq<Tier>, cd: Cooldowns, p: Pressure, threshold: real, m: Moment)
    requires forall t :: t in order ==> !OnCooldown(t, cd, m.now)
    ensures Sweep(order, cd, p, MeterAt(threshold), m) == Table(order, Ratio(p, threshold), m)
    decreases |order|
  {
    if order != [] {
      HeadIsMember(order);
      BiteRatio(p, order[0], threshold, m);
      SweepIsTable(order[1..], cd, p, threshold, m);
      SweepIsTable(order[1..], cd, Bite(p, order[0], m), threshold, m);
    }
  }

  lemma TableCons(t: Tier, rest: seq<Tier>, r: real, m: Moment)
    ensures Table([t] + rest, r, m)
      == if r >= MinRatio(t) then [t] + Table(rest, BitRatio(r, t, m), m) else Table(rest, r, m)
  {
    assert ([t] + rest)[1..] == rest;
  }

  lemma TableSits(t: Tier, u: Tier, r: real, m: Moment)
    requires InSitGroup(t) && u == OtherSit(t) && (t in m.unmarked <==> u in m.unmarked)
    ensures Table([t] + ([u] + []), r, m) == if r < 0.7 then [] else if t in m.unmarked then [t, u] else [t]
  {
    TableCons(t, [u] + [], r, m);
    TableCons(u, [], r, m);
    TableCons(u, [], BitRatio(r, t, m), m);
  }

  /** What a burst from lapsed cooldowns fires at a ratio, when all markers are written and when none is. */
  function Marked(r: real, t: Tier): seq<Tier> {
    if r < 0.3 then [] else if r < 0.625 then [Alert] else if r < 1.75 then [Alert, Bridging] else [Alert, Bridging, t]
  }

  function Unmarked(r: real, t: Tier): seq<Tier> {
    if r < 0.3 then [] else if r < 0.5 then [Alert]
    else if r < 0.7 then [Alert, Bridging] else [Alert, Bridging, t, OtherSit(t)]
  }

  lemma TableCloses(t: Tier, r: real, m: Moment, order: seq<Tier>)
    requires InSitGroup(t) && order == [Alert] + ([Bridging] + ([t] + ([OtherSit(t)] + [])))
    ensures m.unmarked == {} ==> Table(order, r, m) == Marked(r, t)
    ensures {Alert, Bridging, Reflection, Drift} <= m.unmarked ==> Table(order, r, m) == Unmarked(r, t)
  {
    var sits := [t] + ([OtherSit(t)] + []);
    TableCons(Alert, [Bridging] + sits, r, m);
    var r1 := if r >= 0.3 then BitRatio(r, Alert, m) else r;
    TableCons(Bridging, sits, r1, m);
    var r2 := if r1 >= 0.5 then BitRatio(r1, Bridging, m) else r1;
    if m.unmarked == {} || {Alert, Bridging, Reflection, Drift} <= m.unmarked {
      TableSits(t, OtherSit(t), r2, m);
    }
  }

  lemma OrderTable(cd: Cooldowns, r: real, m: Moment)
    ensures m.unmarked == {} ==> Table(Order(cd), r, m) == Marked(r, NextSit(cd))
    ensures {Alert, Bridging, Reflection, Drift} <= m.unmarked ==> Table(Order(cd), r, m) == Unmarked(r, NextSit(cd))
  {
    var t := NextSit(cd);
    assert Order(cd) == [Alert] + ([Bridging] + ([t] + ([OtherSit(t)] + [])));
    TableCloses(t, r, m, Order(cd));
  }

  /** The closed form of a burst once every cooldown has lapsed, for every threshold and every pressure: up to three
      tiers when all markers are written, and up to four when none is. */
  lemma {:induction false} LapsedBurst(s: State, threshold: real, m: Moment)
    requires Ready(s, m) && Lapsed(s.cd, m.now) && !m.recentAlert
    ensures var tiers, r := CascadeTiers(s, MeterAt(threshold), m), Ratio(s.pressure, threshold);
      && (m.unmarked == {} ==> tiers == Marked(r, NextSit(s.cd)))
      && ({Alert, Bridging, Reflection, Drift} <= m.unmarked ==> tiers == Unmarked(r, NextSit(s.cd)))
  {
    CascadeAt(s, threshold, m);
    SweepIsTable(Order(s.cd), s.cd, s.pressure, threshold, m);
    OrderTable(s.cd, Ratio(s.pressure, threshold), m);
  }

  // ---- Ticks over whole runs ----

  /** A tick fires more than one tier exactly when the watcher goes on to fire and the burst goes on. */
  lemma TickFiresManyIff(s: State, a: Anchors, watch: Watch, m: Moment)
    requires Ready(s, m)
    ensures var meter := MeterAt(watch.threshold);
      |TickTiers(s, a, watch, m)| >= 2
      <==> (Armed(Volume(s.pressure), a, watch, m.now)
            && Fired(s, Auto, meter, m).Some? && GoesOn(s, meter, m, Fired(s, Auto, meter, m).value))
  {
    MeterFair(watch.threshold);
    BurstGoesOnIff(s, MeterAt(watch.threshold), m);
  }

  datatype Event =
    | Arrive(volume: real)
    | Call(request: Request, m: Moment)
    | Tick(m: Moment)
    | Wake(now: int)

  datatype Loop = Loop(s: State, a: Anchors, clock: int)

  const FRESH := Loop(State(Cooldowns(map[], None), Pressure(0.0, 0.0)), Anchors(None, None), 0)

  predicate Possible(l: Loop, e: Event) {
    match e
    case Arrive(v) => v >= 0.0
    case Call(_, m) => l.clock <= m.now <= m.stampedAt
    case Tick(m) => l.clock <= m.now <= m.stampedAt
    case Wake(now) => l.clock <= now
  }

  /** An event that is not possible changes nothing. */
  function Then(l: Loop, e: Event, watch: Watch): Loop {
    if !Possible(l, e) then l
    else
      match e
      case Arrive(v) => l.(s := l.s.(pressure := l.s.pressure.(arrived := v)))
      case Call(request, m) =>
        var meter := MeterAt(watch.threshold);
        Loop(AfterFire(l.s, request, meter, m), AnchoredOnce(l.a, Fired(l.s, request, meter, m), m), m.stampedAt)
      case Tick(m) =>
        Loop(TickState(l.s, l.a, watch, m), Anchored(l.a, TickTiers(l.s, l.a, watch, m), m), m.stampedAt)
      case Wake(now) => Loop(l.s, l.a.(lastWake := Some(now)), now)
  }

  function After(l: Loop, events: seq<Event>, watch: Watch): Loop
    decreases |events|
  {
    if events == [] then l else After(Then(l, events[0], watch), events[1..], watch)
  }

  ghost predicate LoopInv(l: Loop) {
    && Rotated(l.s.cd) && NonNegative(l.s.pressure)
    && forall t :: t in l.s.cd.stamps ==> l.s.cd.stamps[t] <= l.clock
  }

  lemma CallKeeps(s: State, request: Request, threshold: real, m: Moment)
    requires Ready(s, m)
    ensures Ready(AfterFire(s, request, MeterAt(threshold), m), m)
  {
    var meter := MeterAt(threshold);
    var chosen := Chosen(s, request, meter, m.now);
    if chosen.Some? {
      var t := chosen.value;
      StampKeepsRotation(s.cd, t, m.stampedAt, m.stampedAt);
      MeterConsumes(threshold, s.pressure, ConsumeWeight(t));
      ConsumedLeaves(s.pressure, t);
    }
  }

  lemma {:induction false} CascadeKeeps(s: State, threshold: real, m: Moment)
    requires Ready(s, m)
    ensures Ready(CascadeState(s, MeterAt(threshold), m), m)
    decreases Cool(s.cd, m.now)
  {
    var meter := MeterAt(threshold);
    var n := AfterFire(s, Auto, meter, m);
    CallKeeps(s, Auto, threshold, m);
    CascadeUnfolds(s, meter, m, n);
    CascadeStepDecreases(s, meter, m);
    if Fired(s, Auto, meter, m).Some? { CascadeKeeps(n, threshold, m); }
  }

  lemma ThenKeeps(l: Loop, e: Event, watch: Watch)
    requires LoopInv(l)
    ensures LoopInv(Then(l, e, watch))
  {
    if Possible(l, e) {
      match e
      case Arrive(_) =>
      case Call(request, m) => CallKeeps(l.s, request, watch.threshold, m);
      case Tick(m) => CascadeKeeps(l.s, watch.threshold, m);
      case Wake(_) =>
    }
  }

  lemma {:induction false} AfterKeeps(l: Loop, events: seq<Event>, watch: Watch)
    requires LoopInv(l)
    ensures LoopInv(After(l, events, watch))
    decreases |events|
  {
    if events != [] {
      ThenKeeps(l, events[0], watch);
      AfterKeeps(Then(l, events[0], watch), events[1..], watch);
    }
  }

  /** Main result on ticks: in every run, arrivals, manual and forced fires, ticks and wakes in any order, a tick
      fires one sweep over the tier table if the watcher goes on to fire, and nothing otherwise; the burst is as
      `BurstBound` says. */
  lemma TicksAreSweeps(events: seq<Event>, watch: Watch, m: Moment)
    requires After(FRESH, events, watch).clock <= m.now <= m.stampedAt
    ensures var l := After(FRESH, events, watch);
      var tiers := TickTiers(l.s, l.a, watch, m);
      && tiers == (if Armed(Volume(l.s.pressure), l.a, watch, m.now)
                   then Burst(l.s, MeterAt(watch.threshold), m) else [])
      && BurstBound(l.s.cd, tiers, m)
  {
    var l := After(FRESH, events, watch);
    AfterKeeps(FRESH, events, watch);
    TickIsSweep(l.s, l.a, watch, m);
  }

  lemma {:induction false} TickIsSweep(s: State, a: Anchors, watch: Watch, m: Moment)
    requires Ready(s, m)
    ensures var tiers := TickTiers(s, a, watch, m);
      && tiers == (if Armed(Volume(s.pressure), a, watch, m.now) then Burst(s, MeterAt(watch.threshold), m) else [])
      && BurstBound(s.cd, tiers, m)
  {
    CascadeAt(s, watch.threshold, m);
    BurstHasShape(s, MeterAt(watch.threshold), m);
  }

  lemma {:induction false} AnchoredKeepsWake(a: Anchors, tiers: seq<Tier>, m: Moment)
    ensures Anchored(a, tiers, m).lastWake == a.lastWake
    decreases |tiers|
  {
    if tiers != [] { AnchoredKeepsWake(a, tiers[..|tiers| - 1], m); }
  }

  lemma {:induction false} NoWake(l: Loop, events: seq<Event>, watch: Watch)
    requires l.a.lastWake == None && forall e :: e in events ==> !e.Wake?
    ensures After(l, events, watch).a.lastWake == None
    decreases |events|
  {
    if events != [] {
      HeadIsMember(events);
      var e := events[0];
      if e.Tick? && Possible(l, e) { AnchoredKeepsWake(l.a, TickTiers(l.s, l.a, watch, e.m), e.m); }
      NoWake(Then(l, e, watch), events[1..], watch);
    }
  }

  /** Where no wake is ever marked, a contrast wake is never a reason: the watcher goes on to fire exactly when the
      volume reaches the threshold. */
  lemma {:induction false} ArmedByPressureIff(events: seq<Event>, watch: Watch, now: int)
    requires forall e :: e in events ==> !e.Wake?
    ensures var l := After(FRESH, events, watch);
      Armed(Volume(l.s.pressure), l.a, watch, now) <==> Volume(l.s.pressure) >= watch.threshold && !watch.disabled
  {
    NoWake(FRESH, events, watch);
    UnwokenArmed(After(FRESH, events, watch), watch, now);
  }

  /** The watcher goes on to fire when it is not disabled and the volume reaches the threshold, or pressure was consumed
      before and the last marked wake is the given time ago. */
  lemma ArmedIff(volume: real, a: Anchors, watch: Watch, now: int)
    ensures Armed(volume, a, watch, now) <==>
      && !watch.disabled
      && (volume >= watch.threshold
          || (a.lastSynthesis.Some? && a.lastWake.Some? && now - a.lastWake.value >= watch.wakeAfter))
  {
  }

  lemma UnwokenArmed(l: Loop, watch: Watch, now: int)
    requires l.a.lastWake == None
    ensures Armed(Volume(l.s.pressure), l.a, watch, now) <==> Volume(l.s.pressure) >= watch.threshold && !watch.disabled
  {
  }

  lemma RatioAtLeast(p: Pressure, threshold: real, k: real)
    requires threshold > 0.0
    ensures Ratio(p, threshold) >= k <==> Volume(p) >= k * threshold
  {
    DivReaches(Volume(p), threshold, k);
  }

  /** So a tick that finds every cooldown lapsed and writes its markers never fires just one tier: below the threshold
      it fires none, from there on two, and from seven quarters of it three. */
  lemma NeverJustOne(events: seq<Event>, watch: Watch, m: Moment)
    requires watch.threshold > 0.0 && forall e :: e in events ==> !e.Wake?
    requires After(FRESH, events, watch).clock <= m.now <= m.stampedAt
    requires Lapsed(After(FRESH, events, watch).s.cd, m.now) && !m.recentAlert && m.unmarked == {}
    ensures var l := After(FRESH, events, watch);
      TickTiers(l.s, l.a, watch, m) == PressedTiers(l.s, watch)
  {
    var l := After(FRESH, events, watch);
    AfterKeeps(FRESH, events, watch);
    NoWake(FRESH, events, watch);
    TickFromLapsed(l.s, l.a, watch, m);
  }

  function PressedTiers(s: State, watch: Watch): seq<Tier> {
    if watch.disabled || Volume(s.pressure) < watch.threshold then []
    else if Volume(s.pressure) < 1.75 * watch.threshold then [Alert, Bridging]
    else [Alert, Bridging, NextSit(s.cd)]
  }

  lemma {:induction false} TickFromLapsed(s: State, a: Anchors, watch: Watch, m: Moment)
    requires watch.threshold > 0.0 && a.lastWake == None
    requires Ready(s, m) && Lapsed(s.cd, m.now) && !m.recentAlert && m.unmarked == {}
    ensures TickTiers(s, a, watch, m) == PressedTiers(s, watch)
  {
    LapsedBurst(s, watch.threshold, m);
    RatioSteps(s.pressure, watch.threshold, Ratio(s.pressure, watch.threshold));
  }

  lemma RatioSteps(p: Pressure, threshold: real, r: real)
    requires threshold > 0.0 && r == Ratio(p, threshold)
    ensures (r >= 1.0 <==> Volume(p) >= threshold) && (r >= 1.75 <==> Volume(p) >= 1.75 * threshold)
  {
    RatioAtLeast(p, threshold, 1.0);
    RatioAtLeast(p, threshold, 1.75);
  }
}
