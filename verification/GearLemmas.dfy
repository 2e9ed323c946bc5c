/** What the estimator shows, stated over the history of inputs instead of its
    counters, and what its classifier guarantees. */
module GearLemmas {
  import opened Basics
  import opened Bands
  import opened Gear
  import RatioPeaks
  import RatioPeakLemmas

  datatype Event = Sample(inputs: GearInputs) | SetBands(table: BandTable) | ClearBands

  function StepEvent(s: Est, e: Event): Est {
    match e
    case Sample(i) => Step(s, i)
    case SetBands(t) => s.(bands := Some(t))
    case ClearBands => s.(bands := None)
  }

  /** The estimator after a history, oldest event first. */
  function Run(s: Est, h: seq<Event>): Est {
    if h == [] then s else StepEvent(Run(s, h[..|h| - 1]), h[|h| - 1])
  }

  /** The bike has no gear register, or one that reads an implausible value. */
  predicate NoRegister(h: seq<Event>) {
    forall j :: 0 <= j < |h| && h[j].Sample? ==> NoPlausibleRegister(h[j].inputs)
  }

  predicate NoPlausibleRegister(i: GearInputs) { i.gearReg.None? || i.gearReg.value > NUM_GEARS }

  // ---- The counter-free specification ----

  /** The bands in force after a history. */
  function BandsAfter(h: seq<Event>): Option<BandTable> {
    if h == [] then None
    else match h[|h| - 1]
      case Sample(_) => BandsAfter(h[..|h| - 1])
      case SetBands(t) => Some(t)
      case ClearBands => None
  }

  /** What a sample after `h` classifies as; `Unknown` with the clutch pulled. */
  function LabelAfter(h: seq<Event>, i: GearInputs): (Gear, bool) {
    if i.clutchPulled then (Unknown, false) else Classification(BandsAfter(h), i.rpm, i.speed)
  }

  /** The last `n` samples all classified `g`, with the switch off. */
  predicate TrailingRun(h: seq<Event>, g: Gear, n: nat) {
    n == 0 || (h != [] && match h[|h| - 1]
                 case Sample(i) =>
                   !i.neutralSwitch && LabelAfter(h[..|h| - 1], i).0 == g && TrailingRun(h[..|h| - 1], g, n - 1)
                 case _ => TrailingRun(h[..|h| - 1], g, n))
  }

  /** The last `n` samples that carry a speed are standstill samples, with the
      switch off throughout. */
  predicate AtRest(h: seq<Event>, n: nat) {
    n == 0 || (h != [] && match h[|h| - 1]
                 case Sample(i) =>
                   && !i.neutralSwitch
                   && (i.speed.Some? ==> i.speed.value < 1.0)
                   && AtRest(h[..|h| - 1], if i.speed.Some? then n - 1 else n)
                 case _ => AtRest(h[..|h| - 1], n))
  }

  /** The gear to show after a history. */
  function Shown(h: seq<Event>): Gear {
    if h == [] then Unknown
    else
      var p := h[..|h| - 1];
      match h[|h| - 1]
      case Sample(i) =>
        if i.neutralSwitch then Neutral
        else
          var (g, confident) := LabelAfter(p, i);
          if g != Unknown && TrailingRun(h, g, if confident then 2 else 3) then g
          else if Shown(p) == Neutral || AtRest(h, 8) then Unknown
          else Shown(p)
      case _ => Shown(p)
  }

  // ---- The refinement ----

  /** The standstill counter counts the resting samples while a digit is held. */
  ghost predicate TracksRest(s: Est, h: seq<Event>) {
    && (s.gear.G? ==> s.standstill < 8 && forall n: nat :: n <= 8 ==> (AtRest(h, n) <==> n <= s.standstill))
    && (!s.gear.G? ==> s.standstill == 0)
  }

  /** Candidate and stability counter measure the trailing run. */
  ghost predicate TracksRun(s: Est, h: seq<Event>) {
    && (s.candidate.G? ==> s.stable >= 1)
    && (s.candidate.Neutral? ==> s.gear.Neutral?)
    && (s.gear.Neutral? ==> !s.candidate.G?)
    && (forall g: Gear, n: nat :: g.G? && 1 <= n <= 3 ==> (TrailingRun(h, g, n) <==> g == s.candidate && n <= s.stable))
  }

  ghost predicate Tracks(s: Est, h: seq<Event>) {
    s.bands == BandsAfter(h) && s.gear == Shown(h) && TracksRest(s, h) && TracksRun(s, h)
  }

  lemma RunSnoc(p: seq<Event>, e: Event, g: Gear, n: nat)
    ensures TrailingRun(p + [e], g, n) <==>
            if n == 0 then true
            else if e.Sample? then
              !e.inputs.neutralSwitch && LabelAfter(p, e.inputs).0 == g && TrailingRun(p, g, n - 1)
            else TrailingRun(p, g, n)
  {
    assert (p + [e])[..|p|] == p;
  }

  lemma RestSnoc(p: seq<Event>, e: Event, n: nat)
    ensures AtRest(p + [e], n) <==>
            if n == 0 then true
            else if e.Sample? then
              && !e.inputs.neutralSwitch
              && (e.inputs.speed.Some? ==> e.inputs.speed.value < 1.0)
              && AtRest(p, if e.inputs.speed.Some? then n - 1 else n)
            else AtRest(p, n)
  {
    assert (p + [e])[..|p|] == p;
  }

  lemma ShownSnoc(p: seq<Event>, i: GearInputs)
    ensures Shown(p + [Sample(i)]) ==
            if i.neutralSwitch then Neutral
            else
              var (g, confident) := LabelAfter(p, i);
              if g != Unknown && TrailingRun(p + [Sample(i)], g, if confident then 2 else 3) then g
              else if Shown(p) == Neutral || AtRest(p + [Sample(i)], 8) then Unknown
              else Shown(p)
  {
    assert (p + [Sample(i)])[..|p|] == p;
  }

  lemma LabelMoves(p: seq<Event>, i: GearInputs)
    ensures var g := LabelAfter(p, i).0;
            g == Unknown || (g.G? && i.speed.Some? && i.speed.value >= MIN_SPEED)
  {
  }

  lemma TracksRunSample(s: Est, p: seq<Event>, i: GearInputs)
    requires TracksRun(s, p) && s.bands == BandsAfter(p) && NoPlausibleRegister(i)
    ensures TracksRun(Step(s, i), p + [Sample(i)])
  {
    LabelMoves(p, i);
    forall g: Gear, n: nat | g.G? && 1 <= n <= 3
      ensures TrailingRun(p + [Sample(i)], g, n) <==> g == Step(s, i).candidate && n <= Step(s, i).stable
    {
      RunSnoc(p, Sample(i), g, n);
    }
  }

  lemma TracksGearSample(s: Est, p: seq<Event>, i: GearInputs)
    requires Tracks(s, p) && NoPlausibleRegister(i)
    ensures Step(s, i).gear == Shown(p + [Sample(i)])
  {
    LabelMoves(p, i);
    ShownSnoc(p, i);
    if !i.neutralSwitch {
      var (g, confident) := LabelAfter(p, i);
      RunSnoc(p, Sample(i), g, if confident then 2 else 3);
      RestSnoc(p, Sample(i), 8);
    }
  }

  lemma TracksRestSample(s: Est, p: seq<Event>, i: GearInputs)
    requires Tracks(s, p) && NoPlausibleRegister(i)
    ensures TracksRest(Step(s, i), p + [Sample(i)])
  {
    LabelMoves(p, i);
    if Step(s, i).gear.G? {
      forall n: nat | n <= 8
        ensures AtRest(p + [Sample(i)], n) <==> n <= Step(s, i).standstill
      {
        RestSnoc(p, Sample(i), n);
      }
    }
  }

  lemma TracksBands(s: Est, p: seq<Event>, e: Event)
    requires Tracks(s, p) && !e.Sample?
    ensures Tracks(StepEvent(s, e), p + [e])
  {
    assert (p + [e])[..|p|] == p;
    forall n: nat
      ensures AtRest(p + [e], n) <==> AtRest(p, n)
    {
      RestSnoc(p, e, n);
    }
    forall g: Gear, n: nat
      ensures TrailingRun(p + [e], g, n) <==> TrailingRun(p, g, n)
    {
      RunSnoc(p, e, g, n);
    }
  }

  lemma {:induction false} TracksAll(h: seq<Event>)
    requires NoRegister(h)
    ensures Tracks(Run(INITIAL, h), h)
  {
    if h != [] {
      var p, e := h[..|h| - 1], h[|h| - 1];
      assert forall j :: 0 <= j < |p| ==> p[j] == h[j];
      TracksAll(p);
      assert h == p + [e];
      if e.Sample? {
        var s, i := Run(INITIAL, p), e.inputs;
        TracksRunSample(s, p, i);
        TracksGearSample(s, p, i);
        TracksRestSample(s, p, i);
      } else {
        TracksBands(Run(INITIAL, p), p, e);
      }
    }
  }

  /** After any history without register readings the estimator shows exactly the
      counter-free function of that history. */
  lemma EstimatorRefinesHistory(h: seq<Event>)
    requires NoRegister(h)
    ensures Run(INITIAL, h).gear == Shown(h)
    ensures Run(INITIAL, h).standstill < STANDSTILL_FORGET
  {
    TracksAll(h);
  }

  lemma {:induction false} NeutralBreaksRuns(h: seq<Event>, g: Gear, n: nat)
    requires Shown(h) == Neutral && n > 0 && g.G?
    ensures !TrailingRun(h, g, n)
  {
    var p, e := h[..|h| - 1], h[|h| - 1];
    if e.Sample? {
      LabelMoves(p, e.inputs);
    } else {
      NeutralBreaksRuns(p, g, n);
    }
  }

  /** N shows exactly while the switch is on; the first sample after release
      shows the dash. */
  lemma NeutralFollowsSwitch(h: seq<Event>, i: GearInputs)
    requires NoRegister(h + [Sample(i)])
    ensures var s := Run(INITIAL, h);
            && (Step(s, i).gear == Neutral <==> i.neutralSwitch)
            && (s.gear == Neutral && !i.neutralSwitch ==> Step(s, i).gear == Unknown)
  {
    assert (h + [Sample(i)])[|h|] == Sample(i);
    assert forall j :: 0 <= j < |h| ==> h[j] == (h + [Sample(i)])[j];
    assert (h + [Sample(i)])[..|h|] == h;
    TracksAll(h);
    TracksGearSample(Run(INITIAL, h), h, i);
    ShownSnoc(h, i);
    LabelMoves(h, i);
    if !i.neutralSwitch && Shown(h) == Neutral {
      var (g, confident) := LabelAfter(h, i);
      if g != Unknown {
        RunSnoc(h, Sample(i), g, if confident then 2 else 3);
        NeutralBreaksRuns(h, g, if confident then 1 else 2);
      }
    }
  }

  /** With a register reporting neutral and the switch off, N is dropped again by
      the very next sample: it can show on no two samples in a row. */
  lemma RegisterNeutralNeverHolds(s: Est, i: GearInputs, j: GearInputs)
    requires !i.neutralSwitch && !j.neutralSwitch
    ensures !(Step(s, i).gear == Neutral && Step(Step(s, i), j).gear == Neutral)
  {
  }

  // ---- Convergence from any state ----

  predicate Riding(t: Option<BandTable>, i: GearInputs, g: Gear) {
    g.G? && !i.neutralSwitch && NoPlausibleRegister(i) && !i.clutchPulled && Classification(t, i.rpm, i.speed).0 == g
  }

  /** Two samples of a gear, the second confident, or three in a row show it,
      whatever state the estimator was in. */
  lemma ConvergesToGear(s: Est, a: GearInputs, b: GearInputs, c: GearInputs, g: Gear)
    requires Riding(s.bands, a, g) && Riding(s.bands, b, g) && Riding(s.bands, c, g)
    ensures Classification(s.bands, b.rpm, b.speed).1 ==> Step(Step(s, a), b).gear == g
    ensures Step(Step(Step(s, a), b), c).gear == g
  {
    var s1 := Step(s, a);
    assert s1.candidate == g && s1.stable >= 1;
    var s2 := Step(s1, b);
    assert s2.candidate == g && s2.stable >= 2;
  }

  predicate AtStandstill(i: GearInputs) {
    !i.neutralSwitch && NoPlausibleRegister(i) && i.speed.Some? && i.speed.value < 1.0
  }

  function Feed(s: Est, xs: seq<GearInputs>): Est {
    if xs == [] then s else Step(Feed(s, xs[..|xs| - 1]), xs[|xs| - 1])
  }

  lemma {:induction false} StandstillCounts(s: Est, xs: seq<GearInputs>)
    requires |xs| <= 8 && forall j :: 0 <= j < |xs| ==> AtStandstill(xs[j])
    ensures xs != [] ==>
              Feed(s, xs).gear == Unknown || (Feed(s, xs).gear.G? && Feed(s, xs).standstill as nat >= |xs|)
  {
    if xs != [] {
      var t, l := xs[..|xs| - 1], xs[|xs| - 1];
      assert AtStandstill(l);
      StandstillCounts(s, t);
      LabelMoves([], l);
      var u := Feed(s, t);
      assert Raw(u.bands, l).0 == Unknown;
    }
  }

  /** Eight standstill samples show the dash, whatever came before. */
  lemma StandstillForgets(s: Est, xs: seq<GearInputs>)
    requires |xs| == 8 && forall j :: 0 <= j < 8 ==> AtStandstill(xs[j])
    ensures Feed(s, xs).gear == Unknown
  {
    StandstillCounts(s, xs[..7]);
    StandstillCounts(s, xs);
    assert AtStandstill(xs[7]);
  }

  // ---- The classifier ----

  predicate Calibrated(t: BandTable) { Positive(t.bands) && Decreasing(t.bands) }

  lemma LaunchAbove(x: real, c: real)
    requires c > 0.0 && RelErr(x, c) > BAND_TOL && x >= c * (1.0 - BAND_TOL)
    ensures x > 1.14 * c
  {
    FractionOrder(Abs(x - c), c, BAND_TOL, 1.0);
  }

  lemma AboveTopNearer(a: real, b: real, x: real)
    requires x >= a > b > 0.0
    ensures RelErr(x, a) <= RelErr(x, b)
  {
    CloserIff(a, b, x);
    Scale(a, x, a + b, a * (a + b), x * (a + b));
    assert a * (a + b) == a * a + a * b;
    Scale(b, a, a, b * a, a * a);
  }

  lemma NearestAboveTop(b: seq<real>, x: real)
    requires b != [] && Positive(b) && Decreasing(b) && x >= b[0]
    ensures Nearest(b, x) == 0
  {
    var k := Nearest(b, x);
    NearestLeast(b, x);
    if k > 0 {
      AboveTopNearer(b[0], b[k], x);
    }
  }

  lemma RatioPositive(rpm: real, speed: real)
    requires rpm > 0.0 && speed > 0.0
    ensures rpm / speed > 0.0
  {
    assert rpm / speed * speed == rpm;
  }

  /** A gear is only named within 14 % of its nearest band or, on a launch, above
      1.14 times the 1st-gear band. */
  lemma ClassifiedWithinBand(t: BandTable, rpm: real, speed: real)
    requires Calibrated(t) && Classification(Some(t), Some(rpm), Some(speed)).0.G?
    ensures RelErr(rpm / speed, t.Valid()[Nearest(t.Valid(), rpm / speed)]) <= BAND_TOL || rpm / speed > 1.14 * t.bands[0]
  {
    var b, x := t.Valid(), rpm / speed;
    assert b[0] == t.bands[0];
    if RelErr(x, b[Nearest(b, x)]) > BAND_TOL {
      NearestLeast(b, x);
      assert RelErr(x, b[0]) > BAND_TOL;
      LaunchAbove(x, b[0]);
    }
  }

  /** A classified sample names its nearest band, launches included. */
  lemma ClassifiedIsNearest(t: BandTable, rpm: real, speed: real)
    requires Calibrated(t) && Classification(Some(t), Some(rpm), Some(speed)).0.G?
    ensures rpm / speed > 0.0
    ensures Classification(Some(t), Some(rpm), Some(speed)).0 == G(Nearest(t.Valid(), rpm / speed) + 1)
  {
    RatioPositive(rpm, speed);
    ClassifiedWithinBand(t, rpm, speed);
    var b, x := t.Valid(), rpm / speed;
    if x > 1.14 * t.bands[0] {
      NearestAboveTop(b, x);
    }
  }

  /** Exactly when a sample classifies as gear `k`: fast enough for a ratio to mean
      something, and within 14 % of band `k`, its nearest, or a launch in 1st. */
  lemma ClassifiedIff(t: BandTable, rpm: real, speed: real, k: U8)
    requires Calibrated(t)
    ensures Classification(Some(t), Some(rpm), Some(speed)).0 == G(k) <==>
            && rpm >= 600.0 && speed >= 3.0
            && k as int == Nearest(t.Valid(), rpm / speed) + 1
            && (0.86 * t.bands[k - 1] <= rpm / speed <= 1.14 * t.bands[k - 1]
                || (speed <= 12.0 && rpm >= 1100.0 && rpm / speed > 1.14 * t.bands[0]))
  {
    if rpm >= 600.0 && speed >= 3.0 {
      var b, x := t.Valid(), rpm / speed;
      RatioPositive(rpm, speed);
      WithinIff(x, b[Nearest(b, x)]);
      if Classification(Some(t), Some(rpm), Some(speed)).0 == G(k) {
        ClassifiedIsNearest(t, rpm, speed);
        ClassifiedWithinBand(t, rpm, speed);
      } else if x > 1.14 * t.bands[0] {
        NearestAboveTop(b, x);
      }
    }
  }

  /** Without bands, rpm or speed, below 600 rpm or 3 km/h, no gear is named. */
  lemma NoGearWithoutReadings(t: Option<BandTable>, rpm: Option<real>, speed: Option<real>)
    requires t.None? || rpm.None? || speed.None? || rpm.value < 600.0 || speed.value < 3.0
    ensures Classification(t, rpm, speed) == (Unknown, false)
  {
  }

  /** A classification is confident exactly within 5 % of the band of the gear it
      names; a launch never is. */
  lemma ConfidentIff(t: BandTable, rpm: real, speed: real)
    requires Calibrated(t)
    ensures var (g, confident) := Classification(Some(t), Some(rpm), Some(speed));
            && (g.G? ==> 1 <= g.n as int <= t.count && speed >= 3.0)
            && (confident <==> g.G? && 0.95 * t.bands[g.n - 1] <= rpm / speed <= 1.05 * t.bands[g.n - 1])
  {
    var (g, confident) := Classification(Some(t), Some(rpm), Some(speed));
    if g.G? {
      var b, x := t.Valid(), rpm / speed;
      ClassifiedIsNearest(t, rpm, speed);
      WithinIff(x, b[Nearest(b, x)]);
    }
  }

  /** A moving sample whose nearest band is that of gear `k`. */
  predicate OnGear(t: BandTable, i: GearInputs, k: nat) {
    && !i.neutralSwitch && NoPlausibleRegister(i) && !i.clutchPulled
    && i.rpm.Some? && i.speed.Some? && i.rpm.value >= 600.0 && i.speed.value >= 3.0
    && k == Nearest(t.Valid(), i.rpm.value / i.speed.value) + 1
  }

  /** Its ratio is within the share `off` of that band. */
  predicate OffBy(t: BandTable, i: GearInputs, k: nat, off: real)
    requires OnGear(t, i, k)
  {
    var c := t.bands[k - 1];
    (1.0 - off) * c <= i.rpm.value / i.speed.value <= (1.0 + off) * c
  }

  lemma OnGearRides(t: BandTable, i: GearInputs, k: U8)
    requires Calibrated(t) && OnGear(t, i, k)
    ensures OffBy(t, i, k, 0.14) ==> Riding(Some(t), i, G(k))
    ensures Classification(Some(t), i.rpm, i.speed).1 == OffBy(t, i, k, 0.05)
    ensures OffBy(t, i, k, 0.05) ==> OffBy(t, i, k, 0.14)
  {
    ClassifiedIff(t, i.rpm.value, i.speed.value, k);
    ConfidentIff(t, i.rpm.value, i.speed.value);
    var (g, confident) := Classification(Some(t), i.rpm, i.speed);
    if g.G? {
      ClassifiedIsNearest(t, i.rpm.value, i.speed.value);
    }
  }

  /** From any state: two samples within 5 % of a band show its gear at once, as do
      three within 14 %. */
  lemma SamplesShowGear(s: Est, t: BandTable, a: GearInputs, b: GearInputs, c: GearInputs, k: U8)
    requires s.bands == Some(t) && Calibrated(t) && OnGear(t, a, k) && OnGear(t, b, k) && OnGear(t, c, k)
    ensures OffBy(t, a, k, 0.05) && OffBy(t, b, k, 0.05) ==> Step(Step(s, a), b).gear == G(k)
    ensures OffBy(t, a, k, 0.14) && OffBy(t, b, k, 0.14) && OffBy(t, c, k, 0.14) ==>
              Step(Step(Step(s, a), b), c).gear == G(k)
  {
    OnGearRides(t, a, k);
    OnGearRides(t, b, k);
    OnGearRides(t, c, k);
    if OffBy(t, a, k, 0.14) && OffBy(t, b, k, 0.14) {
      ConvergesToGear(s, a, b, if OffBy(t, c, k, 0.14) then c else b, G(k));
    }
  }

  /** Fewer do not: coming from something else, neither one sample nor two beyond
      5 % change what is shown, but for an N that is dropped. */
  lemma FewerSamplesHold(s: Est, t: BandTable, a: GearInputs, b: GearInputs, k: U8)
    requires s.bands == Some(t) && Calibrated(t) && OnGear(t, a, k) && OnGear(t, b, k)
    requires s.candidate != G(k) && OffBy(t, a, k, 0.14) && OffBy(t, b, k, 0.14)
    ensures var held := if s.gear == Neutral then Unknown else s.gear;
            && Step(s, a).gear == held
            && (!OffBy(t, b, k, 0.05) ==> Step(Step(s, a), b).gear == held)
  {
    OnGearRides(t, a, k);
    OnGearRides(t, b, k);
  }

  // ---- The gear register ----

  /** A register reading, where there is one, outranks the ratio: two readings of a
      gear on the move show it. */
  lemma RegisterShows(s: Est, a: GearInputs, b: GearInputs, k: U8)
    requires 1 <= k <= 6 && a.gearReg == Some(k) && b.gearReg == Some(k) && !a.neutralSwitch && !b.neutralSwitch
    requires b.speed.None? || b.speed.value >= 1.0
    ensures Step(Step(s, a), b).gear == G(k)
  {
    var s1 := Step(s, a);
    assert s1.candidate == G(k) && s1.stable >= 1;
  }

  /** Of two classified samples the one with the higher ratio never shows a
      higher gear. */
  lemma ClassifierMonotone(t: BandTable, rpm: real, speed: real, rpm': real, speed': real)
    requires Calibrated(t)
    requires Classification(Some(t), Some(rpm), Some(speed)).0.G?
    requires Classification(Some(t), Some(rpm'), Some(speed')).0.G?
    requires rpm / speed >= rpm' / speed'
    ensures Classification(Some(t), Some(rpm), Some(speed)).0.n <= Classification(Some(t), Some(rpm'), Some(speed')).0.n
  {
    var x, y := rpm / speed, rpm' / speed';
    ClassifiedIsNearest(t, rpm, speed);
    ClassifiedIsNearest(t, rpm', speed');
    NearestAntitone(t.Valid(), y, x);
  }

  /** Whatever was ridden, learned bands are a calibrated table for the estimator. */
  lemma LearnedTableCalibrated(h: RatioPeaks.Hist)
    requires RatioPeaks.Derived(FACTORY_BANDS, h).Some?
    ensures var b := RatioPeaks.Derived(FACTORY_BANDS, h).value.0;
            |b| == NUM_GEARS && Positive(b) && Decreasing(b) && NonZero(b) && Calibrated(Table(b, NUM_GEARS))
  {
    FactoryBandsOrdered();
    RatioPeakLemmas.DerivedOrder(FACTORY_BANDS, h);
  }

  /** After any ride the learned classifier orders gears by ratio. */
  lemma LearnedClassifierMonotone(h: RatioPeaks.Hist, rpm: real, speed: real, rpm': real, speed': real)
    requires RatioPeaks.Derived(FACTORY_BANDS, h).Some?
    ensures var b := RatioPeaks.Derived(FACTORY_BANDS, h).value.0;
            |b| == NUM_GEARS && NonZero(b) &&
            var t: Option<BandTable> := Some(Table(b, NUM_GEARS));
            var x, y := Classification(t, Some(rpm), Some(speed)).0, Classification(t, Some(rpm'), Some(speed')).0;
            x.G? && y.G? && rpm / speed >= rpm' / speed' ==> x.n <= y.n
  {
    LearnedTableCalibrated(h);
    var t: BandTable := Table(RatioPeaks.Derived(FACTORY_BANDS, h).value.0, NUM_GEARS);
    var x, y := Classification(Some(t), Some(rpm), Some(speed)).0, Classification(Some(t), Some(rpm'), Some(speed')).0;
    if x.G? && y.G? && rpm / speed >= rpm' / speed' {
      ClassifierMonotone(t, rpm, speed, rpm', speed');
    }
  }

  /** The tables the firmware installs: the factory set or a learned one. */
  ghost predicate FirmwareTable(t: BandTable) {
    t.count == NUM_GEARS && (t.bands == FACTORY_BANDS || exists h :: LearnedFrom(h, t.bands))
  }

  predicate LearnedFrom(h: RatioPeaks.Hist, b: seq<real>) {
    RatioPeaks.Derived(FACTORY_BANDS, h).Some? && RatioPeaks.Derived(FACTORY_BANDS, h).value.0 == b
  }

  /** Whenever such tables are installed and wiped, the one in force is calibrated. */
  lemma {:induction false} FirmwareTablesCalibrated(h: seq<Event>)
    requires forall j :: 0 <= j < |h| && h[j].SetBands? ==> FirmwareTable(h[j].table)
    ensures Run(INITIAL, h).bands.Some? ==> Calibrated(Run(INITIAL, h).bands.value)
  {
    if h != [] {
      var p, e := h[..|h| - 1], h[|h| - 1];
      assert forall j :: 0 <= j < |p| ==> p[j] == h[j];
      FirmwareTablesCalibrated(p);
      StepKeepsBands(Run(INITIAL, p), e);
      if e.SetBands? {
        assert FirmwareTable(e.table);
        FactoryBandsOrdered();
        if e.table.bands != FACTORY_BANDS {
          var hist :| LearnedFrom(hist, e.table.bands);
          LearnedTableCalibrated(hist);
        }
      }
    }
  }

  lemma StepKeepsBands(s: Est, e: Event)
    ensures StepEvent(s, e).bands ==
            match e case Sample(_) => s.bands case SetBands(t) => Some(t) case ClearBands => None
  {
  }
}
