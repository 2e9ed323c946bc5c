/** The debounced gear estimator (`gear.rs`): neutral switch, optional gear
    register and rpm/speed classifier. Ratios are `real`. */
module Gear {
  import opened Basics
  import opened Bands

  const MIN_SPEED := 3.0
  const MIN_RPM := 600.0
  const DEBOUNCE_N: U8 := 3
  const DEBOUNCE_CONFIDENT: U8 := 2
  const BAND_TOL := 0.14
  const CONFIDENT_TOL := 0.05
  const STANDSTILL_SPEED := 1.0
  const STANDSTILL_FORGET: U8 := 8
  const LAUNCH_MAX_SPEED := 12.0
  const LAUNCH_MIN_RPM := 1100.0

  datatype Gear = Unknown | Neutral | G(n: U8)

  datatype GearInputs = GearInputs(
    rpm: Option<real>, speed: Option<real>, gearReg: Option<U8>, neutralSwitch: bool, clutchPulled: bool)

  /** Six ratio slots of which the first `count` are valid. */
  datatype RawTable = Table(bands: seq<real>, count: nat) {
    function Valid(): seq<real>
      requires count <= |bands|
    {
      bands[..count]
    }
  }

  type BandTable = t: RawTable | |t.bands| == NUM_GEARS && 1 <= t.count <= NUM_GEARS && NonZero(t.bands)
    witness Table([1.0, 1.0, 1.0, 1.0, 1.0, 1.0], 1)

  /** The estimator's fields as a value. */
  datatype Est = Est(
    bands: Option<BandTable>, gear: Gear, candidate: Gear, confident: bool, stable: U8, standstill: U8)

  const INITIAL := Est(None, Unknown, Unknown, false, 0, 0)

  function SatInc(x: U8): U8 { if x == 255 then 255 else x + 1 }

  /** Nearest valid band, or 1st gear on a launch; the flag is the confidence. */
  function Classification(t: Option<BandTable>, rpm: Option<real>, speed: Option<real>): (Gear, bool) {
    if t.None? || rpm.None? || speed.None? || rpm.value < MIN_RPM || speed.value < MIN_SPEED then (Unknown, false)
    else
      var b := t.value.Valid();
      var ratio := rpm.value / speed.value;
      var k := Nearest(b, ratio);
      var err := RelErr(ratio, b[k]);
      if err <= BAND_TOL then (G(k + 1), err <= CONFIDENT_TOL)
      else if speed.value <= LAUNCH_MAX_SPEED && rpm.value >= LAUNCH_MIN_RPM && ratio >= t.value.bands[0] * (1.0 - BAND_TOL)
      then (G(1), false)
      else (Unknown, false)
  }

  /** What one sample says before debouncing. */
  function Raw(t: Option<BandTable>, i: GearInputs): (Gear, bool) {
    if i.gearReg.Some? && i.gearReg.value <= NUM_GEARS then
      (if i.gearReg.value == 0 then Neutral else G(i.gearReg.value), true)
    else if i.clutchPulled then (Unknown, false)
    else Classification(t, i.rpm, i.speed)
  }

  /** Switch released: a shown N is dropped at once. */
  function Release(s: Est): Est {
    if s.gear == Neutral then s.(gear := Unknown, candidate := Unknown, stable := 1) else s
  }

  /** Standstill decay of a held gear. */
  function Decay(s: Est, speed: Option<real>): Est {
    match speed
    case None => s
    case Some(v) =>
      if v < STANDSTILL_SPEED && s.gear != Unknown then
        var n := SatInc(s.standstill);
        if n >= STANDSTILL_FORGET then s.(gear := Unknown, candidate := Unknown, standstill := 0)
        else s.(standstill := n)
      else s.(standstill := 0)
  }

  function Debounce(s: Est, raw: Gear, confident: bool): Est {
    var c := s.(candidate := raw, confident := confident,
                stable := if raw == s.candidate then SatInc(s.stable) else 1);
    var needed := if confident then DEBOUNCE_CONFIDENT else DEBOUNCE_N;
    if c.stable >= needed && raw != Unknown then c.(gear := raw) else c
  }

  /** One `update`. */
  function Step(s: Est, i: GearInputs): Est {
    if i.neutralSwitch then s.(gear := Neutral, candidate := Neutral, stable := DEBOUNCE_N, standstill := 0)
    else
      var d := Decay(Release(s), i.speed);
      var (raw, confident) := Raw(d.bands, i);
      Debounce(d, raw, confident)
  }

  class GearEstimator {
    var bands: Option<BandTable>
    var gear: Gear
    var candidate: Gear
    var candidateConfident: bool
    var stable: U8
    var standstill: U8

    ghost function State(): Est
      reads this
    {
      Est(bands, gear, candidate, candidateConfident, stable, standstill)
    }

    constructor ()
      ensures State() == INITIAL
    {
      bands, gear, candidate, candidateConfident, stable, standstill := None, Unknown, Unknown, false, 0, 0;
    }

    method SetBands(b: seq<real>, count: nat)
      requires |b| == NUM_GEARS && 1 <= count <= NUM_GEARS && NonZero(b)
      modifies this
      ensures State() == old(State()).(bands := Some(Table(b, count)))
    {
      bands := Some(Table(b, count));
    }

    method ClearBands()
      modifies this
      ensures State() == old(State()).(bands := None)
    {
      bands := None;
    }

    /** Feed the latest sample; returns the gear to display. */
    method Update(inputs: GearInputs) returns (shown: Gear)
      modifies this
      ensures State() == Step(old(State()), inputs)
      ensures shown == gear
    {
      if inputs.neutralSwitch {
        gear := Neutral;
        candidate := Neutral;
        stable := DEBOUNCE_N;
        standstill := 0;
        return gear;
      }
      if gear == Neutral {
        gear := Unknown;
        candidate := Unknown;
        stable := 1;
      }
      match inputs.speed {
        case Some(s) =>
          if s < STANDSTILL_SPEED && gear != Unknown {
            standstill := SatInc(standstill);
            if standstill >= STANDSTILL_FORGET {
              gear := Unknown;
              candidate := Unknown;
              standstill := 0;
            }
          } else {
            standstill := 0;
          }
        case None =>
      }
      var raw, confident;
      if inputs.gearReg.Some? && inputs.gearReg.value <= NUM_GEARS {
        var g := inputs.gearReg.value;
        raw, confident := if g == 0 then Neutral else G(g), true;
      } else if inputs.clutchPulled {
        raw, confident := Unknown, false;
      } else {
        raw, confident := Classify(inputs.rpm, inputs.speed);
      }
      if raw == candidate {
        stable := SatInc(stable);
        candidateConfident := confident;
      } else {
        candidate := raw;
        candidateConfident := confident;
        stable := 1;
      }
      var needed := if candidateConfident then DEBOUNCE_CONFIDENT else DEBOUNCE_N;
      if stable >= needed && candidate != Unknown {
        gear := candidate;
      }
      shown := gear;
    }

    /** Classify a ratio to the nearest band. */
    method Classify(rpm: Option<real>, speed: Option<real>) returns (g: Gear, confident: bool)
      ensures (g, confident) == Classification(bands, rpm, speed)
    {
      if bands.None? {
        return Unknown, false;
      }
      if rpm.None? || speed.None? || rpm.value < MIN_RPM || speed.value < MIN_SPEED {
        return Unknown, false;
      }
      var ratio := rpm.value / speed.value;
      var k, err := BestBand(bands.value.Valid(), ratio);
      if err <= BAND_TOL {
        return G(k + 1), err <= CONFIDENT_TOL;
      }
      if speed.value <= LAUNCH_MAX_SPEED && rpm.value >= LAUNCH_MIN_RPM
         && ratio >= bands.value.bands[0] * (1.0 - BAND_TOL) {
        return G(1), false;
      }
      return Unknown, false;
    }
  }

  /** The search loop of `classify`: the first band of least relative error. */
  method BestBand(b: seq<real>, ratio: real) returns (k: nat, err: real)
    requires b != [] && NonZero(b)
    ensures k == Nearest(b, ratio) && err == RelErr(ratio, b[k])
  {
    var best: Option<(nat, real)> := None;
    for i := 0 to |b|
      invariant best.None? <==> i == 0
      invariant best.Some? ==> best.value.0 < i && NonZero(b[..i])
      invariant best.Some? ==> best.value.0 == Nearest(b[..i], ratio) && best.value.1 == RelErr(ratio, b[best.value.0])
    {
      var e := RelErr(ratio, b[i]);
      assert b[..i + 1][..i] == b[..i];
      if best.None? || e < best.value.1 {
        best := Some((i, e));
      }
    }
    assert b[..|b|] == b;
    k, err := best.value.0, best.value.1;
  }

  function Clamp(x: real, lo: real, hi: real): real
    requires lo <= hi
  {
    if x < lo then lo else if x > hi then hi else x
  }

  /** Estimate the rpm `leadMs` after the current reading from the one `dtMs` ago. */
  function TimeAlignRpm(rpmNow: real, rpmPrev: real, dtMs: real, leadMs: real): (r: real)
    requires rpmNow >= 0.0
    ensures 0.9 * rpmNow <= r <= 1.1 * rpmNow
  {
    if !(1.0 <= dtMs <= 2000.0) || leadMs <= 0.0 then rpmNow
    else
      var slope := (rpmNow - rpmPrev) / dtMs;
      var limit := rpmNow * 0.10;
      Clamp(rpmNow + slope * leadMs, rpmNow - limit, rpmNow + limit)
  }

  /** Stale history or no lead leaves the reading alone; otherwise it moves along the
      trend by what the trend says, at most a tenth. */
  lemma TimeAlignSpec(rpmNow: real, rpmPrev: real, dtMs: real, leadMs: real)
    requires rpmNow >= 0.0
    ensures var r := TimeAlignRpm(rpmNow, rpmPrev, dtMs, leadMs);
            if dtMs < 1.0 || dtMs > 2000.0 || leadMs <= 0.0 then r == rpmNow
            else
              var move := (rpmNow - rpmPrev) / dtMs * leadMs;
              && Abs(r - rpmNow) == (if Abs(move) < 0.1 * rpmNow then Abs(move) else 0.1 * rpmNow)
              && (r - rpmNow > 0.0 ==> move > 0.0) && (r - rpmNow < 0.0 ==> move < 0.0)
  {
  }

  /** On a steady acceleration within the clamp the estimate is exact. */
  lemma TimeAlignExact(rpm0: real, accel: real, dtMs: real, leadMs: real)
    requires 1.0 <= dtMs <= 2000.0 && leadMs > 0.0
    requires var now := rpm0 + accel * dtMs; now >= 0.0 && Abs(accel * leadMs) <= 0.10 * now
    ensures TimeAlignRpm(rpm0 + accel * dtMs, rpm0, dtMs, leadMs) == rpm0 + accel * dtMs + accel * leadMs
  {
    assert accel * dtMs / dtMs == accel;
  }
}
