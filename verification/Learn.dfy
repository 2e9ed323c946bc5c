/** The learned histogram as the firmware keeps it: gated counting, boot marker,
    flat blob, peaks and bands (`learn.rs`). */
module Learn {
  import opened Basics
  import opened Bands
  import opened RatioPeaks
  import opened RatioPeakLemmas

  const BLOB_LEN := 604
  const MIN_RPM := 1200.0
  const MIN_SPEED := 10.0

  datatype SampleOutcome =
    | Accepted | ClutchPulled | InNeutral | RpmLow | SpeedLow | OutOfRange | BinFull

  // ---- Blob layout ----

  function CountBytes(h: seq<U16>): (b: seq<U8>)
    ensures |b| == 2 * |h|
  {
    if h == [] then [] else CountBytes(h[..|h| - 1]) + LE16(h[|h| - 1])
  }

  /** `[samples: u32 LE][counts: u16 LE x 300]`. */
  function BlobOf(h: Hist, samples: U32): (b: seq<U8>)
    ensures |b| == BLOB_LEN
  {
    LE32(samples) + CountBytes(h)
  }

  // ---- Proof support shared with the class ----

  lemma SumBump(h: seq<U16>, i: nat)
    requires i < |h| && h[i] < 65535
    ensures Sum(h[i := h[i] + 1]) == Sum(h) + 1
  {
    var n := |h| - 1;
    var g := h[i := h[i] + 1];
    if i == n {
      assert g[..n] == h[..n];
    } else {
      assert g[..n] == h[..n][i := h[i] + 1];
      SumBump(h[..n], i);
    }
  }

  lemma {:induction false} SumBound(h: seq<U16>)
    ensures Sum(h) <= 65535 * |h|
  {
    if h != [] {
      SumBound(h[..|h| - 1]);
    }
  }

  lemma {:induction false} SumZeros(h: seq<U16>)
    requires forall i :: 0 <= i < |h| ==> h[i] == 0
    ensures Sum(h) == 0
  {
    if h != [] {
      SumZeros(h[..|h| - 1]);
    }
  }

  lemma {:induction false} CountBytesAt(h: seq<U16>, i: nat)
    requires i < |h|
    ensures CountBytes(h)[2 * i..2 * i + 2] == LE16(h[i])
  {
    var n := |h| - 1;
    var b := CountBytes(h);
    if i == n {
      assert b[2 * i..2 * i + 2] == LE16(h[i]);
    } else {
      CountBytesAt(h[..n], i);
      assert b[2 * i..2 * i + 2] == CountBytes(h[..n])[2 * i..2 * i + 2];
    }
  }

  /** Byte for byte, low bytes first: the count, then the bins in order. */
  lemma BlobLayout(h: Hist, samples: U32, i: nat)
    requires i < BINS
    ensures var b := BlobOf(h, samples);
            && b[0] as int + 0x100 * b[1] as int + 0x1_0000 * b[2] as int + 0x100_0000 * b[3] as int == samples as int
            && b[4 + 2 * i] as int + 0x100 * b[5 + 2 * i] as int == h[i] as int
  {
    var b := BlobOf(h, samples);
    LE32RoundTrip(samples, b[..4]);
    assert b[..4] == LE32(samples);
    CountBytesAt(h, i);
    assert b[4 + 2 * i..6 + 2 * i] == LE16(h[i]);
    assert b[4 + 2 * i] == LE16(h[i])[0] && b[5 + 2 * i] == LE16(h[i])[1];
  }

  /** The fields a 604-byte blob encodes. */
  function BinsOfBlob(data: seq<U8>): (h: Hist)
    requires |data| == BLOB_LEN
  {
    seq(BINS, i requires 0 <= i < BINS => FromLE16(data[4 + 2 * i..6 + 2 * i]))
  }

  function SamplesOfBlob(data: seq<U8>): U32
    requires |data| == BLOB_LEN
  {
    FromLE32(data[..4])
  }

  /** Decoding undoes encoding. */
  lemma BlobDecodes(h: Hist, samples: U32)
    ensures BinsOfBlob(BlobOf(h, samples)) == h && SamplesOfBlob(BlobOf(h, samples)) == samples
  {
    var data := BlobOf(h, samples);
    assert data[..4] == LE32(samples);
    LE32RoundTrip(samples, data[..4]);
    forall i | 0 <= i < BINS
      ensures BinsOfBlob(data)[i] == h[i]
    {
      CountBytesAt(h, i);
      assert data[4 + 2 * i..6 + 2 * i] == CountBytes(h)[2 * i..2 * i + 2];
      LE16RoundTrip(h[i], data[4 + 2 * i..6 + 2 * i]);
    }
  }

  /** Encoding undoes decoding, for every blob of the right length. */
  lemma BlobEncodes(data: seq<U8>)
    requires |data| == BLOB_LEN
    ensures BlobOf(BinsOfBlob(data), SamplesOfBlob(data)) == data
  {
    var h := BinsOfBlob(data);
    var back := BlobOf(h, SamplesOfBlob(data));
    LE32RoundTrip(0, data[..4]);
    forall j | 0 <= j < BLOB_LEN
      ensures back[j] == data[j]
    {
      if j < 4 {
        assert back[j] == data[..4][j];
      } else {
        var i := (j - 4) / 2;
        var chunk := data[4 + 2 * i..6 + 2 * i];
        CountBytesAt(h, i);
        LE16RoundTrip(0, chunk);
        assert CountBytes(h)[2 * i..2 * i + 2][j - 4 - 2 * i] == chunk[j - 4 - 2 * i];
      }
    }
  }

  /** Mass of the peak a slot holds, 0 while it holds none. */
  function AnchoredMass(ref: seq<real>, ps: seq<Peak>, k: nat): nat
    requires ref != [] && NonZero(ref)
  {
    match FirstAnchored(ref, ps, k) case Some(q) => q.mass case None => 0
  }

  /** The peak `p` is within tolerance of its nearest slot, and that slot is free
      or holds a lighter peak. */
  predicate Takes(ref: seq<real>, seen: seq<Peak>, p: Peak, slot: nat)
    requires ref != [] && NonZero(ref) && slot < |ref|
  {
    RelErr(p.ratio, ref[slot]) <= ANCHOR_TOL && p.mass > AnchoredMass(ref, seen, slot)
  }

  lemma AnchorSlot(ref: seq<real>, seen: seq<Peak>, p: Peak, slot: nat)
    requires ref != [] && NonZero(ref) && slot == Nearest(ref, p.ratio)
    requires MassDescending(seen + [p]) && p.mass >= MIN_PEAK_MASS
    ensures Takes(ref, seen, p, slot) <==> AnchorsTo(ref, p, slot) && FirstAnchored(ref, seen, slot).None?
    ensures forall k: nat ::
              FirstAnchored(ref, seen + [p], k)
              == if Takes(ref, seen, p, slot) && k == slot then Some(p) else FirstAnchored(ref, seen, k)
  {
    var all := seen + [p];
    assert forall i :: 0 <= i < |seen| ==> seen[i] == all[i];
    assert all[|seen|] == p;
    FirstAnchoredStrongest(ref, seen, slot);
    forall k: nat
      ensures FirstAnchored(ref, all, k)
              == if Takes(ref, seen, p, slot) && k == slot then Some(p) else FirstAnchored(ref, seen, k)
    {
      FirstAnchoredSnoc(ref, seen, p, k);
    }
  }

  /** One more peak, no heavier than those before, refines its slot exactly when
      it is within tolerance and the slot is still free. */
  lemma AnchorStep(ref: seq<real>, seen: seq<Peak>, p: Peak, slot: nat)
    requires ref != [] && NonZero(ref) && slot == Nearest(ref, p.ratio)
    requires MassDescending(seen + [p]) && p.mass >= MIN_PEAK_MASS
    ensures Takes(ref, seen, p, slot) ==>
              && AnchoredMass(ref, seen, slot) == 0
              && Refined(ref, seen + [p]) == Refined(ref, seen)[slot := p.ratio]
              && |AnchoredSlots(ref, seen + [p])| == |AnchoredSlots(ref, seen)| + 1
    ensures !Takes(ref, seen, p, slot) ==>
              && Refined(ref, seen + [p]) == Refined(ref, seen)
              && |AnchoredSlots(ref, seen + [p])| == |AnchoredSlots(ref, seen)|
    ensures forall k: nat ::
              AnchoredMass(ref, seen + [p], k)
              == if Takes(ref, seen, p, slot) && k == slot then p.mass else AnchoredMass(ref, seen, k)
  {
    AnchorSlot(ref, seen, p, slot);
    var t := Takes(ref, seen, p, slot);
    RefinedStep(ref, seen, seen + [p], p, slot, t);
    SlotsStep(ref, seen, seen + [p], p, slot, t);
  }

  lemma RefinedStep(ref: seq<real>, seen: seq<Peak>, all: seq<Peak>, p: Peak, slot: nat, takes: bool)
    requires ref != [] && NonZero(ref) && slot < |ref|
    requires forall k: nat ::
               FirstAnchored(ref, all, k) == if takes && k == slot then Some(p) else FirstAnchored(ref, seen, k)
    ensures Refined(ref, all) == if takes then Refined(ref, seen)[slot := p.ratio] else Refined(ref, seen)
  {
  }

  lemma SlotsStep(ref: seq<real>, seen: seq<Peak>, all: seq<Peak>, p: Peak, slot: nat, takes: bool)
    requires ref != [] && NonZero(ref) && slot < |ref|
    requires forall k: nat ::
               FirstAnchored(ref, all, k) == if takes && k == slot then Some(p) else FirstAnchored(ref, seen, k)
    requires takes ==> FirstAnchored(ref, seen, slot).None?
    ensures |AnchoredSlots(ref, all)| == |AnchoredSlots(ref, seen)| + (if takes then 1 else 0)
  {
    assert AnchoredSlots(ref, all) == AnchoredSlots(ref, seen) + (if takes then {slot} else {});
  }

  /** Fixed-size decimating histogram of rpm/speed ratios. */
  class RatioHistogram {
    const hist: array<U16>
    var samples: U32

    ghost predicate Valid()
      reads this
    {
      hist.Length == BINS
    }

    /** The bins as a value. */
    ghost function Bins(): Hist
      requires Valid()
      reads this, hist
    {
      hist[..]
    }

    /** The sample count is the sum of the bins: what every histogram grown
        from empty satisfies. */
    ghost predicate Consistent()
      requires Valid()
      reads this, hist
    {
      samples == Sum(Bins())
    }

    constructor ()
      ensures Valid() && fresh(hist)
      ensures Bins() == Empty() && samples == 0
      ensures Consistent()
    {
      hist := new U16[BINS](_ => 0);
      samples := 0;
      new;
      assert hist[..] == Empty();
      SumZeros(hist[..]);
    }

    method Clear()
      requires Valid()
      modifies this, hist
      ensures Valid()
      ensures Bins() == Empty() && samples == 0
      ensures Consistent()
    {
      forall i | 0 <= i < hist.Length {
        hist[i] := 0;
      }
      samples := 0;
      assert hist[..] == Empty();
      SumZeros(hist[..]);
    }

    /** Feed one poll-loop sample. */
    method AddSample(rpm: real, speed: real, clutchPulled: bool, inNeutral: bool)
      returns (outcome: SampleOutcome)
      requires Valid()
      modifies this, hist
      ensures Valid()
      ensures outcome == OutcomeOf(old(Bins()), rpm, speed, clutchPulled, inNeutral)
      ensures outcome != Accepted ==> Bins() == old(Bins()) && samples == old(samples)
      ensures Bins() == Counted(old(Bins()), rpm, speed, clutchPulled, inNeutral)
      ensures outcome == Accepted ==>
                forall i :: 0 <= i < BINS ==> Bins()[i] == old(Bins())[i] + if InBin(i, rpm / speed) then 1 else 0
      ensures outcome == Accepted ==> samples == SatInc(old(samples))
      ensures old(Consistent()) ==> Consistent() && (outcome == Accepted ==> samples == old(samples) + 1)
    {
      if clutchPulled {
        return ClutchPulled;
      }
      if inNeutral {
        return InNeutral;
      }
      if rpm < MIN_RPM {
        return RpmLow;
      }
      if speed < MIN_SPEED {
        return SpeedLow;
      }
      var bin := (rpm / speed - RATIO_MIN).Floor;
      if !(0 <= bin < BINS) {
        return OutOfRange;
      }
      if hist[bin] < 65535 {
        ghost var before := Bins();
        SumBump(before, bin);
        hist[bin] := hist[bin] + 1;
        assert Bins() == before[bin := before[bin] + 1];
        SumBound(Bins());
        samples := SatInc(samples);
        return Accepted;
      } else {
        return BinFull;
      }
    }

    /** Boot marker: bump the lowest bin, at most `MARKER_CAP` times. */
    method DebugMark() returns (marked: bool)
      requires Valid()
      modifies this, hist
      ensures Valid()
      ensures marked == (old(Bins())[0] < MARKER_CAP)
      ensures !marked ==> Bins() == old(Bins()) && samples == old(samples)
      ensures marked ==> Bins() == old(Bins())[0 := old(Bins())[0] + 1] && samples == SatInc(old(samples))
      ensures old(Consistent()) ==> Consistent()
    {
      if hist[0] >= MARKER_CAP {
        return false;
      }
      ghost var before := Bins();
      SumBump(before, 0);
      hist[0] := hist[0] + 1;
      assert Bins() == before[0 := before[0] + 1];
      SumBound(Bins());
      samples := SatInc(samples);
      return true;
    }

    method ToBlob() returns (blob: seq<U8>)
      requires Valid()
      ensures blob == BlobOf(Bins(), samples)
    {
      blob := LE32(samples);
      for i := 0 to BINS
        invariant blob == LE32(samples) + CountBytes(hist[..i])
      {
        assert hist[..i + 1][..i] == hist[..i];
        blob := blob + LE16(hist[i]);
      }
      assert hist[..BINS] == hist[..];
    }

    static method FromBlob(data: seq<U8>) returns (h: RatioHistogram?)
      ensures h == null <==> |data| != BLOB_LEN
      ensures h != null ==>
                fresh(h) && fresh(h.hist) && h.Valid() && h.Bins() == BinsOfBlob(data) && h.samples == SamplesOfBlob(data)
    {
      if |data| != BLOB_LEN {
        return null;
      }
      h := new RatioHistogram();
      h.samples := FromLE32(data[..4]);
      for i := 0 to BINS
        invariant h.Valid() && fresh(h) && fresh(h.hist)
        invariant h.samples == SamplesOfBlob(data)
        invariant h.hist[..i] == BinsOfBlob(data)[..i]
      {
        h.hist[i] := FromLE16(data[4 + 2 * i..6 + 2 * i]);
      }
    }

    /** Smoothed local maxima, strongest first, no two within `PEAK_SEPARATION`. */
    method Peaks() returns (accepted: seq<Peak>)
      requires Valid()
      ensures accepted == PeaksOf(Bins())
    {
      var peaks: seq<Peak> := [];
      for i := 0 to BINS
        invariant peaks == CandidatesBelow(hist[..], i)
      {
        var h := hist[..];
        var c := Smooth(h, i);
        if c > 0 && c >= Smooth(h, i - 1) && c > Smooth(h, i + 1) {
          var mass := Mass(h, i);
          if mass >= MIN_PEAK_MASS {
            peaks := peaks + [PeakAt(h, i)];
          }
        }
      }
      peaks := SortByMass(peaks);
      accepted := [];
      for n := 0 to |peaks|
        invariant accepted == Greedy(peaks[..n])
      {
        assert peaks[..n + 1][..n] == peaks[..n];
        if FarFromAll(peaks[n], accepted) {
          accepted := accepted + [peaks[n]];
        }
      }
      assert peaks[..|peaks|] == peaks;
    }

    /** Refine `reference` with the peaks anchored to it. */
    method DeriveBands(reference: seq<real>) returns (r: Option<(seq<real>, nat)>)
      requires Valid() && |reference| == NUM_GEARS && NonZero(reference)
      ensures r == Derived(reference, Bins())
    {
      var accepted := Peaks();
      PeaksSpec(Bins());
      var bands, learned := Anchor(reference, accepted);
      if learned < MIN_PEAKS {
        return None;
      }
      return Some((bands, learned));
    }
  }

  /** The anchoring loop of `derive_bands`, over peaks strongest first. */
  method Anchor(reference: seq<real>, accepted: seq<Peak>) returns (bands: seq<real>, learned: nat)
    requires reference != [] && NonZero(reference)
    requires MassDescending(accepted) && forall p :: p in accepted ==> p.mass >= MIN_PEAK_MASS
    ensures bands == Refined(reference, accepted)
    ensures learned == |AnchoredSlots(reference, accepted)|
  {
    bands := reference;
    var matchedMass: seq<nat> := seq(|reference|, _ => 0);
    learned := 0;
    assert bands == Refined(reference, accepted[..0]);
    assert AnchoredSlots(reference, accepted[..0]) == {};
    for n := 0 to |accepted|
      invariant bands == Refined(reference, accepted[..n])
      invariant |matchedMass| == |reference|
      invariant forall k :: 0 <= k < |reference| ==> matchedMass[k] == AnchoredMass(reference, accepted[..n], k)
      invariant learned == |AnchoredSlots(reference, accepted[..n])|
    {
      var p := accepted[n];
      ghost var seen := accepted[..n];
      assert accepted[..n + 1] == seen + [p];
      var slot := Nearest(reference, p.ratio);
      AnchorStep(reference, seen, p, slot);
      if RelErr(p.ratio, reference[slot]) <= ANCHOR_TOL && p.mass > matchedMass[slot] {
        if matchedMass[slot] == 0 {
          learned := learned + 1;
        }
        matchedMass := matchedMass[slot := p.mass];
        bands := bands[slot := p.ratio];
      }
    }
    assert accepted[..|accepted|] == accepted;
  }

  function SatInc(x: U32): U32 { if x == 0xFFFF_FFFF then x else x + 1 }

  /** The bin whose unit of ratio holds the sample's. */
  function BinOf(rpm: real, speed: real): (i: int)
    requires speed != 0.0
    ensures 20.0 + i as real <= rpm / speed < 20.0 + (i + 1) as real
  {
    (rpm / speed - RATIO_MIN).Floor
  }

  /** Bin `i` counts the ratios from 20 + i up to, not including, 21 + i. */
  predicate InBin(i: int, ratio: real) { 20.0 + i as real <= ratio < 21.0 + i as real }

  /** The bins after one sample. */
  function Counted(h: Hist, rpm: real, speed: real, clutchPulled: bool, inNeutral: bool): Hist {
    if OutcomeOf(h, rpm, speed, clutchPulled, inNeutral) == Accepted then
      var i := BinOf(rpm, speed);
      h[i := h[i] + 1]
    else h
  }

  /** The bins after samples of rpm and speed taken in gear. */
  function CountAll(h: Hist, xs: seq<(real, real)>): Hist {
    if xs == [] then h
    else
      var x := xs[|xs| - 1];
      Counted(CountAll(h, xs[..|xs| - 1]), x.0, x.1, false, false)
  }

  /** A sample on the move under power, of a ratio in bin `i`. */
  predicate Steady(x: (real, real), i: nat) {
    x.0 >= 1200.0 && x.1 >= 10.0 && InBin(i, x.0 / x.1)
  }

  lemma {:induction false} SteadyCounts(h: Hist, xs: seq<(real, real)>, i: nat)
    requires i < BINS && h[i] == 0 && forall j :: 0 <= j < |xs| ==> Steady(xs[j], i)
    ensures CountAll(h, xs) == h[i := if |xs| < 65535 then |xs| else 65535]
  {
    if xs != [] {
      var p, x := xs[..|xs| - 1], xs[|xs| - 1];
      assert Steady(x, i);
      assert forall j :: 0 <= j < |p| ==> p[j] == xs[j];
      SteadyCounts(h, p, i);
      assert BinOf(x.0, x.1) == i;
    }
  }

  predicate HalfUnitFrom(p: Peak, x: (real, real)) { x.1 > 0.0 && Abs(p.ratio - x.0 / x.1) <= 0.5 }

  /** Fifteen samples whose ratios share a bin are learned as exactly one peak, at
      most half a ratio unit from each of them; fewer are not. */
  lemma SteadyRideLearned(xs: seq<(real, real)>, i: nat)
    requires i < BINS && |xs| <= 65535 && forall j :: 0 <= j < |xs| ==> Steady(xs[j], i)
    ensures var ps := PeaksOf(CountAll(Empty(), xs));
            if |xs| < 15 then ps == []
            else |ps| == 1 && ps[0].mass == |xs| && forall j :: 0 <= j < |xs| ==> HalfUnitFrom(ps[0], xs[j])
  {
    SteadyCounts(Empty(), xs, i);
    SingleBin(i, |xs|);
    forall j | 0 <= j < |xs|
      ensures xs[j].1 > 0.0 && InBin(i, xs[j].0 / xs[j].1)
    {
      assert Steady(xs[j], i);
    }
  }

  /** The gates in order; the first one that closes names the outcome. */
  function OutcomeOf(h: Hist, rpm: real, speed: real, clutchPulled: bool, inNeutral: bool): (r: SampleOutcome)
    ensures r == Accepted <==>
            && !clutchPulled && !inNeutral && rpm >= 1200.0 && speed >= 10.0
            && 20.0 <= rpm / speed < 320.0 && h[BinOf(rpm, speed)] < 65535
    ensures r == ClutchPulled <==> clutchPulled
    ensures r == InNeutral <==> !clutchPulled && inNeutral
    ensures r == RpmLow <==> !clutchPulled && !inNeutral && rpm < 1200.0
    ensures r == SpeedLow <==> !clutchPulled && !inNeutral && rpm >= 1200.0 && speed < 10.0
    ensures r == OutOfRange <==>
            !clutchPulled && !inNeutral && rpm >= 1200.0 && speed >= 10.0 && !(20.0 <= rpm / speed < 320.0)
  {
    if clutchPulled then ClutchPulled
    else if inNeutral then InNeutral
    else if rpm < MIN_RPM then RpmLow
    else if speed < MIN_SPEED then SpeedLow
    else if !(0 <= BinOf(rpm, speed) < BINS) then OutOfRange
    else if h[BinOf(rpm, speed)] < 65535 then Accepted
    else BinFull
  }
}
