/** Peak detection and band derivation as functions of the histogram's bins
    (`learn.rs`). Ratios are `real`. */
module RatioPeaks {
  import opened Basics
  import opened Bands

  const RATIO_MIN := 20.0
  const BINS := 300
  const MIN_PEAK_MASS := 15
  const PEAK_SEPARATION := 0.06
  const ANCHOR_TOL := 0.10
  const MIN_PEAKS := 2
  const MARKER_CAP := 5

  type Hist = h: seq<U16> | |h| == BINS witness seq(BINS, (_: int) => 0 as U16)

  datatype RawPeak = Peak(ratio: real, mass: nat)

  /** Ratios are at least `RATIO_MIN`, hence positive. */
  type Peak = p: RawPeak | p.ratio > 0.0 witness Peak(1.0, 0)

  function Empty(): Hist { seq(BINS, (_: int) => 0 as U16) }

  function Sum(h: seq<U16>): nat {
    if h == [] then 0 else Sum(h[..|h| - 1]) + h[|h| - 1]
  }

  // ---- Peak detection, as functions of the bins ----

  /** Bin count, 0 outside the histogram. */
  function At(h: Hist, j: int): nat { if 0 <= j < BINS then h[j] else 0 }

  function Smooth(h: Hist, j: int): nat { At(h, j - 1) + 2 * At(h, j) + At(h, j + 1) }

  function Mass(h: Hist, i: int): nat { At(h, i - 1) + At(h, i) + At(h, i + 1) }

  predicate IsCandidate(h: Hist, i: int) {
    && Smooth(h, i) > 0
    && Smooth(h, i) >= Smooth(h, i - 1)
    && Smooth(h, i) > Smooth(h, i + 1)
    && Mass(h, i) >= MIN_PEAK_MASS
  }

  /** Centre of mass of the 3-bin neighbourhood, in bins. */
  function Centroid(h: Hist, i: int): real
    requires Mass(h, i) > 0
  {
    (At(h, i - 1) as real * (i - 1) as real + At(h, i) as real * i as real
     + At(h, i + 1) as real * (i + 1) as real) / Mass(h, i) as real
  }

  lemma CentroidOffset(h: Hist, i: int)
    requires Mass(h, i) > 0
    ensures (Centroid(h, i) - i as real) * Mass(h, i) as real == (At(h, i + 1) - At(h, i - 1)) as real
  {
    var a, b, c := At(h, i - 1) as real, At(h, i) as real, At(h, i + 1) as real;
    var m, x := Mass(h, i) as real, i as real;
    var q := Centroid(h, i);
    assert m == a + b + c;
    assert a * (x - 1.0) + b * x + c * (x + 1.0) == m * x + (c - a);
    assert q * m == m * x + (c - a);
  }

  lemma CentroidBetween(h: Hist, i: int)
    requires Mass(h, i) > 0
    ensures (i - 1) as real <= Centroid(h, i) <= (i + 1) as real
    ensures At(h, i - 1) == At(h, i + 1) ==> Centroid(h, i) == i as real
  {
    CentroidOffset(h, i);
    Cancel(Centroid(h, i) - i as real, Mass(h, i) as real, (At(h, i + 1) - At(h, i - 1)) as real);
  }

  lemma Cancel(d: real, m: real, k: real)
    requires m > 0.0 && d * m == k && -m <= k <= m
    ensures -1.0 <= d <= 1.0
    ensures k == 0.0 ==> d == 0.0
  {
    Scale(1.0, d, m, m, k);
    Scale(d, -1.0, m, k, -m);
    Scale(d, 0.0, m, k, 0.0);
    Scale(0.0, d, m, 0.0, k);
  }

  function PeakAt(h: Hist, i: int): Peak
    requires 0 <= i && Mass(h, i) > 0
  {
    CentroidBetween(h, i);
    Peak(RATIO_MIN + Centroid(h, i) + 0.5, Mass(h, i))
  }

  lemma Halves(d: real, m: real, k: real)
    requires m > 0.0 && d * m == k && -m <= 2.0 * k < m
    ensures -0.5 <= d < 0.5
    ensures k <= 0.0 ==> d <= 0.0
    ensures k >= 0.0 ==> d >= 0.0
  {
    Scale(d, -0.5, m, k, -0.5 * m);
    Scale(d, 0.5, m, k, 0.5 * m);
    Scale(d, 0.0, m, k, 0.0);
    Scale(0.0, d, m, 0.0, k);
  }

  lemma CandidateLeans(h: Hist, i: int)
    requires IsCandidate(h, i)
    ensures 2 * At(h, i - 1) <= Mass(h, i) + 2 * At(h, i + 1)
    ensures 2 * At(h, i + 1) < Mass(h, i) + 2 * At(h, i - 1)
  {
    hide At;
  }

  /** The centroid of a candidate lies in the candidate's own bin, on the side of
      the heavier neighbour. */
  lemma CandidateCentroid(h: Hist, i: int)
    requires IsCandidate(h, i)
    ensures i as real - 0.5 <= Centroid(h, i) < i as real + 0.5
    ensures At(h, i + 1) <= At(h, i - 1) ==> Centroid(h, i) <= i as real
    ensures At(h, i + 1) >= At(h, i - 1) ==> Centroid(h, i) >= i as real
  {
    CandidateLeans(h, i);
    hide At, Smooth, Centroid;
    CentroidOffset(h, i);
    var m: int, k: int := Mass(h, i), At(h, i + 1) - At(h, i - 1);
    hide Mass;
    assert -(m as real) <= 2.0 * (k as real) < m as real;
    Halves(Centroid(h, i) - i as real, m as real, k as real);
  }

  /** Candidate peaks in bins below `n`, in bin order. */
  function CandidatesBelow(h: Hist, n: nat): seq<Peak>
    requires n <= BINS
  {
    if n == 0 then []
    else if IsCandidate(h, n - 1) then CandidatesBelow(h, n - 1) + [PeakAt(h, n - 1)]
    else CandidatesBelow(h, n - 1)
  }

  function Candidates(h: Hist): seq<Peak> { CandidatesBelow(h, BINS) }

  /** Place `p` behind everything at least as heavy. */
  function Insert(s: seq<Peak>, p: Peak): seq<Peak> {
    if s == [] || s[|s| - 1].mass >= p.mass then s + [p]
    else Insert(s[..|s| - 1], p) + [s[|s| - 1]]
  }

  /** The library's stable sort, strongest first. */
  function SortByMass(s: seq<Peak>): seq<Peak> {
    if s == [] then [] else Insert(SortByMass(s[..|s| - 1]), s[|s| - 1])
  }

  /** Far enough apart to be two gears. */
  predicate Far(p: Peak, q: Peak) {
    Abs(p.ratio - q.ratio) / Max(q.ratio, p.ratio) > PEAK_SEPARATION
  }

  predicate FarFromAll(p: Peak, s: seq<Peak>) {
    forall i :: 0 <= i < |s| ==> Far(p, s[i])
  }

  function Greedy(s: seq<Peak>): seq<Peak> {
    if s == [] then []
    else
      var acc := Greedy(s[..|s| - 1]);
      var p := s[|s| - 1];
      if FarFromAll(p, acc) then acc + [p] else acc
  }

  function PeaksOf(h: Hist): seq<Peak> { Greedy(SortByMass(Candidates(h))) }

  // ---- Anchoring ----

  /** `p` lies within `ANCHOR_TOL` of slot `k`, its nearest reference band. */
  predicate AnchorsTo(ref: seq<real>, p: Peak, k: nat)
    requires ref != [] && NonZero(ref)
  {
    Nearest(ref, p.ratio) == k && RelErr(p.ratio, ref[k]) <= ANCHOR_TOL
  }

  /** The earliest peak of the list anchored to slot `k`. */
  function FirstAnchored(ref: seq<real>, ps: seq<Peak>, k: nat): Option<Peak>
    requires ref != [] && NonZero(ref)
  {
    if ps == [] then None
    else
      var prev := FirstAnchored(ref, ps[..|ps| - 1], k);
      if prev.Some? then prev
      else if AnchorsTo(ref, ps[|ps| - 1], k) then Some(ps[|ps| - 1])
      else None
  }

  function AnchoredSlots(ref: seq<real>, ps: seq<Peak>): set<nat>
    requires ref != [] && NonZero(ref)
  {
    set k: nat | k < |ref| && FirstAnchored(ref, ps, k).Some?
  }

  /** The reference with every anchored slot replaced by its peak. */
  function Refined(ref: seq<real>, ps: seq<Peak>): (b: seq<real>)
    requires ref != [] && NonZero(ref)
    ensures |b| == |ref|
  {
    seq(|ref|, k requires 0 <= k < |ref| =>
      match FirstAnchored(ref, ps, k) case Some(p) => p.ratio case None => ref[k])
  }

  /** What `derive_bands` returns for the bins `h`. */
  function Derived(ref: seq<real>, h: Hist): Option<(seq<real>, nat)>
    requires ref != [] && NonZero(ref)
  {
    var ps := PeaksOf(h);
    var n := |AnchoredSlots(ref, ps)|;
    if n < MIN_PEAKS then None else Some((Refined(ref, ps), n))
  }
}
