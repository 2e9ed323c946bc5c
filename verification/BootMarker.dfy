/** What the boot marker in bin 0 can and cannot do to peaks and bands
    (`learn.rs`). */
module BootMarker {
  import opened Basics
  import opened Bands
  import opened RatioPeaks
  import opened RatioPeakLemmas

  /** With such counts in bins 1 to 4 no marker count changes the peaks. */
  predicate MarkerInvisible(h: Hist) {
    var b, c, d, e := At(h, 1), At(h, 2), At(h, 3), At(h, 4);
    c + d >= b + MARKER_CAP || (b + c < 10 && (c + d < b || b + c <= d + e || b + c + d < MIN_PEAK_MASS))
  }

  /** The histogram with `a` marker counts in bin 0. */
  function Marked(h: Hist, a: U16): Hist { h[0 := a] }

  lemma SamePeak(p: Hist, q: Hist, i: nat)
    requires At(p, i - 1) == At(q, i - 1) && At(p, i) == At(q, i) && At(p, i + 1) == At(q, i + 1)
    requires Mass(p, i) > 0
    ensures PeakAt(p, i) == PeakAt(q, i)
  {
    assert Mass(p, i) == Mass(q, i);
    assert Centroid(p, i) == Centroid(q, i);
  }

  lemma AboveMarkerSame(h: Hist, a: U16, b: U16, i: nat)
    requires 3 <= i < BINS
    ensures IsCandidate(Marked(h, a), i) == IsCandidate(Marked(h, b), i)
    ensures IsCandidate(Marked(h, a), i) ==> PeakAt(Marked(h, a), i) == PeakAt(Marked(h, b), i)
  {
    var p, q := Marked(h, a), Marked(h, b);
    assert At(p, i - 2) == At(q, i - 2) && At(p, i - 1) == At(q, i - 1) && At(p, i) == At(q, i)
           && At(p, i + 1) == At(q, i + 1) && At(p, i + 2) == At(q, i + 2);
    if IsCandidate(p, i) {
      SamePeak(p, q, i);
    }
  }

  lemma {:induction false} CandidatesAboveMarker(h: Hist, a: U16, b: U16, n: nat)
    requires 3 <= n <= BINS
    ensures var p, q := Marked(h, a), Marked(h, b);
            && CandidatesBelow(p, 3) <= CandidatesBelow(p, n)
            && |CandidatesBelow(p, n)| - |CandidatesBelow(p, 3)| == |CandidatesBelow(q, n)| - |CandidatesBelow(q, 3)|
            && (CandidatesBelow(p, 3) == CandidatesBelow(q, 3) ==> CandidatesBelow(p, n) == CandidatesBelow(q, n))
  {
    if n > 3 {
      CandidatesAboveMarker(h, a, b, n - 1);
      AboveMarkerSame(h, a, b, n - 1);
    }
  }

  /** The candidates in bins 0 to 2, with `a` marker counts in bin 0. */
  lemma LowCandidates(h: Hist, a: U16)
    requires a <= MARKER_CAP
    ensures var b, c, d, e := At(h, 1), At(h, 2), At(h, 3), At(h, 4);
            var g := Marked(h, a);
            && (IsCandidate(g, 1) <==> b + c >= a && a + b > c + d && a + b + c >= MIN_PEAK_MASS)
            && (IsCandidate(g, 2) <==> c + d >= a + b && b + c > d + e && b + c + d >= MIN_PEAK_MASS)
            && CandidatesBelow(g, 3) ==
               (if IsCandidate(g, 1) then [PeakAt(g, 1)] else if IsCandidate(g, 2) then [PeakAt(g, 2)] else [])
  {
    var g := Marked(h, a);
    assert !IsCandidate(g, 0);
    assert CandidatesBelow(g, 1) == [];
    assert CandidatesBelow(g, 2) == if IsCandidate(g, 1) then [PeakAt(g, 1)] else [];
    NoAdjacentCandidates(g, 1);
  }

  lemma LowPeaksDiffer(h: Hist)
    requires IsCandidate(Marked(h, 5), 1) && Mass(Marked(h, 0), 2) > 0
    ensures PeakAt(Marked(h, 5), 1) != PeakAt(Marked(h, 0), 2)
  {
    var g, f := Marked(h, 5), Marked(h, 0);
    CentroidOffset(g, 1);
    CentroidOffset(f, 2);
    var u, v, m := Centroid(g, 1), Centroid(f, 2), Mass(g, 1) as real;
    if u == v && Mass(g, 1) == Mass(f, 2) {
      assert At(f, 3) == 5;
      assert (u - 1.0) * m == (v - 2.0) * m + m;
    }
  }

  lemma LowCandidatesDiffer(h: Hist)
    requires !MarkerInvisible(h)
    ensures CandidatesBelow(Marked(h, 0), 3) != CandidatesBelow(Marked(h, 5), 3)
  {
    LowCandidates(h, 0);
    LowCandidates(h, 5);
    if IsCandidate(Marked(h, 5), 1) && IsCandidate(Marked(h, 0), 2) {
      LowPeaksDiffer(h);
    }
  }

  lemma LowCandidatesSame(h: Hist, a: U16, b: U16)
    requires MarkerInvisible(h) && a <= MARKER_CAP && b <= MARKER_CAP
    ensures CandidatesBelow(Marked(h, a), 3) == CandidatesBelow(Marked(h, b), 3)
  {
    LowCandidates(h, a);
    LowCandidates(h, b);
    if IsCandidate(Marked(h, a), 2) {
      SamePeak(Marked(h, a), Marked(h, b), 2);
    }
  }

  lemma CandidatesSame(h: Hist, a: U16, b: U16)
    requires MarkerInvisible(h) && a <= MARKER_CAP && b <= MARKER_CAP
    ensures Candidates(Marked(h, a)) == Candidates(Marked(h, b))
  {
    LowCandidatesSame(h, a, b);
    CandidatesAboveMarker(h, a, b, BINS);
  }

  // ---- The candidate beside the marker stands apart ----

  /** Upper end of bin 2, the last the marker can reach. */
  const MARKER_TOP := 23.0

  predicate Low(p: Peak) { p.ratio < MARKER_TOP }

  lemma InLowBins(g: Hist, p: Peak)
    ensures p in CandidatesBelow(g, 3) <==> p in Candidates(g) && Low(p)
  {
    CandidateIff(g, 3, p);
    CandidateIff(g, BINS, p);
    forall i | 0 <= i < BINS && IsCandidate(g, i)
      ensures Low(PeakAt(g, i)) <==> i < 3
    {
      PeakInOwnBin(g, i);
    }
  }

  lemma FarBy(p: Peak, q: Peak)
    requires p.ratio < 0.94 * q.ratio
    ensures Far(p, q) && Far(q, p)
  {
    FarIff(p, q);
    FarIff(q, p);
  }

  /** Two candidates with one bin between them never both lean towards it. */
  lemma LeanApart(h: Hist, i: int)
    requires IsCandidate(h, i) && IsCandidate(h, i + 2)
    ensures At(h, i + 1) <= At(h, i - 1) || At(h, i + 1) <= At(h, i + 3)
  {
  }

  /** A candidate in bin 1 or 2 is more than 6 % from every higher one. */
  lemma LowFar(h: Hist, i: int, j: int)
    requires 1 <= i < 3 && i < j < BINS && IsCandidate(h, i) && IsCandidate(h, j)
    ensures Far(PeakAt(h, i), PeakAt(h, j)) && Far(PeakAt(h, j), PeakAt(h, i))
  {
    NoAdjacentCandidates(h, i);
    CandidateCentroid(h, i);
    CandidateCentroid(h, j);
    if j == i + 2 {
      LeanApart(h, i);
    }
    FarBy(PeakAt(h, i), PeakAt(h, j));
  }

  lemma LowApart(h: Hist, p: Peak, q: Peak)
    requires h[0] <= MARKER_CAP && p in Candidates(h) && q in Candidates(h) && Low(p) && p != q
    ensures Far(p, q) && Far(q, p)
  {
    CandidateIff(h, BINS, p);
    CandidateIff(h, BINS, q);
    var i :| 0 <= i < BINS && IsCandidate(h, i) && p == PeakAt(h, i);
    var j :| 0 <= j < BINS && IsCandidate(h, j) && q == PeakAt(h, j);
    PeakInOwnBin(h, i);
    assert !IsCandidate(h, 0);
    if i < j {
      LowFar(h, i, j);
    } else {
      LowFar(h, j, i);
    }
  }

  lemma LowPeakKept(h: Hist, p: Peak)
    requires h[0] <= MARKER_CAP && Low(p)
    ensures p in PeaksOf(h) <==> p in CandidatesBelow(h, 3)
  {
    PeaksSpec(h);
    InLowBins(h, p);
    if p in Candidates(h) && p !in PeaksOf(h) {
      var q :| q in PeaksOf(h) && q.mass >= p.mass && !Far(p, q);
      LowApart(h, p, q);
    }
  }

  predicate SamePeaks(h: Hist) {
    forall a: U16, b: U16 ::
      a <= MARKER_CAP && b <= MARKER_CAP ==> PeaksOf(Marked(h, a)) == PeaksOf(Marked(h, b))
  }

  lemma LowPeaksSame(h: Hist, p: Peak)
    requires SamePeaks(h)
    ensures p in CandidatesBelow(Marked(h, 0), 3) <==> p in CandidatesBelow(Marked(h, 5), 3)
  {
    InLowBins(Marked(h, 0), p);
    InLowBins(Marked(h, 5), p);
    if Low(p) {
      LowPeakKept(Marked(h, 0), p);
      LowPeakKept(Marked(h, 5), p);
    }
  }

  /** No marker count changes the peaks exactly when the caller can read
      `MarkerInvisible` off bins 1 to 4; empty bins 1 and 2 are such a case. */
  lemma MarkerInvisibleIff(h: Hist)
    ensures SamePeaks(h) <==> MarkerInvisible(h)
    ensures h[1] == 0 && h[2] == 0 ==> MarkerInvisible(h)
  {
    if MarkerInvisible(h) {
      forall a: U16, b: U16 | a <= MARKER_CAP && b <= MARKER_CAP
        ensures PeaksOf(Marked(h, a)) == PeaksOf(Marked(h, b))
      {
        CandidatesSame(h, a, b);
      }
    } else if SamePeaks(h) {
      var s, t := CandidatesBelow(Marked(h, 0), 3), CandidatesBelow(Marked(h, 5), 3);
      LowCandidatesDiffer(h);
      LowCandidates(h, 0);
      LowCandidates(h, 5);
      LowPeaksSame(h, if s != [] then s[0] else t[0]);
    }
  }

  /** Ten samples in bin 1 and a full marker do form a peak. */
  lemma MarkerCanFormPeak()
    ensures var h: Hist := Empty()[1 := 10];
            PeaksOf(Marked(h, 0)) == [] && PeaksOf(Marked(h, 5)) != [] && !MarkerInvisible(h)
  {
    var h: Hist := Empty()[1 := 10];
    SingleBin(1, 10);
    assert Marked(h, 0) == h;
    LowCandidates(h, 5);
    LowPeakKept(Marked(h, 5), PeakAt(Marked(h, 5), 1));
    PeakInOwnBin(Marked(h, 5), 1);
  }

  // ---- Everything above the marker is untouched ----

  /** The peaks beyond the marker's reach, in order. */
  function High(s: seq<Peak>): seq<Peak> {
    if s == [] then []
    else if Low(s[|s| - 1]) then High(s[..|s| - 1])
    else High(s[..|s| - 1]) + [s[|s| - 1]]
  }

  lemma HighSnoc(s: seq<Peak>, p: Peak)
    ensures High(s + [p]) == if Low(p) then High(s) else High(s) + [p]
  {
    assert (s + [p])[..|s|] == s;
  }

  lemma {:induction false} HighMembers(s: seq<Peak>, p: Peak)
    ensures p in High(s) <==> p in s && !Low(p)
  {
    if s != [] {
      HighMembers(s[..|s| - 1], p);
      assert s == s[..|s| - 1] + [s[|s| - 1]];
    }
  }

  lemma {:induction false} HighOfMass(s: seq<Peak>, m: nat)
    ensures OfMass(High(s), m) == High(OfMass(s, m))
  {
    if s != [] {
      var t, l := s[..|s| - 1], s[|s| - 1];
      HighOfMass(t, m);
      OfMassSnoc(High(t), l, m);
      HighSnoc(OfMass(t, m), l);
    }
  }

  lemma {:induction false} HighDescends(s: seq<Peak>)
    requires MassDescending(s)
    ensures MassDescending(High(s))
  {
    if s != [] {
      var t, l := s[..|s| - 1], s[|s| - 1];
      HighDescends(t);
      forall p | p in High(t)
        ensures p.mass >= l.mass
      {
        HighMembers(t, p);
      }
    }
  }

  lemma HighSort(s: seq<Peak>)
    ensures High(SortByMass(s)) == SortByMass(High(s))
  {
    var t := SortByMass(s);
    SortDescends(s);
    HighDescends(t);
    forall m: nat
      ensures SameAt(High(t), High(s), m)
    {
      SortStable(s, m);
      HighOfMass(t, m);
      HighOfMass(s, m);
    }
    SortSpec(High(s), High(t));
  }

  predicate LowsApart(s: seq<Peak>) {
    forall p, q :: p in s && q in s && Low(p) && !Low(q) ==> Far(q, p)
  }

  lemma {:induction false} HighGreedy(s: seq<Peak>)
    requires LowsApart(s)
    ensures High(Greedy(s)) == Greedy(High(s))
  {
    if s != [] {
      var t, l := s[..|s| - 1], s[|s| - 1];
      assert s == t + [l];
      HighGreedy(t);
      var acc := Greedy(t);
      HighSnoc(acc, l);
      if !Low(l) {
        assert High(s)[..|High(t)|] == High(t);
        FarFromHigh(s, acc, l);
      }
    }
  }

  lemma FarFromHigh(s: seq<Peak>, acc: seq<Peak>, l: Peak)
    requires LowsApart(s) && l in s && !Low(l) && acc == Greedy(s[..|s| - 1])
    ensures FarFromAll(l, acc) <==> FarFromAll(l, High(acc))
  {
    forall i | 0 <= i < |acc|
      ensures acc[i] in High(acc) || Far(l, acc[i])
    {
      HighMembers(acc, acc[i]);
      GreedySelects(s[..|s| - 1], acc[i]);
    }
    forall i | 0 <= i < |High(acc)|
      ensures High(acc)[i] in acc
    {
      HighMembers(acc, High(acc)[i]);
    }
  }

  lemma HighPeaks(h: Hist)
    requires h[0] <= MARKER_CAP
    ensures High(PeaksOf(h)) == Greedy(SortByMass(High(Candidates(h))))
  {
    var s := SortByMass(Candidates(h));
    forall p, q | p in s && q in s && Low(p) && !Low(q)
      ensures Far(q, p)
    {
      SortMembers(Candidates(h), p);
      SortMembers(Candidates(h), q);
      LowApart(h, p, q);
    }
    HighGreedy(s);
    HighSort(Candidates(h));
  }

  lemma {:induction false} HighCandidatesSame(h: Hist, a: U16, b: U16, n: nat)
    requires 3 <= n <= BINS
    ensures High(CandidatesBelow(Marked(h, a), n)) == High(CandidatesBelow(Marked(h, b), n))
  {
    if n > 3 {
      HighCandidatesSame(h, a, b, n - 1);
      AboveMarkerSame(h, a, b, n - 1);
      if IsCandidate(Marked(h, a), n - 1) {
        HighSnoc(CandidatesBelow(Marked(h, a), n - 1), PeakAt(Marked(h, a), n - 1));
        HighSnoc(CandidatesBelow(Marked(h, b), n - 1), PeakAt(Marked(h, b), n - 1));
      }
    } else {
      NoneHigh(Marked(h, a));
      NoneHigh(Marked(h, b));
    }
  }

  lemma NoneHigh(g: Hist)
    ensures High(CandidatesBelow(g, 3)) == []
  {
    var s := High(CandidatesBelow(g, 3));
    if s != [] {
      HighMembers(CandidatesBelow(g, 3), s[0]);
      InLowBins(g, s[0]);
    }
  }

  // ---- Calibration ----

  /** No reference band comes within 10 % of the marker's reach. */
  predicate AboveMarker(ref: seq<real>) {
    forall i :: 0 <= i < |ref| ==> 0.9 * ref[i] >= MARKER_TOP
  }

  lemma {:induction false} FirstAnchoredHigh(ref: seq<real>, ps: seq<Peak>, k: nat)
    requires ref != [] && NonZero(ref) && AboveMarker(ref)
    ensures FirstAnchored(ref, ps, k) == FirstAnchored(ref, High(ps), k)
  {
    if ps != [] {
      var t, l := ps[..|ps| - 1], ps[|ps| - 1];
      FirstAnchoredHigh(ref, t, k);
      if Low(l) {
        WithinIff(l.ratio, ref[Nearest(ref, l.ratio)]);
      } else {
        FirstAnchoredSnoc(ref, High(t), l, k);
      }
    }
  }

  /** The marker never changes a calibration over bands beyond its reach, nor one
      over any bands where it is invisible. */
  lemma CalibrationIgnoresMarker(ref: seq<real>, h: Hist, a: U16, b: U16)
    requires ref != [] && NonZero(ref) && (AboveMarker(ref) || MarkerInvisible(h))
    requires a <= MARKER_CAP && b <= MARKER_CAP
    ensures Derived(ref, Marked(h, a)) == Derived(ref, Marked(h, b))
  {
    if MarkerInvisible(h) {
      CandidatesSame(h, a, b);
    } else {
      var p, q := PeaksOf(Marked(h, a)), PeaksOf(Marked(h, b));
      HighPeaks(Marked(h, a));
      HighPeaks(Marked(h, b));
      HighCandidatesSame(h, a, b, BINS);
      forall k: nat
        ensures FirstAnchored(ref, p, k) == FirstAnchored(ref, q, k)
      {
        FirstAnchoredHigh(ref, p, k);
        FirstAnchoredHigh(ref, q, k);
      }
      assert AnchoredSlots(ref, p) == AnchoredSlots(ref, q);
      assert Refined(ref, p) == Refined(ref, q);
    }
  }

  /** Over the factory bands, the only reference the firmware uses, the marker
      never affects calibration, whatever the histogram. */
  lemma FactoryCalibrationIgnoresMarker(h: Hist, a: U16, b: U16)
    requires a <= MARKER_CAP && b <= MARKER_CAP
    ensures Derived(FACTORY_BANDS, Marked(h, a)) == Derived(FACTORY_BANDS, Marked(h, b))
  {
    CalibrationIgnoresMarker(FACTORY_BANDS, h, a, b);
  }
}
