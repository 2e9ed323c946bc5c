/** What peak detection and anchoring guarantee, for every histogram. */
module RatioPeakLemmas {
  import opened Basics
  import opened Bands
  import opened RatioPeaks

  // ---- Candidates ----

  lemma NoAdjacentCandidates(h: Hist, i: int)
    ensures !(IsCandidate(h, i) && IsCandidate(h, i + 1))
  {
  }

  lemma {:induction false} CandidateIff(h: Hist, n: nat, p: Peak)
    requires n <= BINS
    ensures p in CandidatesBelow(h, n) <==>
            exists i :: 0 <= i < n && IsCandidate(h, i) && p == PeakAt(h, i)
  {
    if n > 0 {
      CandidateIff(h, n - 1, p);
    }
  }

  /** In terms of the counts: a candidate has at least as much in its bin and the
      next as in the two before, more in the one before and its own than in the two
      after, and 15 samples around it. */
  lemma CandidateByCounts(h: Hist, i: int)
    requires 0 <= i < BINS
    ensures IsCandidate(h, i) <==>
            && At(h, i) + At(h, i + 1) >= At(h, i - 2) + At(h, i - 1)
            && At(h, i - 1) + At(h, i) > At(h, i + 1) + At(h, i + 2)
            && At(h, i - 1) + At(h, i) + At(h, i + 1) >= 15
  {
    hide At;
  }

  /** The ratio of a peak is the mean ratio of the samples in its three bins, each
      taken at the centre of its bin. */
  lemma PeakIsMean(h: Hist, i: int)
    requires 0 <= i < BINS && IsCandidate(h, i)
    ensures var a, b, c := At(h, i - 1) as real, At(h, i) as real, At(h, i + 1) as real;
            var x := 20.0 + i as real + 0.5;
            && PeakAt(h, i).mass == At(h, i - 1) + At(h, i) + At(h, i + 1)
            && PeakAt(h, i).ratio * (a + b + c) == a * (x - 1.0) + b * x + c * (x + 1.0)
  {
    CentroidOffset(h, i);
    var a, b, c := At(h, i - 1) as real, At(h, i) as real, At(h, i + 1) as real;
    var x := 20.0 + i as real + 0.5;
    var m, d := Mass(h, i) as real, Centroid(h, i) - i as real;
    assert PeakAt(h, i).ratio == x + d;
    assert m == a + b + c;
    assert (x + d) * m == x * m + d * m;
    assert a * (x - 1.0) + b * x + c * (x + 1.0) == x * m + (c - a);
  }

  /** A candidate's ratio lies in its own bin. */
  lemma PeakInOwnBin(h: Hist, i: int)
    requires 0 <= i && IsCandidate(h, i)
    ensures RATIO_MIN + i as real <= PeakAt(h, i).ratio < RATIO_MIN + (i + 1) as real
  {
    CandidateCentroid(h, i);
  }

  predicate RatiosIncrease(s: seq<Peak>) {
    forall i, j :: 0 <= i < j < |s| ==> s[i].ratio < s[j].ratio
  }

  predicate AllBelow(s: seq<Peak>, x: real) {
    forall i :: 0 <= i < |s| ==> s[i].ratio < x
  }

  /** Candidate ratios rise strictly with their bins. */
  lemma {:induction false} CandidatesIncrease(h: Hist, n: nat)
    requires n <= BINS
    ensures RatiosIncrease(CandidatesBelow(h, n))
    ensures AllBelow(CandidatesBelow(h, n), RATIO_MIN + n as real)
  {
    if n > 0 {
      CandidatesIncrease(h, n - 1);
      if IsCandidate(h, n - 1) {
        PeakInOwnBin(h, n - 1);
      }
    }
  }

  lemma {:induction false} CandidateMassMin(h: Hist, n: nat)
    requires n <= BINS
    ensures forall p :: p in CandidatesBelow(h, n) ==> p.mass >= MIN_PEAK_MASS
  {
    if n > 0 {
      CandidateMassMin(h, n - 1);
    }
  }

  function SumMass(s: seq<Peak>): nat {
    if s == [] then 0 else SumMass(s[..|s| - 1]) + s[|s| - 1].mass
  }

  lemma SumMassSnoc(s: seq<Peak>, p: Peak)
    ensures SumMass(s + [p]) == SumMass(s) + p.mass
  {
    assert (s + [p])[..|s|] == s;
  }

  lemma SumPrefix(h: Hist, n: nat)
    requires n < BINS
    ensures Sum(h[..n + 1]) == Sum(h[..n]) + h[n]
  {
    assert h[..n + 1][..n] == h[..n];
  }

  lemma {:induction false} MassBoundBelow(h: Hist, n: nat)
    requires n <= BINS
    ensures SumMass(CandidatesBelow(h, n)) <=
            (if n == 0 then 0 else 2 * Sum(h[..n - 1])) + At(h, n - 1)
            + (if IsCandidate(h, n - 1) then At(h, n) else 0)
  {
    if n > 0 {
      MassBoundBelow(h, n - 1);
      if n > 1 {
        SumPrefix(h, n - 2);
      }
      NoAdjacentCandidates(h, n - 2);
      if IsCandidate(h, n - 1) {
        SumMassSnoc(CandidatesBelow(h, n - 1), PeakAt(h, n - 1));
      }
    }
  }

  /** Candidate neighbourhoods overlap at most pairwise. */
  lemma CandidateMassBound(h: Hist)
    ensures SumMass(Candidates(h)) <= 2 * Sum(h)
  {
    MassBoundBelow(h, BINS);
    SumPrefix(h, BINS - 1);
    assert h[..BINS] == h;
  }

  lemma {:induction false} RightmostMax(h: Hist, n: nat) returns (i: nat)
    requires 0 < n <= BINS
    ensures i < n
    ensures forall j :: 0 <= j < n ==> Smooth(h, j) <= Smooth(h, i)
    ensures forall j :: i < j < n ==> Smooth(h, j) < Smooth(h, i)
  {
    if n == 1 {
      i := 0;
    } else {
      i := RightmostMax(h, n - 1);
      if Smooth(h, n - 1) >= Smooth(h, i) {
        i := n - 1;
      }
    }
  }

  /** A smoothed value of 29 anywhere guarantees a peak: the rightmost global
      maximum qualifies, its smoothed value being at most twice its mass. */
  lemma CandidateExists(h: Hist, j: nat)
    requires j < BINS && Smooth(h, j) >= 2 * MIN_PEAK_MASS - 1
    ensures Candidates(h) != []
  {
    var i := RightmostMax(h, BINS);
    assert Smooth(h, i) <= 2 * Mass(h, i);
    assert IsCandidate(h, i) by {
      if i == 0 {
        assert Smooth(h, -1) <= Smooth(h, 0);
      } else {
        assert Smooth(h, i - 1) <= Smooth(h, i);
      }
      if i == BINS - 1 {
        assert Smooth(h, BINS) < Smooth(h, i);
      } else {
        assert Smooth(h, i + 1) < Smooth(h, i);
      }
    }
    CandidateIff(h, BINS, PeakAt(h, i));
  }

  // ---- The stable sort ----

  predicate MassDescending(s: seq<Peak>) {
    forall i, j :: 0 <= i < j < |s| ==> s[i].mass >= s[j].mass
  }

  /** The peaks of mass `m`, in order. */
  function OfMass(s: seq<Peak>, m: nat): seq<Peak> {
    if s == [] then []
    else if s[|s| - 1].mass == m then OfMass(s[..|s| - 1], m) + [s[|s| - 1]]
    else OfMass(s[..|s| - 1], m)
  }

  lemma OfMassSnoc(s: seq<Peak>, p: Peak, m: nat)
    ensures OfMass(s + [p], m) == if p.mass == m then OfMass(s, m) + [p] else OfMass(s, m)
  {
    assert (s + [p])[..|s|] == s;
  }

  lemma {:induction false} InsertMembers(s: seq<Peak>, p: Peak, q: Peak)
    ensures q in Insert(s, p) <==> q == p || q in s
    ensures |Insert(s, p)| == |s| + 1
    ensures SumMass(Insert(s, p)) == SumMass(s) + p.mass
  {
    if s == [] || s[|s| - 1].mass >= p.mass {
      SumMassSnoc(s, p);
    } else {
      var t, l := s[..|s| - 1], s[|s| - 1];
      InsertMembers(t, p, q);
      SumMassSnoc(Insert(t, p), l);
      assert s == t + [l];
    }
  }

  lemma {:induction false} InsertDescending(s: seq<Peak>, p: Peak)
    requires MassDescending(s)
    ensures MassDescending(Insert(s, p))
  {
    if !(s == [] || s[|s| - 1].mass >= p.mass) {
      var t, l := s[..|s| - 1], s[|s| - 1];
      InsertDescending(t, p);
      var r := Insert(t, p);
      forall i | 0 <= i < |r|
        ensures r[i].mass >= l.mass
      {
        InsertMembers(t, p, r[i]);
      }
    }
  }

  lemma {:induction false} InsertStable(s: seq<Peak>, p: Peak, m: nat)
    ensures OfMass(Insert(s, p), m) == OfMass(s + [p], m)
  {
    if !(s == [] || s[|s| - 1].mass >= p.mass) {
      var t, l := s[..|s| - 1], s[|s| - 1];
      InsertStable(t, p, m);
      OfMassSnoc(s, p, m);
      OfMassSnoc(t, p, m);
      OfMassSnoc(Insert(t, p), l, m);
    }
  }

  lemma {:induction false} SortMembers(s: seq<Peak>, q: Peak)
    ensures q in SortByMass(s) <==> q in s
    ensures |SortByMass(s)| == |s| && SumMass(SortByMass(s)) == SumMass(s)
  {
    if s != [] {
      var t, l := s[..|s| - 1], s[|s| - 1];
      SortMembers(t, q);
      InsertMembers(SortByMass(t), l, q);
      assert s == t + [l];
    }
  }

  lemma {:induction false} SortDescends(s: seq<Peak>)
    ensures MassDescending(SortByMass(s))
  {
    if s != [] {
      SortDescends(s[..|s| - 1]);
      InsertDescending(SortByMass(s[..|s| - 1]), s[|s| - 1]);
    }
  }

  lemma {:induction false} SortStable(s: seq<Peak>, m: nat)
    ensures OfMass(SortByMass(s), m) == OfMass(s, m)
  {
    if s != [] {
      var t, l := s[..|s| - 1], s[|s| - 1];
      var u := SortByMass(t);
      SortStable(t, m);
      InsertStable(u, l, m);
      OfMassSnoc(u, l, m);
      assert SortByMass(s) == Insert(u, l);
    }
  }

  lemma {:induction false} OfMassMember(s: seq<Peak>, p: Peak)
    ensures p in s <==> p in OfMass(s, p.mass)
    ensures forall q :: q in OfMass(s, p.mass) ==> q.mass == p.mass
  {
    if s != [] {
      var t, l := s[..|s| - 1], s[|s| - 1];
      OfMassMember(t, p);
      assert s == t + [l];
      assert p in s <==> p in t || p == l;
    }
  }

  predicate SameAt(a: seq<Peak>, b: seq<Peak>, m: nat) { OfMass(a, m) == OfMass(b, m) }

  /** Same peaks, equal masses in the same order. */
  ghost predicate SameByMass(a: seq<Peak>, b: seq<Peak>) {
    forall m: nat :: SameAt(a, b, m)
  }

  lemma SameMembers(a: seq<Peak>, b: seq<Peak>, p: Peak)
    requires SameByMass(a, b)
    ensures p in a <==> p in b
  {
    OfMassMember(a, p);
    OfMassMember(b, p);
    assert SameAt(a, b, p.mass);
  }

  lemma SameLast(a: seq<Peak>, p: Peak, b: seq<Peak>, q: Peak)
    requires MassDescending(a + [p]) && MassDescending(b + [q]) && SameByMass(a + [p], b + [q])
    ensures p == q && SameByMass(a, b)
  {
    var ap, bq := a + [p], b + [q];
    SameMembers(ap, bq, p);
    SameMembers(ap, bq, q);
    assert ap[|a|] == p && bq[|b|] == q;
    assert p.mass == q.mass;
    assert SameAt(ap, bq, p.mass);
    OfMassSnoc(a, p, p.mass);
    OfMassSnoc(b, q, p.mass);
    SnocInjective(OfMass(a, p.mass), p, OfMass(b, p.mass), q);
    forall m: nat
      ensures SameAt(a, b, m)
    {
      assert SameAt(ap, bq, m);
      OfMassSnoc(a, p, m);
      OfMassSnoc(b, q, m);
      if m == p.mass {
        SnocInjective(OfMass(a, m), p, OfMass(b, m), q);
      }
    }
  }

  /** No other descending order keeps the relative order of equal masses. */
  lemma {:induction false} SortUnique(a: seq<Peak>, b: seq<Peak>)
    requires MassDescending(a) && MassDescending(b) && SameByMass(a, b)
    ensures a == b
  {
    if a != [] && b != [] {
      var a', p, b', q := a[..|a| - 1], a[|a| - 1], b[..|b| - 1], b[|b| - 1];
      assert a == a' + [p] && b == b' + [q];
      SameLast(a', p, b', q);
      SortUnique(a', b');
    } else if a != [] {
      SameMembers(a, b, a[0]);
    } else if b != [] {
      SameMembers(a, b, b[0]);
    }
  }

  /** The sort is the one stable permutation into descending mass. */
  lemma SortSpec(s: seq<Peak>, r: seq<Peak>)
    ensures r == SortByMass(s) <==> MassDescending(r) && SameByMass(r, s)
  {
    var t := SortByMass(s);
    SortDescends(s);
    forall m: nat
      ensures SameAt(t, s, m)
    {
      SortStable(s, m);
    }
    if MassDescending(r) && SameByMass(r, s) {
      forall m: nat
        ensures SameAt(r, t, m)
      {
        assert SameAt(r, s, m) && SameAt(t, s, m);
      }
      SortUnique(r, t);
    }
  }

  // ---- Greedy separation ----

  predicate PairwiseFar(s: seq<Peak>) {
    forall i, j :: 0 <= i < j < |s| ==> Far(s[i], s[j]) && Far(s[j], s[i])
  }

  /** `p` was kept, or lost to a kept peak of at least its mass nearby. */
  predicate Accounted(p: Peak, acc: seq<Peak>) {
    p in acc || exists q :: q in acc && q.mass >= p.mass && !Far(p, q)
  }

  /** Two peaks are two gears exactly when the smaller ratio is more than 6 % below
      the larger. */
  lemma FarIff(p: Peak, q: Peak)
    ensures Far(p, q) <==> p.ratio < 0.94 * q.ratio || q.ratio < 0.94 * p.ratio
  {
    FractionOrder(Abs(p.ratio - q.ratio), Max(q.ratio, p.ratio), 0.06, 1.0);
  }

  lemma FarSymmetric(p: Peak, q: Peak)
    ensures Far(p, q) == Far(q, p)
  {
  }

  lemma {:induction false} GreedySelects(s: seq<Peak>, p: Peak)
    ensures p in Greedy(s) ==> p in s
    ensures s != [] ==> Greedy(s) != [] && Greedy(s)[0] == s[0]
    ensures SumMass(Greedy(s)) <= SumMass(s)
  {
    if s != [] {
      var t, l := s[..|s| - 1], s[|s| - 1];
      GreedySelects(t, p);
      assert s == t + [l];
      SumMassSnoc(Greedy(t), l);
    }
  }

  lemma {:induction false} GreedySeparates(s: seq<Peak>)
    ensures PairwiseFar(Greedy(s))
  {
    if s != [] {
      var acc, l := Greedy(s[..|s| - 1]), s[|s| - 1];
      GreedySeparates(s[..|s| - 1]);
      forall i | 0 <= i < |acc|
        ensures Far(acc[i], l) == Far(l, acc[i])
      {
        FarSymmetric(l, acc[i]);
      }
    }
  }

  lemma {:induction false} GreedyDescends(s: seq<Peak>)
    requires MassDescending(s)
    ensures MassDescending(Greedy(s))
  {
    if s != [] {
      var t := s[..|s| - 1];
      GreedyDescends(t);
      forall i | 0 <= i < |Greedy(t)|
        ensures Greedy(t)[i].mass >= s[|s| - 1].mass
      {
        GreedySelects(t, Greedy(t)[i]);
      }
    }
  }

  lemma {:induction false} GreedyAccounts(s: seq<Peak>, p: Peak)
    requires MassDescending(s) && p in s
    ensures Accounted(p, Greedy(s))
  {
    var t, l := s[..|s| - 1], s[|s| - 1];
    var acc := Greedy(t);
    assert s == t + [l];
    if p in t {
      GreedyAccounts(t, p);
      assert forall q :: q in acc ==> q in Greedy(s);
    } else if !FarFromAll(l, acc) {
      var i :| 0 <= i < |acc| && !Far(l, acc[i]);
      GreedySelects(t, acc[i]);
    }
  }

  /** The accepted peaks: a mass-descending, pairwise separated selection of the
      candidates in which every rejected candidate is accounted for. */
  lemma PeaksSpec(h: Hist)
    ensures MassDescending(PeaksOf(h)) && PairwiseFar(PeaksOf(h))
    ensures forall p :: p in PeaksOf(h) ==> p in Candidates(h) && p.mass >= MIN_PEAK_MASS
    ensures forall p :: p in Candidates(h) ==> Accounted(p, PeaksOf(h))
    ensures SumMass(PeaksOf(h)) <= 2 * Sum(h)
  {
    var c := Candidates(h);
    var s := SortByMass(c);
    SortDescends(c);
    GreedySeparates(s);
    GreedyDescends(s);
    CandidateMassMin(h, BINS);
    CandidateMassBound(h);
    forall p: Peak
      ensures p in PeaksOf(h) ==> p in c
      ensures p in c ==> Accounted(p, PeaksOf(h))
      ensures SumMass(PeaksOf(h)) <= 2 * Sum(h)
    {
      SortMembers(c, p);
      GreedySelects(s, p);
      if p in c {
        GreedyAccounts(s, p);
      }
    }
    SortMembers(c, Peak(1.0, 0));
    GreedySelects(s, Peak(1.0, 0));
  }

  /** The first peak is the heaviest candidate, the lowest ratio among equals. */
  lemma StrongestFirst(h: Hist, p: Peak)
    requires p in Candidates(h)
    ensures PeaksOf(h) != []
    ensures PeaksOf(h)[0].mass > p.mass || (PeaksOf(h)[0].mass == p.mass && PeaksOf(h)[0].ratio <= p.ratio)
  {
    var c := Candidates(h);
    var s := SortByMass(c);
    SortDescends(c);
    SortStable(c, p.mass);
    SortMembers(c, p);
    GreedySelects(s, p);
    if s[0].mass == p.mass {
      OfMassMember(c, p);
      CandidatesIncrease(h, BINS);
      OfMassIncreases(c, p.mass);
      OfMassHead(s, p.mass);
    }
  }

  lemma {:induction false} OfMassIncreases(s: seq<Peak>, m: nat)
    requires RatiosIncrease(s)
    ensures RatiosIncrease(OfMass(s, m))
    ensures forall p :: p in OfMass(s, m) ==> p in s
  {
    if s != [] {
      var t := s[..|s| - 1];
      OfMassIncreases(t, m);
      forall p | p in OfMass(t, m)
        ensures p.ratio < s[|s| - 1].ratio
      {
        var i :| 0 <= i < |t| && t[i] == p;
        assert s[i] == p;
      }
    }
  }

  lemma {:induction false} OfMassHead(s: seq<Peak>, m: nat)
    requires s != [] && s[0].mass == m
    ensures OfMass(s, m) != [] && OfMass(s, m)[0] == s[0]
  {
    if |s| > 1 {
      OfMassHead(s[..|s| - 1], m);
    }
  }

  /** Any bin with `MIN_PEAK_MASS` samples yields at least one peak. */
  lemma PeakExists(h: Hist, j: nat)
    requires j < BINS && (h[j] >= MIN_PEAK_MASS || Smooth(h, j) >= 2 * MIN_PEAK_MASS - 1)
    ensures PeaksOf(h) != []
  {
    CandidateExists(h, j);
    StrongestFirst(h, Candidates(h)[0]);
  }

  /** A histogram with one non-empty bin shows its peak exactly from 15 samples. */
  lemma SingleBin(j: nat, c: U16)
    requires j < BINS
    ensures PeaksOf(Empty()[j := c]) ==
            if c >= MIN_PEAK_MASS then [Peak(RATIO_MIN + j as real + 0.5, c)] else []
  {
    var h: Hist := Empty()[j := c];
    SingleBinBelow(h, j, c, BINS);
    if c >= MIN_PEAK_MASS {
      var p: Peak := Peak(RATIO_MIN + j as real + 0.5, c);
      assert SortByMass([p]) == [p] by {
        assert [p][..0] == [];
      }
      assert Greedy([p]) == [p] by {
        assert [p][..0] == [];
      }
    }
  }

  lemma {:induction false} SingleBinBelow(h: Hist, j: nat, c: U16, n: nat)
    requires j < BINS && n <= BINS && h == Empty()[j := c]
    ensures CandidatesBelow(h, n) ==
            if n > j && c >= MIN_PEAK_MASS then [Peak(RATIO_MIN + j as real + 0.5, c)] else []
  {
    if n > 0 {
      SingleBinBelow(h, j, c, n - 1);
      if n - 1 == j && c > 0 {
        CentroidBetween(h, j);
      }
    }
  }

  // ---- Anchoring ----

  /** Measured as a share of each band, `x` is no farther from `a` than from `b`. */
  predicate NoFarther(x: real, a: real, b: real) { Abs(x - a) * b <= Abs(x - b) * a }

  lemma NoFartherIff(x: real, a: real, b: real)
    requires a > 0.0 && b > 0.0
    ensures RelErr(x, a) <= RelErr(x, b) <==> NoFarther(x, a, b)
  {
    FractionOrder(Abs(x - a), a, Abs(x - b), b);
  }

  /** A peak anchors to a slot exactly when it lies within 10 % of it, no farther
      from it than from any other, and nearer than to those before. */
  lemma AnchorsIff(ref: seq<real>, p: Peak, k: nat)
    requires ref != [] && Positive(ref) && k < |ref|
    ensures AnchorsTo(ref, p, k) <==>
            && 0.9 * ref[k] <= p.ratio <= 1.1 * ref[k]
            && (forall j :: 0 <= j < |ref| ==> NoFarther(p.ratio, ref[k], ref[j]))
            && (forall j :: 0 <= j < k ==> !NoFarther(p.ratio, ref[j], ref[k]))
  {
    WithinIff(p.ratio, ref[k]);
    NearestSpec(ref, p.ratio, k);
    forall j | 0 <= j < |ref|
      ensures RelErr(p.ratio, ref[k]) <= RelErr(p.ratio, ref[j]) <==> NoFarther(p.ratio, ref[k], ref[j])
      ensures RelErr(p.ratio, ref[j]) <= RelErr(p.ratio, ref[k]) <==> NoFarther(p.ratio, ref[j], ref[k])
    {
      NoFartherIff(p.ratio, ref[k], ref[j]);
      NoFartherIff(p.ratio, ref[j], ref[k]);
    }
    hide RelErr, NoFarther, Nearest;
  }

  lemma FirstAnchoredSnoc(ref: seq<real>, ps: seq<Peak>, p: Peak, k: nat)
    requires ref != [] && NonZero(ref)
    ensures FirstAnchored(ref, ps + [p], k) ==
            if FirstAnchored(ref, ps, k).Some? then FirstAnchored(ref, ps, k)
            else if AnchorsTo(ref, p, k) then Some(p) else None
  {
    assert (ps + [p])[..|ps|] == ps;
  }

  /** The peak a slot takes is the heaviest of those anchored to it. */
  lemma {:induction false} FirstAnchoredStrongest(ref: seq<real>, ps: seq<Peak>, k: nat)
    requires ref != [] && NonZero(ref) && MassDescending(ps)
    ensures FirstAnchored(ref, ps, k).None? <==> forall p :: p in ps ==> !AnchorsTo(ref, p, k)
    ensures FirstAnchored(ref, ps, k).Some? ==>
              var q := FirstAnchored(ref, ps, k).value;
              && q in ps && AnchorsTo(ref, q, k)
              && forall p :: p in ps && AnchorsTo(ref, p, k) ==> q.mass >= p.mass
  {
    if ps != [] {
      var t, l := ps[..|ps| - 1], ps[|ps| - 1];
      FirstAnchoredStrongest(ref, t, k);
      assert ps == t + [l];
      assert forall p :: p in t ==> p.mass >= l.mass;
    }
  }

  lemma RefinedNearest(ref: seq<real>, ps: seq<Peak>, k: nat)
    requires ref != [] && Positive(ref) && Decreasing(ref) && MassDescending(ps) && k < |ref|
    ensures Refined(ref, ps)[k] > 0.0 && Nearest(ref, Refined(ref, ps)[k]) == k
    ensures RelErr(Refined(ref, ps)[k], ref[k]) <= ANCHOR_TOL
  {
    FirstAnchoredStrongest(ref, ps, k);
    if FirstAnchored(ref, ps, k).None? {
      NearestSelf(ref, k);
      OwnErrZero(ref[k]);
    }
  }

  /** The learned bands keep the order of the reference and stay within 10 %. */
  lemma DerivedOrder(ref: seq<real>, h: Hist)
    requires ref != [] && Positive(ref) && Decreasing(ref)
    requires Derived(ref, h).Some?
    ensures var bands := Derived(ref, h).value.0;
            && |bands| == |ref| && Positive(bands) && Decreasing(bands)
            && forall k :: 0 <= k < |ref| ==> RelErr(bands[k], ref[k]) <= ANCHOR_TOL
  {
    var ps := PeaksOf(h);
    PeaksSpec(h);
    var bands := Refined(ref, ps);
    forall k | 0 <= k < |ref|
      ensures bands[k] > 0.0 && Nearest(ref, bands[k]) == k && RelErr(bands[k], ref[k]) <= ANCHOR_TOL
    {
      RefinedNearest(ref, ps, k);
    }
    forall i, j | 0 <= i < j < |ref|
      ensures bands[i] > bands[j]
    {
      NearestSeparates(ref, bands[i], bands[j]);
    }
  }

  predicate SlotAnchored(ref: seq<real>, ps: seq<Peak>, k: nat)
    requires ref != [] && NonZero(ref)
  {
    exists p :: p in ps && AnchorsTo(ref, p, k)
  }

  /** `x` is the ratio of a heaviest peak among those anchored to slot `k`. */
  predicate HoldsStrongest(ref: seq<real>, ps: seq<Peak>, k: nat, x: real)
    requires ref != [] && NonZero(ref)
  {
    exists q :: q in ps && AnchorsTo(ref, q, k) && x == q.ratio && HeaviestIn(ref, ps, k, q.mass)
  }

  predicate HeaviestIn(ref: seq<real>, ps: seq<Peak>, k: nat, m: nat)
    requires ref != [] && NonZero(ref)
  {
    forall p :: p in ps && AnchorsTo(ref, p, k) ==> m >= p.mass
  }

  lemma RefinedSlot(ref: seq<real>, ps: seq<Peak>, k: nat)
    requires ref != [] && NonZero(ref) && MassDescending(ps) && k < |ref|
    ensures SlotAnchored(ref, ps, k) <==> k in AnchoredSlots(ref, ps)
    ensures if SlotAnchored(ref, ps, k) then HoldsStrongest(ref, ps, k, Refined(ref, ps)[k])
            else Refined(ref, ps)[k] == ref[k]
  {
    FirstAnchoredStrongest(ref, ps, k);
  }

  /** Slot by slot: an untouched slot is exactly the reference, an anchored one
      its heaviest peak; the count is that of the anchored slots, at least two. */
  lemma DerivedSlots(ref: seq<real>, h: Hist)
    requires ref != [] && NonZero(ref)
    ensures var anchored := set k: nat | k < |ref| && SlotAnchored(ref, PeaksOf(h), k);
            && (Derived(ref, h).None? <==> |anchored| < 2)
            && (Derived(ref, h).Some? ==> Derived(ref, h).value.1 == |anchored|)
    ensures Derived(ref, h).Some? ==>
              var bands := Derived(ref, h).value.0;
              && |bands| == |ref|
              && forall k: nat :: k < |ref| ==>
                   if SlotAnchored(ref, PeaksOf(h), k) then HoldsStrongest(ref, PeaksOf(h), k, bands[k])
                   else bands[k] == ref[k]
  {
    var ps := PeaksOf(h);
    PeaksSpec(h);
    forall k: nat | k < |ref|
      ensures SlotAnchored(ref, ps, k) <==> k in AnchoredSlots(ref, ps)
      ensures if SlotAnchored(ref, ps, k) then HoldsStrongest(ref, ps, k, Refined(ref, ps)[k])
              else Refined(ref, ps)[k] == ref[k]
    {
      RefinedSlot(ref, ps, k);
    }
    assert AnchoredSlots(ref, ps) == set k: nat | k < |ref| && SlotAnchored(ref, ps, k);
  }

  /** `x` lies in a bin that is a candidate, with 15 samples around it. */
  predicate Supports(h: Hist, i: int, x: real) {
    && 0 <= i < BINS && IsCandidate(h, i) && Mass(h, i) >= MIN_PEAK_MASS
    && RATIO_MIN + i as real <= x < RATIO_MIN + (i + 1) as real
  }

  /** No band is learned without evidence: each refined one lies inside a bin
      that is a smoothed local maximum with 15 samples in its neighbourhood. */
  lemma LearnedBandSupported(ref: seq<real>, h: Hist, k: nat)
    requires ref != [] && NonZero(ref) && k < |ref| && Derived(ref, h).Some?
    requires Derived(ref, h).value.0[k] != ref[k]
    ensures exists i :: Supports(h, i, Derived(ref, h).value.0[k])
  {
    var ps := PeaksOf(h);
    PeaksSpec(h);
    FirstAnchoredStrongest(ref, ps, k);
    var p := FirstAnchored(ref, ps, k).value;
    CandidateIff(h, BINS, p);
    var i :| 0 <= i < BINS && IsCandidate(h, i) && p == PeakAt(h, i);
    PeakInOwnBin(h, i);
    assert Supports(h, i, p.ratio);
  }
}
