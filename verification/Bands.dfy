/** Nearest-band search by relative error, as used both by the classifier
    (`gear.rs`) and by the learner's anchoring step (`learn.rs`): the first
    band with the least relative error wins. */
module Bands {
  import opened Basics

  const NUM_GEARS := 6

  /** Provisional bands from the factory spec, rpm per km/h, 1st gear first. */
  const FACTORY_BANDS: seq<real> := [196.9, 135.7, 102.1, 82.8, 68.3, 55.9]

  predicate NonZero(b: seq<real>) { forall i :: 0 <= i < |b| ==> b[i] != 0.0 }

  predicate Positive(b: seq<real>) { forall i :: 0 <= i < |b| ==> b[i] > 0.0 }

  predicate Decreasing(b: seq<real>) { forall i, j :: 0 <= i < j < |b| ==> b[i] > b[j] }

  function RelErr(x: real, c: real): real
    requires c != 0.0
  {
    Abs(x - c) / c
  }

  /** Index of the first band of least relative error. */
  function Nearest(b: seq<real>, x: real): (k: nat)
    requires b != [] && NonZero(b)
    ensures k < |b|
  {
    var n := |b| - 1;
    if n == 0 then 0
    else
      var k := Nearest(b[..n], x);
      if RelErr(x, b[n]) < RelErr(x, b[k]) then n else k
  }

  /** No band is nearer, and none before it is as near: no other index is both. */
  lemma {:induction false} NearestSpec(b: seq<real>, x: real, k: nat)
    requires b != [] && NonZero(b) && k < |b|
    ensures k == Nearest(b, x) <==>
            && (forall j :: 0 <= j < |b| ==> RelErr(x, b[k]) <= RelErr(x, b[j]))
            && (forall j :: 0 <= j < k ==> RelErr(x, b[k]) < RelErr(x, b[j]))
  {
    NearestLeast(b, x);
    var n := Nearest(b, x);
    if k < n {
      assert RelErr(x, b[n]) < RelErr(x, b[k]);
    } else if n < k {
      assert RelErr(x, b[n]) <= RelErr(x, b[k]);
    }
  }

  lemma {:induction false} NearestLeast(b: seq<real>, x: real)
    requires b != [] && NonZero(b)
    ensures forall j :: 0 <= j < |b| ==> RelErr(x, b[Nearest(b, x)]) <= RelErr(x, b[j])
    ensures forall j :: 0 <= j < Nearest(b, x) ==> RelErr(x, b[Nearest(b, x)]) < RelErr(x, b[j])
  {
    var n := |b| - 1;
    if n > 0 {
      var p := b[..n];
      NearestLeast(p, x);
      assert forall j :: 0 <= j < n ==> p[j] == b[j];
    }
  }

  lemma FractionOrder(p: real, a: real, q: real, b: real)
    requires a > 0.0 && b > 0.0
    ensures p / a <= q / b <==> p * b <= q * a
  {
    var u, v := p / a, q / b;
    assert p == u * a && q == v * b;
    assert p * b == u * (a * b) && q * a == v * (a * b);
    assert a * b > 0.0;
    if u <= v {
      assert (v - u) * (a * b) >= 0.0;
    } else {
      assert (u - v) * (a * b) > 0.0;
    }
  }

  lemma Scale(x: real, y: real, c: real, xc: real, yc: real)
    requires c > 0.0 && xc == x * c && yc == y * c
    ensures x < y <==> xc < yc
  {
    assert (y - x) * c == yc - xc;
    if x < y {
      assert (y - x) * c > 0.0;
    } else if x > y {
      assert (x - y) * c > 0.0;
    }
  }

  lemma AbsScale(x: real, y: real, c: real, xc: real, yc: real)
    requires c > 0.0 && xc == x * c && yc == y * c
    ensures Abs(x - y) * c == Abs(xc - yc)
  {
    Scale(x, y, c, xc, yc);
    assert (x - y) * c == xc - yc;
    assert (y - x) * c == yc - xc;
  }

  lemma CrossIff(a: real, b: real, x: real)
    requires a > b > 0.0 && x > 0.0
    ensures Abs(x - a) * b <= Abs(x - b) * a <==> x * (a + b) >= 2.0 * a * b
  {
    var p, q, r := x * a, x * b, a * b;
    AbsScale(x, a, b, q, r);
    AbsScale(x, b, a, p, r);
    Scale(b, a, x, q, p);
    assert x * (a + b) == p + q;
  }

  /** Between two bands `a > b` the upper one is at least as near exactly from
      their harmonic mean upwards. */
  lemma CloserIff(a: real, b: real, x: real)
    requires a > b > 0.0 && x > 0.0
    ensures RelErr(x, a) <= RelErr(x, b) <==> x * (a + b) >= 2.0 * a * b
  {
    FractionOrder(Abs(x - a), a, Abs(x - b), b);
    CrossIff(a, b, x);
  }

  lemma NearerStays(a: real, b: real, x: real, y: real)
    requires a > b > 0.0 && 0.0 < x <= y
    requires RelErr(x, a) <= RelErr(x, b)
    ensures RelErr(y, a) <= RelErr(y, b)
  {
    CloserIff(a, b, x);
    CloserIff(a, b, y);
    assert (y - x) * (a + b) >= 0.0;
  }

  /** Over decreasing bands the nearest index can only fall as the ratio rises. */
  lemma NearestAntitone(b: seq<real>, x: real, y: real)
    requires b != [] && Positive(b) && Decreasing(b)
    requires 0.0 < x <= y
    ensures Nearest(b, y) <= Nearest(b, x)
  {
    var s, t := Nearest(b, x), Nearest(b, y);
    NearestLeast(b, x);
    NearestLeast(b, y);
    if s < t {
      NearerStays(b[s], b[t], x, y);
    }
  }

  lemma OwnErrZero(c: real)
    requires c > 0.0
    ensures RelErr(c, c) == 0.0
  {
  }

  lemma OwnErrLeast(x: real, c: real)
    requires x > 0.0 && c > 0.0 && x != c
    ensures RelErr(x, x) < RelErr(x, c)
  {
    var d := Abs(x - c);
    assert d / c * c == d && d > 0.0;
  }

  /** Every band is its own nearest band. */
  lemma NearestSelf(b: seq<real>, k: nat)
    requires Positive(b) && Decreasing(b) && k < |b|
    ensures Nearest(b, b[k]) == k
  {
    var n := Nearest(b, b[k]);
    NearestLeast(b, b[k]);
    if n != k {
      OwnErrLeast(b[k], b[n]);
    }
  }

  /** Distinct nearest indices force the opposite strict order on the ratios. */
  lemma NearestSeparates(b: seq<real>, x: real, y: real)
    requires b != [] && Positive(b) && Decreasing(b)
    requires x > 0.0 && y > 0.0 && Nearest(b, x) < Nearest(b, y)
    ensures x > y
  {
    if x <= y {
      NearestAntitone(b, x, y);
    }
  }

  lemma FactoryBandsOrdered()
    ensures |FACTORY_BANDS| == NUM_GEARS && Positive(FACTORY_BANDS) && Decreasing(FACTORY_BANDS)
  {
  }

  /** Gear ratios of the factory spec, 1st gear first. */
  const GEARING: seq<real> := [3.000, 2.067, 1.556, 1.261, 1.040, 0.852]

  /** Each band is the engine speed per km/h that primary drive, gear, final drive
      and the tire's rollout of 1.98 m give, to 0.2 %. */
  lemma FactoryBandsFromGearing(k: nat)
    requires k < NUM_GEARS
    ensures Abs(FACTORY_BANDS[k] - 2.871 * GEARING[k] * 2.714 * 1000.0 / 60.0 / 1.98) <= 0.002 * FACTORY_BANDS[k]
  {
  }

  predicate Within(x: real, c: real, tol: real)
    requires c != 0.0
  {
    RelErr(x, c) <= tol
  }

  /** The plain reading of a tolerance: `tc` is that share of the band. */
  lemma WithinShare(x: real, c: real, tol: real, tc: real)
    requires c > 0.0 && tc == tol * c
    ensures Within(x, c, tol) <==> c - tc <= x <= c + tc
  {
    FractionOrder(Abs(x - c), c, tol, 1.0);
  }

  lemma WithinIff(x: real, c: real)
    requires c > 0.0
    ensures Within(x, c, 0.05) <==> 0.95 * c <= x <= 1.05 * c
    ensures Within(x, c, 0.10) <==> 0.9 * c <= x <= 1.1 * c
    ensures Within(x, c, 0.14) <==> 0.86 * c <= x <= 1.14 * c
  {
    WithinShare(x, c, 0.05, 0.05 * c);
    WithinShare(x, c, 0.10, 0.10 * c);
    WithinShare(x, c, 0.14, 0.14 * c);
  }

  /** Two bands share a ratio within 10 % of both exactly when they are at most a
      factor 11/9 apart. */
  lemma StraddleIff(a: real, b: real)
    requires a > b > 0.0
    ensures (exists x :: Within(x, a, 0.10) && Within(x, b, 0.10)) <==> 9.0 * a <= 11.0 * b
  {
    WithinIff(0.9 * a, a);
    WithinIff(0.9 * a, b);
    forall x | Within(x, a, 0.10) && Within(x, b, 0.10)
      ensures 9.0 * a <= 11.0 * b
    {
      WithinIff(x, a);
      WithinIff(x, b);
    }
  }

  /** In the factory set gears 4 and 5, and 5 and 6, are that close. */
  lemma FactoryStraddle(k: nat)
    requires k + 1 < NUM_GEARS
    ensures (exists x :: Within(x, FACTORY_BANDS[k], 0.10) && Within(x, FACTORY_BANDS[k + 1], 0.10)) <==> k >= 3
  {
    StraddleIff(FACTORY_BANDS[k], FACTORY_BANDS[k + 1]);
  }
}
