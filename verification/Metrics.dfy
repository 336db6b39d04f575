/** What the three distances are: two metrics, and an angle measured between 0 and 2; over exact reals. */
module Metrics {
  import opened Common
  import opened Kernels

  ghost function Euclidean(sqrt: real -> real, a: seq<real>, b: seq<real>): real
    requires |a| == |b|
  {
    sqrt(Total(SquaredDifference, a, b, |a|))
  }

  ghost function Manhattan(a: seq<real>, b: seq<real>): real
    requires |a| == |b|
  {
    Total(AbsoluteDifference, a, b, |a|)
  }

  /** f is nowhere greater than the sum of g and h, place by place. */
  lemma {:induction false} TotalAtMost(f: (real, real) -> real, a: seq<real>, b: seq<real>, g: (real, real) -> real,
          c: seq<real>, d: seq<real>, h: (real, real) -> real, e: seq<real>, w: seq<real>, n: nat)
    requires n <= |a| && n <= |b| && n <= |c| && n <= |d| && n <= |e| && n <= |w|
    requires forall i :: 0 <= i < n ==> f(a[i], b[i]) <= g(c[i], d[i]) + h(e[i], w[i])
    ensures Total(f, a, b, n) <= Total(g, c, d, n) + Total(h, e, w, n)
  {
    if n > 0 {
      TotalAtMost(f, a, b, g, c, d, h, e, w, n - 1);
    }
  }

  lemma {:induction false} TotalSame(f: (real, real) -> real, a: seq<real>, b: seq<real>, g: (real, real) -> real,
          c: seq<real>, d: seq<real>, n: nat)
    requires n <= |a| && n <= |b| && n <= |c| && n <= |d|
    requires forall i :: 0 <= i < n ==> f(a[i], b[i]) == g(c[i], d[i])
    ensures Total(f, a, b, n) == Total(g, c, d, n)
  {
    if n > 0 {
      TotalSame(f, a, b, g, c, d, n - 1);
    }
  }

  /** A sum of terms that are not negative is not negative, and zero only if they all are. */
  lemma {:induction false} TotalIsZero(f: (real, real) -> real, a: seq<real>, b: seq<real>, n: nat)
    requires n <= |a| && n <= |b| && forall i :: 0 <= i < n ==> f(a[i], b[i]) >= 0.0
    ensures Total(f, a, b, n) >= 0.0
    ensures Total(f, a, b, n) == 0.0 <==> forall i :: 0 <= i < n ==> f(a[i], b[i]) == 0.0
  {
    if n > 0 {
      TotalIsZero(f, a, b, n - 1);
    }
  }

  lemma SquareIsZero(d: real)
    ensures d * d >= 0.0 && (d * d == 0.0 <==> d == 0.0)
  {
    if d * d == 0.0 {
      ZeroProduct(d, d);
    }
  }

  // The Manhattan distance

  lemma ManhattanIsMetric(a: seq<real>, b: seq<real>, c: seq<real>)
    requires |a| == |b| == |c|
    ensures Manhattan(a, b) >= 0.0 && (Manhattan(a, b) == 0.0 <==> a == b)
    ensures Manhattan(a, b) == Manhattan(b, a)
    ensures Manhattan(a, c) <= Manhattan(a, b) + Manhattan(b, c)
  {
    TotalIsZero(AbsoluteDifference, a, b, |a|);
    TotalSame(AbsoluteDifference, a, b, AbsoluteDifference, b, a, |a|);
    TotalAtMost(AbsoluteDifference, a, c, AbsoluteDifference, a, b, AbsoluteDifference, b, c, |a|);
    if Manhattan(a, b) == 0.0 {
      forall i | 0 <= i < |a| ensures a[i] == b[i] {
        assert AbsoluteDifference(a[i], b[i]) == 0.0;
      }
    }
  }

  // Cauchy and Schwarz

  function Combined(s: real, t: real): (real, real) -> real {
    (x: real, y: real) => (s * x - t * y) * (s * x - t * y)
  }

  lemma Expand(s: real, t: real, x: real, y: real)
    ensures Combined(s, t)(x, y) == s * s * (x * x) - 2.0 * (s * t) * (x * y) + t * t * (y * y)
    ensures Combined(s, t)(x, y) >= 0.0
  {
    SquareIsZero(s * x - t * y);
    var p, q := s * x, t * y;
    assert (p - q) * (p - q) == p * p - 2.0 * (p * q) + q * q;
    assert p * p == s * s * (x * x) && q * q == t * t * (y * y) && p * q == (s * t) * (x * y);
  }

  lemma Distribute(k: real, l: real, m: real, p: real, q: real, r: real, p': real, q': real, r': real)
    ensures k * (p + p') - 2.0 * l * (q + q') + m * (r + r') ==
            (k * p - 2.0 * l * q + m * r) + (k * p' - 2.0 * l * q' + m * r')
  {}

  /** The sum of the squares of s a - t b, and that it is not negative. */
  lemma {:induction false} CombinedIsForm(a: seq<real>, b: seq<real>, s: real, t: real, n: nat)
    requires n <= |a| && n <= |b|
    ensures var p, d, q := Total(SquareOfFirst, a, b, n), Total(Times, a, b, n), Total(SquareOfSecond, a, b, n);
            s * s * p - 2.0 * (s * t) * d + t * t * q >= 0.0
  {
    if n > 0 {
      CombinedIsForm(a, b, s, t, n - 1);
      Expand(s, t, a[n - 1], b[n - 1]);
      Distribute(s * s, s * t, t * t, Total(SquareOfFirst, a, b, n - 1), Total(Times, a, b, n - 1),
                 Total(SquareOfSecond, a, b, n - 1), a[n - 1] * a[n - 1], a[n - 1] * b[n - 1], b[n - 1] * b[n - 1]);
    }
  }

  lemma FormIsNotNegative(p: real, d: real, q: real, s: real, t: real, a: seq<real>, b: seq<real>)
    requires |a| == |b|
    requires p == Total(SquareOfFirst, a, b, |a|) && d == Total(Times, a, b, |a|)
    requires q == Total(SquareOfSecond, a, b, |a|)
    ensures s * s * p - 2.0 * (s * t) * d + t * t * q >= 0.0
  {
    CombinedIsForm(a, b, s, t, |a|);
  }

  lemma PositiveFactor(q: real, e: real)
    requires q > 0.0 && q * e >= 0.0
    ensures e >= 0.0
  {}

  lemma CauchySchwarz(a: seq<real>, b: seq<real>)
    requires |a| == |b|
    ensures Total(Times, a, b, |a|) * Total(Times, a, b, |a|) <=
            Total(SquareOfFirst, a, b, |a|) * Total(SquareOfSecond, a, b, |a|)
  {
    var p, d, q := Total(SquareOfFirst, a, b, |a|), Total(Times, a, b, |a|), Total(SquareOfSecond, a, b, |a|);
    SquaresNotNegative(a, b, |a|);
    if q == 0.0 {
      if d != 0.0 {
        var t := (p + 1.0) / (2.0 * d);
        assert 2.0 * (1.0 * t) * d == p + 1.0;
        FormIsNotNegative(p, d, q, 1.0, t, a, b);
      }
    } else {
      FormIsNotNegative(p, d, q, q, d, a, b);
      assert q * q * p - 2.0 * (q * d) * d + d * d * q == q * (p * q - d * d);
      PositiveFactor(q, p * q - d * d);
    }
  }

  // The Euclidean distance

  lemma PositiveProduct(x: real, y: real)
    requires x > 0.0 && y > 0.0
    ensures x * y > 0.0
  {}

  lemma RootOfSquareAtMost(x: real, y: real)
    requires y >= 0.0 && x * x <= y * y
    ensures x <= y
  {
    if x > y {
      assert x * x - y * y == (x - y) * (x + y);
      PositiveProduct(x - y, x + y);
    }
  }

  lemma EuclideanIsSymmetric(sqrt: real -> real, a: seq<real>, b: seq<real>)
    requires |a| == |b|
    ensures Euclidean(sqrt, a, b) == Euclidean(sqrt, b, a)
  {
    TotalSame(SquaredDifference, a, b, SquaredDifference, b, a, |a|);
  }

  function Minus(x: real, y: real): real { x - y }

  /** The squared distance from a to c, by way of the differences u = a - b and v = b - c. */
  lemma {:induction false} SquaresOfSums(a: seq<real>, b: seq<real>, c: seq<real>, u: seq<real>, v: seq<real>, n: nat)
    requires |a| == |b| == |c| == |u| == |v| && n <= |a|
    requires forall i :: 0 <= i < |a| ==> u[i] == a[i] - b[i] && v[i] == b[i] - c[i]
    ensures Total(SquaredDifference, a, c, n) ==
            Total(SquareOfFirst, u, v, n) + 2.0 * Total(Times, u, v, n) + Total(SquareOfSecond, u, v, n)
    ensures Total(SquaredDifference, a, b, n) == Total(SquareOfFirst, u, v, n)
    ensures Total(SquaredDifference, b, c, n) == Total(SquareOfSecond, u, v, n)
  {
    if n > 0 {
      SquaresOfSums(a, b, c, u, v, n - 1);
      var x, y := u[n - 1], v[n - 1];
      assert (x + y) * (x + y) == x * x + 2.0 * (x * y) + y * y;
      assert a[n - 1] - c[n - 1] == x + y;
    }
  }

  lemma SumOfRoots(p: real, q: real, d: real, whole: real, x: real, y: real, z: real)
    requires x >= 0.0 && y >= 0.0 && z >= 0.0 && x * x == p && y * y == q && z * z == whole
    requires d * d <= p * q && whole == p + 2.0 * d + q
    ensures z <= x + y
  {
    assert (x * y) * (x * y) == p * q;
    RootOfSquareAtMost(d, x * y);
    assert (x + y) * (x + y) == p + 2.0 * (x * y) + q;
    RootOfSquareAtMost(z, x + y);
  }

  lemma SquaresAddUp(a: seq<real>, b: seq<real>)
    requires |a| == |b|
    ensures Total(SquaredDifference, a, b, |a|) >= 0.0
    ensures Total(SquaredDifference, a, b, |a|) == 0.0 <==> a == b
  {
    hide Total, SquaredDifference;
    forall i | 0 <= i < |a|
      ensures SquaredDifference(a[i], b[i]) >= 0.0 && (SquaredDifference(a[i], b[i]) == 0.0 <==> a[i] == b[i])
    {
      DifferenceIsZero(a[i], b[i]);
    }
    TotalIsZero(SquaredDifference, a, b, |a|);
  }

  lemma DifferenceIsZero(x: real, y: real)
    ensures SquaredDifference(x, y) >= 0.0 && (SquaredDifference(x, y) == 0.0 <==> x == y)
  {
    SquareIsZero(x - y);
  }

  lemma IsRoot(sqrt: real -> real, a: seq<real>, b: seq<real>)
    requires |a| == |b| && IsSqrt(sqrt)
    ensures var d := Euclidean(sqrt, a, b); d >= 0.0 && d * d == Total(SquaredDifference, a, b, |a|)
  {
    hide Total;
    SquaresAddUp(a, b);
  }

  lemma EuclideanTriangle(sqrt: real -> real, a: seq<real>, b: seq<real>, c: seq<real>)
    requires |a| == |b| == |c| && IsSqrt(sqrt)
    ensures Euclidean(sqrt, a, c) <= Euclidean(sqrt, a, b) + Euclidean(sqrt, b, c)
  {
    hide Total, IsSqrt, Euclidean;
    var u, v := Lanewise(Minus, a, b), Lanewise(Minus, b, c);
    SquaresOfSums(a, b, c, u, v, |a|);
    CauchySchwarz(u, v);
    IsRoot(sqrt, a, b);
    IsRoot(sqrt, b, c);
    IsRoot(sqrt, a, c);
    SumOfRoots(Total(SquareOfFirst, u, v, |a|), Total(SquareOfSecond, u, v, |a|), Total(Times, u, v, |a|),
               Total(SquaredDifference, a, c, |a|), Euclidean(sqrt, a, b), Euclidean(sqrt, b, c),
               Euclidean(sqrt, a, c));
  }

  lemma EuclideanIsMetric(sqrt: real -> real, a: seq<real>, b: seq<real>, c: seq<real>)
    requires |a| == |b| == |c| && IsSqrt(sqrt)
    ensures Euclidean(sqrt, a, b) >= 0.0 && (Euclidean(sqrt, a, b) == 0.0 <==> a == b)
    ensures Euclidean(sqrt, a, b) == Euclidean(sqrt, b, a)
    ensures Euclidean(sqrt, a, c) <= Euclidean(sqrt, a, b) + Euclidean(sqrt, b, c)
  {
    IsRoot(sqrt, a, b);
    SquaresAddUp(a, b);
    RootIsZero(Euclidean(sqrt, a, b), Total(SquaredDifference, a, b, |a|));
    EuclideanIsSymmetric(sqrt, a, b);
    EuclideanTriangle(sqrt, a, b, c);
  }

  /** Along one axis both measure the difference. */
  lemma OneAxis(sqrt: real -> real, x: real, y: real)
    requires IsSqrt(sqrt)
    ensures Euclidean(sqrt, [x], [y]) == Manhattan([x], [y]) == if x < y then y - x else x - y
  {
    assert Total(SquaredDifference, [x], [y], 1) == Total(SquaredDifference, [x], [y], 0) + SquaredDifference(x, y);
    assert Total(AbsoluteDifference, [x], [y], 1) == Total(AbsoluteDifference, [x], [y], 0) + Abs(x - y);
    IsRoot(sqrt, [x], [y]);
    SquareOfAbs(x, y);
    RootIsUnique(Euclidean(sqrt, [x], [y]), Abs(x - y));
  }

  lemma SquareOfAbs(x: real, y: real)
    ensures SquaredDifference(x, y) == Abs(x - y) * Abs(x - y)
  {}

  // The cosine distance

  lemma QuotientAtMost(d: real, norms: real)
    requires norms > 0.0 && d <= norms
    ensures d / norms <= 1.0
  {
    assert d / norms * norms == d;
  }

  lemma QuotientAtLeast(d: real, norms: real)
    requires norms > 0.0 && -norms <= d
    ensures -1.0 <= d / norms
  {
    assert d / norms * norms == d;
  }

  lemma Quotient(d: real, norms: real)
    requires norms > 0.0 && d * d <= norms * norms
    ensures -1.0 <= d / norms <= 1.0
  {
    RootOfSquareAtMost(d, norms);
    RootOfSquareAtMost(-d, norms);
    QuotientAtMost(d, norms);
    QuotientAtLeast(d, norms);
  }

  lemma NormsAreRoots(sqrt: real -> real, a: seq<real>, b: seq<real>)
    requires |a| == |b| && IsSqrt(sqrt)
    ensures Norms(sqrt, a, b) >= 0.0
    ensures Norms(sqrt, a, b) * Norms(sqrt, a, b) ==
            Total(SquareOfFirst, a, b, |a|) * Total(SquareOfSecond, a, b, |a|)
  {
    SquaresNotNegative(a, b, |a|);
    var p, q := Total(SquareOfFirst, a, b, |a|), Total(SquareOfSecond, a, b, |a|);
    var x, y := sqrt(p), sqrt(q);
    assert (x * y) * (x * y) == (x * x) * (y * y);
  }

  lemma SameSums(sqrt: real -> real, a: seq<real>, b: seq<real>)
    requires |a| == |b|
    ensures Total(Times, a, b, |a|) == Total(Times, b, a, |a|) && Norms(sqrt, a, b) == Norms(sqrt, b, a)
    ensures HaveNorms(a, b) <==> HaveNorms(b, a)
  {
    TotalSame(SquareOfFirst, a, b, SquareOfSecond, b, a, |a|);
    TotalSame(SquareOfSecond, a, b, SquareOfFirst, b, a, |a|);
    TotalSame(Times, a, b, Times, b, a, |a|);
    var x, y := sqrt(Total(SquareOfFirst, a, b, |a|)), sqrt(Total(SquareOfSecond, a, b, |a|));
    assert Norms(sqrt, a, b) == x * y == y * x == Norms(sqrt, b, a);
  }

  /** Where it is defined, the cosine distance lies between 0 and 2, and is the same in both directions. */
  lemma CosineIsBounded(sqrt: real -> real, a: seq<real>, b: seq<real>, r: Option<real>, back: Option<real>)
    requires |a| == |b| && IsSqrt(sqrt)
    requires IsCosineDistance(sqrt, a, b, r) && IsCosineDistance(sqrt, b, a, back)
    ensures r == back && (r.Some? ==> 0.0 <= r.value <= 2.0)
  {
    hide Total, Norms, HaveNorms, IsSqrt;
    SameSums(sqrt, a, b);
    if r.Some? {
      NormsAreRoots(sqrt, a, b);
      CauchySchwarz(a, b);
      Quotient(Total(Times, a, b, |a|), Norms(sqrt, a, b));
    }
  }

  /** It is 0 for a vector and a positive multiple of it, and 2 for a negative multiple. */
  lemma CosineOfMultiple(sqrt: real -> real, a: seq<real>, b: seq<real>, c: real, r: Option<real>)
    requires |a| == |b| && IsSqrt(sqrt) && IsCosineDistance(sqrt, a, b, r) && r.Some?
    requires forall i :: 0 <= i < |a| ==> b[i] == c * a[i]
    ensures c > 0.0 ==> r.value == 0.0
    ensures c < 0.0 ==> r.value == 2.0
  {
    hide Total, Norms, IsSqrt;
    var p := Total(SquareOfFirst, a, b, |a|);
    MultipleTotals(a, b, c, |a|);
    SquaresNotNegative(a, b, |a|);
    NormsAreRoots(sqrt, a, b);
    RatioOfMultiple(p, c, Total(Times, a, b, |a|), Norms(sqrt, a, b));
  }

  lemma RatioIsOne(x: real, y: real)
    requires x == y && y != 0.0
    ensures x / y == 1.0
  {}

  lemma RatioIsMinusOne(x: real, y: real)
    requires x == -y && y != 0.0
    ensures x / y == -1.0
  {}

  lemma RatioOfMultiple(p: real, c: real, d: real, norms: real)
    requires p >= 0.0 && norms >= 0.0 && norms != 0.0 && d == c * p && norms * norms == p * (c * c * p)
    ensures c > 0.0 ==> d / norms == 1.0
    ensures c < 0.0 ==> d / norms == -1.0
  {
    assert p * (c * c * p) == d * d == (-d) * (-d);
    if c > 0.0 {
      NotNegative(c, p);
      RootIsUnique(norms, d);
      RatioIsOne(d, norms);
    } else if c < 0.0 {
      NotNegative(-c, p);
      RootIsUnique(norms, -d);
      RatioIsMinusOne(d, norms);
    }
  }

  lemma NotNegative(x: real, y: real)
    requires x >= 0.0 && y >= 0.0
    ensures x * y >= 0.0
  {}

  lemma {:induction false} MultipleTotals(a: seq<real>, b: seq<real>, c: real, n: nat)
    requires n <= |a| == |b| && forall i :: 0 <= i < |a| ==> b[i] == c * a[i]
    ensures Total(Times, a, b, n) == c * Total(SquareOfFirst, a, b, n)
    ensures Total(SquareOfSecond, a, b, n) == c * c * Total(SquareOfFirst, a, b, n)
  {
    if n > 0 {
      MultipleTotals(a, b, c, n - 1);
      var x, p := a[n - 1], Total(SquareOfFirst, a, b, n - 1);
      assert x * (c * x) == c * (x * x) && (c * x) * (c * x) == c * c * (x * x);
      assert c * (p + x * x) == c * p + c * (x * x);
      assert c * c * (p + x * x) == c * c * p + c * c * (x * x);
    }
  }
}
