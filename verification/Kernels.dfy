/**
 * The vectorised distance kernels over exact reals: simd/cpp/avx.cpp (8 lanes), simd/cpp/sse.cpp (4 lanes),
 * and the scalar loops they stand in for, index/space/native_impl.go.
 */
module Kernels {
  import opened Common

  /** The sum of f over the first n places of two vectors. */
  ghost function Total(f: (real, real) -> real, a: seq<real>, b: seq<real>, n: nat): real
    requires n <= |a| && n <= |b|
  {
    if n == 0 then 0.0 else Total(f, a, b, n - 1) + f(a[n - 1], b[n - 1])
  }

  ghost function LaneSum(v: seq<real>): real {
    if v == [] then 0.0 else LaneSum(v[..|v| - 1]) + v[|v| - 1]
  }

  function Lanewise(f: (real, real) -> real, x: seq<real>, y: seq<real>): (r: seq<real>)
    requires |x| == |y|
    ensures |r| == |x|
  {
    seq(|x|, j requires 0 <= j < |x| => f(x[j], y[j]))
  }

  function Plus(x: real, y: real): real { x + y }

  function Times(x: real, y: real): real { x * y }

  function SquaredDifference(x: real, y: real): real { (x - y) * (x - y) }

  function Abs(x: real): real { if x < 0.0 then -x else x }

  function AbsoluteDifference(x: real, y: real): real { Abs(x - y) }

  function SquareOfFirst(x: real, y: real): real { x * x }

  function SquareOfSecond(x: real, y: real): real { y * y }

  /** The non-negative square root. */
  ghost predicate IsSqrt(sqrt: real -> real) {
    forall x :: x >= 0.0 ==> sqrt(x) >= 0.0 && sqrt(x) * sqrt(x) == x
  }

  lemma ZeroProduct(p: real, q: real)
    requires p * q == 0.0
    ensures p == 0.0 || q == 0.0
  {}

  lemma RootIsUnique(x: real, y: real)
    requires x >= 0.0 && y >= 0.0 && x * x == y * y
    ensures x == y
  {
    assert (x - y) * (x + y) == 0.0;
    ZeroProduct(x - y, x + y);
  }

  lemma RootOfSquare(sqrt: real -> real, d: real)
    requires IsSqrt(sqrt)
    ensures sqrt(d * d) == Abs(d)
  {
    assert d * d == Abs(d) * Abs(d) >= 0.0;
    RootIsUnique(sqrt(d * d), Abs(d));
  }

  lemma {:induction false} LaneSumAdds(x: seq<real>, y: seq<real>)
    requires |x| == |y|
    ensures LaneSum(Lanewise(Plus, x, y)) == LaneSum(x) + LaneSum(y)
  {
    if x != [] {
      LaneSumAdds(x[..|x| - 1], y[..|y| - 1]);
      assert Lanewise(Plus, x, y)[..|x| - 1] == Lanewise(Plus, x[..|x| - 1], y[..|y| - 1]);
    }
  }

  /** A register of terms adds up to its part of the sum. */
  lemma {:induction false} LaneSumIsPart(f: (real, real) -> real, a: seq<real>, b: seq<real>, i: nat, w: nat)
    requires |a| == |b| && i + w <= |a|
    ensures LaneSum(Lanewise(f, a[i..i + w], b[i..i + w])) == Total(f, a, b, i + w) - Total(f, a, b, i)
    decreases w
  {
    if w > 0 {
      LaneSumIsPart(f, a, b, i, w - 1);
      assert Lanewise(f, a[i..i + w], b[i..i + w])[..w - 1] == Lanewise(f, a[i..i + (w - 1)], b[i..i + (w - 1)]);
    }
  }

  lemma {:induction false} ZeroLanes(w: nat)
    ensures LaneSum(seq(w, _ => 0.0)) == 0.0
  {
    if w > 0 {
      ZeroLanes(w - 1);
      assert seq(w, _ => 0.0)[..w - 1] == seq(w - 1, _ => 0.0);
    }
  }

  lemma LaneSum4(v: seq<real>)
    requires |v| == 4
    ensures LaneSum(v) == v[0] + v[1] + v[2] + v[3]
  {
    assert v[..3][..2][..1] == [v[0]];
    assert LaneSum([v[0]]) == v[0];
    assert LaneSum(v[..3][..2]) == v[0] + v[1];
    assert LaneSum(v[..3]) == v[0] + v[1] + v[2];
  }

  lemma LaneSum8(v: seq<real>)
    requires |v| == 8
    ensures LaneSum(v) == v[0] + v[1] + v[2] + v[3] + v[4] + v[5] + v[6] + v[7]
  {
    LaneSum4(v[..7][..6][..5][..4]);
    assert LaneSum(v[..7][..6][..5]) == v[0] + v[1] + v[2] + v[3] + v[4];
    assert LaneSum(v[..7][..6]) == v[0] + v[1] + v[2] + v[3] + v[4] + v[5];
    assert LaneSum(v[..7]) == v[0] + v[1] + v[2] + v[3] + v[4] + v[5] + v[6];
  }

  /** _mm256_hadd_ps: neighbouring lanes are added, in each half by itself. */
  function HorizontalAdd(x: seq<real>, y: seq<real>): seq<real>
    requires |x| == 8 && |y| == 8
  {
    [x[0] + x[1], x[2] + x[3], y[0] + y[1], y[2] + y[3], x[4] + x[5], x[6] + x[7], y[4] + y[5], y[6] + y[7]]
  }

  /** It neither loses a lane nor counts one twice. */
  lemma HorizontalAddSums(x: seq<real>, y: seq<real>)
    requires |x| == 8 && |y| == 8
    ensures LaneSum(HorizontalAdd(x, y)) == LaneSum(x) + LaneSum(y)
  {
    LaneSum8(x);
    LaneSum8(y);
    LaneSum8(HorizontalAdd(x, y));
  }

  /** _sum_vector: two horizontal additions and one lane of each half, or the four lanes. */
  method SumVector(vec: seq<real>) returns (result: real)
    requires |vec| == 8 || |vec| == 4
    ensures result == LaneSum(vec)
  {
    if |vec| == 8 {
      LaneSum8(vec);
      var v := HorizontalAdd(vec, vec);
      v := HorizontalAdd(v, v);
      result := v[0] + v[4];
    } else {
      LaneSum4(vec);
      result := vec[0] + vec[1] + vec[2] + vec[3];
    }
  }

  /**
   * The common shape of the kernels: full registers are added lane by lane, the lanes are added up, and
   * the rest is added one by one.
   */
  method Accumulate(w: nat, term: (real, real) -> real, a: seq<real>, b: seq<real>) returns (result: real)
    requires (w == 8 || w == 4) && |a| == |b|
    ensures result == Total(term, a, b, |a|)
  {
    var resVec := seq(w, _ => 0.0);
    ZeroLanes(w);
    var i := 0;
    while i < |a| / w * w
      invariant 0 <= i <= |a| / w * w && i % w == 0 && |resVec| == w
      invariant LaneSum(resVec) == Total(term, a, b, i)
    {
      FullRegister(|a|, w, i);
      var terms := Lanewise(term, a[i..i + w], b[i..i + w]);
      LaneSumIsPart(term, a, b, i, w);
      LaneSumAdds(resVec, terms);
      resVec := Lanewise(Plus, resVec, terms);
      i := i + w;
    }
    result := SumVector(resVec);
    while i < |a|
      invariant 0 <= i <= |a| && result == Total(term, a, b, i)
    {
      result := result + term(a[i], b[i]);
      i := i + 1;
    }
  }

  lemma FullRegister(n: nat, w: nat, i: nat)
    requires (w == 8 || w == 4) && i % w == 0 && i < n / w * w
    ensures i + w <= n / w * w <= n && (i + w) % w == 0
  {}

  method EuclideanDistanceSquared(w: nat, a: seq<real>, b: seq<real>) returns (result: real)
    requires (w == 8 || w == 4) && |a| == |b|
    ensures result == Total(SquaredDifference, a, b, |a|)
  {
    result := Accumulate(w, SquaredDifference, a, b);
  }

  function Roots(sqrt: real -> real, v: seq<real>): (r: seq<real>)
    ensures |r| == |v|
  {
    seq(|v|, j requires 0 <= j < |v| => sqrt(v[j]))
  }

  lemma RootsOfSquares(sqrt: real -> real, x: seq<real>, y: seq<real>)
    requires IsSqrt(sqrt) && |x| == |y|
    ensures Roots(sqrt, Lanewise(SquaredDifference, x, y)) == Lanewise(AbsoluteDifference, x, y)
  {
    forall j | 0 <= j < |x|
      ensures Roots(sqrt, Lanewise(SquaredDifference, x, y))[j] == Lanewise(AbsoluteDifference, x, y)[j]
    {
      var d := x[j] - y[j];
      var squares := Lanewise(SquaredDifference, x, y);
      assert squares[j] == SquaredDifference(x[j], y[j]) == d * d;
      RootOfSquare(sqrt, d);
      assert Roots(sqrt, squares)[j] == sqrt(squares[j]) == Abs(d);
      assert Lanewise(AbsoluteDifference, x, y)[j] == AbsoluteDifference(x[j], y[j]);
    }
  }

  /** One register: on the lanes the absolute value is the root of the square. */
  method ManhattanRegister(w: nat, sqrt: real -> real, a: seq<real>, b: seq<real>, i: nat, resVec: seq<real>)
    returns (r: seq<real>)
    requires |a| == |b| && i + w <= |a| && |resVec| == w && IsSqrt(sqrt)
    ensures |r| == w
    ensures LaneSum(r) == LaneSum(resVec) + Total(AbsoluteDifference, a, b, i + w) - Total(AbsoluteDifference, a, b, i)
  {
    hide Total, LaneSum, IsSqrt;
    var terms := Roots(sqrt, Lanewise(SquaredDifference, a[i..i + w], b[i..i + w]));
    RootsOfSquares(sqrt, a[i..i + w], b[i..i + w]);
    LaneSumIsPart(AbsoluteDifference, a, b, i, w);
    LaneSumAdds(resVec, terms);
    r := Lanewise(Plus, resVec, terms);
  }

  method ManhattanDistance(w: nat, sqrt: real -> real, a: seq<real>, b: seq<real>) returns (result: real)
    requires (w == 8 || w == 4) && |a| == |b| && IsSqrt(sqrt)
    ensures result == Total(AbsoluteDifference, a, b, |a|)
  {
    hide LaneSum, IsSqrt;
    var resVec := seq(w, _ => 0.0);
    ZeroLanes(w);
    var i := 0;
    while i < |a| / w * w
      invariant 0 <= i <= |a| / w * w && i % w == 0 && |resVec| == w
      invariant LaneSum(resVec) == Total(AbsoluteDifference, a, b, i)
    {
      FullRegister(|a|, w, i);
      resVec := ManhattanRegister(w, sqrt, a, b, i, resVec);
      i := i + w;
    }
    result := SumVector(resVec);
    while i < |a|
      invariant 0 <= i <= |a| && result == Total(AbsoluteDifference, a, b, i)
    {
      result := result + Abs(a[i] - b[i]);
      i := i + 1;
    }
  }

  /** The dot product, and the product of the squared norms. */
  method CosineSimilarityDotNorm(w: nat, a: seq<real>, b: seq<real>) returns (dot: real, normSquared: real)
    requires (w == 8 || w == 4) && |a| == |b|
    ensures dot == Total(Times, a, b, |a|)
    ensures normSquared == Total(SquareOfFirst, a, b, |a|) * Total(SquareOfSecond, a, b, |a|)
  {
    dot := Accumulate(w, Times, a, b);
    var normASum := Accumulate(w, SquareOfFirst, a, b);
    var normBSum := Accumulate(w, SquareOfSecond, a, b);
    normSquared := normASum * normBSum;
  }

  // The scalar loops

  method NativeEuclideanDistance(sqrt: real -> real, a: seq<real>, b: seq<real>) returns (result: real)
    requires |a| == |b|
    ensures result == sqrt(Total(SquaredDifference, a, b, |a|))
  {
    var distance := 0.0;
    for i := 0 to |a|
      invariant distance == Total(SquaredDifference, a, b, i)
    {
      distance := distance + (a[i] - b[i]) * (a[i] - b[i]);
    }
    result := sqrt(distance);
  }

  method NativeManhattanDistance(a: seq<real>, b: seq<real>) returns (distance: real)
    requires |a| == |b|
    ensures distance == Total(AbsoluteDifference, a, b, |a|)
  {
    distance := 0.0;
    for i := 0 to |a|
      invariant distance == Total(AbsoluteDifference, a, b, i)
    {
      distance := distance + Abs(a[i] - b[i]);
    }
  }

  /** Neither vector is zero. */
  ghost predicate HaveNorms(a: seq<real>, b: seq<real>)
    requires |a| == |b|
  {
    Total(SquareOfFirst, a, b, |a|) != 0.0 && Total(SquareOfSecond, a, b, |a|) != 0.0
  }

  lemma {:induction false} SquaresNotNegative(a: seq<real>, b: seq<real>, n: nat)
    requires n <= |a| && n <= |b|
    ensures Total(SquareOfFirst, a, b, n) >= 0.0 && Total(SquareOfSecond, a, b, n) >= 0.0
  {
    if n > 0 {
      SquaresNotNegative(a, b, n - 1);
      SquareNotNegative(a[n - 1]);
      SquareNotNegative(b[n - 1]);
    }
  }

  lemma SquareNotNegative(x: real)
    ensures x * x >= 0.0
  {}

  lemma RootIsZero(p: real, x: real)
    requires p * p == x
    ensures p == 0.0 <==> x == 0.0
  {
    if x == 0.0 {
      ZeroProduct(p, p);
    }
  }

  lemma ProductOfRoots(sqrt: real -> real, x: real, y: real, product: real)
    requires IsSqrt(sqrt) && x >= 0.0 && y >= 0.0 && product == x * y
    ensures sqrt(product) == sqrt(x) * sqrt(y)
    ensures sqrt(product) == 0.0 <==> x == 0.0 || y == 0.0
  {
    var p, q := sqrt(x), sqrt(y);
    assert p * p == x && q * q == y;
    assert product >= 0.0;
    assert (p * q) * (p * q) == x * y by {
      assert (p * q) * (p * q) == (p * p) * (q * q);
    }
    assert p * q >= 0.0;
    RootIsUnique(sqrt(product), p * q);
    RootIsZero(p, x);
    RootIsZero(q, y);
    if p * q == 0.0 {
      ZeroProduct(p, q);
    }
  }

  /** |a| |b| */
  ghost function Norms(sqrt: real -> real, a: seq<real>, b: seq<real>): real
    requires |a| == |b|
  {
    sqrt(Total(SquareOfFirst, a, b, |a|)) * sqrt(Total(SquareOfSecond, a, b, |a|))
  }

  lemma HaveNormsUnlessZero(sqrt: real -> real, a: seq<real>, b: seq<real>, product: real)
    requires |a| == |b| && IsSqrt(sqrt)
    requires product == Total(SquareOfFirst, a, b, |a|) * Total(SquareOfSecond, a, b, |a|)
    ensures sqrt(product) == Norms(sqrt, a, b)
    ensures HaveNorms(a, b) <==> Norms(sqrt, a, b) != 0.0
  {
    SquaresNotNegative(a, b, |a|);
    ProductOfRoots(sqrt, Total(SquareOfFirst, a, b, |a|), Total(SquareOfSecond, a, b, |a|), product);
  }

  /** 1 - dot / (|a| |b|), or none, where a zero vector makes it a division by zero. */
  ghost predicate IsCosineDistance(sqrt: real -> real, a: seq<real>, b: seq<real>, result: Option<real>)
    requires |a| == |b|
  {
    && (result.Some? <==> HaveNorms(a, b))
    && (result.Some? ==> Norms(sqrt, a, b) != 0.0)
    && (result.Some? ==> result.value == 1.0 - Total(Times, a, b, |a|) / Norms(sqrt, a, b))
  }

  method NativeSums(a: seq<real>, b: seq<real>) returns (dot: real, aNorm: real, bNorm: real)
    requires |a| == |b|
    ensures dot == Total(Times, a, b, |a|)
    ensures aNorm == Total(SquareOfFirst, a, b, |a|) && bNorm == Total(SquareOfSecond, a, b, |a|)
  {
    dot, aNorm, bNorm := 0.0, 0.0, 0.0;
    for i := 0 to |a|
      invariant dot == Total(Times, a, b, i)
      invariant aNorm == Total(SquareOfFirst, a, b, i) && bNorm == Total(SquareOfSecond, a, b, i)
    {
      dot := dot + a[i] * b[i];
      aNorm := aNorm + a[i] * a[i];
      bNorm := bNorm + b[i] * b[i];
    }
  }

  method NativeCosineDistance(sqrt: real -> real, a: seq<real>, b: seq<real>) returns (result: Option<real>)
    requires |a| == |b| && IsSqrt(sqrt)
    ensures IsCosineDistance(sqrt, a, b, result)
  {
    hide Total;
    var dot, aNorm, bNorm := NativeSums(a, b);
    HaveNormsUnlessZero(sqrt, a, b, aNorm * bNorm);
    var norms := sqrt(aNorm) * sqrt(bNorm);
    assert norms == Norms(sqrt, a, b);
    result := if norms == 0.0 then None else Some(1.0 - dot / norms);
  }

  /** The cosine distance from the results of the kernel: simd/avx/AVX_amd64.go. */
  method KernelCosineDistance(w: nat, sqrt: real -> real, a: seq<real>, b: seq<real>) returns (result: Option<real>)
    requires (w == 8 || w == 4) && |a| == |b| && IsSqrt(sqrt)
    ensures IsCosineDistance(sqrt, a, b, result)
  {
    hide Total;
    var dot, normSquared := CosineSimilarityDotNorm(w, a, b);
    HaveNormsUnlessZero(sqrt, a, b, normSquared);
    var norms := sqrt(normSquared);
    assert norms == Norms(sqrt, a, b);
    result := if norms == 0.0 then None else Some(1.0 - dot / norms);
  }

  /** For vectors of any length and both register widths, the three distances are those of the scalar loops. */
  method KernelsAgree(w: nat, sqrt: real -> real, a: seq<real>, b: seq<real>)
    returns (euclidean: (real, real), manhattan: (real, real), cosine: (Option<real>, Option<real>))
    requires (w == 8 || w == 4) && |a| == |b| && IsSqrt(sqrt)
    ensures euclidean.0 == euclidean.1 && manhattan.0 == manhattan.1 && cosine.0 == cosine.1
    ensures euclidean.0 == sqrt(Total(SquaredDifference, a, b, |a|))
    ensures manhattan.0 == Total(AbsoluteDifference, a, b, |a|)
    ensures IsCosineDistance(sqrt, a, b, cosine.0)
  {
    hide Total, Norms, HaveNorms;
    var squared := EuclideanDistanceSquared(w, a, b);
    var euclideanNative := NativeEuclideanDistance(sqrt, a, b);
    euclidean := (sqrt(squared), euclideanNative);
    var manhattanKernel := ManhattanDistance(w, sqrt, a, b);
    var manhattanNative := NativeManhattanDistance(a, b);
    manhattan := (manhattanKernel, manhattanNative);
    var cosineKernel := KernelCosineDistance(w, sqrt, a, b);
    var cosineNative := NativeCosineDistance(sqrt, a, b);
    cosine := (cosineKernel, cosineNative);
  }
}
