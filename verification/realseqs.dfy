/** Sums and dot products of real sequences: the model's stand-in for
    `np.sum` and the row-wise `np.sum(a * b, axis=1)`. Real arithmetic is
    exact, so the summation order NumPy uses does not matter here. */
module RealSeqs {

  function Sum(s: seq<real>): real {
    if |s| == 0 then 0.0 else s[0] + Sum(s[1..])
  }

  function Dot(a: seq<real>, b: seq<real>): real
    requires |a| == |b|
  {
    if |a| == 0 then 0.0 else a[0] * b[0] + Dot(a[1..], b[1..])
  }

  /** Elementwise division by a non-zero scalar, NumPy's `s / c`. */
  function DivideAll(s: seq<real>, c: real): (r: seq<real>)
    requires c != 0.0
    ensures |r| == |s|
    ensures forall i :: 0 <= i < |s| ==> r[i] * c == s[i]
  {
    seq(|s|, i requires 0 <= i < |s| => s[i] / c)
  }

  lemma DivideAllPositive(s: seq<real>, c: real)
    requires 0.0 < c
    requires forall i :: 0 <= i < |s| ==> 0.0 < s[i]
    ensures forall i :: 0 <= i < |s| ==> 0.0 < DivideAll(s, c)[i]
  {
  }

  lemma {:induction false} SumDivideAll(s: seq<real>, c: real)
    requires c != 0.0
    ensures Sum(DivideAll(s, c)) == Sum(s) / c
    decreases |s|
  {
    if |s| > 0 {
      assert DivideAll(s, c)[1..] == DivideAll(s[1..], c);
      SumDivideAll(s[1..], c);
    }
  }

  lemma {:induction false} DotDivideAll(a: seq<real>, b: seq<real>, c: real)
    requires |a| == |b| && c != 0.0
    ensures Dot(a, DivideAll(b, c)) == Dot(a, b) / c
    decreases |a|
  {
    if |a| > 0 {
      assert DivideAll(b, c)[1..] == DivideAll(b[1..], c);
      DotDivideAll(a[1..], b[1..], c);
      ProductOfQuotient(a[0], b[0], c);
      QuotientDistributes(a[0] * b[0], Dot(a[1..], b[1..]), c);
    }
  }

  lemma {:induction false} SumOfConstant(s: seq<real>, k: real)
    requires forall i :: 0 <= i < |s| ==> s[i] == k
    ensures Sum(s) == k * |s| as real
    decreases |s|
  {
    if |s| > 0 {
      SumOfConstant(s[1..], k);
    }
  }

  /** Against constant weights `k`, the dot product is `k` times the plain sum. */
  lemma {:induction false} DotConstantRight(a: seq<real>, b: seq<real>, k: real)
    requires |a| == |b|
    requires forall i :: 0 <= i < |b| ==> b[i] == k
    ensures Dot(a, b) == k * Sum(a)
    decreases |a|
  {
    if |a| > 0 {
      DotConstantRight(a[1..], b[1..], k);
    }
  }

  /** A constant row `c` against any weights gives `c` times the weight sum. */
  lemma {:induction false} DotConstantLeft(a: seq<real>, b: seq<real>, c: real)
    requires |a| == |b|
    requires forall i :: 0 <= i < |a| ==> a[i] == c
    ensures Dot(a, b) == c * Sum(b)
    decreases |a|
  {
    if |a| > 0 {
      DotConstantLeft(a[1..], b[1..], c);
    }
  }

  /** With non-negative weights, the dot product lies between the smallest and
      largest possible entry, each times the weight sum. */
  lemma DotBounds(a: seq<real>, b: seq<real>, lo: real, hi: real)
    requires |a| == |b|
    requires forall i :: 0 <= i < |b| ==> 0.0 <= b[i]
    requires forall i :: 0 <= i < |a| ==> lo <= a[i] <= hi
    ensures lo * Sum(b) <= Dot(a, b) <= hi * Sum(b)
  {
    DotLowerBound(a, b, lo);
    DotUpperBound(a, b, hi);
  }

  lemma {:induction false} DotLowerBound(a: seq<real>, b: seq<real>, lo: real)
    requires |a| == |b|
    requires forall i :: 0 <= i < |b| ==> 0.0 <= b[i]
    requires forall i :: 0 <= i < |a| ==> lo <= a[i]
    ensures lo * Sum(b) <= Dot(a, b)
    decreases |a|
  {
    if |a| > 0 {
      DotLowerBound(a[1..], b[1..], lo);
      ExtendLowerBound(a[0], b[0], Dot(a[1..], b[1..]), Sum(b[1..]), Dot(a, b), Sum(b), lo);
    } else {
      ScaleZero(lo, Sum(b));
    }
  }

  lemma {:induction false} DotUpperBound(a: seq<real>, b: seq<real>, hi: real)
    requires |a| == |b|
    requires forall i :: 0 <= i < |b| ==> 0.0 <= b[i]
    requires forall i :: 0 <= i < |a| ==> a[i] <= hi
    ensures Dot(a, b) <= hi * Sum(b)
    decreases |a|
  {
    if |a| > 0 {
      DotUpperBound(a[1..], b[1..], hi);
      ExtendUpperBound(a[0], b[0], Dot(a[1..], b[1..]), Sum(b[1..]), Dot(a, b), Sum(b), hi);
    } else {
      ScaleZero(hi, Sum(b));
    }
  }

  // Single facts of real arithmetic, stated apart so that the proofs over
  // sequences need not search for them.

  lemma CancelCommonFactor(x: real, y: real, k: real)
    requires k != 0.0 && y != 0.0
    ensures (k * x) / (k * y) == x / y
  {
  }

  lemma QuotientOfScaled(x: real, y: real, u: real, v: real, k: real)
    requires k != 0.0 && v != 0.0
    requires x == k * u && y == k * v
    ensures x / y == u / v
  {
    CancelCommonFactor(u, v, k);
  }

  lemma CancelCommonDivisor(x: real, y: real, c: real)
    requires c != 0.0 && y != 0.0
    ensures (x / c) / (y / c) == x / y
  {
  }

  lemma QuotientDistributes(x: real, y: real, c: real)
    requires c != 0.0
    ensures x / c + y / c == (x + y) / c
  {
  }

  lemma ProductOfQuotient(a: real, b: real, c: real)
    requires c != 0.0
    ensures a * (b / c) == (a * b) / c
  {
  }

  /** One more non-negatively weighted entry keeps a weighted sum on the
      right side of a bound. */
  lemma ExtendLowerBound(x: real, w: real, rest: real, restWeight: real, total: real, weight: real, lo: real)
    requires 0.0 <= w && lo <= x && lo * restWeight <= rest
    requires total == x * w + rest && weight == w + restWeight
    ensures lo * weight <= total
  {
    ScaleMonotone(lo, x, w);
  }

  lemma ExtendUpperBound(x: real, w: real, rest: real, restWeight: real, total: real, weight: real, hi: real)
    requires 0.0 <= w && x <= hi && rest <= hi * restWeight
    requires total == x * w + rest && weight == w + restWeight
    ensures total <= hi * weight
  {
    ScaleMonotone(x, hi, w);
  }

  lemma ScaleZero(x: real, w: real)
    requires w == 0.0
    ensures x * w == 0.0
  {
  }

  lemma ScaleMonotone(x: real, y: real, w: real)
    requires x <= y && 0.0 <= w
    ensures x * w <= y * w
  {
  }

  lemma BoundsByPositiveFactor(v: real, s: real, d: real, lo: real, hi: real)
    requires 0.0 < s && v * s == d
    requires lo * s <= d <= hi * s
    ensures lo <= v <= hi
  {
  }
}
