/**
 * Real-valued sums and three-component vectors shared by the statistics code.
 *
 * The source works in single-precision floats; this model works over `real`,
 * so every sum is exact and the order in which the source's loops accumulate
 * does not change a result.
 */
module Linear {

  /** A three-component vector (Unity's `Vector3`, or a 3-element MathNet vector). */
  datatype Vec3 = Vec3(x: real, y: real, z: real) {

    /** Component i, as MathNet's `v[i]`. */
    function At(i: nat): real
      requires i < 3
    {
      if i == 0 then x else if i == 1 then y else z
    }

    function Neg(): Vec3 {
      Vec3(-x, -y, -z)
    }

    function Scale(k: real): Vec3 {
      Vec3(k * x, k * y, k * z)
    }

    function Plus(v: Vec3): Vec3 {
      Vec3(x + v.x, y + v.y, z + v.z)
    }

    predicate IsZero() {
      x == 0.0 && y == 0.0 && z == 0.0
    }
  }

  /**
   * The transcendental functions of the source's `Mathf`, kept uninterpreted:
   * a caller supplies them, and a lemma that needs a fact about one of them
   * states that fact as a precondition.
   */
  datatype MathLib = MathLib(sqrt: real -> real, log10: real -> real, pow: (real, real) -> real)

  /** `lib.sqrt` behaves as the square root on non-negative arguments. */
  ghost predicate SqrtIsSquareRoot(lib: MathLib) {
    forall x :: x >= 0.0 ==> lib.sqrt(x) >= 0.0 && lib.sqrt(x) * lib.sqrt(x) == x
  }

  function Abs(x: real): real {
    if x < 0.0 then -x else x
  }

  function Min(a: real, b: real): real {
    if a <= b then a else b
  }

  function Max(a: real, b: real): real {
    if a >= b then a else b
  }

  lemma ProductBounded(a: real, b: real)
    requires a >= 0.0 && 0.0 <= b <= 1.0
    ensures 0.0 <= a * b <= a
  {
    calc {
      a * b;
    <=
      a * 1.0;
    ==
      a;
    }
    calc {
      a * b;
    >=
      0.0 * b;
    ==
      0.0;
    }
  }

  lemma PositiveQuotient(a: real, b: real)
    requires a > 0.0 && b > 0.0
    ensures a / b > 0.0
  {
    calc {
      a / b;
    ==
      a * (1.0 / b);
    >
      0.0;
    }
  }

  /** Sum of the first n elements, accumulated front to back as the source's loops do. */
  function SumTo(s: seq<real>, n: nat): real
    requires n <= |s|
  {
    if n == 0 then 0.0 else SumTo(s, n - 1) + s[n - 1]
  }

  /** Sum of a sequence. */
  function Sum(s: seq<real>): real {
    SumTo(s, |s|)
  }

  lemma {:induction false} SumScale(a: seq<real>, c: seq<real>, k: real)
    requires |a| == |c|
    requires forall i :: 0 <= i < |c| ==> c[i] == k * a[i]
    ensures Sum(c) == k * Sum(a)
  {
    SumToScale(a, c, k, |c|);
  }

  lemma {:induction false} SumToScale(a: seq<real>, c: seq<real>, k: real, n: nat)
    requires n <= |a| == |c|
    requires forall i :: 0 <= i < n ==> c[i] == k * a[i]
    ensures SumTo(c, n) == k * SumTo(a, n)
  {
    if n > 0 {
      SumToScale(a, c, k, n - 1);
      assert SumTo(c, n) == k * SumTo(a, n - 1) + k * a[n - 1];
    }
  }

  /** A sum with a single possibly non-zero term is that term. */
  lemma {:induction false} SumToSingle(s: seq<real>, j: nat, n: nat)
    requires j < n <= |s|
    requires forall i :: 0 <= i < n && i != j ==> s[i] == 0.0
    ensures SumTo(s, n) == s[j]
  {
    if n - 1 == j {
      SumToConst(s, 0.0, j);
    } else {
      SumToSingle(s, j, n - 1);
    }
  }

  /** Terms that are zero past index m do not change the sum. */
  lemma {:induction false} SumToZeroTail(s: seq<real>, m: nat, n: nat)
    requires m <= n <= |s|
    requires forall i :: m <= i < n ==> s[i] == 0.0
    ensures SumTo(s, n) == SumTo(s, m)
  {
    if m < n {
      SumToZeroTail(s, m, n - 1);
    }
  }

  /** Sums over a common prefix agree when the terms do. */
  lemma {:induction false} SumToAgree(a: seq<real>, b: seq<real>, n: nat)
    requires n <= |a| && n <= |b|
    requires forall i :: 0 <= i < n ==> a[i] == b[i]
    ensures SumTo(a, n) == SumTo(b, n)
  {
    if n > 0 {
      SumToAgree(a, b, n - 1);
    }
  }

  lemma SumAdd(a: seq<real>, b: seq<real>, c: seq<real>)
    requires |a| == |b| == |c|
    requires forall i :: 0 <= i < |c| ==> c[i] == a[i] + b[i]
    ensures Sum(c) == Sum(a) + Sum(b)
  {
    SumToAdd(a, b, c, |c|);
  }

  lemma {:induction false} SumToAdd(a: seq<real>, b: seq<real>, c: seq<real>, n: nat)
    requires n <= |a| == |b| == |c|
    requires forall i :: 0 <= i < n ==> c[i] == a[i] + b[i]
    ensures SumTo(c, n) == SumTo(a, n) + SumTo(b, n)
  {
    if n > 0 {
      SumToAdd(a, b, c, n - 1);
    }
  }

  lemma SumSub(a: seq<real>, b: seq<real>, c: seq<real>)
    requires |a| == |b| == |c|
    requires forall i :: 0 <= i < |c| ==> c[i] == a[i] - b[i]
    ensures Sum(c) == Sum(a) - Sum(b)
  {
    SumToSub(a, b, c, |c|);
  }

  lemma {:induction false} SumToSub(a: seq<real>, b: seq<real>, c: seq<real>, n: nat)
    requires n <= |a| == |b| == |c|
    requires forall i :: 0 <= i < n ==> c[i] == a[i] - b[i]
    ensures SumTo(c, n) == SumTo(a, n) - SumTo(b, n)
  {
    if n > 0 {
      SumToSub(a, b, c, n - 1);
    }
  }

  lemma SumConst(c: seq<real>, k: real)
    requires forall i :: 0 <= i < |c| ==> c[i] == k
    ensures Sum(c) == (|c| as real) * k
  {
    SumToConst(c, k, |c|);
  }

  lemma {:induction false} SumToConst(c: seq<real>, k: real, n: nat)
    requires n <= |c|
    requires forall i :: 0 <= i < n ==> c[i] == k
    ensures SumTo(c, n) == (n as real) * k
  {
    if n > 0 {
      SumToConst(c, k, n - 1);
    }
  }

  lemma SumNonNegative(c: seq<real>)
    requires forall i :: 0 <= i < |c| ==> c[i] >= 0.0
    ensures Sum(c) >= 0.0
  {
    SumToBounds(c, 0.0, 0.0, |c|, false);
  }

  /** A sum of non-negative terms is zero exactly when every term is zero. */
  lemma SumZeroIffAllZero(c: seq<real>)
    requires forall i :: 0 <= i < |c| ==> c[i] >= 0.0
    ensures Sum(c) == 0.0 <==> forall i :: 0 <= i < |c| ==> c[i] == 0.0
  {
    SumToZeroIffAllZero(c, |c|);
  }

  lemma {:induction false} SumToZeroIffAllZero(c: seq<real>, n: nat)
    requires n <= |c|
    requires forall i :: 0 <= i < n ==> c[i] >= 0.0
    ensures SumTo(c, n) == 0.0 <==> forall i :: 0 <= i < n ==> c[i] == 0.0
  {
    if n > 0 {
      SumToZeroIffAllZero(c, n - 1);
      SumToBounds(c, 0.0, 0.0, n - 1, false);
    }
  }

  /** Bounds on every term bound the sum; with hasUpper false only the lower bound is used. */
  lemma {:induction false} SumToBounds(c: seq<real>, lo: real, hi: real, n: nat, hasUpper: bool)
    requires n <= |c|
    requires forall i :: 0 <= i < n ==> lo <= c[i] && (hasUpper ==> c[i] <= hi)
    ensures (n as real) * lo <= SumTo(c, n)
    ensures hasUpper ==> SumTo(c, n) <= (n as real) * hi
  {
    if n > 0 {
      SumToBounds(c, lo, hi, n - 1, hasUpper);
    }
  }

  lemma SumBounds(c: seq<real>, lo: real, hi: real)
    requires forall i :: 0 <= i < |c| ==> lo <= c[i] <= hi
    ensures (|c| as real) * lo <= Sum(c) <= (|c| as real) * hi
  {
    SumToBounds(c, lo, hi, |c|, true);
  }

  /** Element-wise product of two sequences of equal length. */
  function Products(u: seq<real>, v: seq<real>): (r: seq<real>)
    requires |u| == |v|
    ensures |r| == |u|
    ensures forall i :: 0 <= i < |u| ==> r[i] == u[i] * v[i]
  {
    seq(|u|, i requires 0 <= i < |u| => u[i] * v[i])
  }

  /** Every element multiplied by k. */
  function Scaled(u: seq<real>, k: real): (r: seq<real>)
    ensures |r| == |u|
    ensures forall i :: 0 <= i < |u| ==> r[i] == k * u[i]
  {
    seq(|u|, i requires 0 <= i < |u| => k * u[i])
  }

  /** Element-wise difference of two sequences of equal length. */
  function Diff(u: seq<real>, v: seq<real>): (r: seq<real>)
    requires |u| == |v|
    ensures |r| == |u|
    ensures forall i :: 0 <= i < |u| ==> r[i] == u[i] - v[i]
  {
    seq(|u|, i requires 0 <= i < |u| => u[i] - v[i])
  }

  /** n copies of k. */
  function Constant(n: nat, k: real): (r: seq<real>)
    ensures |r| == n
    ensures forall i :: 0 <= i < n ==> r[i] == k
  {
    seq(n, _ => k)
  }

  /**
   * Summing an affine combination of sequences term by term:
   * sum (a + c1 b + c2 e + k) = sum a + c1 sum b + c2 sum e + n k.
   */
  lemma {:induction false} SumToCombination(a: seq<real>, b: seq<real>, e: seq<real>, d: seq<real>,
                                             c1: real, c2: real, k: real, n: nat)
    requires n <= |a| == |b| == |e| == |d|
    requires forall i :: 0 <= i < n ==> d[i] == a[i] + c1 * b[i] + c2 * e[i] + k
    ensures SumTo(d, n) == SumTo(a, n) + c1 * SumTo(b, n) + c2 * SumTo(e, n) + (n as real) * k
  {
    if n > 0 {
      var j := n - 1;
      SumToCombination(a, b, e, d, c1, c2, k, j);
      CombinationStep(SumTo(d, j), SumTo(a, j), SumTo(b, j), SumTo(e, j), d[j], a[j], b[j], e[j],
                      SumTo(d, n), SumTo(a, n), SumTo(b, n), SumTo(e, n), c1, c2, k, j as real, n as real);
    }
  }

  lemma SumCombination(a: seq<real>, b: seq<real>, e: seq<real>, d: seq<real>, c1: real, c2: real, k: real)
    requires |a| == |b| == |e| == |d|
    requires forall i :: 0 <= i < |d| ==> d[i] == a[i] + c1 * b[i] + c2 * e[i] + k
    ensures Sum(d) == Sum(a) + c1 * Sum(b) + c2 * Sum(e) + (|d| as real) * k
  {
    SumToCombination(a, b, e, d, c1, c2, k, |d|);
  }

  /** One step of SumToCombination: adding the next terms keeps the affine relation. */
  lemma CombinationStep(sd: real, sa: real, sb: real, se: real, dj: real, aj: real, bj: real, ej: real,
                        sd1: real, sa1: real, sb1: real, se1: real, c1: real, c2: real, k: real, m: real, m1: real)
    requires sd == sa + c1 * sb + c2 * se + m * k
    requires dj == aj + c1 * bj + c2 * ej + k
    requires sd1 == sd + dj && sa1 == sa + aj && sb1 == sb + bj && se1 == se + ej && m1 == m + 1.0
    ensures sd1 == sa1 + c1 * sb1 + c2 * se1 + m1 * k
  {
    assert c1 * sb1 == c1 * (sb + bj);
    assert c2 * se1 == c2 * (se + ej);
    assert m1 * k == (m + 1.0) * k;
    Distribute(c1, sb, bj);
    Distribute(c2, se, ej);
    Distribute(k, m, 1.0);
  }

  lemma Distribute(k: real, x: real, y: real)
    ensures k * (x + y) == k * x + k * y
  {
  }

  /**
   * Expanding a sum of centred products:
   * sum (u - mu)(v - nu) = sum uv - nu sum u - mu sum v + n mu nu.
   */
  lemma SumCentredProducts(u: seq<real>, v: seq<real>, c: seq<real>, mu: real, nu: real)
    requires |u| == |v| == |c|
    requires forall i :: 0 <= i < |c| ==> c[i] == (u[i] - mu) * (v[i] - nu)
    ensures Sum(c) == Sum(Products(u, v)) + (-nu) * Sum(u) + (-mu) * Sum(v) + (|c| as real) * (mu * nu)
  {
    var p := Products(u, v);
    CentredProductsExpand(u, v, p, c, mu, nu);
    SumCombination(p, u, v, c, -nu, -mu, mu * nu);
  }

  lemma CentredProductsExpand(u: seq<real>, v: seq<real>, p: seq<real>, c: seq<real>, mu: real, nu: real)
    requires |u| == |v| == |p| == |c|
    requires forall i :: 0 <= i < |c| ==> c[i] == (u[i] - mu) * (v[i] - nu) && p[i] == u[i] * v[i]
    ensures forall i :: 0 <= i < |c| ==> c[i] == p[i] + (-nu) * u[i] + (-mu) * v[i] + mu * nu
  {
    forall i | 0 <= i < |c|
      ensures c[i] == p[i] + (-nu) * u[i] + (-mu) * v[i] + mu * nu
    {
      CentredProductExpansion(u[i], v[i], mu, nu);
    }
  }

  lemma CentredProductExpansion(x: real, y: real, mu: real, nu: real)
    ensures (x - mu) * (y - nu) == x * y + (-nu) * x + (-mu) * y + mu * nu
  {
  }

  /** w (x - m)^2 = w x^2 - 2m (w x) + m^2 w. */
  lemma WeightedSquareExpansion(x: real, w: real, m: real)
    ensures w * ((x - m) * (x - m)) == (x * x) * w + (-2.0 * m) * (x * w) + (m * m) * w + 0.0
  {
  }

  lemma SquareOfNonZeroPositive(t: real)
    requires t != 0.0
    ensures t * t > 0.0
  {
    if t > 0.0 {
      calc {
        t * t;
      >
        0.0 * t;
      }
    } else {
      calc {
        t * t;
      ==
        (-t) * (-t);
      >
        0.0 * (-t);
      }
    }
  }

  lemma SumOfSquaresPositive(x: real, y: real, z: real)
    requires !(x == 0.0 && y == 0.0 && z == 0.0)
    ensures x * x + y * y + z * z > 0.0
  {
    SquareNonNegative(x);
    SquareNonNegative(y);
    SquareNonNegative(z);
    if x != 0.0 {
      SquareOfNonZeroPositive(x);
    } else if y != 0.0 {
      SquareOfNonZeroPositive(y);
    } else {
      SquareOfNonZeroPositive(z);
    }
  }

  lemma SquareNonNegative(t: real)
    ensures t * t >= 0.0
  {
    if t < 0.0 {
      var u := -t;
      assert t * t == u * u;
      assert u * u >= 0.0;
    } else {
      assert t * t >= 0.0;
    }
  }

  /**
   * The weighted second moment about the weighted mean is never negative:
   * with W = sum w > 0, sum w x^2 / W - (sum w x / W)^2 >= 0.
   */
  lemma WeightedVarianceNonNegative(x: seq<real>, w: seq<real>)
    requires |x| == |w|
    requires forall i :: 0 <= i < |w| ==> w[i] >= 0.0
    requires Sum(w) > 0.0
    ensures Sum(Products(Products(x, x), w)) / Sum(w) - (Sum(Products(x, w)) / Sum(w)) * (Sum(Products(x, w)) / Sum(w)) >= 0.0
  {
    WeightedMomentsNonNegative(x, w, Products(Products(x, x), w), Products(x, w));
  }

  lemma WeightedMomentsNonNegative(x: seq<real>, w: seq<real>, xxw: seq<real>, xw: seq<real>)
    requires |x| == |w| == |xxw| == |xw|
    requires forall i :: 0 <= i < |w| ==> w[i] >= 0.0
    requires forall i :: 0 <= i < |x| ==> xxw[i] == (x[i] * x[i]) * w[i] && xw[i] == x[i] * w[i]
    requires Sum(w) > 0.0
    ensures Sum(xxw) / Sum(w) - (Sum(xw) / Sum(w)) * (Sum(xw) / Sum(w)) >= 0.0
  {
    var m := Sum(xw) / Sum(w);
    var d := WeightedSquaredDeviations(x, w, m);
    WeightedDeviations(x, w, xxw, xw, d, m);
    WeightedVarianceStep(Sum(xxw), Sum(xw), Sum(w), m, Sum(d));
  }

  /** w (x - m)^2, element by element. */
  function WeightedSquaredDeviations(x: seq<real>, w: seq<real>, m: real): (r: seq<real>)
    requires |x| == |w|
    ensures |r| == |x|
    ensures forall i :: 0 <= i < |x| ==> r[i] == w[i] * ((x[i] - m) * (x[i] - m))
  {
    seq(|x|, i requires 0 <= i < |x| => w[i] * ((x[i] - m) * (x[i] - m)))
  }

  /**
   * The weighted squared deviations about m sum to a non-negative total that
   * expands to sum w x^2 - 2m sum w x + m^2 sum w.
   */
  lemma WeightedDeviations(x: seq<real>, w: seq<real>, xxw: seq<real>, xw: seq<real>, d: seq<real>, m: real)
    requires |x| == |w| == |xxw| == |xw| == |d|
    requires forall i :: 0 <= i < |w| ==> w[i] >= 0.0
    requires forall i :: 0 <= i < |x| ==> xxw[i] == (x[i] * x[i]) * w[i] && xw[i] == x[i] * w[i]
    requires forall i :: 0 <= i < |x| ==> d[i] == w[i] * ((x[i] - m) * (x[i] - m))
    ensures Sum(d) >= 0.0
    ensures Sum(d) == Sum(xxw) + (-2.0 * m) * Sum(xw) + (m * m) * Sum(w)
  {
    DeviationsExpand(x, w, xxw, xw, d, m);
    SumNonNegative(d);
    DeviationsTotal(xxw, xw, w, d, m);
  }

  lemma DeviationsTotal(xxw: seq<real>, xw: seq<real>, w: seq<real>, d: seq<real>, m: real)
    requires |xxw| == |xw| == |w| == |d|
    requires forall i :: 0 <= i < |d| ==> d[i] == xxw[i] + (-2.0 * m) * xw[i] + (m * m) * w[i] + 0.0
    ensures Sum(d) == Sum(xxw) + (-2.0 * m) * Sum(xw) + (m * m) * Sum(w)
  {
    SumCombination(xxw, xw, w, d, -2.0 * m, m * m, 0.0);
    assert (|d| as real) * 0.0 == 0.0;
  }

  lemma DeviationsExpand(x: seq<real>, w: seq<real>, xxw: seq<real>, xw: seq<real>, d: seq<real>, m: real)
    requires |x| == |w| == |xxw| == |xw| == |d|
    requires forall i :: 0 <= i < |w| ==> w[i] >= 0.0
    requires forall i :: 0 <= i < |x| ==> xxw[i] == (x[i] * x[i]) * w[i] && xw[i] == x[i] * w[i]
    requires forall i :: 0 <= i < |x| ==> d[i] == w[i] * ((x[i] - m) * (x[i] - m))
    ensures forall i :: 0 <= i < |d| ==> d[i] >= 0.0
    ensures forall i :: 0 <= i < |d| ==> d[i] == xxw[i] + (-2.0 * m) * xw[i] + (m * m) * w[i] + 0.0
  {
    forall i | 0 <= i < |d|
      ensures d[i] >= 0.0
      ensures d[i] == xxw[i] + (-2.0 * m) * xw[i] + (m * m) * w[i] + 0.0
    {
      DeviationAt(x[i], w[i], xxw[i], xw[i], d[i], m);
    }
  }

  lemma DeviationAt(x: real, w: real, xxw: real, xw: real, d: real, m: real)
    requires w >= 0.0 && xxw == (x * x) * w && xw == x * w
    requires d == w * ((x - m) * (x - m))
    ensures d >= 0.0
    ensures d == xxw + (-2.0 * m) * xw + (m * m) * w + 0.0
  {
    SquareNonNegative(x - m);
    ProductNonNegative(w, (x - m) * (x - m));
    WeightedSquareExpansion(x, w, m);
  }

  /** A weighted average lies within any bounds of the averaged values. */
  lemma WeightedAverageBounds(x: seq<real>, w: seq<real>, lo: real, hi: real)
    requires |x| == |w|
    requires forall i :: 0 <= i < |w| ==> w[i] >= 0.0 && lo <= x[i] <= hi
    requires Sum(w) > 0.0
    ensures lo <= Sum(Products(x, w)) / Sum(w) <= hi
  {
    var xw := Products(x, w);
    WeightedSumAbove(x, w, xw, lo);
    WeightedSumBelow(x, w, xw, hi);
    QuotientBetween(Sum(xw), Sum(w), lo, hi);
  }

  lemma WeightedSumAbove(x: seq<real>, w: seq<real>, xw: seq<real>, lo: real)
    requires |x| == |w| == |xw|
    requires forall i :: 0 <= i < |w| ==> w[i] >= 0.0 && lo <= x[i] && xw[i] == x[i] * w[i]
    ensures lo * Sum(w) <= Sum(xw)
  {
    var low := Scaled(w, lo);
    SumScale(w, low, lo);
    var above := Diff(xw, low);
    forall i | 0 <= i < |w|
      ensures above[i] >= 0.0
    {
      WeightedGap(x[i], lo, w[i]);
    }
    SumSub(xw, low, above);
    SumNonNegative(above);
  }

  lemma WeightedSumBelow(x: seq<real>, w: seq<real>, xw: seq<real>, hi: real)
    requires |x| == |w| == |xw|
    requires forall i :: 0 <= i < |w| ==> w[i] >= 0.0 && x[i] <= hi && xw[i] == x[i] * w[i]
    ensures Sum(xw) <= hi * Sum(w)
  {
    var high := Scaled(w, hi);
    SumScale(w, high, hi);
    var below := Diff(high, xw);
    forall i | 0 <= i < |w|
      ensures below[i] >= 0.0
    {
      WeightedGap(hi, x[i], w[i]);
    }
    SumSub(high, xw, below);
    SumNonNegative(below);
  }

  lemma WeightedGap(a: real, b: real, w: real)
    requires a >= b && w >= 0.0
    ensures a * w - b * w >= 0.0
  {
    calc {
      a * w - b * w;
    ==
      (a - b) * w;
    >=  { ProductNonNegative(a - b, w); }
      0.0;
    }
  }

  lemma QuotientBetween(s: real, w: real, lo: real, hi: real)
    requires w > 0.0 && lo * w <= s <= hi * w
    ensures lo <= s / w <= hi
  {
    calc {
      s / w;
    >=
      (lo * w) / w;
    ==
      lo;
    }
    calc {
      s / w;
    <=
      (hi * w) / w;
    ==
      hi;
    }
  }

  lemma ProductNonNegative(a: real, b: real)
    requires a >= 0.0 && b >= 0.0
    ensures a * b >= 0.0
  {
    calc {
      a * b;
    >=
      0.0 * b;
    ==
      0.0;
    }
  }

  lemma WeightedVarianceStep(a: real, b: real, w: real, m: real, d: real)
    requires w > 0.0 && m == b / w
    requires d == a + (-2.0 * m) * b + (m * m) * w
    requires d >= 0.0
    ensures a / w - m * m >= 0.0
  {
    assert m * w == b;
    assert (m * m) * w == m * b;
    assert a - m * b >= 0.0;
    assert a - m * m * w >= 0.0;
    calc {
      a / w - m * m;
    ==
      (a - m * m * w) / w;
    >=
      0.0;
    }
  }

  /** A sum of three terms, unfolded. */
  lemma SumOfThree(c: seq<real>)
    requires |c| == 3
    ensures Sum(c) == c[0] + c[1] + c[2]
  {
    assert SumTo(c, 0) == 0.0;
    assert SumTo(c, 1) == c[0];
    assert SumTo(c, 2) == c[0] + c[1];
  }

  /** A sum of six terms, unfolded. */
  lemma SumOfSix(c: seq<real>)
    requires |c| == 6
    ensures Sum(c) == c[0] + c[1] + c[2] + c[3] + c[4] + c[5]
  {
    assert SumTo(c, 0) == 0.0;
    assert SumTo(c, 1) == c[0];
    assert SumTo(c, 2) == c[0] + c[1];
    assert SumTo(c, 3) == c[0] + c[1] + c[2];
    assert SumTo(c, 4) == c[0] + c[1] + c[2] + c[3];
    assert SumTo(c, 5) == c[0] + c[1] + c[2] + c[3] + c[4];
  }
}
