/**
 * Moments of an N x D sample matrix, centring, and the copies between a 3x3
 * matrix and Unity's `Matrix4x4` (Assets/Scripts/MatrixUtils.cs).
 *
 * Every aggregate in the source divides a float sum by a count and replaces a
 * NaN result by 0. Over `real` the only NaN is 0/0; a non-zero sum divided by
 * zero is an infinity, which the guard lets through (`Quotient`).
 */
module MatrixUtils {
  import opened Linear

  /** MathNet's dense `Matrix<float>`: the entries row by row, and a column count that a matrix without rows still has. */
  datatype Matrix = Matrix(rows: seq<seq<real>>, columnCount: nat) {

    function RowCount(): nat {
      |rows|
    }

    predicate WellFormed() {
      forall i :: 0 <= i < |rows| ==> |rows[i]| == columnCount
    }
  }

  /** Reading entry [i, p] of every row is in range: there is no row, or p is a column. */
  predicate CanReadColumn(m: Matrix, p: nat) {
    m.WellFormed() && (|m.rows| == 0 || p < m.columnCount)
  }

  function Column(m: Matrix, p: nat): (r: seq<real>)
    requires CanReadColumn(m, p)
    ensures |r| == m.RowCount()
    ensures forall i :: 0 <= i < |r| ==> r[i] == m.rows[i][p]
  {
    seq(|m.rows|, i requires 0 <= i < |m.rows| => m.rows[i][p])
  }

  /** A float quotient after the source's `float.IsNaN(result) ? 0.0f : result` guard. */
  datatype Quotient = Finite(value: real) | PositiveInfinity | NegativeInfinity

  /** `a / d` in IEEE arithmetic, then NaN (only 0/0 over the reals) replaced by 0. */
  function GuardedDivide(a: real, d: real): Quotient {
    if d != 0.0 then Finite(a / d)
    else if a == 0.0 then Finite(0.0)
    else if a > 0.0 then PositiveInfinity
    else NegativeInfinity
  }

  /** A guarded division by a count: only a zero count can fail, and a zero count always comes with a zero sum here. */
  function DivideByCount(sum: real, n: nat): real
    requires n == 0 ==> sum == 0.0
  {
    GuardedDivide(sum, n as real).value
  }

  /** ComputeMean(Vector): sum / count, with the empty vector's 0/0 guarded to 0. */
  function Mean(values: seq<real>): (r: real)
    ensures |values| == 0 ==> r == 0.0
    ensures |values| > 0 ==> r * (|values| as real) == Sum(values)
  {
    DivideByCount(Sum(values), |values|)
  }

  /** A mean lies between any lower and upper bound of its values. */
  lemma MeanBetweenBounds(values: seq<real>, lo: real, hi: real)
    requires |values| > 0
    requires forall i :: 0 <= i < |values| ==> lo <= values[i] <= hi
    ensures lo <= Mean(values) <= hi
  {
    SumBounds(values, lo, hi);
    var n := |values| as real;
    assert Mean(values) * n >= lo * n;
    assert Mean(values) * n <= hi * n;
  }

  /** ComputeMean(Matrix, parameter): the mean of one column; 0 for a matrix without rows. */
  function ColumnMean(m: Matrix, p: nat): (r: real)
    requires CanReadColumn(m, p)
    ensures m.RowCount() == 0 ==> r == 0.0
    ensures m.RowCount() > 0 ==> r * (m.RowCount() as real) == Sum(Column(m, p))
  {
    Mean(Column(m, p))
  }

  /** ComputeMeans: one column mean per column, ColumnCount entries even without rows. */
  function Means(m: Matrix): (r: seq<real>)
    requires m.WellFormed()
    ensures |r| == m.columnCount
    ensures forall i :: 0 <= i < |r| ==> r[i] == ColumnMean(m, i)
  {
    seq(m.columnCount, i requires 0 <= i < m.columnCount => ColumnMean(m, i))
  }

  /**
   * ComputeVariance: the source sums x*x - mean*mean over the rows and divides by
   * the row count; the mean is whatever the caller passes.
   */
  function Variance(m: Matrix, mean: real, p: nat): (r: real)
    requires CanReadColumn(m, p)
    ensures m.RowCount() == 0 ==> r == 0.0
    ensures m.RowCount() > 0 ==>
      r == Sum(Products(Column(m, p), Column(m, p))) / (m.RowCount() as real) - mean * mean
  {
    var x := Column(m, p);
    var terms := Diff(Products(x, x), Constant(|x|, mean * mean));
    SumSub(Products(x, x), Constant(|x|, mean * mean), terms);
    SumConst(Constant(|x|, mean * mean), mean * mean);
    DivideByCount(Sum(terms), |x|)
  }

  /** ComputeVariances: Variance of column i about means[i], for every column. */
  function Variances(m: Matrix, means: seq<real>): (r: seq<real>)
    requires m.WellFormed() && |means| >= m.columnCount
    ensures |r| == m.columnCount
    ensures forall i :: 0 <= i < |r| ==> r[i] == Variance(m, means[i], i)
  {
    seq(m.columnCount, i requires 0 <= i < m.columnCount => Variance(m, means[i], i))
  }

  /** ComputeStandardDeviations: the square root of each column's Variance. */
  function StandardDeviations(m: Matrix, means: seq<real>, lib: MathLib): (r: seq<real>)
    requires m.WellFormed() && |means| >= m.columnCount
    ensures |r| == m.columnCount
  {
    seq(m.columnCount, i requires 0 <= i < m.columnCount => lib.sqrt(Variance(m, means[i], i)))
  }

  /** Squared deviations of a sequence about mu. */
  function SquaredDeviations(x: seq<real>, mu: real): (r: seq<real>)
    ensures |r| == |x|
    ensures forall i :: 0 <= i < |x| ==> r[i] == (x[i] - mu) * (x[i] - mu)
  {
    seq(|x|, i requires 0 <= i < |x| => (x[i] - mu) * (x[i] - mu))
  }

  /** Sum (x - mean)^2 = Sum x^2 - n mean^2 when mean is the mean of x. */
  lemma SumSquaredDeviationsAboutMean(x: seq<real>)
    requires |x| > 0
    ensures Sum(SquaredDeviations(x, Mean(x))) == Sum(Products(x, x)) - (|x| as real) * Mean(x) * Mean(x)
  {
    var mu, n := Mean(x), |x| as real;
    var sd := SquaredDeviations(x, mu);
    SumCentredProducts(x, x, sd, mu, mu);
    MeanTotal(Sum(sd), Sum(Products(x, x)), Sum(x), n, mu);
  }

  /** sq - mu s - mu s + n mu^2 = sq - n mu^2 once s = n mu. */
  lemma MeanTotal(total: real, sq: real, s: real, n: real, mu: real)
    requires mu * n == s
    requires total == sq + (-mu) * s + (-mu) * s + n * (mu * mu)
    ensures total == sq - n * mu * mu
  {
    assert (-mu) * s == -(n * (mu * mu));
    assert n * (mu * mu) == n * mu * mu;
  }

  /**
   * About the column's own mean, the source's variance is the mean squared
   * deviation, so it is never negative.
   */
  lemma VarianceAboutColumnMean(m: Matrix, p: nat)
    requires CanReadColumn(m, p) && m.RowCount() > 0
    ensures Variance(m, ColumnMean(m, p), p) == Sum(SquaredDeviations(Column(m, p), ColumnMean(m, p))) / (m.RowCount() as real)
    ensures Variance(m, ColumnMean(m, p), p) >= 0.0
  {
    var x := Column(m, p);
    var sd := SquaredDeviations(x, Mean(x));
    SumSquaredDeviationsAboutMean(x);
    SumNonNegative(sd);
    MeanSquaredDeviation(Sum(sd), Sum(Products(x, x)), Mean(x), |x| as real, m.RowCount() as real);
  }

  /** (sq - n mu^2) / n = sq / n - mu^2. */
  lemma MeanSquaredDeviation(total: real, sq: real, mu: real, n: real, n': real)
    requires n > 0.0 && n' == n && total == sq - n * mu * mu && total >= 0.0
    ensures sq / n' - mu * mu == total / n'
    ensures sq / n' - mu * mu >= 0.0
  {
    assert (sq - n * mu * mu) / n == sq / n - (n * mu * mu) / n;
  }

  /** With the column means and a sound square root, each standard deviation squares back to the variance. */
  lemma StandardDeviationsSquareToVariances(m: Matrix, lib: MathLib)
    requires m.WellFormed() && m.RowCount() > 0
    requires SqrtIsSquareRoot(lib)
    ensures forall i :: 0 <= i < m.columnCount ==>
      var s := StandardDeviations(m, Means(m), lib)[i];
      s >= 0.0 && s * s == Variance(m, Means(m)[i], i)
  {
    forall i | 0 <= i < m.columnCount
      ensures Variance(m, Means(m)[i], i) >= 0.0
    {
      VarianceAboutColumnMean(m, i);
    }
  }

  /** Readable arguments of ComputeCovarianceElement: the loop only indexes when there are rows. */
  predicate CovarianceReadable(m: Matrix, means: seq<real>, a: nat, b: nat) {
    CanReadColumn(m, a) && CanReadColumn(m, b) && (m.RowCount() == 0 || (a < |means| && b < |means|))
  }

  /** The per-row terms (x_a - mean_a)(x_b - mean_b) summed by ComputeCovarianceElement. */
  function CentredProducts(m: Matrix, means: seq<real>, a: nat, b: nat): (r: seq<real>)
    requires CovarianceReadable(m, means, a, b)
    ensures |r| == m.RowCount()
    ensures forall i :: 0 <= i < |r| ==> r[i] == (m.rows[i][a] - means[a]) * (m.rows[i][b] - means[b])
  {
    seq(m.RowCount(), i requires 0 <= i < m.RowCount() => (m.rows[i][a] - means[a]) * (m.rows[i][b] - means[b]))
  }

  /**
   * ComputeCovarianceElement: the centred-product sum divided by (n - 1).
   * With n = 0 that is 0 / -1 = 0; with n = 1 it is a division by zero that the
   * NaN guard turns into 0 only when the single centred product is itself 0.
   */
  function CovarianceElement(m: Matrix, means: seq<real>, a: nat, b: nat): (r: Quotient)
    requires CovarianceReadable(m, means, a, b)
    ensures m.RowCount() >= 2 ==>
      r == Finite(Sum(CentredProducts(m, means, a, b)) / ((m.RowCount() - 1) as real))
    ensures m.RowCount() == 0 ==> r == Finite(0.0)
    ensures m.RowCount() == 1 ==> (r.Finite? <==> CentredProducts(m, means, a, b)[0] == 0.0)
    ensures m.RowCount() == 1 && r.Finite? ==> r.value == 0.0
  {
    var n := m.RowCount();
    var c := CentredProducts(m, means, a, b);
    assert n == 1 ==> Sum(c) == SumTo(c, 0) + c[0];
    GuardedDivide(Sum(c), (n as real) - 1.0)
  }

  lemma CovarianceElementSymmetric(m: Matrix, means: seq<real>, a: nat, b: nat)
    requires CovarianceReadable(m, means, a, b)
    ensures CovarianceElement(m, means, a, b) == CovarianceElement(m, means, b, a)
  {
    var c, d := CentredProducts(m, means, a, b), CentredProducts(m, means, b, a);
    assert forall i :: 0 <= i < |c| ==> c[i] == d[i];
    assert c == d;
  }

  /** A single row centred on its own means has covariance exactly 0, never an infinity. */
  lemma SingleRowCovarianceIsZero(m: Matrix, a: nat, b: nat)
    requires m.WellFormed() && m.RowCount() == 1 && a < m.columnCount && b < m.columnCount
    ensures CovarianceElement(m, Means(m), a, b) == Finite(0.0)
  {
    var mu := Means(m);
    assert Sum(Column(m, a)) == SumTo(Column(m, a), 0) + m.rows[0][a];
    assert mu[a] == m.rows[0][a];
    assert CentredProducts(m, mu, a, b)[0] == 0.0;
  }

  /**
   * On the diagonal, with the column means and at least two rows, the Bessel-
   * corrected covariance is n / (n - 1) times the source's population variance.
   */
  lemma CovarianceDiagonalIsScaledVariance(m: Matrix, p: nat)
    requires m.WellFormed() && m.RowCount() >= 2 && p < m.columnCount
    ensures CovarianceElement(m, Means(m), p, p)
         == Finite((m.RowCount() as real) / ((m.RowCount() - 1) as real) * Variance(m, Means(m)[p], p))
  {
    var x, mu := Column(m, p), Means(m)[p];
    DiagonalProductsAreSquaredDeviations(m, p);
    SumSquaredDeviationsAboutMean(x);
    ScaledVariance(Sum(CentredProducts(m, Means(m), p, p)), Sum(Products(x, x)), mu, |x| as real,
                   m.RowCount() as real, (m.RowCount() - 1) as real, Variance(m, mu, p));
  }

  lemma DiagonalProductsAreSquaredDeviations(m: Matrix, p: nat)
    requires m.WellFormed() && m.RowCount() >= 1 && p < m.columnCount
    ensures CentredProducts(m, Means(m), p, p) == SquaredDeviations(Column(m, p), Mean(Column(m, p)))
  {
    var c, sd := CentredProducts(m, Means(m), p, p), SquaredDeviations(Column(m, p), Mean(Column(m, p)));
    assert forall i :: 0 <= i < |c| ==> c[i] == sd[i];
  }

  /** sum/(n-1) = n/(n-1) * (sum x^2/n - mu^2) when sum = sum x^2 - n mu^2. */
  lemma ScaledVariance(total: real, sq: real, mu: real, n: real, n': real, d: real, v: real)
    requires n >= 2.0 && n' == n && d == n - 1.0
    requires total == sq - n * mu * mu
    requires v == sq / n' - mu * mu
    ensures total / d == n' / d * v
  {
    assert n * v == sq - n * mu * mu;
  }

  /** ComputeCovariance: the D x D matrix (D = |means|) filled from the lower triangle and mirrored. */
  function Covariance(m: Matrix, means: seq<real>): (r: seq<seq<Quotient>>)
    requires m.WellFormed() && (m.RowCount() == 0 || |means| <= m.columnCount)
    ensures |r| == |means|
    ensures forall i :: 0 <= i < |r| ==> |r[i]| == |means|
    ensures forall i, j :: 0 <= i < |r| && 0 <= j < |r| ==> r[i][j] == r[j][i]
    ensures forall i, j :: 0 <= i < |r| && 0 <= j < |r| ==> r[i][j] == CovarianceElement(m, means, i, j)
  {
    var d := |means|;
    var r := seq(d, i requires 0 <= i < d =>
      seq(d, j requires 0 <= j < d =>
        if j <= i then CovarianceElement(m, means, i, j) else CovarianceElement(m, means, j, i)));
    assert forall i, j :: 0 <= i < d && 0 <= j < d ==> r[i][j] == CovarianceElement(m, means, i, j) by {
      forall i, j | 0 <= i < d && 0 <= j < d
        ensures r[i][j] == CovarianceElement(m, means, i, j)
      {
        CovarianceElementSymmetric(m, means, i, j);
      }
    }
    r
  }

  /** With two or more rows every covariance element is a finite value. */
  lemma CovarianceFinite(m: Matrix, a: nat, b: nat)
    requires m.WellFormed() && m.RowCount() >= 2 && a < m.columnCount && b < m.columnCount
    ensures CovarianceElement(m, Means(m), a, b).Finite?
  {
  }

  /** The covariance of a matrix with two or more rows about its own column means, as real entries. */
  function SampleCovariance(m: Matrix): (r: seq<seq<real>>)
    requires m.WellFormed() && m.RowCount() >= 2
    ensures |r| == m.columnCount
    ensures forall i :: 0 <= i < |r| ==> |r[i]| == m.columnCount
    ensures forall i, j :: 0 <= i < |r| && 0 <= j < |r| ==> Finite(r[i][j]) == Covariance(m, Means(m))[i][j]
  {
    var c := Covariance(m, Means(m));
    seq(|c|, i requires 0 <= i < |c| => seq(|c|, j requires 0 <= j < |c| => c[i][j].value))
  }

  /** The square roots of the covariance diagonal that ComputeCorrelation divides by. */
  function CorrelationDeviations(m: Matrix, lib: MathLib): (r: seq<real>)
    requires m.WellFormed() && m.RowCount() >= 2
    ensures |r| == m.columnCount
  {
    var c := SampleCovariance(m);
    seq(|c|, i requires 0 <= i < |c| => lib.sqrt(c[i][i]))
  }

  /** Division by a deviation of zero produces an infinity or NaN, which this model excludes. */
  predicate CorrelationDefined(m: Matrix, lib: MathLib) {
    m.WellFormed() && m.RowCount() >= 2
    && forall i :: 0 <= i < m.columnCount ==> CorrelationDeviations(m, lib)[i] != 0.0
  }

  /**
   * ComputeCorrelation as written: for j < i the loop divides entries (i, j) and
   * (j, i) once each by stds[i] * stds[j]; for j == i both statements hit the
   * same entry, so the diagonal is divided by stds[i]^2 twice.
   */
  function Correlation(m: Matrix, lib: MathLib): (r: seq<seq<real>>)
    requires CorrelationDefined(m, lib)
    ensures |r| == m.columnCount
    ensures forall i :: 0 <= i < |r| ==> |r[i]| == m.columnCount
  {
    var c, s := SampleCovariance(m), CorrelationDeviations(m, lib);
    seq(|c|, i requires 0 <= i < |c| => seq(|c|, j requires 0 <= j < |c| =>
      if i == j then c[i][i] / (s[i] * s[i]) / (s[i] * s[i]) else c[i][j] / (s[i] * s[j])))
  }

  /** Each covariance diagonal entry is the square of a non-zero deviation, so it is positive. */
  lemma CovarianceDiagonalIsSquaredDeviation(m: Matrix, lib: MathLib, i: nat)
    requires CorrelationDefined(m, lib) && SqrtIsSquareRoot(lib) && i < m.columnCount
    ensures CorrelationDeviations(m, lib)[i] * CorrelationDeviations(m, lib)[i] == SampleCovariance(m)[i][i]
    ensures SampleCovariance(m)[i][i] > 0.0
  {
    var v := SampleCovariance(m)[i][i];
    var s := CorrelationDeviations(m, lib)[i];
    CovarianceDiagonalIsScaledVariance(m, i);
    VarianceAboutColumnMean(m, i);
    var n := m.RowCount() as real;
    assert v == n / (n - 1.0) * Variance(m, Means(m)[i], i);
    assert v >= 0.0;
    assert s * s == v;
    SquareOfNonZeroIsPositive(s, v);
  }

  lemma SquareOfNonZeroIsPositive(s: real, v: real)
    requires s != 0.0 && s * s == v
    ensures v > 0.0
  {
    var a := if s < 0.0 then -s else s;
    assert a * a == s * s;
    calc {
      v;
    ==
      a * a;
    >
      0.0;
    }
  }

  lemma DivideTwiceBySelf(v: real)
    requires v > 0.0
    ensures v / v / v == 1.0 / v
  {
  }

  /** The diagonal of ComputeCorrelation is 1 / variance, not 1. */
  lemma CorrelationDiagonalIsReciprocal(m: Matrix, lib: MathLib, i: nat)
    requires CorrelationDefined(m, lib) && SqrtIsSquareRoot(lib) && i < m.columnCount
    ensures SampleCovariance(m)[i][i] > 0.0
    ensures Correlation(m, lib)[i][i] == 1.0 / SampleCovariance(m)[i][i]
  {
    var v := SampleCovariance(m)[i][i];
    var s := CorrelationDeviations(m, lib)[i];
    CovarianceDiagonalIsSquaredDeviation(m, lib, i);
    assert Correlation(m, lib)[i][i] == v / (s * s) / (s * s);
    DivideTwiceBySelf(v);
  }

  /** Two rows 0 and 2 in one column: the variance is 2, so the as-written diagonal is 1/2. */
  lemma CorrelationDiagonalCounterexample(lib: MathLib)
    requires SqrtIsSquareRoot(lib)
    ensures CorrelationDefined(Matrix([[0.0], [2.0]], 1), lib)
    ensures Correlation(Matrix([[0.0], [2.0]], 1), lib)[0][0] == 0.5
  {
    var m := Matrix([[0.0], [2.0]], 1);
    CounterexampleCovariance();
    var r := lib.sqrt(2.0);
    assert r * r == 2.0;
    assert CorrelationDeviations(m, lib)[0] == r;
    CorrelationDiagonalIsReciprocal(m, lib, 0);
  }

  /** The two-row column (0, 2) has mean 1 and sample covariance 2. */
  lemma CounterexampleCovariance()
    ensures SampleCovariance(Matrix([[0.0], [2.0]], 1))[0][0] == 2.0
  {
    var m := Matrix([[0.0], [2.0]], 1);
    assert Sum(Column(m, 0)) == 2.0 by {
      assert SumTo(Column(m, 0), 1) == 0.0;
    }
    assert Means(m)[0] == 1.0;
    var c := CentredProducts(m, Means(m), 0, 0);
    assert Sum(c) == 2.0 by {
      assert SumTo(c, 1) == 1.0;
    }
  }

  /** A correlation that divides each entry once, as the name of the operation promises. */
  function CorrelationCorrected(m: Matrix, lib: MathLib): (r: seq<seq<real>>)
    requires CorrelationDefined(m, lib)
    ensures |r| == m.columnCount
    ensures forall i :: 0 <= i < |r| ==> |r[i]| == m.columnCount
  {
    var c, s := SampleCovariance(m), CorrelationDeviations(m, lib);
    seq(|c|, i requires 0 <= i < |c| => seq(|c|, j requires 0 <= j < |c| => c[i][j] / (s[i] * s[j])))
  }

  lemma CorrelationCorrectedDiagonal(m: Matrix, lib: MathLib, i: nat)
    requires CorrelationDefined(m, lib) && SqrtIsSquareRoot(lib) && i < m.columnCount
    ensures CorrelationCorrected(m, lib)[i][i] == 1.0
  {
    var c, s := SampleCovariance(m), CorrelationDeviations(m, lib);
    CovarianceDiagonalIsSquaredDeviation(m, lib, i);
    var d := s[i] * s[i];
    assert CorrelationCorrected(m, lib)[i][i] == c[i][i] / d;
    DivideBySelf(c[i][i], d);
  }

  lemma DivideBySelf(x: real, d: real)
    requires d == x && x > 0.0
    ensures x / d == 1.0
  {
  }

  lemma CorrelationCorrectedEntrySymmetric(m: Matrix, lib: MathLib, i: nat, j: nat)
    requires CorrelationDefined(m, lib) && i < m.columnCount && j < m.columnCount
    ensures CorrelationCorrected(m, lib)[i][j] == CorrelationCorrected(m, lib)[j][i]
  {
    var c, s := SampleCovariance(m), CorrelationDeviations(m, lib);
    assert Finite(c[i][j]) == Finite(c[j][i]);
    SwappedQuotient(c[i][j], c[j][i], s[i], s[j]);
  }

  lemma SwappedQuotient(a: real, b: real, x: real, y: real)
    requires a == b && x * y != 0.0
    ensures a / (x * y) == b / (y * x)
  {
    assert x * y == y * x;
  }

  /** The corrected correlation has a unit diagonal and is symmetric. */
  lemma CorrelationCorrectedIsUnitSymmetric(m: Matrix, lib: MathLib)
    requires CorrelationDefined(m, lib) && SqrtIsSquareRoot(lib)
    ensures forall i :: 0 <= i < m.columnCount ==> CorrelationCorrected(m, lib)[i][i] == 1.0
    ensures forall i, j :: 0 <= i < m.columnCount && 0 <= j < m.columnCount ==>
      CorrelationCorrected(m, lib)[i][j] == CorrelationCorrected(m, lib)[j][i]
  {
    forall i | 0 <= i < m.columnCount
      ensures CorrelationCorrected(m, lib)[i][i] == 1.0
    {
      CorrelationCorrectedDiagonal(m, lib, i);
    }
    forall i, j | 0 <= i < m.columnCount && 0 <= j < m.columnCount
      ensures CorrelationCorrected(m, lib)[i][j] == CorrelationCorrected(m, lib)[j][i]
    {
      CorrelationCorrectedEntrySymmetric(m, lib, i, j);
    }
  }

  /** CenterValues: subtracts the means vector from every row; the shape is kept. */
  function CenterValues(m: Matrix, means: seq<real>): (r: Matrix)
    requires m.WellFormed() && (m.RowCount() == 0 || |means| == m.columnCount)
    ensures r.WellFormed() && r.RowCount() == m.RowCount() && r.columnCount == m.columnCount
    ensures forall i, j :: 0 <= i < r.RowCount() && 0 <= j < r.columnCount ==>
      r.rows[i][j] == m.rows[i][j] - means[j]
  {
    var n, d := m.RowCount(), m.columnCount;
    Matrix(seq(n, i requires 0 <= i < n => seq(d, j requires 0 <= j < d => m.rows[i][j] - means[j])), d)
  }

  /** Centring on the matrix's own column means leaves every column with mean 0. */
  lemma CenteredColumnsHaveZeroMean(m: Matrix)
    requires m.WellFormed() && m.RowCount() > 0
    ensures forall p :: 0 <= p < m.columnCount ==> ColumnMean(CenterValues(m, Means(m)), p) == 0.0
  {
    var c := CenterValues(m, Means(m));
    forall p | 0 <= p < m.columnCount
      ensures ColumnMean(c, p) == 0.0
    {
      var x, y, mu := Column(m, p), Column(c, p), Means(m)[p];
      SumSub(x, Constant(|x|, mu), y);
      SumConst(Constant(|x|, mu), mu);
      assert Sum(x) == mu * (|x| as real);
      assert Sum(y) == 0.0;
    }
  }

  /** Unity's `Vector4`. */
  datatype Vector4 = Vector4(x: real, y: real, z: real, w: real) {
    function At(i: nat): real
      requires i < 4
    {
      if i == 0 then x else if i == 1 then y else if i == 2 then z else w
    }
  }

  /** Unity's `Matrix4x4`, built from four columns. */
  datatype Matrix4x4 = Matrix4x4(column0: Vector4, column1: Vector4, column2: Vector4, column3: Vector4) {
    function GetColumn(j: nat): Vector4
      requires j < 4
    {
      if j == 0 then column0 else if j == 1 then column1 else if j == 2 then column2 else column3
    }
  }

  predicate HasBlock3x3(m: Matrix) {
    m.WellFormed() && m.RowCount() >= 3 && m.columnCount >= 3
  }

  /** Column j of the top-left 3x3 block, with the w = 0 that `new Vector4(x, y, z)` supplies. */
  function BlockColumn(m: Matrix, j: nat): Vector4
    requires HasBlock3x3(m) && j < 3
  {
    Vector4(m.rows[0][j], m.rows[1][j], m.rows[2][j], 0.0)
  }

  /** ToUnityMatrix: the 3x3 block as the upper-left of a homogeneous 4x4 matrix. */
  function ToUnityMatrix(m: Matrix): (u: Matrix4x4)
    requires HasBlock3x3(m)
    ensures u.column3 == Vector4(0.0, 0.0, 0.0, 1.0)
    ensures u.column0.w == 0.0 && u.column1.w == 0.0 && u.column2.w == 0.0
    ensures forall i, j :: 0 <= i < 3 && 0 <= j < 3 ==> u.GetColumn(j).At(i) == m.rows[i][j]
  {
    Matrix4x4(BlockColumn(m, 0), BlockColumn(m, 1), BlockColumn(m, 2), Vector4(0.0, 0.0, 0.0, 1.0))
  }

  /** FromUnityMatrix: the upper-left 3x3 block of a 4x4 matrix. */
  function FromUnityMatrix(u: Matrix4x4): (m: Matrix)
    ensures m.WellFormed() && m.RowCount() == 3 && m.columnCount == 3
    ensures forall i, j :: 0 <= i < 3 && 0 <= j < 3 ==> m.rows[i][j] == u.GetColumn(j).At(i)
  {
    Matrix(seq(3, i requires 0 <= i < 3 => seq(3, j requires 0 <= j < 3 => u.GetColumn(j).At(i))), 3)
  }

  lemma FromUnityAfterToUnity(m: Matrix)
    requires m.WellFormed() && m.RowCount() == 3 && m.columnCount == 3
    ensures FromUnityMatrix(ToUnityMatrix(m)) == m
  {
    var r := FromUnityMatrix(ToUnityMatrix(m));
    forall i | 0 <= i < 3
      ensures r.rows[i] == m.rows[i]
    {
      assert forall j :: 0 <= j < 3 ==> r.rows[i][j] == m.rows[i][j];
    }
  }

  lemma ToUnityAfterFromUnity(u: Matrix4x4)
    requires u.column3 == Vector4(0.0, 0.0, 0.0, 1.0)
    requires u.column0.w == 0.0 && u.column1.w == 0.0 && u.column2.w == 0.0
    ensures ToUnityMatrix(FromUnityMatrix(u)) == u
  {
  }
}
