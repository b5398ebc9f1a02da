/**
 * The style of a point cloud (Assets/Scripts/PointCloudStyleExtractor.cs):
 * the arrangement of the PCA normal directions onto the X, Y and Z axes, the
 * six one-sided normal channels of every point, and the statistics folded over
 * the points: a 9-D mean and covariance of (Lab, channels), and a mean and
 * standard deviation of each Lab component per normal direction.
 *
 * The PCA itself is a library call and is taken as an input basis.
 */
module PointCloudStyleExtractor {
  import opened Linear
  import opened Wrappers
  import MatrixUtils
  import ColorUtils

  // ---------------------------------------------------------------- normal basis

  datatype Axis = X | Y | Z {
    function Index(): (i: nat)
      ensures i < 3
    {
      match this
      case X => 0
      case Y => 1
      case Z => 2
    }
  }

  function Unit(a: Axis): Vec3 {
    match a
    case X => Vec3(1.0, 0.0, 0.0)
    case Y => Vec3(0.0, 1.0, 0.0)
    case Z => Vec3(0.0, 0.0, 1.0)
  }

  /** The 3x3 `m_eigenNormals`, row by row. */
  datatype Basis = Basis(row0: Vec3, row1: Vec3, row2: Vec3) {

    function Row(i: nat): Vec3
      requires i < 3
    {
      if i == 0 then row0 else if i == 1 then row1 else row2
    }

    /** MathNet's SetRow. */
    function WithRow(i: nat, v: Vec3): (r: Basis)
      requires i < 3
      ensures r.Row(i) == v
      ensures forall j :: 0 <= j < 3 && j != i ==> r.Row(j) == Row(j)
    {
      if i == 0 then this.(row0 := v) else if i == 1 then this.(row1 := v) else this.(row2 := v)
    }
  }

  /** CreateMatrix.DiagonalIdentity(3). */
  const Identity := Basis(Unit(X), Unit(Y), Unit(Z))

  /**
   * The axis an eigenvector is closest to, by the source's guards: X wins ties
   * with >= against both, Y needs > X and >= Z, Z is what remains.
   */
  function Preferred(v: Vec3): Axis {
    var ax, ay, az := Abs(v.x), Abs(v.y), Abs(v.z);
    if ax >= ay && ax >= az then X
    else if ay > ax && ay >= az then Y
    else Z
  }

  /** The source's third guard (|z| strictly above both) always holds when the first two fail: every vector has an axis. */
  lemma PreferredIsExhaustive(v: Vec3)
    ensures Preferred(v) == Z ==> Abs(v.z) > Abs(v.x) && Abs(v.z) > Abs(v.y)
  {
  }

  /**
   * One `if / else if / else if` block of lines 84-123: an eigenvector claims
   * its preferred axis if no earlier eigenvector took it, and otherwise claims
   * nothing; it never falls back to its second-best axis.
   */
  function Claim(v: Vec3, found: set<Axis>): (r: Option<Axis>)
    ensures r == (if Preferred(v) in found then None else Some(Preferred(v)))
  {
    var ax, ay, az := Abs(v.x), Abs(v.y), Abs(v.z);
    if X !in found && ax >= ay && ax >= az then Some(X)
    else if Y !in found && ay > ax && ay >= az then Some(Y)
    else if Z !in found && az > ax && az > ay then Some(Z)
    else None
  }

  /** `v.DotProduct(axis) > 0 ? v : -v`: the eigenvector turned to face the axis. */
  function Oriented(v: Vec3, a: Axis): (r: Vec3)
    ensures r.At(a.Index()) >= 0.0
    ensures r == v || r == v.Neg()
    ensures v.At(a.Index()) > 0.0 ==> r == v
    ensures v.At(a.Index()) < 0.0 ==> r == v.Neg()
  {
    if v.At(a.Index()) > 0.0 then v else v.Neg()
  }

  /**
   * The basis being rewritten, which eigenvector took each axis (the source's
   * Xfound/Yfound/Zfound are the keys), and what each eigenvector claimed.
   */
  datatype Arrangement = Arrangement(basis: Basis, owner: map<Axis, nat>, claims: seq<Option<Axis>>)

  /** One eigenvector's step of the automatic arrangement. */
  function Place(s: Arrangement, v: Vec3): Arrangement {
    match Claim(v, s.owner.Keys)
    case None => s.(claims := s.claims + [None])
    case Some(a) => Arrangement(s.basis.WithRow(a.Index(), Oriented(v, a)), s.owner[a := |s.claims|], s.claims + [Some(a)])
  }

  /** What holds after the first n eigenvectors have been placed. */
  predicate Placed(pca: Basis, s: Arrangement, n: nat) {
    && n <= 3 && |s.claims| == n
    && (forall i :: 0 <= i < n ==> s.claims[i] == None || s.claims[i] == Some(Preferred(pca.Row(i))))
    && (forall a :: a in s.owner ==> s.owner[a] < n && s.claims[s.owner[a]] == Some(a))
    && (forall i :: 0 <= i < n && s.claims[i].Some? ==> s.claims[i].value in s.owner && s.owner[s.claims[i].value] == i)
    && (forall a :: a in s.owner ==> s.basis.Row(a.Index()) == Oriented(pca.Row(s.owner[a]), a))
    && (forall a :: a !in s.owner ==> s.basis.Row(a.Index()) == pca.Row(a.Index()))
  }

  lemma PlaceStep(pca: Basis, s: Arrangement, n: nat)
    requires Placed(pca, s, n) && n < 3
    ensures Placed(pca, Place(s, pca.Row(n)), n + 1)
  {
    match Claim(pca.Row(n), s.owner.Keys)
    case None =>
    case Some(a) => PlaceClaimStep(pca, s, n, a);
  }

  /** The step of PlaceStep in which eigenvector n takes axis a. */
  lemma PlaceClaimStep(pca: Basis, s: Arrangement, n: nat, a: Axis)
    requires Placed(pca, s, n) && n < 3 && Claim(pca.Row(n), s.owner.Keys) == Some(a)
    ensures Placed(pca, Place(s, pca.Row(n)), n + 1)
  {
    var t := Place(s, pca.Row(n));
    assert t == Arrangement(s.basis.WithRow(a.Index(), Oriented(pca.Row(n), a)), s.owner[a := n], s.claims + [Some(a)]);
    forall b: Axis | b != a
      ensures t.basis.Row(b.Index()) == s.basis.Row(b.Index())
    {
    }
  }

  /** The first n eigenvectors placed, in order, starting from the PCA rows themselves. */
  function PlaceAll(pca: Basis, n: nat): (r: Arrangement)
    requires n <= 3
    ensures Placed(pca, r, n)
  {
    if n == 0 then Arrangement(pca, map[], [])
    else
      var s := PlaceAll(pca, n - 1);
      PlaceStep(pca, s, n - 1);
      Place(s, pca.Row(n - 1))
  }

  /**
   * The automatic arrangement of lines 63-123, starting from the PCA rows
   * themselves: rows of axes nobody claims keep the PCA row at that index.
   */
  function Arrange(pca: Basis): (r: Arrangement)
    ensures |r.claims| == 3
    ensures forall i :: 0 <= i < 3 ==> r.claims[i] == None || r.claims[i] == Some(Preferred(pca.Row(i)))
    ensures forall i, j :: 0 <= i < 3 && 0 <= j < 3 && i != j && r.claims[i].Some? ==> r.claims[i] != r.claims[j]
    ensures forall a :: a in r.owner ==> r.owner[a] < 3 && r.claims[r.owner[a]] == Some(a)
    ensures forall i :: 0 <= i < 3 && r.claims[i].Some? ==> r.claims[i].value in r.owner && r.owner[r.claims[i].value] == i
    ensures forall a :: a in r.owner ==> r.basis.Row(a.Index()) == Oriented(pca.Row(r.owner[a]), a)
    ensures forall a :: a !in r.owner ==> r.basis.Row(a.Index()) == pca.Row(a.Index())
  {
    PlaceAll(pca, 3)
  }

  /** Placing more eigenvectors never changes what the earlier ones claimed. */
  lemma {:induction false} ClaimsArePrefix(pca: Basis, n: nat, m: nat)
    requires n <= m <= 3
    ensures PlaceAll(pca, n).claims == PlaceAll(pca, m).claims[..n]
    decreases m
  {
    if n < m {
      ClaimsArePrefix(pca, n, m - 1);
      var s := PlaceAll(pca, m - 1);
      PlaceAppendsClaim(s, pca.Row(m - 1));
      PrefixOfExtension(s.claims, Claim(pca.Row(m - 1), s.owner.Keys), n);
    }
  }

  /** Placing an eigenvector appends exactly its claim. */
  lemma PlaceAppendsClaim(s: Arrangement, v: Vec3)
    ensures Place(s, v).claims == s.claims + [Claim(v, s.owner.Keys)]
  {
  }

  lemma PrefixOfExtension<T>(xs: seq<T>, x: T, n: nat)
    requires n <= |xs|
    ensures (xs + [x])[..n] == xs[..n]
  {
  }

  /** The first eigenvector always claims its preferred axis. */
  lemma FirstClaimSucceeds(pca: Basis)
    ensures Arrange(pca).claims[0] == Some(Preferred(pca.row0))
  {
    ClaimsArePrefix(pca, 1, 3);
  }

  /** An eigenvector is left unclaimed exactly when an earlier one took its preferred axis. */
  lemma UnclaimedMeansTaken(pca: Basis, i: nat)
    requires i < 3
    ensures Arrange(pca).claims[i] == None <==>
      exists j :: 0 <= j < i && Arrange(pca).claims[j] == Some(Preferred(pca.Row(i)))
  {
    var s := PlaceAll(pca, i);
    ArrangeAt(pca, i);
    var c := Arrange(pca).claims;
    var p := Preferred(pca.Row(i));
    if c[i] == None {
      var j := s.owner[p];
      assert c[j] == s.claims[j];
    } else {
      forall j | 0 <= j < i
        ensures c[j] != Some(p)
      {
        assert c[j] == s.claims[j];
      }
    }
  }

  /** Eigenvector i's final claim is the one it made against the first i placements, which the end result keeps. */
  lemma ArrangeAt(pca: Basis, i: nat)
    requires i < 3
    ensures Arrange(pca).claims[i] == Claim(pca.Row(i), PlaceAll(pca, i).owner.Keys)
    ensures forall j :: 0 <= j < i ==> Arrange(pca).claims[j] == PlaceAll(pca, i).claims[j]
  {
    var s := PlaceAll(pca, i);
    ClaimsArePrefix(pca, i, 3);
    ClaimsArePrefix(pca, i + 1, 3);
    PlaceAppendsClaim(s, pca.Row(i));
    assert PlaceAll(pca, i + 1).claims[i] == Claim(pca.Row(i), s.owner.Keys);
  }

  /** The normal basis used for the statistics: the identity unless normal PCA is on (lines 46-123). */
  function NormalBasis(normalsPca: bool, pca: Basis): (r: Basis)
    ensures !normalsPca ==> r == Identity
    ensures normalsPca ==> r == Arrange(pca).basis
  {
    if normalsPca then Arrange(pca).basis else Identity
  }

  /** Eigenvectors that prefer three different axes, each facing its axis as a unit vector, give the identity. */
  lemma DistinctFacingPreferencesArrangeToIdentity(pca: Basis, axes: seq<Axis>)
    requires |axes| == 3
    requires axes[0] != axes[1] && axes[0] != axes[2] && axes[1] != axes[2]
    requires forall i :: 0 <= i < 3 ==> Preferred(pca.Row(i)) == axes[i]
    requires forall i :: 0 <= i < 3 ==> Oriented(pca.Row(i), axes[i]) == Unit(axes[i])
    ensures Arrange(pca).basis == Identity
  {
    DistinctPreferencesPermuteRows(pca, axes);
    PermutedUnitRowsAreIdentity(Arrange(pca).basis, axes);
  }

  /** A basis whose rows, in some order of the three axes, are those axes' unit vectors is the identity. */
  lemma PermutedUnitRowsAreIdentity(b: Basis, axes: seq<Axis>)
    requires |axes| == 3
    requires axes[0] != axes[1] && axes[0] != axes[2] && axes[1] != axes[2]
    requires forall k :: 0 <= k < 3 ==> b.Row(axes[k].Index()) == Unit(axes[k])
    ensures b == Identity
  {
    DistinctAxesCoverAll(axes);
    forall a: Axis
      ensures b.Row(a.Index()) == Unit(a)
    {
      var k :| 0 <= k < 3 && axes[k] == a;
    }
    UnitRowsAreIdentity(b);
  }

  lemma UnitRowsAreIdentity(b: Basis)
    requires b.Row(X.Index()) == Unit(X) && b.Row(Y.Index()) == Unit(Y) && b.Row(Z.Index()) == Unit(Z)
    ensures b == Identity
  {
  }

  lemma DistinctAxesCoverAll(axes: seq<Axis>)
    requires |axes| == 3
    requires axes[0] != axes[1] && axes[0] != axes[2] && axes[1] != axes[2]
    ensures X in axes && Y in axes && Z in axes
  {
  }

  /** When the three eigenvectors prefer three different axes, each claims its own. */
  lemma DistinctPreferencesAreAllClaimed(pca: Basis, axes: seq<Axis>)
    requires |axes| == 3
    requires axes[0] != axes[1] && axes[0] != axes[2] && axes[1] != axes[2]
    requires forall k :: 0 <= k < 3 ==> Preferred(pca.Row(k)) == axes[k]
    ensures forall k :: 0 <= k < 3 ==> Arrange(pca).claims[k] == Some(axes[k])
  {
    forall i | 0 <= i < 3
      ensures Arrange(pca).claims[i] == Some(axes[i])
    {
      UnclaimedMeansTaken(pca, i);
    }
  }

  /**
   * When the three eigenvectors prefer three different axes, the arrangement
   * is a signed permutation: eigenvector i, turned to face its axis, becomes
   * the row of that axis.
   */
  lemma DistinctPreferencesPermuteRows(pca: Basis, axes: seq<Axis>)
    requires |axes| == 3
    requires axes[0] != axes[1] && axes[0] != axes[2] && axes[1] != axes[2]
    requires forall k :: 0 <= k < 3 ==> Preferred(pca.Row(k)) == axes[k]
    ensures forall k :: 0 <= k < 3 ==> Arrange(pca).basis.Row(axes[k].Index()) == Oriented(pca.Row(k), axes[k])
  {
    DistinctPreferencesAreAllClaimed(pca, axes);
    var r := Arrange(pca);
    forall k | 0 <= k < 3
      ensures r.basis.Row(axes[k].Index()) == Oriented(pca.Row(k), axes[k])
    {
      assert r.claims[k] == Some(axes[k]);
      assert axes[k] in r.owner && r.owner[axes[k]] == k;
    }
  }

  /** The basis as a MathNet 3x3 matrix. */
  function BasisMatrix(b: Basis): (m: MatrixUtils.Matrix)
    ensures m.WellFormed() && m.RowCount() == 3 && m.columnCount == 3
    ensures forall i, j :: 0 <= i < 3 && 0 <= j < 3 ==> m.rows[i][j] == b.Row(i).At(j)
  {
    MatrixUtils.Matrix([[b.row0.x, b.row0.y, b.row0.z], [b.row1.x, b.row1.y, b.row1.z], [b.row2.x, b.row2.y, b.row2.z]], 3)
  }

  /** GetEigenNormals: column j of the Unity matrix is column j of the basis, padded with w = 0, then (0, 0, 0, 1). */
  function GetEigenNormals(b: Basis): MatrixUtils.Matrix4x4 {
    MatrixUtils.Matrix4x4(
      MatrixUtils.Vector4(b.row0.x, b.row1.x, b.row2.x, 0.0),
      MatrixUtils.Vector4(b.row0.y, b.row1.y, b.row2.y, 0.0),
      MatrixUtils.Vector4(b.row0.z, b.row1.z, b.row2.z, 0.0),
      MatrixUtils.Vector4(0.0, 0.0, 0.0, 1.0))
  }

  /** GetEigenNormals is ToUnityMatrix of the basis, so FromUnityMatrix recovers the basis. */
  lemma GetEigenNormalsIsToUnityMatrix(b: Basis)
    ensures GetEigenNormals(b) == MatrixUtils.ToUnityMatrix(BasisMatrix(b))
    ensures MatrixUtils.FromUnityMatrix(GetEigenNormals(b)) == BasisMatrix(b)
  {
    MatrixUtils.FromUnityAfterToUnity(BasisMatrix(b));
  }

  // ---------------------------------------------------------------- normal channels

  /** `normal * m_eigenNormals`: a row vector times the matrix, i.e. sum_i n_i * row_i. */
  function Transform(n: Vec3, b: Basis): Vec3 {
    b.row0.Scale(n.x).Plus(b.row1.Scale(n.y)).Plus(b.row2.Scale(n.z))
  }

  lemma TransformByIdentity(n: Vec3)
    ensures Transform(n, Identity) == n
  {
  }

  function SquaredNorm(v: Vec3): real {
    v.x * v.x + v.y * v.y + v.z * v.z
  }

  /** MathNet's Normalize(2): a vector of norm 0 is returned unchanged. */
  function NormalizeL2(v: Vec3, lib: MathLib): Vec3 {
    var norm := lib.sqrt(SquaredNorm(v));
    if norm == 0.0 then v else v.Scale(1.0 / norm)
  }

  function L1Norm(v: Vec3): (r: real)
    ensures r >= 0.0
    ensures r == 0.0 <==> v.IsZero()
  {
    Abs(v.x) + Abs(v.y) + Abs(v.z)
  }

  /** MathNet's Normalize(1): divide by the sum of absolute values, unless that is 0. */
  function NormalizeL1(v: Vec3): Vec3 {
    var norm := L1Norm(v);
    if norm == 0.0 then v else v.Scale(1.0 / norm)
  }

  /** Normalize(1) leaves the zero vector alone and sends every other vector to L1 norm 1. */
  lemma NormalizeL1HasUnitNorm(v: Vec3)
    ensures v.IsZero() ==> NormalizeL1(v) == v
    ensures !v.IsZero() ==> L1Norm(NormalizeL1(v)) == 1.0
  {
    if !v.IsZero() {
      var norm := L1Norm(v);
      ScaledL1(v, 1.0 / norm, norm);
    }
  }

  lemma ScaledL1(v: Vec3, k: real, norm: real)
    requires norm == L1Norm(v) && norm > 0.0 && k == 1.0 / norm
    ensures L1Norm(v.Scale(k)) == 1.0
  {
    AbsOfScaled(v.x, k);
    AbsOfScaled(v.y, k);
    AbsOfScaled(v.z, k);
    assert L1Norm(v.Scale(k)) == k * norm;
  }

  lemma AbsOfScaled(x: real, k: real)
    requires k > 0.0
    ensures Abs(k * x) == k * Abs(x)
  {
    if x < 0.0 {
      assert k * x < 0.0 by {
        assert k * (-x) > 0.0 by {
          PositiveProduct(k, -x);
        }
      }
    } else {
      ProductNonNegative(k, x);
    }
  }

  lemma PositiveProduct(a: real, b: real)
    requires a > 0.0 && b > 0.0
    ensures a * b > 0.0
  {
    calc {
      a * b;
    >
      0.0 * b;
    }
  }

  /** Line 150: |min(x, 0)|, max(x, 0) for each of x, y, z. */
  function Channels(v: Vec3): (r: seq<real>)
    ensures |r| == 6
    ensures forall k :: 0 <= k < 6 ==> r[k] >= 0.0
    ensures forall i :: 0 <= i < 3 ==> r[2 * i] * r[2 * i + 1] == 0.0
    ensures forall i :: 0 <= i < 3 ==> r[2 * i + 1] - r[2 * i] == v.At(i)
    ensures Sum(r) == L1Norm(v)
  {
    var r := [Abs(Min(v.x, 0.0)), Max(v.x, 0.0), Abs(Min(v.y, 0.0)), Max(v.y, 0.0), Abs(Min(v.z, 0.0)), Max(v.z, 0.0)];
    SumOfSix(r);
    r
  }

  /** The six channels of a point's normal, as lines 135-150 compute them. */
  function NormalChannels(n: Vec3, b: Basis, lib: MathLib): seq<real> {
    DirectionChannels(Transform(n, b), lib)
  }

  /** Lines 136-150 applied to an already transformed normal. */
  function DirectionChannels(v: Vec3, lib: MathLib): seq<real> {
    Channels(NormalizeL1(NormalizeL2(v, lib)))
  }

  ghost predicate SqrtPositive(lib: MathLib) {
    forall x :: x > 0.0 ==> lib.sqrt(x) > 0.0
  }

  lemma SquaredNormPositive(v: Vec3)
    requires !v.IsZero()
    ensures SquaredNorm(v) > 0.0
  {
    calc {
      SquaredNorm(v);
    ==
      v.x * v.x + v.y * v.y + v.z * v.z;
    >  { SumOfSquaresPositive(v.x, v.y, v.z); }
      0.0;
    }
  }

  lemma ScaledZero(v: Vec3, k: real)
    requires v.IsZero()
    ensures v.Scale(k) == v
  {
  }

  /** A non-zero vector stays non-zero under a non-zero scale factor. */
  lemma ScaledNonZero(v: Vec3, k: real)
    requires !v.IsZero() && k != 0.0
    ensures !v.Scale(k).IsZero()
  {
    if v.x != 0.0 {
      NonZeroProduct(k, v.x);
    } else if v.y != 0.0 {
      NonZeroProduct(k, v.y);
    } else {
      NonZeroProduct(k, v.z);
    }
  }

  lemma NonZeroProduct(a: real, b: real)
    requires a != 0.0 && b != 0.0
    ensures a * b != 0.0
  {
    assert (a * b) / a == b;
  }

  /** With a square root that is positive on positive arguments, Normalize(2) keeps a vector non-zero. */
  lemma NormalizeL2KeepsNonZero(v: Vec3, lib: MathLib)
    requires SqrtPositive(lib) && !v.IsZero()
    ensures !NormalizeL2(v, lib).IsZero()
  {
    SquaredNormPositive(v);
    var norm := lib.sqrt(SquaredNorm(v));
    assert norm > 0.0;
    ScaledNonZero(v, 1.0 / norm);
  }

  /** A point whose normal the basis sends to a non-zero vector spreads total weight 1 over its six channels. */
  lemma NormalChannelsSumToOne(n: Vec3, b: Basis, lib: MathLib)
    requires SqrtPositive(lib) && !Transform(n, b).IsZero()
    ensures Sum(NormalChannels(n, b, lib)) == 1.0
  {
    NormalizeL2KeepsNonZero(Transform(n, b), lib);
    NormalizeL1HasUnitNorm(NormalizeL2(Transform(n, b), lib));
  }

  /** A zero normal (or one the basis annihilates) contributes to no channel. */
  lemma ZeroNormalHasNoChannels(n: Vec3, b: Basis, lib: MathLib)
    requires Transform(n, b).IsZero()
    ensures NormalChannels(n, b, lib) == [0.0, 0.0, 0.0, 0.0, 0.0, 0.0]
  {
    ZeroDirectionHasNoChannels(Transform(n, b), lib);
  }

  lemma ZeroDirectionHasNoChannels(v: Vec3, lib: MathLib)
    requires v.IsZero()
    ensures DirectionChannels(v, lib) == [0.0, 0.0, 0.0, 0.0, 0.0, 0.0]
  {
    NormalizeL2OfZero(v, lib);
    NormalizeL1HasUnitNorm(v);
    ChannelsOfZero(v);
  }

  lemma ChannelsOfZero(v: Vec3)
    requires v.IsZero()
    ensures Channels(v) == [0.0, 0.0, 0.0, 0.0, 0.0, 0.0]
  {
  }

  lemma NormalizeL2OfZero(v: Vec3, lib: MathLib)
    requires v.IsZero()
    ensures NormalizeL2(v, lib) == v
  {
    var norm := lib.sqrt(SquaredNorm(v));
    if norm != 0.0 {
      ScaledZero(v, 1.0 / norm);
    }
  }

  /** Normalize(1) ignores a positive scale factor, so the L2 step before it is redundant. */
  lemma NormalizeL1ScaleInvariant(v: Vec3, k: real)
    requires k > 0.0
    ensures NormalizeL1(v.Scale(k)) == NormalizeL1(v)
  {
    if v.IsZero() {
      ScaledZero(v, k);
    } else {
      ScaledL1Norm(v, k);
      ScaledNonZero(v, k);
      NonZeroScaleInvariant(v, v.Scale(k), k, L1Norm(v), L1Norm(v.Scale(k)));
    }
  }

  lemma NonZeroScaleInvariant(v: Vec3, w: Vec3, k: real, n: real, m: real)
    requires k > 0.0 && !v.IsZero() && !w.IsZero() && w == v.Scale(k)
    requires n == L1Norm(v) && m == L1Norm(w) && m == k * n
    ensures NormalizeL1(w) == NormalizeL1(v)
  {
    NormalizeL1OfNonZero(v);
    NormalizeL1OfNonZero(w);
    ScaleCancel(v, k, n, m);
  }

  lemma ScaledL1Norm(v: Vec3, k: real)
    requires k > 0.0
    ensures L1Norm(v.Scale(k)) == k * L1Norm(v)
  {
    var norm := L1Norm(v);
    AbsOfScaled(v.x, k);
    AbsOfScaled(v.y, k);
    AbsOfScaled(v.z, k);
    assert L1Norm(v.Scale(k)) == k * norm;
  }

  lemma NormalizeL1OfNonZero(v: Vec3)
    requires !v.IsZero()
    ensures NormalizeL1(v) == v.Scale(1.0 / L1Norm(v))
  {
  }

  lemma ScaleCancel(v: Vec3, k: real, n: real, m: real)
    requires k > 0.0 && n > 0.0 && m == k * n
    ensures v.Scale(k).Scale(1.0 / m) == v.Scale(1.0 / n)
  {
    CancelFactor(k, v.x, n);
    CancelFactor(k, v.y, n);
    CancelFactor(k, v.z, n);
  }

  lemma CancelFactor(k: real, x: real, n: real)
    requires k > 0.0 && n > 0.0
    ensures (1.0 / (k * n)) * (k * x) == (1.0 / n) * x
  {
    assert k * n > 0.0;
    calc {
      (1.0 / (k * n)) * (k * x);
      (k * x) / (k * n);
      x / n;
      (1.0 / n) * x;
    }
  }

  /**
   * With a square root that is positive on positive numbers, the six channels
   * of a direction do not depend on its Normalize(2) step: they are those of
   * its Normalize(1) alone.
   */
  lemma L2StepIsIrrelevant(v: Vec3, lib: MathLib)
    requires SqrtPositive(lib)
    ensures DirectionChannels(v, lib) == Channels(NormalizeL1(v))
  {
    if v.IsZero() {
      NormalizeL2OfZero(v, lib);
    } else {
      SquaredNormPositive(v);
      var norm := lib.sqrt(SquaredNorm(v));
      assert norm > 0.0;
      PositiveQuotient(1.0, norm);
      NormalizeL1ScaleInvariant(v, 1.0 / norm);
    }
  }

  // ---------------------------------------------------------------- statistics

  /** One point's contribution: its Reinhard Lab colour and its six normal channels. */
  datatype Sample = Sample(lab: ColorUtils.Color, channels: seq<real>)

  predicate ValidSample(s: Sample) {
    |s.channels| == 6 && forall k :: 0 <= k < 6 ==> s.channels[k] >= 0.0
  }

  predicate ValidSamples(ss: seq<Sample>) {
    forall p :: 0 <= p < |ss| ==> ValidSample(ss[p])
  }

  /** Line 161: the 9-D data point (L, alpha, beta, n0, ..., n5). */
  function Values(s: Sample): (r: seq<real>)
    requires |s.channels| == 6
    ensures |r| == 9
    ensures r[0] == s.lab.r && r[1] == s.lab.g && r[2] == s.lab.b
    ensures forall k :: 0 <= k < 6 ==> r[3 + k] == s.channels[k]
  {
    [s.lab.r, s.lab.g, s.lab.b] + s.channels
  }

  /** Component i of every data point. */
  function Component(ss: seq<Sample>, i: nat): (r: seq<real>)
    requires ValidSamples(ss) && i < 9
    ensures |r| == |ss|
    ensures forall p :: 0 <= p < |ss| ==> r[p] == Values(ss[p])[i]
  {
    seq(|ss|, p requires 0 <= p < |ss| => Values(ss[p])[i])
  }

  /** Line 178: the accumulated data points divided by their number. */
  function GlobalMean(ss: seq<Sample>): (r: seq<real>)
    requires ValidSamples(ss) && |ss| > 0
    ensures |r| == 9
    ensures forall i :: 0 <= i < 9 ==> r[i] * (|ss| as real) == Sum(Component(ss, i))
  {
    seq(9, i requires 0 <= i < 9 => Sum(Component(ss, i)) / (|ss| as real))
  }

  /** Lines 181-187: an entry that is exactly zero is replaced by 1e-3. */
  function RemoveSingularity(x: real): (r: real)
    ensures r != 0.0
    ensures x != 0.0 ==> r == x
  {
    if x == 0.0 then 0.001 else x
  }

  /** Entry (i, j) of the accumulated outer products, sum_p v_i v_j. */
  function SecondMoment(ss: seq<Sample>, i: nat, j: nat): real
    requires ValidSamples(ss) && i < 9 && j < 9
  {
    Sum(Products(Component(ss, i), Component(ss, j)))
  }

  lemma SecondMomentSymmetric(ss: seq<Sample>, i: nat, j: nat)
    requires ValidSamples(ss) && i < 9 && j < 9
    ensures SecondMoment(ss, i, j) == SecondMoment(ss, j, i)
  {
    var u, v := Component(ss, i), Component(ss, j);
    assert Products(u, v) == Products(v, u);
  }

  /**
   * Lines 179-188, entry (i, j): sum v_i v_j / (N - 1), an exact zero replaced
   * by 1e-3, then mean_i mean_j subtracted (not N/(N-1) of it).
   */
  function CovarianceEntry(ss: seq<Sample>, i: nat, j: nat): real
    requires ValidSamples(ss) && |ss| >= 2 && i < 9 && j < 9
  {
    var mu := GlobalMean(ss);
    RemoveSingularity(SecondMoment(ss, i, j) / ((|ss| - 1) as real)) - mu[i] * mu[j]
  }

  function GlobalCovariance(ss: seq<Sample>): (r: seq<seq<real>>)
    requires ValidSamples(ss) && |ss| >= 2
    ensures |r| == 9 && forall i :: 0 <= i < 9 ==> |r[i]| == 9
    ensures forall i, j :: 0 <= i < 9 && 0 <= j < 9 ==> r[i][j] == CovarianceEntry(ss, i, j)
  {
    seq(9, i requires 0 <= i < 9 => seq(9, j requires 0 <= j < 9 => CovarianceEntry(ss, i, j)))
  }

  lemma GlobalCovarianceSymmetric(ss: seq<Sample>)
    requires ValidSamples(ss) && |ss| >= 2
    ensures forall i, j :: 0 <= i < 9 && 0 <= j < 9 ==> GlobalCovariance(ss)[i][j] == GlobalCovariance(ss)[j][i]
  {
    forall i, j | 0 <= i < 9 && 0 <= j < 9
      ensures GlobalCovariance(ss)[i][j] == GlobalCovariance(ss)[j][i]
    {
      SecondMomentSymmetric(ss, i, j);
    }
  }

  /** The mean's six channel entries sum to 1 when every point's six channels do. */
  lemma MeanChannelsSumToOne(ss: seq<Sample>)
    requires ValidSamples(ss) && |ss| > 0
    requires forall p :: 0 <= p < |ss| ==> Sum(ss[p].channels) == 1.0
    ensures Sum(GlobalMean(ss)[3..]) == 1.0
  {
    var n := |ss| as real;
    ChannelGrandTotal(ss);
    MeanTailScalesTotals(ss);
    SumScale(ChannelSums(ss), GlobalMean(ss)[3..], 1.0 / n);
    ShareOfWhole(Sum(GlobalMean(ss)[3..]), Sum(ChannelSums(ss)), n);
  }

  lemma ShareOfWhole(share: real, total: real, n: real)
    requires n > 0.0 && total == n && share == (1.0 / n) * total
    ensures share == 1.0
  {
  }

  /** The six channel columns summed over all points. */
  function ChannelSums(ss: seq<Sample>): (r: seq<real>)
    requires ValidSamples(ss)
    ensures |r| == 6
    ensures forall k :: 0 <= k < 6 ==> r[k] == Sum(Component(ss, 3 + k))
  {
    seq(6, k requires 0 <= k < 6 => Sum(Component(ss, 3 + k)))
  }

  /** The channel columns hold one unit of mass per point. */
  lemma ChannelGrandTotal(ss: seq<Sample>)
    requires ValidSamples(ss)
    requires forall p :: 0 <= p < |ss| ==> Sum(ss[p].channels) == 1.0
    ensures Sum(ChannelSums(ss)) == |ss| as real
  {
    ChannelTotals(ss, 6);
    var rows := PartialChannelSums(ss, 6);
    assert forall p :: 0 <= p < |ss| ==> rows[p] == Sum(ss[p].channels);
    SumConst(rows, 1.0);
  }

  /** Entries 3..8 of the mean are the channel totals divided by the number of points. */
  lemma MeanTailScalesTotals(ss: seq<Sample>)
    requires ValidSamples(ss) && |ss| > 0
    ensures forall k :: 0 <= k < 6 ==> GlobalMean(ss)[3..][k] == (1.0 / (|ss| as real)) * ChannelSums(ss)[k]
  {
    var n := |ss| as real;
    var mu, tail := GlobalMean(ss), GlobalMean(ss)[3..];
    forall k | 0 <= k < 6
      ensures tail[k] == (1.0 / n) * ChannelSums(ss)[k]
    {
      assert tail[k] == mu[3 + k];
      assert mu[3 + k] * n == ChannelSums(ss)[k];
    }
  }

  /** The per-point running channel sums: entry p is channel 0 + ... + channel m-1 of point p. */
  function PartialChannelSums(ss: seq<Sample>, m: nat): (r: seq<real>)
    requires ValidSamples(ss) && m <= 6
    ensures |r| == |ss|
    ensures forall p :: 0 <= p < |ss| ==> r[p] == SumTo(ss[p].channels, m)
  {
    seq(|ss|, p requires 0 <= p < |ss| => SumTo(ss[p].channels, m))
  }

  /** Exchanging the two sums: summing channel totals over k < m is summing each point's first m channels. */
  lemma {:induction false} ChannelTotals(ss: seq<Sample>, m: nat)
    requires ValidSamples(ss) && m <= 6
    ensures SumTo(ChannelSums(ss), m) == Sum(PartialChannelSums(ss, m))
  {
    if m == 0 {
      SumConst(PartialChannelSums(ss, 0), 0.0);
    } else {
      ChannelTotals(ss, m - 1);
      var prev := PartialChannelSums(ss, m - 1);
      var cur := PartialChannelSums(ss, m);
      var col := Component(ss, 3 + (m - 1));
      forall p | 0 <= p < |ss|
        ensures cur[p] == prev[p] + col[p]
      {
        assert col[p] == ss[p].channels[m - 1];
      }
      SumAdd(prev, col, cur);
    }
  }

  /** Lines 179-187 for a diagonal entry: sum v_i^2 / (N - 1), patched to 1e-3 when exactly zero. */
  lemma CovarianceDiagonalPositive(ss: seq<Sample>, i: nat)
    requires ValidSamples(ss) && |ss| >= 2 && i < 9
    ensures CovarianceEntry(ss, i, i) > 0.0
  {
    var x := Component(ss, i);
    var n := |ss| as real;
    var sq := Products(x, x);
    var mu := GlobalMean(ss);
    assert mu[i] == Sum(x) / n;
    forall p | 0 <= p < |x|
      ensures sq[p] >= 0.0
    {
      SquareNonNegative(x[p]);
    }
    SumNonNegative(sq);
    var m := Sum(x) / n;
    MeanSquareBound(x);
    if Sum(sq) == 0.0 {
      assert ((|ss| - 1) as real) == n - 1.0;
      assert SecondMoment(ss, i, i) == 0.0;
      assert RemoveSingularity(SecondMoment(ss, i, i) / ((|ss| - 1) as real)) == 0.001;
      calc {
        CovarianceEntry(ss, i, i);
      ==
        0.001 - m * m;
      >=  { assert 0.0 / n - m * m >= 0.0; }
        0.001;
      }
    } else {
      DivideBySmaller(Sum(sq), n - 1.0, n);
      PositiveQuotient(Sum(sq), n - 1.0);
      calc {
        CovarianceEntry(ss, i, i);
      ==
        Sum(sq) / (n - 1.0) - m * m;
      >
        Sum(sq) / n - m * m;
      >=
        0.0;
      }
    }
  }

  /** Mean of the squares is at least the square of the mean: the unweighted variance is non-negative. */
  lemma MeanSquareBound(x: seq<real>)
    requires |x| > 0
    ensures Sum(Products(x, x)) / (|x| as real) - (Sum(x) / (|x| as real)) * (Sum(x) / (|x| as real)) >= 0.0
  {
    var ones := Constant(|x|, 1.0);
    SumConst(ones, 1.0);
    assert Products(x, ones) == x;
    assert Products(Products(x, x), ones) == Products(x, x);
    WeightedVarianceNonNegative(x, ones);
  }

  lemma DivideBySmaller(a: real, m: real, n: real)
    requires a > 0.0 && 0.0 < m < n
    ensures a / m > a / n
  {
    calc {
      a / m - a / n;
    ==
      a * (n - m) / (m * n);
    }
    PositiveProduct(a, n - m);
    PositiveProduct(m, n);
    PositiveQuotient(a * (n - m), m * n);
  }

  /** Line 189: the square root of each diagonal entry. */
  function GlobalStd(ss: seq<Sample>, lib: MathLib): (r: seq<real>)
    requires ValidSamples(ss) && |ss| >= 2
    ensures |r| == 9
    ensures forall i :: 0 <= i < 9 ==> r[i] == lib.sqrt(GlobalCovariance(ss)[i][i])
  {
    seq(9, i requires 0 <= i < 9 => lib.sqrt(GlobalCovariance(ss)[i][i]))
  }

  /** std_i^2 is the covariance diagonal, which is strictly positive, so no std is 0. */
  lemma StdSquaresToCovarianceDiagonal(ss: seq<Sample>, lib: MathLib)
    requires ValidSamples(ss) && |ss| >= 2 && SqrtIsSquareRoot(lib) && SqrtPositive(lib)
    ensures forall i :: 0 <= i < 9 ==> GlobalStd(ss, lib)[i] * GlobalStd(ss, lib)[i] == GlobalCovariance(ss)[i][i]
    ensures forall i :: 0 <= i < 9 ==> GlobalStd(ss, lib)[i] > 0.0
    ensures forall i :: 0 <= i < 9 ==> GlobalCovariance(ss)[i][i] > 0.0
  {
    forall i | 0 <= i < 9
      ensures GlobalCovariance(ss)[i][i] > 0.0
    {
      CovarianceDiagonalPositive(ss, i);
    }
  }

  /** Lines 21-24: the standard deviations of the first three normal channels are not all zero. */
  predicate HasNormals(std: seq<real>)
    requires |std| == 9
  {
    !(std[3] == 0.0 && std[4] == 0.0 && std[5] == 0.0)
  }

  /** Because of the 1e-3 patch every std is positive, so HasNormals holds even for a cloud whose normals are all zero. */
  lemma HasNormalsAlwaysHolds(ss: seq<Sample>, lib: MathLib)
    requires ValidSamples(ss) && |ss| >= 2 && SqrtPositive(lib)
    ensures HasNormals(GlobalStd(ss, lib))
  {
    CovarianceDiagonalPositive(ss, 3);
  }

  // ---------------------------------------------------------------- per-octant statistics

  /** A float quotient at lines 172-175: 0/0 is NaN, every other case here is a real number. */
  datatype Stat = Defined(value: real) | NaN

  /** normNormal[k] (line 158): the total weight of channel k. */
  function OctantWeight(ss: seq<Sample>, k: nat): real
    requires ValidSamples(ss) && k < 6
  {
    Sum(Component(ss, 3 + k))
  }

  /** meanNormal[c, k] before the division (line 156): sum of lab_c * n_k. */
  function OctantColorSum(ss: seq<Sample>, c: nat, k: nat): real
    requires ValidSamples(ss) && c < 3 && k < 6
  {
    Sum(Products(Component(ss, c), Component(ss, 3 + k)))
  }

  /** stdNormal[c, k] before the division (line 157): sum of lab_c^2 * n_k. */
  function OctantSquareSum(ss: seq<Sample>, c: nat, k: nat): real
    requires ValidSamples(ss) && c < 3 && k < 6
  {
    Sum(Products(Products(Component(ss, c), Component(ss, c)), Component(ss, 3 + k)))
  }

  /** Line 172: meanNormal[c, k] = sum lab_c n_k / sum n_k; an empty channel gives 0/0. */
  function OctantMean(ss: seq<Sample>, c: nat, k: nat): Stat
    requires ValidSamples(ss) && c < 3 && k < 6
  {
    var w := OctantWeight(ss, k);
    if w == 0.0 then NaN else Defined(OctantColorSum(ss, c, k) / w)
  }

  /** Lines 173-175: sqrt(sum lab_c^2 n_k / sum n_k - meanNormal^2), with no Bessel correction. */
  function OctantStd(ss: seq<Sample>, c: nat, k: nat, lib: MathLib): Stat
    requires ValidSamples(ss) && c < 3 && k < 6
  {
    var w := OctantWeight(ss, k);
    if w == 0.0 then NaN
    else
      var m := OctantColorSum(ss, c, k) / w;
      Defined(lib.sqrt(OctantSquareSum(ss, c, k) / w - m * m))
  }

  /**
   * A channel has weight 0 exactly when no point has weight in it; the sums
   * divided at lines 172-173 are then 0 as well, so the float result is 0/0.
   */
  lemma EmptyOctant(ss: seq<Sample>, c: nat, k: nat)
    requires ValidSamples(ss) && c < 3 && k < 6
    ensures OctantWeight(ss, k) == 0.0 <==> forall p :: 0 <= p < |ss| ==> ss[p].channels[k] == 0.0
    ensures OctantWeight(ss, k) == 0.0 ==> OctantColorSum(ss, c, k) == 0.0 && OctantSquareSum(ss, c, k) == 0.0
    ensures OctantWeight(ss, k) == 0.0 <==> OctantMean(ss, c, k) == NaN
  {
    OctantWeightZeroIff(ss, k);
    if OctantWeight(ss, k) == 0.0 {
      var x, w := Component(ss, c), Component(ss, 3 + k);
      ZeroWeightsZeroSum(x, w);
      ZeroWeightsZeroSum(Products(x, x), w);
    }
  }

  lemma OctantWeightZeroIff(ss: seq<Sample>, k: nat)
    requires ValidSamples(ss) && k < 6
    ensures OctantWeight(ss, k) == 0.0 <==> forall p :: 0 <= p < |ss| ==> ss[p].channels[k] == 0.0
  {
    var w := Component(ss, 3 + k);
    forall p | 0 <= p < |ss|
      ensures w[p] == ss[p].channels[k] && w[p] >= 0.0
    {
    }
    SumZeroIffAllZero(w);
  }

  /** Weighting by all-zero weights gives a zero sum. */
  lemma ZeroWeightsZeroSum(x: seq<real>, w: seq<real>)
    requires |x| == |w|
    requires forall p :: 0 <= p < |w| ==> w[p] == 0.0
    ensures Sum(Products(x, w)) == 0.0
  {
    var a := Products(x, w);
    assert forall p :: 0 <= p < |a| ==> a[p] == x[p] * 0.0;
    SumConst(a, 0.0);
  }

  /** The octant mean is a weighted average: it lies within any bounds of the colour component. */
  lemma OctantMeanWithinBounds(ss: seq<Sample>, c: nat, k: nat, lo: real, hi: real)
    requires ValidSamples(ss) && c < 3 && k < 6
    requires forall p :: 0 <= p < |ss| ==> lo <= Values(ss[p])[c] <= hi
    requires OctantWeight(ss, k) != 0.0
    ensures OctantMean(ss, c, k).Defined?
    ensures lo <= OctantMean(ss, c, k).value <= hi
  {
    var w := Component(ss, 3 + k);
    forall p | 0 <= p < |ss|
      ensures w[p] >= 0.0
    {
    }
    SumNonNegative(w);
    WeightedAverageBounds(Component(ss, c), w, lo, hi);
  }

  /** The argument of the square root at line 175 is a weighted variance, so it is never negative. */
  lemma OctantVarianceNonNegative(ss: seq<Sample>, c: nat, k: nat)
    requires ValidSamples(ss) && c < 3 && k < 6
    requires OctantWeight(ss, k) != 0.0
    ensures OctantSquareSum(ss, c, k) / OctantWeight(ss, k)
      - (OctantColorSum(ss, c, k) / OctantWeight(ss, k)) * (OctantColorSum(ss, c, k) / OctantWeight(ss, k)) >= 0.0
  {
    var w := Component(ss, 3 + k);
    forall p | 0 <= p < |ss|
      ensures w[p] >= 0.0
    {
    }
    SumNonNegative(w);
    WeightedVarianceNonNegative(Component(ss, c), w);
  }

  /** stdNormal[c, k]^2 is the weighted second moment minus the squared weighted mean. */
  lemma OctantStdSquared(ss: seq<Sample>, c: nat, k: nat, lib: MathLib)
    requires ValidSamples(ss) && c < 3 && k < 6 && SqrtIsSquareRoot(lib)
    requires OctantWeight(ss, k) != 0.0
    ensures OctantStd(ss, c, k, lib).Defined? && OctantMean(ss, c, k).Defined?
    ensures OctantStd(ss, c, k, lib).value >= 0.0
    ensures OctantStd(ss, c, k, lib).value * OctantStd(ss, c, k, lib).value
      == OctantSquareSum(ss, c, k) / OctantWeight(ss, k) - OctantMean(ss, c, k).value * OctantMean(ss, c, k).value
  {
    OctantVarianceNonNegative(ss, c, k);
  }

  // ---------------------------------------------------------------- the whole extraction

  /** A point of the cloud as the extractor reads it: its normal and its RGB colour. */
  datatype Point = Point(normal: Vec3, color: ColorUtils.Color)

  /** Lines 131-161 for one point: its Reinhard Lab colour and the six channels of its transformed normal. */
  function SampleOf(pt: Point, b: Basis, lib: MathLib): (s: Sample)
    requires ColorUtils.RootsNonZero(lib)
    ensures ValidSample(s)
  {
    Sample(ColorUtils.ReinhardRgbToLab(pt.color, lib), NormalChannels(pt.normal, b, lib))
  }

  function Samples(points: seq<Point>, b: Basis, lib: MathLib): (ss: seq<Sample>)
    requires ColorUtils.RootsNonZero(lib)
    ensures |ss| == |points| && ValidSamples(ss)
    ensures forall p :: 0 <= p < |points| ==> ss[p] == SampleOf(points[p], b, lib)
  {
    seq(|points|, p requires 0 <= p < |points| => SampleOf(points[p], b, lib))
  }

  /**
   * The statistics record: the normal basis, the 9-D mean, covariance and
   * standard deviation, and the 3 x 6 per-octant means and deviations.
   */
  datatype Style = Style(
    eigenNormals: Basis,
    mean: seq<real>,
    cov: seq<seq<real>>,
    std: seq<real>,
    meanNormal: seq<seq<Stat>>,
    stdNormal: seq<seq<Stat>>)

  /**
   * ExtractStyle (lines 30-190) over the points of the cloud, with the PCA of
   * the normals supplied as `pca`. The source divides by N - 1, so it needs at
   * least two points for finite results.
   */
  function ExtractStyle(points: seq<Point>, normalsPca: bool, pca: Basis, lib: MathLib): (st: Style)
    requires |points| >= 2 && ColorUtils.RootsNonZero(lib)
    ensures st.eigenNormals == NormalBasis(normalsPca, pca)
    ensures |st.mean| == 9 && |st.std| == 9 && |st.cov| == 9 && (forall i :: 0 <= i < 9 ==> |st.cov[i]| == 9)
    ensures |st.meanNormal| == 3 && |st.stdNormal| == 3
    ensures forall c :: 0 <= c < 3 ==> |st.meanNormal[c]| == 6 && |st.stdNormal[c]| == 6
    ensures st.mean == GlobalMean(Samples(points, st.eigenNormals, lib))
    ensures st.cov == GlobalCovariance(Samples(points, st.eigenNormals, lib))
    ensures st.std == GlobalStd(Samples(points, st.eigenNormals, lib), lib)
    ensures forall c, k :: 0 <= c < 3 && 0 <= k < 6 ==>
      st.meanNormal[c][k] == OctantMean(Samples(points, st.eigenNormals, lib), c, k) &&
      st.stdNormal[c][k] == OctantStd(Samples(points, st.eigenNormals, lib), c, k, lib)
  {
    var b := NormalBasis(normalsPca, pca);
    var ss := Samples(points, b, lib);
    Style(
      b,
      GlobalMean(ss),
      GlobalCovariance(ss),
      GlobalStd(ss, lib),
      OctantMeans(ss),
      OctantStds(ss, lib))
  }

  /** Lines 156 and 170-173: the 3 x 6 table of octant colour means. */
  function OctantMeans(ss: seq<Sample>): (r: seq<seq<Stat>>)
    requires ValidSamples(ss)
    ensures |r| == 3 && forall c :: 0 <= c < 3 ==> |r[c]| == 6
    ensures forall c, k :: 0 <= c < 3 && 0 <= k < 6 ==> r[c][k] == OctantMean(ss, c, k)
  {
    seq(3, c requires 0 <= c < 3 => seq(6, k requires 0 <= k < 6 => OctantMean(ss, c, k)))
  }

  /** Lines 157 and 170-175: the 3 x 6 table of octant colour standard deviations. */
  function OctantStds(ss: seq<Sample>, lib: MathLib): (r: seq<seq<Stat>>)
    requires ValidSamples(ss)
    ensures |r| == 3 && forall c :: 0 <= c < 3 ==> |r[c]| == 6
    ensures forall c, k :: 0 <= c < 3 && 0 <= k < 6 ==> r[c][k] == OctantStd(ss, c, k, lib)
  {
    seq(3, c requires 0 <= c < 3 => seq(6, k requires 0 <= k < 6 => OctantStd(ss, c, k, lib)))
  }

  /** The extracted covariance is symmetric. */
  lemma ExtractedCovarianceSymmetric(points: seq<Point>, normalsPca: bool, pca: Basis, lib: MathLib)
    requires |points| >= 2 && ColorUtils.RootsNonZero(lib)
    ensures forall i, j :: 0 <= i < 9 && 0 <= j < 9 ==>
      ExtractStyle(points, normalsPca, pca, lib).cov[i][j] == ExtractStyle(points, normalsPca, pca, lib).cov[j][i]
  {
    GlobalCovarianceSymmetric(Samples(points, NormalBasis(normalsPca, pca), lib));
  }

  /** When every point's transformed normal is non-zero, the six channel means sum to 1. */
  lemma ExtractedChannelMeansSumToOne(points: seq<Point>, normalsPca: bool, pca: Basis, lib: MathLib)
    requires |points| >= 2 && ColorUtils.RootsNonZero(lib) && SqrtPositive(lib)
    requires forall p :: 0 <= p < |points| ==> !Transform(points[p].normal, NormalBasis(normalsPca, pca)).IsZero()
    ensures Sum(ExtractStyle(points, normalsPca, pca, lib).mean[3..]) == 1.0
  {
    var b := NormalBasis(normalsPca, pca);
    var ss := Samples(points, b, lib);
    forall p | 0 <= p < |ss|
      ensures Sum(ss[p].channels) == 1.0
    {
      NormalChannelsSumToOne(points[p].normal, b, lib);
    }
    MeanChannelsSumToOne(ss);
  }

  /** Without normal PCA the channels are those of the untransformed normal (lines 46, 135). */
  lemma WithoutNormalPcaChannelsUseRawNormal(pt: Point, pca: Basis, lib: MathLib)
    requires ColorUtils.RootsNonZero(lib)
    ensures SampleOf(pt, NormalBasis(false, pca), lib).channels == DirectionChannels(pt.normal, lib)
  {
    TransformByIdentity(pt.normal);
  }
}
