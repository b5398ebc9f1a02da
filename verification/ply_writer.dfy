/**
 * The per-point colour transfer of Assets/Scripts/PlyWriter.cs. Every point of
 * the input cloud is taken to Reinhard's Lab space, moved from the input
 * style's statistics to the target style's by one of four methods, taken back
 * to RGB and scaled by the exposure:
 *
 *   IGD    per-channel mean/std matching on the three colour channels;
 *   IGD_N  the same, with means and stds blended from the octant statistics
 *          that the point's normal falls into;
 *   MGD    the colour block of the Monge-Kantorovich matrix applied to the
 *          centred colour;
 *   MGD_N  the whole 9 x 9 matrix applied to the centred colour-and-normal
 *          vector, keeping the colour part.
 *
 * A float computation that divides by zero or reads a NaN statistic yields a
 * non-finite colour; the model returns None there.
 */
module PlyWriter {
  import opened Linear
  import opened Wrappers
  import ColorUtils
  import opened PointCloudStyleExtractor
  import Decimal
  import Tokens

  type Color = ColorUtils.Color

  /** The four transfer methods (lines 12-17). */
  datatype Method = IGD | IGD_N | MGD | MGD_N

  /** The shapes ExtractStyle gives a style: 9 means and stds, 3 x 6 octant statistics. */
  predicate WellShaped(st: Style) {
    && |st.mean| == 9
    && |st.std| == 9
    && |st.meanNormal| == 3
    && |st.stdNormal| == 3
    && (forall c :: 0 <= c < 3 ==> |st.meanNormal[c]| == 6)
    && (forall c :: 0 <= c < 3 ==> |st.stdNormal[c]| == 6)
  }

  /** Channel k of a Lab colour, as the source indexes lab[0], lab[1], lab[2]. */
  function Channel(c: Color, k: nat): real
    requires k < 3
  {
    if k == 0 then c.r else if k == 1 then c.g else c.b
  }

  /** The colour part of a style's mean. */
  function MeanColor(st: Style): Color
    requires WellShaped(st)
  {
    ColorUtils.Color(st.mean[0], st.mean[1], st.mean[2])
  }

  // ---------------------------------------------------------------- exposure

  /** `rgb *= m_exposure`: every channel is scaled by the exposure. */
  function Expose(c: Color, exposure: real): Color {
    ColorUtils.Color(c.r * exposure, c.g * exposure, c.b * exposure)
  }

  /** The default exposure 1 leaves the colour alone, and exposures compose by product. */
  lemma ExposeFacts(c: Color, a: real, b: real)
    ensures Expose(c, 1.0) == c
    ensures Expose(Expose(c, a), b) == Expose(c, a * b)
  {
  }

  // --------------------------------------------------------- moment matching

  /**
   * Reinhard's transfer of one channel: centre on the input mean, rescale by
   * the ratio of standard deviations, re-centre on the target mean.
   */
  function MatchMoments(x: real, muIn: real, sigmaIn: real, muOut: real, sigmaOut: real): real
    requires sigmaIn != 0.0
  {
    (x - muIn) * (sigmaOut / sigmaIn) + muOut
  }

  /** The input mean goes to the target mean, and deviations are scaled by sigmaOut / sigmaIn. */
  lemma MatchMomentsMoments(x: real, y: real, muIn: real, sigmaIn: real, muOut: real, sigmaOut: real)
    requires sigmaIn != 0.0
    ensures MatchMoments(muIn, muIn, sigmaIn, muOut, sigmaOut) == muOut
    ensures MatchMoments(x, muIn, sigmaIn, muOut, sigmaOut) - MatchMoments(y, muIn, sigmaIn, muOut, sigmaOut)
            == (x - y) * (sigmaOut / sigmaIn)
  {
  }

  /** Matching a distribution to itself changes nothing. */
  lemma MatchMomentsIdentity(x: real, mu: real, sigma: real)
    requires sigma != 0.0
    ensures MatchMoments(x, mu, sigma, mu, sigma) == x
  {
    assert sigma / sigma == 1.0;
  }

  /** Matching back from the target to the input undoes the transfer. */
  lemma MatchMomentsInverse(x: real, muIn: real, sigmaIn: real, muOut: real, sigmaOut: real)
    requires sigmaIn != 0.0 && sigmaOut != 0.0
    ensures MatchMoments(MatchMoments(x, muIn, sigmaIn, muOut, sigmaOut), muOut, sigmaOut, muIn, sigmaIn) == x
  {
    var d := x - muIn;
    assert (sigmaOut / sigmaIn) * (sigmaIn / sigmaOut) == 1.0;
    calc {
      MatchMoments(MatchMoments(x, muIn, sigmaIn, muOut, sigmaOut), muOut, sigmaOut, muIn, sigmaIn);
      (d * (sigmaOut / sigmaIn)) * (sigmaIn / sigmaOut) + muIn;
      d * ((sigmaOut / sigmaIn) * (sigmaIn / sigmaOut)) + muIn;
      x;
    }
  }

  // --------------------------------------------------------------------- IGD

  /** The input standard deviation of every colour channel is non-zero. */
  predicate ColorStdsNonZero(st: Style)
    requires WellShaped(st)
  {
    st.std[0] != 0.0 && st.std[1] != 0.0 && st.std[2] != 0.0
  }

  /**
   * IGDStyleTransfer in Lab (lines 91-93): every channel matched from the
   * input's global mean and std to the target's. None when an input std is 0.
   */
  function IgdLab(lab: Color, input: Style, target: Style): (r: Option<Color>)
    requires WellShaped(input) && WellShaped(target)
    ensures r.Some? <==> ColorStdsNonZero(input)
    ensures r.Some? ==> forall k :: 0 <= k < 3 ==>
      Channel(r.value, k) == MatchMoments(Channel(lab, k), input.mean[k], input.std[k], target.mean[k], target.std[k])
  {
    if !ColorStdsNonZero(input) then None
    else Some(ColorUtils.Color(
      MatchMoments(lab.r, input.mean[0], input.std[0], target.mean[0], target.std[0]),
      MatchMoments(lab.g, input.mean[1], input.std[1], target.mean[1], target.std[1]),
      MatchMoments(lab.b, input.mean[2], input.std[2], target.mean[2], target.std[2])))
  }

  /** A style transferred onto itself leaves every colour unchanged. */
  lemma IgdLabIdentity(lab: Color, st: Style)
    requires WellShaped(st) && ColorStdsNonZero(st)
    ensures IgdLab(lab, st, st) == Some(lab)
  {
    MatchMomentsIdentity(lab.r, st.mean[0], st.std[0]);
    MatchMomentsIdentity(lab.g, st.mean[1], st.std[1]);
    MatchMomentsIdentity(lab.b, st.mean[2], st.std[2]);
  }

  /** The input's mean colour lands on the target's mean colour. */
  lemma IgdLabMapsMeanToMean(input: Style, target: Style)
    requires WellShaped(input) && WellShaped(target) && ColorStdsNonZero(input)
    ensures IgdLab(MeanColor(input), input, target) == Some(MeanColor(target))
  {
    MatchMomentsAtMean(input.mean[0], input.std[0], target.mean[0], target.std[0]);
    MatchMomentsAtMean(input.mean[1], input.std[1], target.mean[1], target.std[1]);
    MatchMomentsAtMean(input.mean[2], input.std[2], target.mean[2], target.std[2]);
  }

  lemma MatchMomentsAtMean(muIn: real, sigmaIn: real, muOut: real, sigmaOut: real)
    requires sigmaIn != 0.0
    ensures MatchMoments(muIn, muIn, sigmaIn, muOut, sigmaOut) == muOut
  {
    assert (muIn - muIn) * (sigmaOut / sigmaIn) == 0.0;
  }

  /** Transferring back with the roles swapped recovers the original colour. */
  lemma IgdLabRoundTrip(lab: Color, input: Style, target: Style)
    requires WellShaped(input) && WellShaped(target)
    requires ColorStdsNonZero(input) && ColorStdsNonZero(target)
    ensures IgdLab(lab, input, target).Some?
    ensures IgdLab(IgdLab(lab, input, target).value, target, input) == Some(lab)
  {
    MatchMomentsInverse(lab.r, input.mean[0], input.std[0], target.mean[0], target.std[0]);
    MatchMomentsInverse(lab.g, input.mean[1], input.std[1], target.mean[1], target.std[1]);
    MatchMomentsInverse(lab.b, input.mean[2], input.std[2], target.mean[2], target.std[2]);
  }

  /** IGD reads only the colour part of the global statistics (SubVector(0, 3)). */
  lemma IgdLabReadsColorStatsOnly(lab: Color, input: Style, input': Style, target: Style, target': Style)
    requires WellShaped(input) && WellShaped(input') && WellShaped(target) && WellShaped(target')
    requires input.mean[..3] == input'.mean[..3] && input.std[..3] == input'.std[..3]
    requires target.mean[..3] == target'.mean[..3] && target.std[..3] == target'.std[..3]
    ensures IgdLab(lab, input, target) == IgdLab(lab, input', target')
  {
    assert forall k :: 0 <= k < 3 ==> input.mean[k] == input.mean[..3][k] && input'.mean[k] == input'.mean[..3][k];
    assert forall k :: 0 <= k < 3 ==> input.std[k] == input.std[..3][k] && input'.std[k] == input'.std[..3][k];
    assert forall k :: 0 <= k < 3 ==> target.mean[k] == target.mean[..3][k] && target'.mean[k] == target'.mean[..3][k];
    assert forall k :: 0 <= k < 3 ==> target.std[k] == target.std[..3][k] && target'.std[k] == target'.std[..3][k];
  }

  // ------------------------------------------------------------------- IGD_N

  /** Lines 108-109: the normal in the input's eigen basis, L1-normalised (no L2 step here). */
  function Direction(normal: Vec3, b: Basis): Vec3 {
    NormalizeL1(Transform(normal, b))
  }

  /** Lines 111-118: the channel of the half-axis a component points into. */
  function Side(x: real, negative: nat): nat {
    if x < 0.0 then negative else negative + 1
  }

  /** The three selected octant channels and their weights. */
  datatype Blend = Blend(xSide: nat, ySide: nat, zSide: nat, nx: real, ny: real, nz: real)

  /** The weights are those of a convex combination. */
  predicate IsConvex(o: Blend) {
    o.nx >= 0.0 && o.ny >= 0.0 && o.nz >= 0.0 && o.nx + o.ny + o.nz == 1.0
  }

  /** The share of the L1 norm carried by one component. */
  function Weight(x: real, norm: real): real
    requires norm != 0.0
  {
    Abs(x) / norm
  }

  /**
   * Lines 111-123: the side of each axis and the weights |v_i| / |v|_1. None
   * for the zero direction, where every weight is 0 / 0.
   */
  function BlendOf(v: Vec3): (r: Option<Blend>)
    ensures r.None? <==> v.IsZero()
  {
    var norm := L1Norm(v);
    if norm == 0.0 then None
    else Some(Blend(Side(v.x, 0), Side(v.y, 2), Side(v.z, 4), Weight(v.x, norm), Weight(v.y, norm), Weight(v.z, norm)))
  }

  /**
   * On one axis of a unit direction, with channels (|min(x, 0)|, max(x, 0)):
   * the side selects the channel that is non-zero, the weight is that channel,
   * and the channel passed over is 0.
   */
  lemma HalfAxis(x: real, negative: nat, low: real, high: real)
    requires low == Abs(Min(x, 0.0)) && high == Max(x, 0.0)
    ensures Side(x, negative) == negative <==> x < 0.0
    ensures Weight(x, 1.0) >= 0.0
    ensures Weight(x, 1.0) == if x < 0.0 then low else high
    ensures (if x < 0.0 then high else low) == 0.0
  {
  }

  /**
   * For a direction of L1 norm 1, as Normalize(1) makes it: the blend picks,
   * on each axis, the one of the extractor's two channels that is non-zero,
   * with that channel as its weight; the channel it passes over is 0. So the
   * writer weighs the octant statistics exactly as the extractor accumulated
   * them. The weights are convex.
   */
  lemma BlendMatchesChannels(v: Vec3)
    requires L1Norm(v) == 1.0
    ensures BlendOf(v).Some?
    ensures var o := BlendOf(v).value; var ch := Channels(v);
      && o.xSide in {0, 1} && o.ySide in {2, 3} && o.zSide in {4, 5}
      && (o.xSide == 0 <==> v.x < 0.0) && (o.ySide == 2 <==> v.y < 0.0) && (o.zSide == 4 <==> v.z < 0.0)
      && o.nx == ch[o.xSide] && ch[1 - o.xSide] == 0.0
      && o.ny == ch[o.ySide] && ch[5 - o.ySide] == 0.0
      && o.nz == ch[o.zSide] && ch[9 - o.zSide] == 0.0
      && IsConvex(o)
  {
    var ch := Channels(v);
    assert ch[0] == Abs(Min(v.x, 0.0)) && ch[1] == Max(v.x, 0.0);
    assert ch[2] == Abs(Min(v.y, 0.0)) && ch[3] == Max(v.y, 0.0);
    assert ch[4] == Abs(Min(v.z, 0.0)) && ch[5] == Max(v.z, 0.0);
    HalfAxis(v.x, 0, ch[0], ch[1]);
    HalfAxis(v.y, 2, ch[2], ch[3]);
    HalfAxis(v.z, 4, ch[4], ch[5]);
  }

  /**
   * IGD_N weighs the octant statistics of a point by the very channel values
   * the extractor gave that point's normal when it accumulated them.
   */
  lemma BlendWeightsAreExtractorChannels(normal: Vec3, b: Basis, lib: MathLib)
    requires SqrtPositive(lib) && !Transform(normal, b).IsZero()
    ensures BlendOf(Direction(normal, b)).Some?
    ensures var o := BlendOf(Direction(normal, b)).value; var ch := NormalChannels(normal, b, lib);
      o.nx == ch[o.xSide] && o.ny == ch[o.ySide] && o.nz == ch[o.zSide]
  {
    NormalizeL1HasUnitNorm(Transform(normal, b));
    BlendMatchesChannels(Direction(normal, b));
    L2StepIsIrrelevant(Transform(normal, b), lib);
  }

  /** The selected sides index the six octant channels. */
  predicate SidesInRange(o: Blend) {
    o.xSide < 6 && o.ySide < 6 && o.zSide < 6
  }

  /**
   * `nx * X + ny * Y + nz * Z` over one row of octant statistics (lines
   * 125-179). A NaN on any selected side makes the blend NaN, whatever its weight.
   */
  function Mix(values: seq<Stat>, o: Blend): (r: Stat)
    requires |values| == 6 && SidesInRange(o)
    ensures r.NaN? <==> values[o.xSide].NaN? || values[o.ySide].NaN? || values[o.zSide].NaN?
  {
    var a := values[o.xSide];
    var b := values[o.ySide];
    var c := values[o.zSide];
    if a.NaN? || b.NaN? || c.NaN? then NaN
    else Defined(o.nx * a.value + o.ny * b.value + o.nz * c.value)
  }

  /** A convex blend of values within [lo, hi] stays within [lo, hi]. */
  lemma MixIsConvex(values: seq<Stat>, o: Blend, lo: real, hi: real)
    requires |values| == 6 && SidesInRange(o) && IsConvex(o)
    requires values[o.xSide].Defined? && lo <= values[o.xSide].value <= hi
    requires values[o.ySide].Defined? && lo <= values[o.ySide].value <= hi
    requires values[o.zSide].Defined? && lo <= values[o.zSide].value <= hi
    ensures Mix(values, o).Defined?
    ensures lo <= Mix(values, o).value <= hi
  {
    var a, b, c := values[o.xSide].value, values[o.ySide].value, values[o.zSide].value;
    ConvexBetween(o.nx, o.ny, o.nz, a, b, c, lo, hi, Mix(values, o).value);
  }

  lemma ConvexBetween(wa: real, wb: real, wc: real, a: real, b: real, c: real, lo: real, hi: real, s: real)
    requires wa >= 0.0 && wb >= 0.0 && wc >= 0.0 && wa + wb + wc == 1.0
    requires lo <= a <= hi && lo <= b <= hi && lo <= c <= hi
    requires s == wa * a + wb * b + wc * c
    ensures lo <= s <= hi
  {
    WeightedBetween(wa, a, lo, hi);
    WeightedBetween(wb, b, lo, hi);
    WeightedBetween(wc, c, lo, hi);
    WeightsTimes(wa, wb, wc, lo);
    WeightsTimes(wa, wb, wc, hi);
    AddThree(wa * lo, wb * lo, wc * lo, wa * a, wb * b, wc * c);
    AddThree(wa * a, wb * b, wc * c, wa * hi, wb * hi, wc * hi);
  }

  lemma WeightsTimes(wa: real, wb: real, wc: real, k: real)
    requires wa + wb + wc == 1.0
    ensures wa * k + wb * k + wc * k == k
  {
    calc {
      wa * k + wb * k + wc * k;
      (wa + wb + wc) * k;
      { assert wa + wb + wc == 1.0; }
      1.0 * k;
    }
  }

  lemma AddThree(p1: real, p2: real, p3: real, q1: real, q2: real, q3: real)
    requires p1 <= q1 && p2 <= q2 && p3 <= q3
    ensures p1 + p2 + p3 <= q1 + q2 + q3
  {
  }

  lemma WeightedBetween(w: real, x: real, lo: real, hi: real)
    requires w >= 0.0 && lo <= x <= hi
    ensures w * lo <= w * x <= w * hi
  {
    assert w * x - w * lo == w * (x - lo);
    assert w * hi - w * x == w * (hi - x);
  }

  /** The blended statistic of colour channel c. */
  function Blended(rows: seq<seq<Stat>>, c: nat, o: Blend): Stat
    requires c < |rows| && |rows[c]| == 6 && SidesInRange(o)
  {
    Mix(rows[c], o)
  }

  /**
   * One colour channel of IGDNStyleTransfer (lines 125-190): matched from the
   * input's blended statistics to the target's; None on a NaN statistic or a
   * zero blended input std.
   */
  function IgdNChannel(x: real, c: nat, o: Blend, input: Style, target: Style): (r: Option<real>)
    requires WellShaped(input) && WellShaped(target) && c < 3 && SidesInRange(o)
    ensures r.Some? <==>
      && Blended(input.meanNormal, c, o).Defined? && Blended(input.stdNormal, c, o).Defined?
      && Blended(target.meanNormal, c, o).Defined? && Blended(target.stdNormal, c, o).Defined?
      && Blended(input.stdNormal, c, o).value != 0.0
  {
    var muIn := Blended(input.meanNormal, c, o);
    var sigmaIn := Blended(input.stdNormal, c, o);
    var muOut := Blended(target.meanNormal, c, o);
    var sigmaOut := Blended(target.stdNormal, c, o);
    if muIn.NaN? || sigmaIn.NaN? || muOut.NaN? || sigmaOut.NaN? || sigmaIn.value == 0.0 then None
    else Some(MatchMoments(x, muIn.value, sigmaIn.value, muOut.value, sigmaOut.value))
  }

  /** IGDNStyleTransfer in Lab (lines 104-190). The blend comes from the input's eigen basis only. */
  function IgdNLab(lab: Color, normal: Vec3, input: Style, target: Style): (r: Option<Color>)
    requires WellShaped(input) && WellShaped(target)
    ensures Transform(normal, input.eigenNormals).IsZero() ==> r.None?
  {
    var v := Direction(normal, input.eigenNormals);
    NormalizeL1HasUnitNorm(Transform(normal, input.eigenNormals));
    match BlendOf(v)
    case None => None
    case Some(o) =>
      var r := IgdNChannel(lab.r, 0, o, input, target);
      var g := IgdNChannel(lab.g, 1, o, input, target);
      var b := IgdNChannel(lab.b, 2, o, input, target);
      if r.None? || g.None? || b.None? then None
      else Some(ColorUtils.Color(r.value, g.value, b.value))
  }

  /** Every octant of colour channel c carries the global statistic of that channel. */
  predicate UniformOctants(st: Style)
    requires WellShaped(st)
  {
    forall c, k :: 0 <= c < 3 && 0 <= k < 6 ==>
      st.meanNormal[c][k] == Defined(st.mean[c]) && st.stdNormal[c][k] == Defined(st.std[c])
  }

  /** A convex blend of one repeated value is that value. */
  lemma MixOfUniform(values: seq<Stat>, o: Blend, m: real)
    requires |values| == 6 && SidesInRange(o) && IsConvex(o)
    requires forall k :: 0 <= k < 6 ==> values[k] == Defined(m)
    ensures Mix(values, o) == Defined(m)
  {
    MixIsConvex(values, o, m, m);
  }

  /**
   * When the octant statistics do not depend on the octant, IGD_N is IGD:
   * the normal only matters through the octants it selects.
   */
  lemma IgdNWithUniformOctantsIsIgd(lab: Color, normal: Vec3, input: Style, target: Style)
    requires WellShaped(input) && WellShaped(target)
    requires UniformOctants(input) && UniformOctants(target)
    requires !Transform(normal, input.eigenNormals).IsZero()
    ensures IgdNLab(lab, normal, input, target) == IgdLab(lab, input, target)
  {
    var t := Transform(normal, input.eigenNormals);
    NormalizeL1HasUnitNorm(t);
    var v := Direction(normal, input.eigenNormals);
    BlendMatchesChannels(v);
    var o := BlendOf(v).value;
    forall c | 0 <= c < 3
      ensures Blended(input.meanNormal, c, o) == Defined(input.mean[c])
      ensures Blended(input.stdNormal, c, o) == Defined(input.std[c])
      ensures Blended(target.meanNormal, c, o) == Defined(target.mean[c])
      ensures Blended(target.stdNormal, c, o) == Defined(target.std[c])
    {
      MixOfUniform(input.meanNormal[c], o, input.mean[c]);
      MixOfUniform(input.stdNormal[c], o, input.std[c]);
      MixOfUniform(target.meanNormal[c], o, target.mean[c]);
      MixOfUniform(target.stdNormal[c], o, target.std[c]);
    }
  }

  /** The target's eigen basis plays no part in IGD_N. */
  lemma IgdNIgnoresTargetBasis(lab: Color, normal: Vec3, input: Style, target: Style, b: Basis)
    requires WellShaped(input) && WellShaped(target)
    ensures IgdNLab(lab, normal, input, target) == IgdNLab(lab, normal, input, target.(eigenNormals := b))
  {
  }

  // --------------------------------------------------------------------- MGD

  /** A 9 x 9 matrix, the shape of the Monge-Kantorovich matrix. */
  predicate IsMatrix9(t: seq<seq<real>>) {
    |t| == 9 && forall i :: 0 <= i < 9 ==> |t[i]| == 9
  }

  /** The terms of entry j of the row vector v times t. */
  function ColumnTerms(v: seq<real>, t: seq<seq<real>>, j: nat): (r: seq<real>)
    requires IsMatrix9(t) && |v| <= 9 && j < 9
    ensures |r| == |v|
    ensures forall i :: 0 <= i < |v| ==> r[i] == v[i] * t[i][j]
  {
    seq(|v|, i requires 0 <= i < |v| => v[i] * t[i][j])
  }

  /** Entry j of the row vector v times t (MathNet's vector * matrix). */
  function Column(v: seq<real>, t: seq<seq<real>>, j: nat): real
    requires IsMatrix9(t) && |v| <= 9 && j < 9
  {
    Sum(ColumnTerms(v, t, j))
  }

  /** The centred colour of lines 205-206. */
  function Centred(lab: Color, input: Style): (d: seq<real>)
    requires WellShaped(input)
    ensures |d| == 3
    ensures forall k :: 0 <= k < 3 ==> d[k] == Channel(lab, k) - input.mean[k]
  {
    [lab.r - input.mean[0], lab.g - input.mean[1], lab.b - input.mean[2]]
  }

  /** Lines 207-209 as a function of the centred vector: times t, plus the target mean. */
  function Apply(d: seq<real>, t: seq<seq<real>>, target: Style): Color
    requires IsMatrix9(t) && |d| <= 9 && WellShaped(target)
  {
    ColorUtils.Color(Column(d, t, 0) + target.mean[0], Column(d, t, 1) + target.mean[1], Column(d, t, 2) + target.mean[2])
  }

  /** MGDStyleTransfer in Lab (lines 199-210): the colour block t[0..3][0..3] applied to the centred colour. */
  function MgdLab(lab: Color, input: Style, target: Style, t: seq<seq<real>>): Color
    requires WellShaped(input) && WellShaped(target) && IsMatrix9(t)
  {
    Apply(Centred(lab, input), t, target)
  }

  /** The input's mean colour lands on the target's mean colour, whatever the matrix. */
  lemma MgdMapsMeanToMean(input: Style, target: Style, t: seq<seq<real>>)
    requires WellShaped(input) && WellShaped(target) && IsMatrix9(t)
    ensures MgdLab(MeanColor(input), input, target, t) == MeanColor(target)
  {
    var d := Centred(MeanColor(input), input);
    forall j | 0 <= j < 3 ensures Column(d, t, j) == 0.0 {
      SumConst(ColumnTerms(d, t, j), 0.0);
    }
  }

  /**
   * With a diagonal colour block whose entries are the std ratios, MGD is
   * exactly IGD: per-channel matching is the diagonal special case.
   */
  lemma MgdWithDiagonalBlockIsIgd(lab: Color, input: Style, target: Style, t: seq<seq<real>>)
    requires WellShaped(input) && WellShaped(target) && IsMatrix9(t) && ColorStdsNonZero(input)
    requires forall i, j :: 0 <= i < 3 && 0 <= j < 3 ==>
      t[i][j] == if i == j then target.std[i] / input.std[i] else 0.0
    ensures IgdLab(lab, input, target) == Some(MgdLab(lab, input, target, t))
  {
    DiagonalColumn(lab, input, target, t, 0);
    DiagonalColumn(lab, input, target, t, 1);
    DiagonalColumn(lab, input, target, t, 2);
  }

  /** One output channel of MGD with a diagonal std-ratio block is that channel's moment matching. */
  lemma DiagonalColumn(lab: Color, input: Style, target: Style, t: seq<seq<real>>, j: nat)
    requires WellShaped(input) && WellShaped(target) && IsMatrix9(t) && ColorStdsNonZero(input) && j < 3
    requires forall i, j :: 0 <= i < 3 && 0 <= j < 3 ==>
      t[i][j] == if i == j then target.std[i] / input.std[i] else 0.0
    ensures Column(Centred(lab, input), t, j) + target.mean[j]
         == MatchMoments(Channel(lab, j), input.mean[j], input.std[j], target.mean[j], target.std[j])
  {
    SumToSingle(ColumnTerms(Centred(lab, input), t, j), j, 3);
  }

  /** With the identity as colour block and equal colour means, MGD changes nothing. */
  lemma MgdWithIdentityBlock(lab: Color, input: Style, target: Style, t: seq<seq<real>>)
    requires WellShaped(input) && WellShaped(target) && IsMatrix9(t)
    requires forall i, j :: 0 <= i < 3 && 0 <= j < 3 ==> t[i][j] == if i == j then 1.0 else 0.0
    requires input.mean[..3] == target.mean[..3]
    ensures MgdLab(lab, input, target, t) == lab
  {
    var d := Centred(lab, input);
    forall j | 0 <= j < 3 ensures Column(d, t, j) == Channel(lab, j) - input.mean[j] {
      SumToSingle(ColumnTerms(d, t, j), j, 3);
    }
    assert forall k :: 0 <= k < 3 ==> input.mean[k] == input.mean[..3][k] && target.mean[k] == target.mean[..3][k];
  }

  // ------------------------------------------------------------------- MGD_N

  /** Line 233: the 9-D vector of the Lab colour and the six direction channels. */
  function Values9(lab: Color, normal: Vec3, b: Basis): (r: seq<real>)
    ensures |r| == 9
    ensures forall k :: 0 <= k < 3 ==> r[k] == Channel(lab, k)
    ensures r[3..] == Channels(Direction(normal, b))
  {
    [lab.r, lab.g, lab.b] + Channels(Direction(normal, b))
  }

  /**
   * The writer takes Normalize(1) of the transformed normal without the
   * Normalize(2) the extractor applies first; the channels it builds are
   * nonetheless the ones the extractor accumulated statistics over.
   */
  lemma WriterChannelsAreExtractorChannels(lab: Color, normal: Vec3, b: Basis, lib: MathLib)
    requires SqrtPositive(lib)
    ensures Values9(lab, normal, b)[3..] == NormalChannels(normal, b, lib)
  {
    L2StepIsIrrelevant(Transform(normal, b), lib);
  }

  /** MGDNStyleTransfer in Lab (lines 218-241): the whole matrix, keeping the colour part. */
  function MgdNLab(lab: Color, normal: Vec3, input: Style, target: Style, t: seq<seq<real>>): Color
    requires WellShaped(input) && WellShaped(target) && IsMatrix9(t)
  {
    Apply(Diff(Values9(lab, normal, input.eigenNormals), input.mean), t, target)
  }

  /**
   * When the normal rows of the matrix do not feed the colour columns, the
   * normal plays no part and MGD_N is MGD.
   */
  lemma MgdNWithDecoupledNormalsIsMgd(lab: Color, normal: Vec3, input: Style, target: Style, t: seq<seq<real>>)
    requires WellShaped(input) && WellShaped(target) && IsMatrix9(t)
    requires forall i, j :: 3 <= i < 9 && 0 <= j < 3 ==> t[i][j] == 0.0
    ensures MgdNLab(lab, normal, input, target, t) == MgdLab(lab, input, target, t)
  {
    var d9 := Diff(Values9(lab, normal, input.eigenNormals), input.mean);
    ApplyIgnoresZeroRows(d9, Centred(lab, input), t, target);
  }

  /** Entries of the vector that meet only zero rows of the colour columns do not matter. */
  lemma ApplyIgnoresZeroRows(long: seq<real>, short: seq<real>, t: seq<seq<real>>, target: Style)
    requires IsMatrix9(t) && WellShaped(target) && |long| == 9 && |short| == 3
    requires forall k :: 0 <= k < 3 ==> long[k] == short[k]
    requires forall i, j :: 3 <= i < 9 && 0 <= j < 3 ==> t[i][j] == 0.0
    ensures Apply(long, t, target) == Apply(short, t, target)
  {
    ZeroRowsColumn(long, short, t, 0);
    ZeroRowsColumn(long, short, t, 1);
    ZeroRowsColumn(long, short, t, 2);
  }

  lemma ZeroRowsColumn(long: seq<real>, short: seq<real>, t: seq<seq<real>>, j: nat)
    requires IsMatrix9(t) && |long| == 9 && |short| == 3 && j < 3
    requires forall k :: 0 <= k < 3 ==> long[k] == short[k]
    requires forall i, j :: 3 <= i < 9 && 0 <= j < 3 ==> t[i][j] == 0.0
    ensures Column(long, t, j) == Column(short, t, j)
  {
    var a := ColumnTerms(long, t, j);
    var b := ColumnTerms(short, t, j);
    assert forall i :: 3 <= i < 9 ==> a[i] == long[i] * 0.0;
    SumToZeroTail(a, 3, 9);
    SumToAgree(a, b, 3);
  }

  // ---------------------------------------------------------------- dispatch

  /** The Lab colour each method produces, before the return to RGB. */
  function TransferLab(m: Method, lab: Color, normal: Vec3, input: Style, target: Style, t: seq<seq<real>>): Option<Color>
    requires WellShaped(input) && WellShaped(target) && IsMatrix9(t)
  {
    match m
    case IGD => IgdLab(lab, input, target)
    case IGD_N => IgdNLab(lab, normal, input, target)
    case MGD => Some(MgdLab(lab, input, target, t))
    case MGD_N => Some(MgdNLab(lab, normal, input, target, t))
  }

  /**
   * The colour SavePointCloud writes for one point (lines 57-70): Reinhard
   * Lab, the chosen method, back to RGB, times the exposure.
   */
  function Transfer(m: Method, color: Color, normal: Vec3, input: Style, target: Style,
                    t: seq<seq<real>>, exposure: real, lib: MathLib): (r: Option<Color>)
    requires ColorUtils.RootsNonZero(lib)
    requires WellShaped(input) && WellShaped(target) && IsMatrix9(t)
    ensures (m == MGD || m == MGD_N) ==> r.Some?
    ensures m == IGD ==> (r.Some? <==> ColorStdsNonZero(input))
  {
    match TransferLab(m, ColorUtils.ReinhardRgbToLab(color, lib), normal, input, target, t)
    case None => None
    case Some(lab) => Some(Expose(ColorUtils.ReinhardLabToRgb(lab, lib), exposure))
  }

  /**
   * Transferring a style onto itself at exposure 1 with IGD, or with MGD and
   * an identity colour block, gives back the colour's own trip through
   * Reinhard's Lab space.
   */
  lemma TransferOntoItself(m: Method, color: Color, normal: Vec3, st: Style, t: seq<seq<real>>, lib: MathLib)
    requires ColorUtils.RootsNonZero(lib)
    requires WellShaped(st) && IsMatrix9(t) && ColorStdsNonZero(st)
    requires forall i, j :: 0 <= i < 3 && 0 <= j < 3 ==> t[i][j] == if i == j then 1.0 else 0.0
    requires m == IGD || m == MGD
    ensures Transfer(m, color, normal, st, st, t, 1.0, lib)
            == Some(ColorUtils.ReinhardLabToRgb(ColorUtils.ReinhardRgbToLab(color, lib), lib))
  {
    var lab := ColorUtils.ReinhardRgbToLab(color, lib);
    if m == IGD {
      IgdLabIdentity(lab, st);
    } else {
      MgdWithIdentityBlock(lab, st, st, t);
    }
    ExposeFacts(ColorUtils.ReinhardLabToRgb(lab, lib), 1.0, 1.0);
  }

  // ------------------------------------------------------------------ output

  /** The properties CompleteHeader declares, in order, all of type float (lines 253-261). */
  const WrittenNames: seq<string> := ["x", "y", "z", "nx", "ny", "nz", "r", "g", "b"]

  /**
   * CompleteHeader (lines 249-262): the ascii header of the written cloud, one
   * string per line. Read the way a PLY reader splits lines on ' ' and '\n',
   * it is "ply", the ascii format, a vertex element of nbPoints, a float
   * property for each written name in order, and "end_header".
   */
  function CompleteHeader(nbPoints: int): (r: seq<string>)
    ensures |r| == 13
    ensures r[0] == "ply" && r[12] == "end_header"
    ensures Tokens.Split(r[1]) == ["format", "ascii", "1.0"]
    ensures Tokens.Split(r[2]) == ["element", "vertex", Decimal.ShowInt(nbPoints)]
    ensures forall k :: 0 <= k < 9 ==> Tokens.Split(r[3 + k]) == ["property", "float", WrittenNames[k]]
    ensures Tokens.Split(r[12]) == ["end_header"]
  {
    HeaderLinesTokens(nbPoints);
    seq(13, i requires 0 <= i < 13 => HeaderLine(nbPoints, i))
  }

  /** Line i of CompleteHeader. */
  function HeaderLine(nbPoints: int, i: nat): string
    requires i < 13
  {
    if i == 0 then "ply"
    else if i == 1 then Tokens.Line3("format", "ascii", "1.0")
    else if i == 2 then Tokens.Line3("element", "vertex", Decimal.ShowInt(nbPoints))
    else if i < 12 then Tokens.Line3("property", "float", WrittenNames[i - 3])
    else "end_header"
  }

  /** How Split cuts each header line into its words. */
  lemma HeaderLinesTokens(nbPoints: int)
    ensures Tokens.Split(HeaderLine(nbPoints, 1)) == ["format", "ascii", "1.0"]
    ensures Tokens.Split(HeaderLine(nbPoints, 2)) == ["element", "vertex", Decimal.ShowInt(nbPoints)]
    ensures forall k :: 0 <= k < 9 ==> Tokens.Split(HeaderLine(nbPoints, 3 + k)) == ["property", "float", WrittenNames[k]]
    ensures Tokens.Split(HeaderLine(nbPoints, 12)) == ["end_header"]
  {
    FormatLineTokens(nbPoints);
    ElementLineTokens(nbPoints);
    forall k | 0 <= k < 9
      ensures Tokens.Split(HeaderLine(nbPoints, 3 + k)) == ["property", "float", WrittenNames[k]]
    {
      PropertyLineTokens(nbPoints, k);
    }
    EndLineTokens(nbPoints);
  }

  lemma FormatLineTokens(nbPoints: int)
    ensures Tokens.Split(HeaderLine(nbPoints, 1)) == ["format", "ascii", "1.0"]
  {
    Tokens.Line3Tokens("format", "ascii", "1.0");
  }

  lemma ElementLineTokens(nbPoints: int)
    ensures Tokens.Split(HeaderLine(nbPoints, 2)) == ["element", "vertex", Decimal.ShowInt(nbPoints)]
  {
    ShowIntHasNoSeparator(nbPoints);
    Tokens.Line3Tokens("element", "vertex", Decimal.ShowInt(nbPoints));
  }

  lemma EndLineTokens(nbPoints: int)
    ensures Tokens.Split(HeaderLine(nbPoints, 12)) == ["end_header"]
  {
    Tokens.SplitWord("end_header");
  }

  lemma PropertyLineTokens(nbPoints: int, k: nat)
    requires k < 9
    ensures Tokens.Split(HeaderLine(nbPoints, 3 + k)) == ["property", "float", WrittenNames[k]]
  {
    assert Tokens.NoSeparator(WrittenNames[k]);
    Tokens.Line3Tokens("property", "float", WrittenNames[k]);
  }

  /** What ToString writes for an integer contains neither ' ' nor '\n'. */
  lemma ShowIntHasNoSeparator(n: int)
    ensures Tokens.NoSeparator(Decimal.ShowInt(n))
  {
    var d := if n < 0 then Decimal.ShowNat(-n) else Decimal.ShowNat(n);
    assert forall i :: 0 <= i < |d| ==> Decimal.IsDigit(d[i]);
    if n < 0 {
      assert Decimal.ShowInt(n) == "-" + d;
    }
  }

  /**
   * PointToLine and VectorToLine (lines 265-275): position, normal and colour,
   * nine numbers separated by single spaces, each written by `show` (the
   * source's ToString with ',' replaced by '.').
   */
  function PointToLine(position: Vec3, normal: Vec3, color: Color, show: real -> string): string {
    Tokens.Join([show(position.x), show(position.y), show(position.z),
                 show(normal.x), show(normal.y), show(normal.z),
                 show(color.r), show(color.g), show(color.b)])
  }
}
