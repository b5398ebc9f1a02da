/**
 * Colour-space conversions (Assets/Scripts/ColorUtils.cs): the [0,1] clamps of
 * the CIE conversions, the piecewise-rational RGB <-> HSL pair, and the linear
 * stages of the Reinhard RGB -> LMS -> l-alpha-beta transform.
 */
module ColorUtils {
  import opened Linear

  /** Unity's `Color`, alpha left out; `c[0]`, `c[1]`, `c[2]` are r, g, b. */
  datatype Color = Color(r: real, g: real, b: real)

  const Black := Color(0.0, 0.0, 0.0)

  predicate InUnitCube(c: Color) {
    0.0 <= c.r <= 1.0 && 0.0 <= c.g <= 1.0 && 0.0 <= c.b <= 1.0
  }

  /** Unity's Mathf.Clamp01. */
  function Clamp01(x: real): (r: real)
    ensures 0.0 <= r <= 1.0
    ensures 0.0 <= x <= 1.0 ==> r == x
  {
    if x < 0.0 then 0.0 else if x > 1.0 then 1.0 else x
  }

  function ClampColor(c: Color): (r: Color)
    ensures InUnitCube(r)
    ensures InUnitCube(c) ==> r == c
  {
    Color(Clamp01(c.r), Clamp01(c.g), Clamp01(c.b))
  }

  // ---------------------------------------------------------------- sRGB / XYZ / Lab

  /** sRGB companding, gamma-encoded to linear (RGBtoXYZ's loop body). */
  function ExpandChannel(c: real, lib: MathLib): real {
    if c > 0.04045 then lib.pow((c + 0.055) / 1.055, 2.4) else c / 12.92
  }

  /** The linear-RGB to XYZ matrix of RGBtoXYZ. */
  function LinearRgbToXyz(c: Color): Color {
    Color(c.r * 0.4124 + c.g * 0.3576 + c.b * 0.1805,
          c.r * 0.2126 + c.g * 0.7152 + c.b * 0.0722,
          c.r * 0.0193 + c.g * 0.1192 + c.b * 0.9505)
  }

  /** RGBtoXYZ: companding, the sRGB matrix, then a clamp of every component to [0,1]. */
  function RgbToXyz(c: Color, lib: MathLib): (r: Color)
    ensures InUnitCube(r)
    ensures c == Black ==> r == Black
  {
    var linear := Color(ExpandChannel(c.r, lib), ExpandChannel(c.g, lib), ExpandChannel(c.b, lib));
    ClampColor(LinearRgbToXyz(linear))
  }

  /**
   * Inside the linear companding segment (every channel in [0, 0.04045]) no
   * power is taken and the clamps never bite: RGBtoXYZ is exactly the matrix
   * applied to c / 12.92.
   */
  lemma RgbToXyzLinearSegment(c: Color, lib: MathLib)
    requires 0.0 <= c.r <= 0.04045 && 0.0 <= c.g <= 0.04045 && 0.0 <= c.b <= 0.04045
    ensures RgbToXyz(c, lib) == LinearRgbToXyz(Color(c.r / 12.92, c.g / 12.92, c.b / 12.92))
  {
    var x := LinearRgbToXyz(Color(c.r / 12.92, c.g / 12.92, c.b / 12.92));
    assert InUnitCube(x);
  }

  /** sRGB companding, linear to gamma-encoded (XYZtoRGB's loop body). */
  function CompressChannel(c: real, lib: MathLib): real {
    if c <= 0.0031308 then c * 12.92 else lib.pow(1.055 * c, 1.0 / 2.4) - 0.055
  }

  /** The XYZ to linear-RGB matrix of XYZtoRGB. */
  function XyzToLinearRgb(c: Color): Color {
    Color(c.r * 3.2405 + c.g * (-1.5371) + c.b * (-0.4985),
          c.r * (-0.9693) + c.g * 1.8760 + c.b * 0.04156,
          c.r * 0.0556 + c.g * (-0.2040) + c.b * 1.0572)
  }

  /** XYZtoRGB: the inverse sRGB matrix, companding, then a clamp of every component to [0,1]. */
  function XyzToRgb(c: Color, lib: MathLib): (r: Color)
    ensures InUnitCube(r)
    ensures c == Black ==> r == Black
  {
    var linear := XyzToLinearRgb(c);
    ClampColor(Color(CompressChannel(linear.r, lib), CompressChannel(linear.g, lib), CompressChannel(linear.b, lib)))
  }

  /** An out-of-gamut XYZ whose linear red is negative comes out with red exactly 0, whatever pow does. */
  lemma XyzToRgbClampsNegativeRed(c: Color, lib: MathLib)
    requires XyzToLinearRgb(c).r < 0.0
    ensures XyzToRgb(c, lib).r == 0.0
  {
  }

  /** The D65 reference white of XYZtoLab and LabtoXYZ. */
  const WhiteX: real := 0.95047
  const WhiteY: real := 1.0
  const WhiteZ: real := 1.08883
  const LabEpsilon: real := 0.008856
  const LabEta: real := 903.3

  /** LabtoXYZ: the CIE Lab inverse with the source's thresholds, then a clamp of every component to [0,1]. */
  function LabToXyz(lab: Color, lib: MathLib): (r: Color)
    ensures InUnitCube(r)
  {
    var fy := (lab.r + 16.0) / 116.0;
    var fz := fy - lab.b / 200.0;
    var fx := lab.g / 500.0 + fy;
    var xr := if lib.pow(fx, 3.0) > LabEpsilon then lib.pow(fx, 3.0) else (116.0 * fx - 16.0) / LabEta;
    var yr := if lab.r > LabEta * LabEpsilon then lib.pow((lab.r + 16.0) / 116.0, 3.0) else lab.r / LabEta;
    var zr := if lib.pow(fz, 3.0) > LabEpsilon then lib.pow(fz, 3.0) else (116.0 * fz - 16.0) / LabEta;
    ClampColor(Color(xr * WhiteX, yr * WhiteY, zr * WhiteZ))
  }

  /** With a faithful cube, Lab black (0, 0, 0) maps to XYZ black: every component takes the linear branch. */
  lemma LabBlackIsXyzBlack(lib: MathLib)
    requires lib.pow(16.0 / 116.0, 3.0) == (16.0 / 116.0) * (16.0 / 116.0) * (16.0 / 116.0)
    ensures LabToXyz(Black, lib) == Black
  {
    var f := 16.0 / 116.0;
    assert f * f * f < LabEpsilon;
    assert (116.0 * f - 16.0) / LabEta == 0.0;
  }

  // ---------------------------------------------------------------- HSL

  /** Hue in degrees, saturation and lightness, as RGBtoHSL packs them into a Color. */
  datatype Hsl = Hsl(h: real, s: real, l: real)

  function Min3(a: real, b: real, c: real): real {
    Min(a, Min(b, c))
  }

  function Max3(a: real, b: real, c: real): real {
    Max(a, Max(b, c))
  }

  /** Every division RGBtoHSL performs has a non-zero divisor (IEEE infinities are not modelled). */
  predicate HslDefined(c: Color) {
    var lo, hi := Min3(c.r, c.g, c.b), Max3(c.r, c.g, c.b);
    lo != hi ==> (if (lo + hi) / 2.0 < 0.5 then hi + lo != 0.0 else 2.0 - hi - lo != 0.0)
  }

  /** Any non-gray colour with channels in [0,1] has non-zero divisors. */
  lemma UnitCubeIsHslDefined(c: Color)
    requires InUnitCube(c)
    ensures HslDefined(c)
  {
  }

  /** The hue sector of channel `top`, as lines 162-164 compute it when `top` holds the maximum. */
  function SectorHue(c: Color, top: nat, d: real): real
    requires top < 3 && d != 0.0
  {
    if top == 0 then (c.g - c.b) / d
    else if top == 1 then 2.0 + (c.b - c.r) / d
    else 4.0 + (c.r - c.g) / d
  }

  /** Scaling to degrees and the single +360 wrap of line 165. */
  function Degrees(h: real): real {
    if h * 60.0 < 0.0 then h * 60.0 + 360.0 else h * 60.0
  }

  /**
   * RGBtoHSL. Lightness is the mid-range; a gray colour returns (0, 0, L); the
   * three `if`s on the maximum are not exclusive, so on a tie the later one
   * (blue over green over red) decides the hue.
   */
  function RgbToHsl(c: Color): (r: Hsl)
    requires HslDefined(c)
    ensures r.l == (Min3(c.r, c.g, c.b) + Max3(c.r, c.g, c.b)) / 2.0
    ensures c.r == c.g == c.b ==> r == Hsl(0.0, 0.0, c.r)
    ensures Min3(c.r, c.g, c.b) != Max3(c.r, c.g, c.b) ==>
      r.h == Degrees(SectorHue(c, if Max3(c.r, c.g, c.b) == c.b then 2 else if Max3(c.r, c.g, c.b) == c.g then 1 else 0,
                               Max3(c.r, c.g, c.b) - Min3(c.r, c.g, c.b)))
  {
    var lo, hi := Min3(c.r, c.g, c.b), Max3(c.r, c.g, c.b);
    var l := (lo + hi) / 2.0;
    if lo == hi then Hsl(0.0, 0.0, l)
    else
      var d := hi - lo;
      var s := if l < 0.5 then d / (hi + lo) else d / (2.0 - hi - lo);
      var h := if hi == c.b then 4.0 + (c.r - c.g) / d
               else if hi == c.g then 2.0 + (c.b - c.r) / d
               else (c.g - c.b) / d;
      Hsl(Degrees(h), s, l)
  }

  lemma DivideWithin(x: real, d: real)
    requires d > 0.0 && -d <= x <= d
    ensures -1.0 <= x / d <= 1.0
  {
  }

  /** Every channel that attains the maximum gives the same hue, so the order of the tie-breaks does not matter. */
  lemma HueIndependentOfTieBreak(c: Color, top: nat)
    requires HslDefined(c) && top < 3
    requires Min3(c.r, c.g, c.b) != Max3(c.r, c.g, c.b)
    requires Max3(c.r, c.g, c.b) == (if top == 0 then c.r else if top == 1 then c.g else c.b)
    ensures RgbToHsl(c).h == Degrees(SectorHue(c, top, Max3(c.r, c.g, c.b) - Min3(c.r, c.g, c.b)))
  {
    var hi, lo := Max3(c.r, c.g, c.b), Min3(c.r, c.g, c.b);
    var d := hi - lo;
    if c.r == c.g == hi {
      assert c.b == lo;
      UnitQuotient(c.g - c.b, d, 1.0);
      UnitQuotient(c.b - c.r, d, -1.0);
    }
    if c.g == c.b == hi {
      assert c.r == lo;
      UnitQuotient(c.b - c.r, d, 1.0);
      UnitQuotient(c.r - c.g, d, -1.0);
    }
    if c.r == c.b == hi {
      assert c.g == lo;
      UnitQuotient(c.g - c.b, d, -1.0);
      UnitQuotient(c.r - c.g, d, 1.0);
    }
  }

  lemma UnitQuotient(x: real, d: real, q: real)
    requires d != 0.0 && (q == 1.0 || q == -1.0) && x == q * d
    ensures x / d == q
  {
  }

  /** For a non-gray colour the hue lies in [0, 360). */
  lemma HueInRange(c: Color)
    requires HslDefined(c) && Min3(c.r, c.g, c.b) != Max3(c.r, c.g, c.b)
    ensures 0.0 <= RgbToHsl(c).h < 360.0
  {
    var lo, hi := Min3(c.r, c.g, c.b), Max3(c.r, c.g, c.b);
    var d := hi - lo;
    DivideWithin(c.g - c.b, d);
    DivideWithin(c.b - c.r, d);
    DivideWithin(c.r - c.g, d);
  }

  /** For a non-gray colour in the unit cube, saturation lies in (0, 1]. */
  lemma SaturationInRange(c: Color)
    requires InUnitCube(c) && Min3(c.r, c.g, c.b) != Max3(c.r, c.g, c.b)
    ensures HslDefined(c)
    ensures 0.0 < RgbToHsl(c).s <= 1.0
  {
    var lo, hi := Min3(c.r, c.g, c.b), Max3(c.r, c.g, c.b);
    var d := hi - lo;
    if (lo + hi) / 2.0 < 0.5 {
      DivideWithin(d, hi + lo);
      PositiveQuotient(d, hi + lo);
    } else {
      DivideWithin(d, 2.0 - hi - lo);
      PositiveQuotient(d, 2.0 - hi - lo);
    }
  }

  /** The two intermediate values of HSLtoRGB, temp1 >= temp2. */
  function HslTemp1(c: Hsl): real {
    if c.l < 0.5 then c.l * (1.0 + c.s) else c.l + c.s - c.l * c.s
  }

  function HslTemp2(c: Hsl): real {
    2.0 * c.l - HslTemp1(c)
  }

  /** Lines 183-185: at most one +1 or -1 wrap of a channel's hue offset. */
  function Wrap(t: real): real {
    var u := if t < 0.0 then t + 1.0 else t;
    if u > 1.0 then u - 1.0 else u
  }

  /** The source's per-channel piecewise ramp, with its third branch `6 * (0.666 * t)`. */
  function RampAsWritten(t1: real, t2: real, t: real): real {
    if 6.0 * t < 1.0 then t2 + (t1 - t2) * 6.0 * t
    else if 2.0 * t < 1.0 then t1
    else if 3.0 * t < 2.0 then t2 + (t1 - t2) * 6.0 * (0.666 * t)
    else t2
  }

  /** HSLtoRGB as written: 0.333 hue offsets and the `6 * (0.666 * t)` falling ramp. */
  function HslToRgbAsWritten(c: Hsl): (r: Color)
    ensures c.s == 0.0 ==> r == Color(c.l, c.l, c.l)
  {
    if c.s == 0.0 then Color(c.l, c.l, c.l)
    else
      var t1, t2, hue := HslTemp1(c), HslTemp2(c), c.h / 360.0;
      Color(RampAsWritten(t1, t2, Wrap(hue + 0.333)),
            RampAsWritten(t1, t2, Wrap(hue)),
            RampAsWritten(t1, t2, Wrap(hue - 0.333)))
  }

  /** Cyan, hue 180 at full saturation and half lightness: the as-written green is 1.998, outside [0,1]. */
  lemma HslToRgbAsWrittenLeavesGamut()
    ensures HslToRgbAsWritten(Hsl(180.0, 1.0, 0.5)).g == 1.998
    ensures !InUnitCube(HslToRgbAsWritten(Hsl(180.0, 1.0, 0.5)))
  {
    var c := Hsl(180.0, 1.0, 0.5);
    assert HslTemp1(c) == 1.0;
    assert HslTemp2(c) == 0.0;
    assert Wrap(0.5) == 0.5;
  }

  /** The evidently intended ramp: rising on [0, 1/6), flat to 1/2, falling linearly to 2/3. */
  function Ramp(t1: real, t2: real, t: real): real {
    if 6.0 * t < 1.0 then t2 + (t1 - t2) * 6.0 * t
    else if 2.0 * t < 1.0 then t1
    else if 3.0 * t < 2.0 then t2 + (t1 - t2) * 6.0 * (2.0 / 3.0 - t)
    else t2
  }

  /** HSLtoRGB as written except for the falling ramp, which is 6 (2/3 - t); the 0.333 hue offsets are kept. */
  function HslToRgb(c: Hsl): (r: Color)
    ensures c.s == 0.0 ==> r == Color(c.l, c.l, c.l)
  {
    if c.s == 0.0 then Color(c.l, c.l, c.l)
    else
      var t1, t2, hue := HslTemp1(c), HslTemp2(c), c.h / 360.0;
      Color(Ramp(t1, t2, Wrap(hue + 0.333)),
            Ramp(t1, t2, Wrap(hue)),
            Ramp(t1, t2, Wrap(hue - 0.333)))
  }

  predicate HslInRange(c: Hsl) {
    0.0 <= c.h < 360.0 && 0.0 <= c.s <= 1.0 && 0.0 <= c.l <= 1.0
  }

  lemma TempsInUnitInterval(c: Hsl)
    requires HslInRange(c)
    ensures 0.0 <= HslTemp2(c) <= HslTemp1(c) <= 1.0
  {
    if c.l < 0.5 {
      SpreadBelow(c.l, c.s, c.l * c.s);
      assert HslTemp1(c) == c.l + c.l * c.s;
      TempsAround(c.l, c.l * c.s, HslTemp1(c), HslTemp2(c));
    } else {
      SpreadBelow(1.0 - c.l, c.s, (1.0 - c.l) * c.s);
      ComplementProduct(c.l, c.s);
      TempsAround(c.l, (1.0 - c.l) * c.s, HslTemp1(c), HslTemp2(c));
    }
  }

  lemma SpreadBelow(a: real, b: real, p: real)
    requires a >= 0.0 && 0.0 <= b <= 1.0 && p == a * b
    ensures 0.0 <= p <= a
  {
    ProductBounded(a, b);
  }

  lemma ComplementProduct(l: real, s: real)
    ensures l + s - l * s == l + (1.0 - l) * s
  {
  }

  /** Temps l + p and l - p for a spread p no larger than l or 1 - l. */
  lemma TempsAround(l: real, p: real, t1: real, t2: real)
    requires 0.0 <= p && p <= l && p <= 1.0 - l
    requires t1 == l + p && t2 == 2.0 * l - t1
    ensures 0.0 <= t2 <= t1 <= 1.0
  {
  }

  /** On [0,1] the intended ramp stays between the two temps. */
  lemma RampBetweenTemps(t1: real, t2: real, t: real)
    requires t2 <= t1 && 0.0 <= t <= 1.0
    ensures t2 <= Ramp(t1, t2, t) <= t1
  {
    var k := t1 - t2;
    if 6.0 * t < 1.0 {
      var u := 6.0 * t;
      ProductBounded(k, u);
      assert (t1 - t2) * 6.0 * t == k * u;
    } else if 2.0 * t < 1.0 {
    } else if 3.0 * t < 2.0 {
      var f := 6.0 * (2.0 / 3.0 - t);
      ProductBounded(k, f);
      assert (t1 - t2) * 6.0 * (2.0 / 3.0 - t) == k * f;
      assert Ramp(t1, t2, t) == t2 + k * f;
    }
  }

  lemma WrapInUnitInterval(t: real)
    requires -1.0 <= t <= 2.0
    ensures 0.0 <= Wrap(t) <= 1.0
  {
  }

  /** The corrected HSLtoRGB maps every in-range HSL triple into the unit cube. */
  lemma HslToRgbInUnitCube(c: Hsl)
    requires HslInRange(c)
    ensures InUnitCube(HslToRgb(c))
  {
    if c.s != 0.0 {
      var t1, t2, hue := HslTemp1(c), HslTemp2(c), c.h / 360.0;
      TempsInUnitInterval(c);
      WrapInUnitInterval(hue + 0.333);
      WrapInUnitInterval(hue);
      WrapInUnitInterval(hue - 0.333);
      RampBetweenTemps(t1, t2, Wrap(hue + 0.333));
      RampBetweenTemps(t1, t2, Wrap(hue));
      RampBetweenTemps(t1, t2, Wrap(hue - 0.333));
    }
  }

  /** Gray survives RGB -> HSL -> RGB exactly, both as written and corrected. */
  lemma GrayRoundTrip(g: real)
    ensures HslToRgbAsWritten(RgbToHsl(Color(g, g, g))) == Color(g, g, g)
    ensures HslToRgb(RgbToHsl(Color(g, g, g))) == Color(g, g, g)
  {
  }

  // ---------------------------------------------------------------- Reinhard l-alpha-beta

  /** The RGB -> LMS matrix of ReinhardRGBtoLab. */
  function RgbToLms(c: Color): (r: Color)
    ensures c.r >= 0.0 && c.g >= 0.0 && c.b >= 0.0 ==> r.r >= 0.0 && r.g >= 0.0 && r.b >= 0.0
  {
    Color(c.r * 0.3811 + c.g * 0.5783 + c.b * 0.0402,
          c.r * 0.1967 + c.g * 0.7244 + c.b * 0.0782,
          c.r * 0.0241 + c.g * 0.1288 + c.b * 0.8444)
  }

  /** The LMS -> RGB matrix of ReinhardLabtoRGB. */
  function LmsToRgb(c: Color): Color {
    Color(c.r * 4.4678 - c.g * 3.5873 + c.b * 0.1193,
          -c.r * 1.2186 + c.g * 2.3809 - c.b * 0.1624,
          c.r * 0.0497 - c.g * 0.2439 + c.b * 1.2045)
  }

  /** The offset that keeps the log10 argument away from zero. */
  const LogOffset: real := 0.000001

  function LogArguments(c: Color): (r: Color)
    ensures c.r >= 0.0 && c.g >= 0.0 && c.b >= 0.0 ==> r.r > 0.0 && r.g > 0.0 && r.b > 0.0
  {
    var lms := RgbToLms(c);
    Color(lms.r + LogOffset, lms.g + LogOffset, lms.b + LogOffset)
  }

  /** The three roots the opponent stages divide by are non-zero, as Mathf.Sqrt of 3, 6 and 2 are. */
  predicate RootsNonZero(lib: MathLib) {
    lib.sqrt(3.0) != 0.0 && lib.sqrt(6.0) != 0.0 && lib.sqrt(2.0) != 0.0
  }

  /** The linear LMS -> l-alpha-beta decorrelation of lines 218-224, with sqrt supplied by the caller. */
  function LmsToOpponent(c: Color, lib: MathLib): Color
    requires RootsNonZero(lib)
  {
    Color((1.0 / lib.sqrt(3.0)) * (c.r + c.g + c.b),
          (1.0 / lib.sqrt(6.0)) * (c.r + c.g - 2.0 * c.b),
          (1.0 / lib.sqrt(2.0)) * (c.r - c.g))
  }

  /** The linear l-alpha-beta -> LMS stage of lines 231-238. */
  function OpponentToLms(c: Color, lib: MathLib): Color {
    var l := (lib.sqrt(3.0) / 3.0) * c.r;
    var a := (lib.sqrt(6.0) / 6.0) * c.g;
    var b := (lib.sqrt(2.0) / 2.0) * c.b;
    Color(l + a + b, l + a - b, l - 2.0 * a)
  }

  /** sqrt is exact on the three constants the opponent stages use. */
  predicate ExactRoots(lib: MathLib) {
    lib.sqrt(3.0) * lib.sqrt(3.0) == 3.0 && lib.sqrt(6.0) * lib.sqrt(6.0) == 6.0 && lib.sqrt(2.0) * lib.sqrt(2.0) == 2.0
  }

  lemma ExactRootsAreNonZero(lib: MathLib)
    requires ExactRoots(lib)
    ensures RootsNonZero(lib)
  {
    RootIsNonZero(lib.sqrt(3.0), 3.0);
    RootIsNonZero(lib.sqrt(6.0), 6.0);
    RootIsNonZero(lib.sqrt(2.0), 2.0);
  }

  lemma RootIsNonZero(q: real, k: real)
    requires k > 0.0 && q * q == k
    ensures q != 0.0
  {
  }

  /** (q/k) ((1/q) x) = x/k once q*q == k. */
  lemma RootCancels(q: real, k: real, x: real)
    requires k > 0.0 && q * q == k
    ensures q != 0.0
    ensures (q / k) * ((1.0 / q) * x) == x / k
  {
    RootIsNonZero(q, k);
    var inv := 1.0 / q;
    assert q * inv == 1.0;
    calc {
      (q / k) * (inv * x);
    ==
      ((q * inv) * x) / k;
    ==
      x / k;
    }
  }

  /** With exact roots, the Lab -> LMS stage undoes the LMS -> Lab stage. */
  lemma OpponentToLmsInvertsLmsToOpponent(c: Color, lib: MathLib)
    requires ExactRoots(lib)
    ensures RootsNonZero(lib)
    ensures OpponentToLms(LmsToOpponent(c, lib), lib) == c
  {
    ExactRootsAreNonZero(lib);
    RootCancels(lib.sqrt(3.0), 3.0, c.r + c.g + c.b);
    RootCancels(lib.sqrt(6.0), 6.0, c.r + c.g - 2.0 * c.b);
    RootCancels(lib.sqrt(2.0), 2.0, c.r - c.g);
  }

  /** (1/q) (k ((q/k) x)) = x for non-zero q and k. */
  lemma ScaledRootCancels(q: real, k: real, x: real, y: real)
    requires q != 0.0 && k != 0.0 && y == k * ((q / k) * x)
    ensures (1.0 / q) * y == x
  {
    assert k * ((q / k) * x) == q * x;
  }

  lemma SumsOfOpponent(l: real, a: real, b: real, lms: Color)
    requires lms == Color(l + a + b, l + a - b, l - 2.0 * a)
    ensures lms.r + lms.g + lms.b == 3.0 * l
    ensures lms.r + lms.g - 2.0 * lms.b == 6.0 * a
    ensures lms.r - lms.g == 2.0 * b
  {
  }

  /**
   * The LMS -> Lab stage undoes the Lab -> LMS stage whatever the (non-zero)
   * roots are: each component is scaled by q/k, summed k-fold, then by 1/q.
   */
  lemma LmsToOpponentInvertsOpponentToLms(c: Color, lib: MathLib)
    requires RootsNonZero(lib)
    ensures LmsToOpponent(OpponentToLms(c, lib), lib) == c
  {
    var q3, q6, q2 := lib.sqrt(3.0), lib.sqrt(6.0), lib.sqrt(2.0);
    var lms := OpponentToLms(c, lib);
    var l := (q3 / 3.0) * c.r;
    var a := (q6 / 6.0) * c.g;
    var b := (q2 / 2.0) * c.b;
    SumsOfOpponent(l, a, b, lms);
    ScaledRootCancels(q3, 3.0, c.r, lms.r + lms.g + lms.b);
    ScaledRootCancels(q6, 6.0, c.g, lms.r + lms.g - 2.0 * lms.b);
    ScaledRootCancels(q2, 2.0, c.b, lms.r - lms.g);
  }

  function Log10Color(c: Color, lib: MathLib): Color {
    Color(lib.log10(c.r), lib.log10(c.g), lib.log10(c.b))
  }

  function Pow10Color(c: Color, lib: MathLib): Color {
    Color(lib.pow(10.0, c.r), lib.pow(10.0, c.g), lib.pow(10.0, c.b))
  }

  /** ReinhardRGBtoLab: RGB -> LMS, log10 of LMS + 1e-6, then the opponent stage. */
  function ReinhardRgbToLab(c: Color, lib: MathLib): Color
    requires RootsNonZero(lib)
  {
    LmsToOpponent(Log10Color(LogArguments(c), lib), lib)
  }

  /** ReinhardLabtoRGB: the inverse opponent stage, 10^x, then LMS -> RGB. */
  function ReinhardLabToRgb(c: Color, lib: MathLib): Color {
    LmsToRgb(Pow10Color(OpponentToLms(c, lib), lib))
  }

  /**
   * Lab -> RGB after RGB -> Lab returns the colour pushed through the two
   * approximately inverse LMS matrices and the 1e-6 offset, once the roots are
   * exact and pow(10, .) undoes log10 on the three (positive) log arguments.
   */
  lemma ReinhardRoundTrip(c: Color, lib: MathLib)
    requires ExactRoots(lib)
    requires c.r >= 0.0 && c.g >= 0.0 && c.b >= 0.0
    requires forall x :: x > 0.0 ==> lib.pow(10.0, lib.log10(x)) == x
    ensures RootsNonZero(lib)
    ensures ReinhardLabToRgb(ReinhardRgbToLab(c, lib), lib) == LmsToRgb(LogArguments(c))
  {
    ExactRootsAreNonZero(lib);
    var args := LogArguments(c);
    OpponentToLmsInvertsLmsToOpponent(Log10Color(args, lib), lib);
    assert Pow10Color(Log10Color(args, lib), lib) == args;
  }
}
