# Point-cloud colour transfer: a Dafny model of the statistics and PLY core

This project models the numerical and parsing core of a Unity tool that
transfers the colour style of one point cloud onto another. The model covers
five parts:

- **MatrixUtils.** Column means, variances and covariances of an N x D sample
  matrix, with the source's NaN-to-0 guards. It also covers centring and the
  copies between a 3x3 matrix and Unity's `Matrix4x4`.
- **ColorUtils.** The [0,1] clamps of the CIE conversions and the RGB <-> HSL
  pair. It also covers the linear stages of Reinhard's RGB -> LMS ->
  l-alpha-beta ("Lab") transform.
- **PointCloudStyleExtractor.** The greedy arrangement of the PCA normal
  directions onto the X, Y and Z axes, and the six one-sided normal channels
  of a point. It also covers the fold that builds the 9-D mean, the
  zero-patched covariance and the per-octant colour means and deviations.
- **PlyWriter.** The four per-point transfer maps IGD, IGD_N, MGD and MGD_N in
  Lab space, and the ascii header and data lines of the written file.
- **PlyRenderer.** The PLY header parser over tokenised lines and the ascii and
  binary point readers with their defaults. It also covers the split of the
  points into meshes of 65535 and the assignment of faces to those meshes.

Everything is modelled over `real` and `int`. The single-precision arithmetic
of the source is not modelled: every sum is exact, and a float division
becomes an explicit case for a zero denominator.

- `MatrixUtils.Quotient` models the source's `float.IsNaN(r) ? 0 : r` guard,
  which catches 0/0 but lets an infinity through.
- `PointCloudStyleExtractor.Stat` models the unguarded octant divisions.
- `Option` and `Result` model the failures the source turns into non-finite
  colours or exceptions.

The transcendental functions (`Mathf.Sqrt`, `Log10`, `Pow`) are fields of a
`MathLib` value supplied by the caller. A lemma that needs a fact about one of
them states that fact as a precondition. The PCA of the normals and the
Monge-Kantorovich matrix are library results; the model takes them as inputs.

Files: `wrappers.dfy` (Option/Result), `linear.dfy` (sums over sequences,
`Vec3`, `MathLib`), `matrix_utils.dfy`, `color_utils.dfy`,
`point_cloud_style_extractor.dfy`, `ply_writer.dfy`, `tokens.dfy` (the
`Split` on ' ' and '\n' that every header and data line goes through),
`decimal.dfy` (`int.ToString`, `int.Parse`, `uint.Parse`) and
`ply_renderer.dfy`.

Where the system's written description and its code disagree, the model
follows the code:

- **Unclaimed axes.** An axis that no eigenvector claims keeps the PCA row at
  that index, not an identity row (PointCloudStyleExtractor.cs:61-66 and
  84-123).
- **IGD_N basis.** IGD_N selects octants with the input cloud's eigen basis
  for both the input and the target statistics (PlyWriter.cs:108, 156-178).
- **Zero input standard deviation.** IGD and IGD_N divide by the input
  standard deviation with no guard. A zero there gives a non-finite colour,
  modelled as `None`; it is not replaced by a zero delta.
- **Octant statistics.** These divide by the channel weight with no NaN
  guard, so an empty octant yields NaN (`Stat.NaN`), not 0. With one row,
  `ComputeCovarianceElement` divides a non-zero sum by zero, which the guard
  does not catch.
- **Correlation diagonal.** `ComputeCorrelation` divides its diagonal twice.
  See Findings.
- **Identical points.** The design says N identical points have standard
  deviation 0. The code divides sum(v v^T) by N - 1, replaces exact zeros
  by 1e-3, and only then subtracts mu mu^T (PointCloudStyleExtractor.cs:179-189).
  For N identical points a diagonal entry is therefore mu^2 / (N - 1), or
  1e-3 when mu is 0. Every diagonal entry and every standard deviation is
  strictly positive (`PointCloudStyleExtractor.CovarianceDiagonalPositive`,
  `PointCloudStyleExtractor.StdSquaresToCovarianceDiagonal`).
- **Missing `end_header`.** When no `end_header` line follows the
  properties, the source reads past the end of the stream forever. The model
  returns `NoEndHeader` instead.

## Model

| member | source | states |
|---|---|---|
| ColorUtils.Clamp01 | Assets/Scripts/ColorUtils.cs:19-21 | Mathf.Clamp01 lands in [0,1] and is the identity on [0,1] |
| ColorUtils.RgbToXyz | Assets/Scripts/ColorUtils.cs:5-24 | RGBtoXYZ returns every component in [0,1], whatever pow returns; black maps to black |
| ColorUtils.RgbToXyzLinearSegment | Assets/Scripts/ColorUtils.cs:7-21 | inside the linear companding segment no power is taken and no clamp bites: the result is the sRGB matrix applied to c / 12.92 |
| ColorUtils.XyzToRgb | Assets/Scripts/ColorUtils.cs:26-46 | XYZtoRGB returns every component in [0,1]; black maps to black |
| ColorUtils.XyzToRgbClampsNegativeRed | Assets/Scripts/ColorUtils.cs:28-41 | an XYZ colour whose linear red is negative comes out with red exactly 0 |
| ColorUtils.LabToXyz | Assets/Scripts/ColorUtils.cs:68-89 | LabtoXYZ returns every component in [0,1] |
| ColorUtils.LabBlackIsXyzBlack | Assets/Scripts/ColorUtils.cs:68-89 | with an exact cube, Lab (0,0,0) takes the linear branch on every axis and maps to XYZ black |
| ColorUtils.UnitCubeIsHslDefined | Assets/Scripts/ColorUtils.cs:157-164 | for a colour in the unit cube no divisor of RGBtoHSL is zero |
| ColorUtils.RgbToHsl | Assets/Scripts/ColorUtils.cs:152-168 | lightness is the mid-range (min+max)/2; a gray input gives exactly (0, 0, r) |
| ColorUtils.HueIndependentOfTieBreak | Assets/Scripts/ColorUtils.cs:162-165 | every channel that attains the maximum yields the same hue, so the later-`if`-wins order (b over g over r) changes nothing |
| ColorUtils.HueInRange | Assets/Scripts/ColorUtils.cs:162-165 | for a non-gray colour the hue lies in [0, 360) after the single +360 wrap |
| ColorUtils.SaturationInRange | Assets/Scripts/ColorUtils.cs:160 | for a non-gray colour in the unit cube, saturation lies in (0, 1] |
| ColorUtils.HslToRgbAsWritten | Assets/Scripts/ColorUtils.cs:170-203 | HSLtoRGB as written returns (L, L, L) when S = 0 |
| ColorUtils.HslToRgbAsWrittenLeavesGamut | Assets/Scripts/ColorUtils.cs:189-199 | the as-written falling ramp sends HSL (180, 1, 0.5) to green 1.998, outside the unit cube |
| ColorUtils.HslToRgb | Assets/Scripts/ColorUtils.cs:170-203 | the corrected HSLtoRGB returns (L, L, L) when S = 0 |
| ColorUtils.TempsInUnitInterval | Assets/Scripts/ColorUtils.cs:175-176 | for an in-range HSL triple, 0 <= temp2 <= temp1 <= 1 |
| ColorUtils.RampBetweenTemps | Assets/Scripts/ColorUtils.cs:187-190 | the corrected per-channel ramp stays between temp2 and temp1 on [0,1] |
| ColorUtils.WrapInUnitInterval | Assets/Scripts/ColorUtils.cs:183-185 | one +1 or -1 wrap brings a hue offset in [-1, 2] into [0,1] |
| ColorUtils.HslToRgbInUnitCube | Assets/Scripts/ColorUtils.cs:170-203 | the corrected HSLtoRGB maps every in-range HSL triple into the unit cube |
| ColorUtils.GrayRoundTrip | Assets/Scripts/ColorUtils.cs:159-173 | gray survives RGB -> HSL -> RGB exactly, both as written and corrected |
| ColorUtils.RgbToLms | Assets/Scripts/ColorUtils.cs:208-210 | the RGB -> LMS matrix maps non-negative RGB to non-negative LMS |
| ColorUtils.LogArguments | Assets/Scripts/ColorUtils.cs:208-214 | for non-negative RGB every log10 argument LMS + 1e-6 is strictly positive |
| ColorUtils.OpponentToLmsInvertsLmsToOpponent | Assets/Scripts/ColorUtils.cs:216-238 | with sqrt(k)^2 = k for k = 3, 6, 2 the Lab -> LMS stage undoes the LMS -> Lab stage |
| ColorUtils.LmsToOpponentInvertsOpponentToLms | Assets/Scripts/ColorUtils.cs:216-238 | for any non-zero roots the LMS -> Lab stage undoes the Lab -> LMS stage |
| ColorUtils.ReinhardRoundTrip | Assets/Scripts/ColorUtils.cs:205-251 | Lab -> RGB after RGB -> Lab is the colour through the two LMS matrices and the 1e-6 offset, when pow(10, .) undoes log10 |
| MatrixUtils.Mean | Assets/Scripts/MatrixUtils.cs:34-45 | ComputeMean is 0 for an empty vector, and otherwise mean times count is the sum |
| MatrixUtils.MeanBetweenBounds | Assets/Scripts/MatrixUtils.cs:34-45 | a non-empty mean lies between any lower and upper bound of its values |
| MatrixUtils.ColumnMean | Assets/Scripts/MatrixUtils.cs:47-58 | the mean of one column: 0 without rows, otherwise mean times row count is the column sum |
| MatrixUtils.Means | Assets/Scripts/MatrixUtils.cs:60-69 | ComputeMeans has ColumnCount entries, entry i the mean of column i |
| MatrixUtils.Variance | Assets/Scripts/MatrixUtils.cs:71-83 | ComputeVariance is sum x^2 / n - mean^2 for the given mean, and 0 without rows |
| MatrixUtils.Variances | Assets/Scripts/MatrixUtils.cs:85-94 | ComputeVariances applies ComputeVariance column by column with means[i] |
| MatrixUtils.VarianceAboutColumnMean | Assets/Scripts/MatrixUtils.cs:71-83 | about the column's own mean the variance is the mean squared deviation, hence >= 0 |
| MatrixUtils.StandardDeviationsSquareToVariances | Assets/Scripts/MatrixUtils.cs:96-105 | with the column means and a sound sqrt, each standard deviation is >= 0 and squares to the column's variance |
| MatrixUtils.CentredProducts | Assets/Scripts/MatrixUtils.cs:111-115 | the per-row terms (x_a - mean_a)(x_b - mean_b) |
| MatrixUtils.CovarianceElement | Assets/Scripts/MatrixUtils.cs:107-121 | sum of centred products / (n - 1) for n >= 2; 0 for n = 0; for n = 1 finite (and then 0) exactly when the one centred product is 0 |
| MatrixUtils.CovarianceElementSymmetric | Assets/Scripts/MatrixUtils.cs:107-121 | element (a, b) equals element (b, a) |
| MatrixUtils.SingleRowCovarianceIsZero | Assets/Scripts/MatrixUtils.cs:107-121 | one row centred on its own means gives covariance exactly 0, never an infinity |
| MatrixUtils.CovarianceDiagonalIsScaledVariance | Assets/Scripts/MatrixUtils.cs:71-121 | with the column means and n >= 2, the covariance diagonal is n / (n - 1) times ComputeVariance of that column |
| MatrixUtils.Covariance | Assets/Scripts/MatrixUtils.cs:123-136 | ComputeCovariance is D x D with D = means.Count, symmetric, entry (i, j) the covariance element (i, j) |
| MatrixUtils.CovarianceFinite | Assets/Scripts/MatrixUtils.cs:119-120 | with two or more rows every covariance element is finite |
| MatrixUtils.SampleCovariance | Assets/Scripts/MatrixUtils.cs:123-136 | the covariance about the column means as real entries, agreeing with ComputeCovariance |
| MatrixUtils.CovarianceDiagonalIsSquaredDeviation | Assets/Scripts/MatrixUtils.cs:139-141 | each diagonal entry is the square of its deviation, and positive when the deviation is non-zero |
| MatrixUtils.CorrelationDiagonalIsReciprocal | Assets/Scripts/MatrixUtils.cs:145-150 | as written, the correlation diagonal is 1 / variance, not 1 |
| MatrixUtils.CorrelationDiagonalCounterexample | Assets/Scripts/MatrixUtils.cs:145-150 | the column (0, 2) has variance 2 and as-written correlation diagonal 0.5 |
| MatrixUtils.CorrelationCorrectedIsUnitSymmetric | Assets/Scripts/MatrixUtils.cs:138-154 | dividing each entry once by std_i std_j gives a symmetric matrix with unit diagonal |
| MatrixUtils.CenterValues | Assets/Scripts/MatrixUtils.cs:156-164 | CenterValues keeps the shape and sets entry (i, j) to values(i, j) - means[j] |
| MatrixUtils.CenteredColumnsHaveZeroMean | Assets/Scripts/MatrixUtils.cs:156-164 | centring on the matrix's own column means leaves every column with mean 0 |
| MatrixUtils.ToUnityMatrix | Assets/Scripts/MatrixUtils.cs:12-19 | the 3x3 block sits in the upper left; column 3 is (0,0,0,1) and the w of the first three columns is 0 |
| MatrixUtils.FromUnityMatrix | Assets/Scripts/MatrixUtils.cs:21-32 | a 3x3 matrix holding the upper-left block of the 4x4 matrix |
| MatrixUtils.FromUnityAfterToUnity | Assets/Scripts/MatrixUtils.cs:12-32 | FromUnityMatrix(ToUnityMatrix(m)) == m for every 3x3 m |
| MatrixUtils.ToUnityAfterFromUnity | Assets/Scripts/MatrixUtils.cs:12-32 | ToUnityMatrix(FromUnityMatrix(u)) == u for every 4x4 u whose last column is (0,0,0,1) and whose bottom row is otherwise 0 |
| PointCloudStyleExtractor.PreferredIsExhaustive | Assets/Scripts/PointCloudStyleExtractor.cs:84-93 | when the X and Y guards fail, the strict Z guard holds: every vector has a preferred axis |
| PointCloudStyleExtractor.Claim | Assets/Scripts/PointCloudStyleExtractor.cs:99-108 | an eigenvector claims its preferred axis if it is free, otherwise nothing; it never falls back to another axis |
| PointCloudStyleExtractor.Oriented | Assets/Scripts/PointCloudStyleExtractor.cs:86 | the claimed row is +-v, flipped unless its dot with the axis is positive, so that component is >= 0 |
| PointCloudStyleExtractor.PlaceAll | Assets/Scripts/PointCloudStyleExtractor.cs:84-123 | after n eigenvectors: each claim is None or the preferred axis, owners and claims agree, claimed rows are oriented eigenvectors, unclaimed rows are PCA rows |
| PointCloudStyleExtractor.Arrange | Assets/Scripts/PointCloudStyleExtractor.cs:63-123 | each axis is claimed at most once; claimed rows are the oriented eigenvector; rows of unclaimed axes keep the PCA row |
| PointCloudStyleExtractor.ClaimsArePrefix | Assets/Scripts/PointCloudStyleExtractor.cs:95-123 | placing later eigenvectors never changes what earlier ones claimed |
| PointCloudStyleExtractor.FirstClaimSucceeds | Assets/Scripts/PointCloudStyleExtractor.cs:79-93 | the first eigenvector always claims its preferred axis |
| PointCloudStyleExtractor.UnclaimedMeansTaken | Assets/Scripts/PointCloudStyleExtractor.cs:99-123 | an eigenvector claims nothing exactly when an earlier one took its preferred axis |
| PointCloudStyleExtractor.NormalBasis | Assets/Scripts/PointCloudStyleExtractor.cs:46-49 | without normal PCA the basis is the 3x3 identity; with it, the arranged basis |
| PointCloudStyleExtractor.DistinctPreferencesAreAllClaimed | Assets/Scripts/PointCloudStyleExtractor.cs:75-123 | eigenvectors preferring three different axes each claim their own |
| PointCloudStyleExtractor.DistinctPreferencesPermuteRows | Assets/Scripts/PointCloudStyleExtractor.cs:84-123 | then the arrangement is a signed permutation: eigenvector i, oriented, becomes the row of its axis |
| PointCloudStyleExtractor.DistinctFacingPreferencesArrangeToIdentity | Assets/Scripts/PointCloudStyleExtractor.cs:84-123 | axis-aligned, permuted and sign-flipped unit eigenvectors arrange to the identity |
| PointCloudStyleExtractor.GetEigenNormalsIsToUnityMatrix | Assets/Scripts/PointCloudStyleExtractor.cs:12-19 | GetEigenNormals is ToUnityMatrix of the basis, and FromUnityMatrix recovers the basis |
| PointCloudStyleExtractor.TransformByIdentity | Assets/Scripts/PointCloudStyleExtractor.cs:135 | the identity basis leaves a normal unchanged |
| PointCloudStyleExtractor.NormalizeL1HasUnitNorm | Assets/Scripts/PointCloudStyleExtractor.cs:147 | Normalize(1) leaves the zero vector alone and gives every other vector L1 norm 1 |
| PointCloudStyleExtractor.NormalizeL2KeepsNonZero | Assets/Scripts/PointCloudStyleExtractor.cs:136 | with a positive sqrt, Normalize(2) keeps a non-zero vector non-zero |
| PointCloudStyleExtractor.Channels | Assets/Scripts/PointCloudStyleExtractor.cs:150 | six channels, all >= 0, at most one of each +- pair non-zero, their difference the component, their sum the L1 norm |
| PointCloudStyleExtractor.NormalChannelsSumToOne | Assets/Scripts/PointCloudStyleExtractor.cs:135-150 | a normal the basis sends to a non-zero vector spreads total weight 1 over its six channels |
| PointCloudStyleExtractor.ZeroNormalHasNoChannels | Assets/Scripts/PointCloudStyleExtractor.cs:135-150 | a normal the basis sends to zero has six zero channels |
| PointCloudStyleExtractor.L2StepIsIrrelevant | Assets/Scripts/PointCloudStyleExtractor.cs:136-147 | with a positive sqrt the channels do not depend on the Normalize(2) step |
| PointCloudStyleExtractor.Values | Assets/Scripts/PointCloudStyleExtractor.cs:161 | the 9-D data point is (L, alpha, beta) followed by the six channels |
| PointCloudStyleExtractor.GlobalMean | Assets/Scripts/PointCloudStyleExtractor.cs:164-178 | entry i of the mean times N is the sum of component i |
| PointCloudStyleExtractor.MeanChannelsSumToOne | Assets/Scripts/PointCloudStyleExtractor.cs:161-178 | when every point's channels sum to 1, the last six mean entries sum to 1 |
| PointCloudStyleExtractor.RemoveSingularity | Assets/Scripts/PointCloudStyleExtractor.cs:181-187 | an exact zero becomes 1e-3, every other value is kept |
| PointCloudStyleExtractor.SecondMomentSymmetric | Assets/Scripts/PointCloudStyleExtractor.cs:165 | the accumulated outer products are symmetric |
| PointCloudStyleExtractor.GlobalCovariance | Assets/Scripts/PointCloudStyleExtractor.cs:179-188 | a 9 x 9 matrix whose entry (i, j) is sum v_i v_j / (N - 1), zero-patched, minus mean_i mean_j |
| PointCloudStyleExtractor.GlobalCovarianceSymmetric | Assets/Scripts/PointCloudStyleExtractor.cs:165-188 | the extracted covariance is symmetric |
| PointCloudStyleExtractor.CovarianceDiagonalPositive | Assets/Scripts/PointCloudStyleExtractor.cs:179-188 | every diagonal entry is strictly positive |
| PointCloudStyleExtractor.GlobalStd | Assets/Scripts/PointCloudStyleExtractor.cs:189 | nine entries, each the sqrt of a covariance diagonal entry |
| PointCloudStyleExtractor.StdSquaresToCovarianceDiagonal | Assets/Scripts/PointCloudStyleExtractor.cs:179-189 | with a sound sqrt, std_i^2 is the diagonal entry, and both are strictly positive |
| PointCloudStyleExtractor.HasNormalsAlwaysHolds | Assets/Scripts/PointCloudStyleExtractor.cs:21-24 | because of the 1e-3 patch HasNormals is true for every cloud of two or more points |
| PointCloudStyleExtractor.EmptyOctant | Assets/Scripts/PointCloudStyleExtractor.cs:156-173 | a channel's weight is 0 exactly when no point has weight in it; its sums are then 0 and its mean is NaN, and only then |
| PointCloudStyleExtractor.OctantMeanWithinBounds | Assets/Scripts/PointCloudStyleExtractor.cs:156-172 | a non-empty octant mean is a weighted average, within any bounds of the colour component |
| PointCloudStyleExtractor.OctantVarianceNonNegative | Assets/Scripts/PointCloudStyleExtractor.cs:157-175 | the argument of the octant square root is a weighted variance, never negative |
| PointCloudStyleExtractor.OctantStdSquared | Assets/Scripts/PointCloudStyleExtractor.cs:170-175 | a non-empty octant std is >= 0 and squares to E[x^2] - E[x]^2 with no Bessel correction |
| PointCloudStyleExtractor.OctantMeans | Assets/Scripts/PointCloudStyleExtractor.cs:156-173 | the 3 x 6 table whose entry (c, k) is the octant mean |
| PointCloudStyleExtractor.OctantStds | Assets/Scripts/PointCloudStyleExtractor.cs:157-175 | the 3 x 6 table whose entry (c, k) is the octant std |
| PointCloudStyleExtractor.SampleOf | Assets/Scripts/PointCloudStyleExtractor.cs:131-161 | every point yields exactly six channels, none negative |
| PointCloudStyleExtractor.Samples | Assets/Scripts/PointCloudStyleExtractor.cs:128-166 | one sample per point, in order |
| PointCloudStyleExtractor.ExtractStyle | Assets/Scripts/PointCloudStyleExtractor.cs:30-190 | the style holds the normal basis, the 9-D mean, covariance and std, and the 3 x 6 octant means and stds of the points' samples |
| PointCloudStyleExtractor.ExtractedCovarianceSymmetric | Assets/Scripts/PointCloudStyleExtractor.cs:165-189 | the extracted covariance is symmetric |
| PointCloudStyleExtractor.ExtractedChannelMeansSumToOne | Assets/Scripts/PointCloudStyleExtractor.cs:128-178 | when every transformed normal is non-zero, the six channel means sum to 1 |
| PointCloudStyleExtractor.WithoutNormalPcaChannelsUseRawNormal | Assets/Scripts/PointCloudStyleExtractor.cs:46-135 | without normal PCA the channels are those of the untransformed normal |
| PlyWriter.ExposeFacts | Assets/Scripts/PlyWriter.cs:97 | exposure 1 leaves a colour unchanged, and exposures compose by product |
| PlyWriter.MatchMomentsMoments | Assets/Scripts/PlyWriter.cs:91-93 | the input mean goes to the target mean and differences scale by sigma_out / sigma_in |
| PlyWriter.MatchMomentsIdentity | Assets/Scripts/PlyWriter.cs:91-93 | matching a channel to its own statistics changes nothing |
| PlyWriter.MatchMomentsInverse | Assets/Scripts/PlyWriter.cs:91-93 | matching back from target to input undoes the transfer |
| PlyWriter.IgdLab | Assets/Scripts/PlyWriter.cs:83-100 | IGD in Lab: defined exactly when the input colour stds are non-zero, and then out_k = (in_k - mu_in_k) sigma_t_k / sigma_in_k + mu_t_k |
| PlyWriter.IgdLabIdentity | Assets/Scripts/PlyWriter.cs:91-93 | IGD of a style onto itself is the identity in Lab |
| PlyWriter.IgdLabMapsMeanToMean | Assets/Scripts/PlyWriter.cs:91-93 | the input mean colour lands on the target mean colour |
| PlyWriter.IgdLabRoundTrip | Assets/Scripts/PlyWriter.cs:91-93 | IGD back with the roles swapped recovers the colour |
| PlyWriter.IgdLabReadsColorStatsOnly | Assets/Scripts/PlyWriter.cs:91-93 | IGD reads only the first three entries of the means and stds |
| PlyWriter.BlendOf | Assets/Scripts/PlyWriter.cs:111-123 | sides and weights exist exactly for a non-zero direction |
| PlyWriter.HalfAxis | Assets/Scripts/PlyWriter.cs:111-123 | a negative component selects the lower side and a zero one the positive side; the weight is the channel on that side and the other channel is 0 |
| PlyWriter.BlendMatchesChannels | Assets/Scripts/PlyWriter.cs:109-123 | for an L1-unit direction the sides are 0/1, 2/3, 4/5, the weights are the extractor's non-zero channels, and they are convex |
| PlyWriter.BlendWeightsAreExtractorChannels | Assets/Scripts/PlyWriter.cs:104-123 | IGD_N weighs a point's octants by the channels the extractor gave its normal |
| PlyWriter.Mix | Assets/Scripts/PlyWriter.cs:137 | the blend nx X + ny Y + nz Z is NaN exactly when a selected octant statistic is NaN |
| PlyWriter.MixIsConvex | Assets/Scripts/PlyWriter.cs:120-179 | a convex blend of values in [lo, hi] lies in [lo, hi] |
| PlyWriter.IgdNChannel | Assets/Scripts/PlyWriter.cs:125-190 | one IGD_N channel is defined exactly when the four blended statistics are defined and the blended input std is non-zero |
| PlyWriter.IgdNLab | Assets/Scripts/PlyWriter.cs:102-197 | IGD_N fails for a normal the input basis sends to zero |
| PlyWriter.MixOfUniform | Assets/Scripts/PlyWriter.cs:137 | a convex blend of one repeated value is that value |
| PlyWriter.IgdNWithUniformOctantsIsIgd | Assets/Scripts/PlyWriter.cs:102-197 | when octant statistics equal the global ones, IGD_N is IGD |
| PlyWriter.IgdNIgnoresTargetBasis | Assets/Scripts/PlyWriter.cs:108 | the target's eigen basis plays no part in IGD_N |
| PlyWriter.Centred | Assets/Scripts/PlyWriter.cs:207 | the colour minus the input's first three means |
| PlyWriter.MgdMapsMeanToMean | Assets/Scripts/PlyWriter.cs:207-209 | MGD maps the input mean colour to the target mean colour, whatever the matrix |
| PlyWriter.MgdWithDiagonalBlockIsIgd | Assets/Scripts/PlyWriter.cs:199-216 | with a diagonal block of std ratios MGD equals IGD |
| PlyWriter.MgdWithIdentityBlock | Assets/Scripts/PlyWriter.cs:207-209 | with T = I on the colour block and equal colour means MGD is the identity |
| PlyWriter.Values9 | Assets/Scripts/PlyWriter.cs:228-234 | the 9-D vector is the Lab colour followed by the channels of the L1-normalised direction |
| PlyWriter.WriterChannelsAreExtractorChannels | Assets/Scripts/PlyWriter.cs:224-229 | without the extractor's Normalize(2) step the writer still builds the extractor's channels |
| PlyWriter.MgdNWithDecoupledNormalsIsMgd | Assets/Scripts/PlyWriter.cs:218-241 | when the normal rows do not feed the colour columns, MGD_N is MGD |
| PlyWriter.ApplyIgnoresZeroRows | Assets/Scripts/PlyWriter.cs:237-241 | entries of the vector that meet only zero rows of the colour columns do not matter |
| PlyWriter.Transfer | Assets/Scripts/PlyWriter.cs:57-70 | MGD and MGD_N always give a colour; IGD gives one exactly when the input colour stds are non-zero |
| PlyWriter.TransferOntoItself | Assets/Scripts/PlyWriter.cs:57-99 | IGD, or MGD with an identity block, of a style onto itself at exposure 1 is the colour's round trip through Reinhard Lab |
| PlyWriter.CompleteHeader | Assets/Scripts/PlyWriter.cs:249-262 | thirteen lines from "ply" to "end_header"; Split cuts line 1 into format ascii 1.0, line 2 into element vertex and the count, and line 3 + k into property float and the k-th written name |
| PlyWriter.HeaderLinesTokens | Assets/Scripts/PlyWriter.cs:251-262 | each header line splits into exactly the words it was built from |
| PlyWriter.PropertyLineTokens | Assets/Scripts/PlyWriter.cs:253-261 | a property line splits into property, float and its name |
| PlyWriter.ShowIntHasNoSeparator | Assets/Scripts/PlyWriter.cs:252 | ToString of an integer contains neither ' ' nor '\n', so it stays one token |
| PlyRenderer.FindKeyword | Assets/Scripts/PlyRenderer.cs:211-221 | the first line at or after `from` whose token 0 is the keyword, or None when there is none |
| PlyRenderer.FindEndHeader | Assets/Scripts/PlyRenderer.cs:243-246 | the first line at or after `from` that is exactly "end_header", or None |
| PlyRenderer.ReadProperties | Assets/Scripts/PlyRenderer.cs:222-229 | the property loop ends on a later line and keeps the names distinct |
| PlyRenderer.ReadPropertiesRun | Assets/Scripts/PlyRenderer.cs:218-229 | the properties read are the (name, type) of each line, in header order at consecutive indices, up to the first non-property line |
| PlyRenderer.ReadPropertyRun | Assets/Scripts/PlyRenderer.cs:222-229 | a run of well-formed property lines with new names is read as exactly those properties |
| PlyRenderer.PropertiesSource | Assets/Scripts/PlyRenderer.cs:218-229 | what the loop reads from line p is a property run ending at p + count |
| PlyRenderer.FaceCount | Assets/Scripts/PlyRenderer.cs:233-238 | a line whose token 1 is not "face" gives face count 0; one whose token 1 is "face" succeeds exactly when token 2 exists and int.Parse accepts it, giving that value |
| PlyRenderer.FormatOf | Assets/Scripts/PlyRenderer.cs:201-207 | binary exactly for "binary_little_endian", ascii for every other name |
| PlyRenderer.ParseHeader | Assets/Scripts/PlyRenderer.cs:196-247 | on success: the format from line 2, the vertex count from token 2 of the first "element" line, the property run after it, the face count from the line after the run, Triangles exactly when that count is positive, and the data after that line when it starts with "end_header", else after the next "end_header" line; NoEndHeader only when no such line follows |
| PlyRenderer.UnendedHeaderFails | Assets/Scripts/PlyRenderer.cs:230-246 | a header with no "end_header" after its property run is refused with NoEndHeader, where the source loops forever |
| PlyRenderer.ParseElement | Assets/Scripts/PlyRenderer.cs:210-246 | the vertex count is int.Parse of token 2 of the element line, the properties start at the next "property" line, and the header ends as the line after the run says |
| PlyRenderer.ParseBody | Assets/Scripts/PlyRenderer.cs:222-247 | the property run, the face count of the line q after it, the topology from that count, the data from q + 1 when line q starts with "end_header" or else from after the first later "end_header" line; NoEndHeader exactly when the run and face line are well formed and no such line follows |
| PlyRenderer.ParseWrittenShape | Assets/Scripts/PlyRenderer.cs:196-247 | lines tokenised like the written header parse to that header |
| PlyRenderer.ParseCompleteHeader | Assets/Scripts/PlyRenderer.cs:196-247 | parsing PlyWriter's header gives ascii, the written count, the nine float properties in order, no faces, data from line 13 |
| PlyRenderer.Restrict | Assets/Scripts/PlyRenderer.cs:76-78 | the number of points read never exceeds the total, nor a restriction other than -1, and is either the total or that restriction |
| PlyRenderer.RestrictIdempotent | Assets/Scripts/PlyRenderer.cs:76-78 | restricting twice is restricting once |
| PlyRenderer.IndexOf | Assets/Scripts/PlyRenderer.cs:255-256 | a found index holds the name |
| PlyRenderer.IndexOfFinds | Assets/Scripts/PlyRenderer.cs:255-256 | a name is found exactly when declared, at its first declaration |
| PlyRenderer.IndexOfDistinct | Assets/Scripts/PlyRenderer.cs:225 | with distinct names each property is found at its own index |
| PlyRenderer.Field | Assets/Scripts/PlyRenderer.cs:256 | an undeclared name is KeyNotFound; a value read is the parse of the token at the name's index |
| PlyRenderer.Triple | Assets/Scripts/PlyRenderer.cs:255-259 | a triple read is the three fields, in order |
| PlyRenderer.AsciiPoint | Assets/Scripts/PlyRenderer.cs:252-288 | a position exactly when "x" is declared, normal (0,0,1) without "nx", a colour exactly when "r" or "red" is declared, values from their tokens |
| PlyRenderer.ReadWrittenTokens | Assets/Scripts/PlyRenderer.cs:252-288 | nine tokens under the written header read as position, normal and colour |
| PlyRenderer.AsciiPointOfTriples | Assets/Scripts/PlyRenderer.cs:252-288 | a header declaring x, nx and r reads all three triples |
| PlyRenderer.ReadWrittenPoint | Assets/Scripts/PlyRenderer.cs:252-288 | a data line PlyWriter writes reads back as the point it came from, when the number reader inverts the writer |
| PlyRenderer.BinaryValue | Assets/Scripts/PlyRenderer.cs:296-311 | a uchar value is byte / 255 and lies in [0,1]; an unknown type gives 0 |
| PlyRenderer.BinaryPoint | Assets/Scripts/PlyRenderer.cs:290-337 | a binary point always has position and colour, and a non-zero normal: the assigned one, or (0,0,1) for a zero one |
| PlyRenderer.AssignAllUntouched | Assets/Scripts/PlyRenderer.cs:295-327 | a slot no property names keeps its initial value |
| PlyRenderer.AssignAllSlot | Assets/Scripts/PlyRenderer.cs:295-327 | the one property naming a slot sets it to its value |
| PlyRenderer.AssignAllKeepsUnitColor | Assets/Scripts/PlyRenderer.cs:307-308 | uchar colour values keep the colour in the unit cube |
| PlyRenderer.BinaryColorInUnitCube | Assets/Scripts/PlyRenderer.cs:307-308 | a binary point with uchar colour properties has its colour in the unit cube |
| PlyRenderer.WrittenSlots | Assets/Scripts/PlyRenderer.cs:313-322 | each written name sets the slot of its own index |
| PlyRenderer.BinaryWrittenPoint | Assets/Scripts/PlyRenderer.cs:290-337 | a record of the nine written float properties gives back its values, the normal replaced only when zero |
| PlyRenderer.Chunk | Assets/Scripts/PlyRenderer.cs:97-126 | point i goes to mesh i / 65535 at index i % 65535; there are total / 65535 + 1 meshes, the last one empty for a multiple of 65535 |
| PlyRenderer.ChunkEntry | Assets/Scripts/PlyRenderer.cs:97-126 | entry l of mesh c is point c * 65535 + l |
| PlyRenderer.MeshOf | Assets/Scripts/PlyRenderer.cs:358 | C# division by 65535 truncates toward zero: the remainder has the sign of the index |
| PlyRenderer.AssignFace | Assets/Scripts/PlyRenderer.cs:353-392 | a face is dropped exactly when its indices do not all share the mesh of the first; otherwise it fails with NoSuchMesh exactly when that mesh (0 for an empty face) is not one of the meshes, and is otherwise kept in it with each stored index equal to index - mesh * 65535 |
| PlyRenderer.KeptFaceKeepsPoints | Assets/Scripts/PlyRenderer.cs:386-391 | a face whose indices name points never hits a missing mesh, and when kept each local index names the same point |
| PlyRenderer.NegativeFaceHasNoMesh | Assets/Scripts/PlyRenderer.cs:357-387 | a face holding only -65535 is looked up in mesh -1, which does not exist |
| PlyRenderer.FaceIndices | Assets/Scripts/PlyRenderer.cs:354-365 | n - k indices are read |
| PlyRenderer.FaceIndicesParsed | Assets/Scripts/PlyRenderer.cs:354-365 | every index read is the parse of the token one after its position |
| PlyRenderer.ReadFaceLine | Assets/Scripts/PlyRenderer.cs:351-365 | the count is uint.Parse of token 0, and index j is int.Parse of token j + 1 |
| PlyRenderer.ReadFaceLineRoundTrip | Assets/Scripts/PlyRenderer.cs:351-365 | a face line laid out as count and indices reads back as the face |
| Tokens.Split | Assets/Scripts/PlyRenderer.cs:43 | Split keeps empty pieces, so a line yields at least one token |
| Tokens.SplitPiecesHaveNoSeparator | Assets/Scripts/PlyRenderer.cs:43 | no piece contains ' ' or '\n' |
| Tokens.SplitJoin | Assets/Scripts/PlyRenderer.cs:43 | words without separators joined by spaces split back into the words |
| Tokens.JoinSplit | Assets/Scripts/PlyRenderer.cs:43 | a line without '\n' is rebuilt by joining its pieces with spaces |
| Decimal.ParseInt32 | Assets/Scripts/PlyRenderer.cs:214 | int.Parse, after trimming ' ' and '\t' to '\r' from both ends, succeeds only on a non-empty token and gives a 32-bit value |
| Decimal.ParseUInt32 | Assets/Scripts/PlyRenderer.cs:352 | uint.Parse, after the same trimming, gives a value at most 2^32 - 1 |
| Decimal.ParseIgnoresPadding | Assets/Scripts/PlyRenderer.cs:352-356 | white space around a token does not change what int.Parse or uint.Parse reads |
| Decimal.UnsignedMinusSign | Assets/Scripts/PlyRenderer.cs:352 | uint.Parse accepts a '-' sign only on a zero value, reading "-0" as 0 |
| Decimal.ValueOfShowNat | Assets/Scripts/PlyWriter.cs:252 | the digits ToString writes denote the number |
| Decimal.ParseShowInt | Assets/Scripts/PlyRenderer.cs:214 | int.Parse reads back every 32-bit integer ToString wrote |
| Decimal.ParseShowNat | Assets/Scripts/PlyRenderer.cs:352 | uint.Parse reads back every unsigned 32-bit value ToString wrote |
| Decimal.ParseIgnoresLeadingZeroAndPlus | Assets/Scripts/PlyRenderer.cs:214 | a leading zero or '+' does not change what int.Parse reads |

## Left out

- Single-precision rounding, infinities and NaN propagation: the model works over `real`; only 0/0 and x/0 are distinguished, as `Quotient`, `Stat` and `None`.
- `Mathf.Sqrt`, `Log10`, `Pow`, `Atan2`, `Cos`, `Sin`: uninterpreted; lemmas state the facts they need as preconditions.
- XYZtoLab, LabtoLCH, LCHtoLab, the RGBtoLab/LabtoRGB/RGBtoLCH/LCHtoRGB compositions and DeltaE: transcendental colour maths with no property beyond their clamps, which XYZtoLab does not have.
- MatrixSquareRoot, ClosedFormMatrix and PcaTransform: MathNet eigendecomposition and inverse and Accord PCA; the PCA rows and the transport matrix are inputs.
- PointCloudStyleExtractor.ExtractStyle: requires at least two points; with one point the source divides the second-moment matrix by zero.
- HasNormals (the predicate): modelled, but without a row of its own; HasNormalsAlwaysHolds states what it returns.
- MatrixUtils.StandardDeviations and MatrixUtils.Correlation: their own contracts state only shapes; their values are stated by StandardDeviationsSquareToVariances and CorrelationDiagonalIsReciprocal.
- PlyWriter.IgdNLab: its own contract states only the zero-direction failure; IgdNChannel, BlendMatchesChannels and the IGD_N lemmas state its values.
- Stream handling in PlyRenderer: StreamReader/BinaryReader, the byte-level skip of the binary header (lines 57-72) and the binary face read (lines 367-382); the header is a sequence of lines and a binary record a sequence of raw values, one per property.
- Dictionary enumeration order in the binary reader: modelled as header order.
- `float.Parse` with the '.'/',' swap and `ToString` of floats: an abstract `number` / `show` pair; ReadWrittenPoint assumes they invert each other.
- Decimal.ParseInt32 / Decimal.ParseUInt32: trailing NUL characters, culture-specific sign symbols and other Unicode white space, which .NET's parse also accepts, are refused by the model.
- The binary `normal.magnitude == 0` test is modelled as an exact zero vector; float underflow of the magnitude is not.
- GameObject instantiation, bounds, translation and scaling (lines 82-164), Update, SavePointCloud's file writing, SceneToPointCloud, PointCloud and StyleTransfer: Unity glue and I/O.
- PlyWriter.PointToLine: no contract of its own; ReadWrittenPoint states that the line it writes reads back.

## Findings

| source | as written | input that shows it | evidently intended | confidence | as-written member | corrected member |
|---|---|---|---|---|---|---|
| Assets/Scripts/ColorUtils.cs:189 | the falling part of the HSL ramp is `t2 + (t1 - t2) * 6 * (0.666 * t)` (also lines 194 and 199) | HSL (180, 1, 0.5): green = 1.998, outside [0,1] | `t2 + (t1 - t2) * 6 * (2/3 - t)`, falling from temp1 to temp2 on [1/2, 2/3), which keeps every channel in [0,1] | high, not executed | ColorUtils.HslToRgbAsWrittenLeavesGamut | ColorUtils.HslToRgbInUnitCube |
| Assets/Scripts/MatrixUtils.cs:146-150 | for j == i both statements divide entry (i, i) by stds[i]^2, so the diagonal is divided twice | one column holding 0 and 2: variance 2, correlation diagonal 0.5 | each entry divided once by stds[i] * stds[j], giving a unit diagonal | high, not executed | MatrixUtils.CorrelationDiagonalCounterexample | MatrixUtils.CorrelationCorrectedIsUnitSymmetric |
