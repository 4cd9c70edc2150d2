# Camera distortion models in Dafny

This project models the camera-calibration arithmetic of a set of three.js
viewers. The viewers render a point cloud through a calibrated camera and
post-process the rendered image with a lens-distortion pass. Everything is
exact `real` arithmetic: the model makes no claims about IEEE-754 rounding.

- `wrappers.dfy`, `reals.dfy`, `linalg.dfy`: the `Option` type, a few
  division facts, and 3×3 and 4×4 matrices. three.js `elements` arrays are
  column-major; `Elements` and `FromElements` convert them.
- `aspect.dfy` (`Aspect`): the aspect compensator that every file shares.
  It covers the relative aspect `relAspect = (vw / vh) / (W / H)`, the
  factors `max(1, r)` and `max(1, 1 / r)`, the offsets
  `(1 - factor * zoom) / 2`, and the forward and inverse maps of a texture
  coordinate. It also holds the principal-point shift under the zoom factor.
- `pinhole.dfy` (`Pinhole`): `PinholeCamera`.
  - It builds the perspective matrix and the NDC matrix and their product
    `ndc · persp`.
  - It computes the crop box the viewport shows.
  - `updateProjectionMatrix` is a state update.
  - The camera pose is the closed-form inverse of `[R | T]`.
- `brown_conrady.dfy` (`BrownConrady`): the GLSL Brown-Conrady fragment
  shader. Per pixel it compensates the aspect, converts to camera
  coordinates, applies one correction step, then applies the zoomed
  re-projection and the inverse compensation.
- `brown_conrady_node.dfy` (`BrownConradyNode`): the same pass as a TSL
  node. Its polynomial is modelled twice:
  - as the method chain writes it (`ChainedDenominator`,
    `ChainedDisplacement`, `FragmentAsWritten`);
  - with the shader's grouping (`Fragment`). See "Findings".
- `fisheye_lut.dfy` (`FisheyeLut`): the fisheye lookup-table generator.
  - It builds the zoomed intrinsic matrix and its closed-form inverse.
  - It implements the equidistant fisheye distortion
    `θd = θ (1 + k1 θ² + k2 θ⁴ + k3 θ⁶ + k4 θ⁸)`.
  - It rounds each distorted point to a table cell.
  - It runs the last-writer-wins scan over the 3277 × 3277 sample grid,
    as a fold (`Scan`) and as the nested loops (`ComputeFisheyeLut`).
- `fisheye_node.dfy` (`FisheyeNode`): the per-pixel decision of the fisheye
  node and of its older copy without the Y flips. The node either shows
  blank near the border, shows blank for the empty value `(0, 0)`, or
  samples the inverse-compensated, flipped table value.

Some operations have parameters instead of definitions, because they are
library calls:
- `Math.sqrt` and `Math.atan` (a `MathFunctions` record).
- three.js `Matrix4.invert` (`invert` in `UpdateProjectionMatrix`).
- The table texture read (`lookup` in `FisheyeNode`).

A texture sample of the input image is represented by the coordinate it
samples at.

## Model

| member | source | states |
|---|---|---|
| Aspect.RelAspect | gpu/src/index_brown.ts:47 | The relative aspect is positive. It is one exactly when viewport and image have the same shape, and above one exactly when the viewport is relatively wider. |
| Aspect.FactorsOf | brown-condrady/src/PinholeCamera.ts:98-99 | Both factors are at least one and one of them is one. The horizontal factor is `relAspect` times the vertical one, so the compensated window has the viewport's shape. |
| Aspect.Max | brown-condrady/src/PinholeCamera.ts:98-99 | `Math.max` is an upper bound of both arguments and equals one of them. |
| Aspect.InverseForward | gpu/src/BrownConradyDistortionNode.ts:89-144 | The inverse map undoes the forward map for any nonzero factor. |
| Aspect.ForwardInverse | fisheye/src/BrownConradyDistortion.ts:33-60 | The forward map undoes the inverse map for any nonzero factor. |
| Aspect.ForwardCentred | fisheye/src/BrownConradyDistortion.ts:33-37 | With the kernels' offset the forward map fixes 0.5 and scales distances from 0.5 by the factor. |
| Aspect.ForwardCommutesWithFlip | gpu/src/FisheyeDistortionNode.ts:84-91 | Mirroring `u ↦ 1 - u` commutes with the forward map. |
| Aspect.UnitRelAspect | brown-condrady/src/PinholeCamera.ts:95-104 | A relative aspect of one gives factors `(1, 1)` and offset `(1 - zoom) / 2`, which is zero at zoom one. |
| Aspect.CentreShiftScalesAboutCentre | fisheye/src/BrownConradyDistortion.ts:57-58 | The shifted principal point's distance from the image centre is the original distance times the zoom factor. The shift is zero at zoom one. |
| Aspect.CompensationRoundTrip | fisheye/src/BrownConradyDistortion.ts:33-60 | Compensating then uncompensating a texture coordinate gives it back, and so does the reverse order, for every positive relative aspect. |
| Aspect.CompensationKeepsCentre | fisheye/src/BrownConradyDistortion.ts:35-37 | Compensation maps `(0.5, 0.5)` to itself. |
| Aspect.CompensationAtUnitAspect | gpu/src/BrownConradyDistortionNode.ts:89-93 | At relative aspect one both compensations are the identity. |
| Pinhole.NdcMapsBoxEdges | brown-condrady/src/PinholeCamera.ts:3-24 | The NDC matrix sends `left` to x = −1 and `right` to +1. It sends `top` to y = +1 and `bottom` to −1, and keeps w = 1. |
| Pinhole.NdcApplyX | brown-condrady/src/PinholeCamera.ts:11-21 | NDC x is `(2 x - (right + left) w) / (right - left)`, and w passes through unchanged. |
| Pinhole.NdcApplyY | brown-condrady/src/PinholeCamera.ts:12-21 | NDC y is `(2 y - (top + bottom) w) / (top - bottom)`. |
| Pinhole.NdcApplyZ | brown-condrady/src/PinholeCamera.ts:13-21 | NDC z is the depth remap of the perspective's z and w. |
| Pinhole.PerspectiveApply | brown-condrady/src/PinholeCamera.ts:26-47 | The perspective matrix sends a camera point to homogeneous pixel coordinates with its depth as w. |
| Pinhole.DepthEnds | brown-condrady/src/PinholeCamera.ts:35-45 | After the divide, depth `near` becomes −1 and depth `far` becomes +1. |
| Pinhole.CropBoxOf | brown-condrady/src/PinholeCamera.ts:95-109 | The crop box is centred on the image: `left + right = W` and `top + bottom = H`. It is `factorX · zoom · W` wide and `factorY · zoom · H` tall, and it is nonempty. |
| Pinhole.CropBoxUnzoomed | brown-condrady/src/PinholeCamera.ts:101-109 | At relative aspect one and zoom one the crop box is the whole image. |
| Pinhole.WholeImageBox | brown-condrady/src/PinholeCamera.ts:95-109 | A viewport of the image's shape at zoom one shows exactly `[0, W] × [0, H]`. |
| Pinhole.IntrinsicsOf | brown-condrady/src/PinholeCamera.ts:88-93 | The column-major reads pick `fx`, `fy`, the principal point and the skew out of `K`. |
| Pinhole.ReferenceIntrinsics | brown-condrady/src/PinholeCamera.ts:89-93 | A concrete `K` is read as focal length 1000 with principal point (960, 540). |
| Pinhole.ProjectionClip | brown-condrady/src/PinholeCamera.ts:111-113 | Under `ndc · persp`, clip w is the camera depth. After the divide, x and y are the projected pixel remapped from the crop box to `[-1, 1]`, and z is the depth remap. |
| Pinhole.ClipOfX | brown-condrady/src/PinholeCamera.ts:111-113 | After the divide, clip x is the pixel's position across the crop box, scaled to `[-1, 1]`. |
| Pinhole.ClipOfY | brown-condrady/src/PinholeCamera.ts:111-113 | After the divide, clip y is the pixel's position between `bottom` and `top`, scaled to `[-1, 1]`. |
| Pinhole.ClipOfZ | brown-condrady/src/PinholeCamera.ts:111-113 | After the divide, clip z is the depth remap of the camera depth. |
| Pinhole.ProjectionDepthRange | brown-condrady/src/PinholeCamera.ts:111-113 | Points on the near plane land at z = −1 and points on the far plane at z = +1, for every crop box and intrinsics. |
| Pinhole.ProjectionScale | brown-condrady/src/PinholeCamera.ts:89-113 | Projection entry (0, 0) is `2 fx / (right - left)`. |
| Pinhole.CameraZoomMatchesKernelZoom | gpu/src/index_brown.ts:31-44 | With camera zoom `1 / zoomForDistortionFactor`, the projection's horizontal scale equals that of the unzoomed box with the kernels' zoomed focal length `fx · zoomForDistortionFactor`. |
| Pinhole.UpdateProjectionMatrix | brown-condrady/src/PinholeCamera.ts:84-117 | Without `K` the camera is unchanged. Otherwise only the two matrices change: the projection is `ndc · persp` of the current state, and the inverse is the library inverse of it. |
| Pinhole.UpdateIdempotent | brown-condrady/src/PinholeCamera.ts:84-117 | Updating twice gives the same camera as updating once. |
| Pinhole.CameraPose | brown-condrady/src/PinholeCamera.ts:76-82 | The camera position is the world point that `[R | T]` sends to the camera origin: `R · position = −T`. |
| Pinhole.ExtrinsicCompose | brown-condrady/src/PinholeCamera.ts:77-78 | The product of two `[R | T]` matrices is the `[R | T]` of the composed rotation and the carried-through translation. |
| Pinhole.PoseInvertsExtrinsic | brown-condrady/src/PinholeCamera.ts:76-82 | For orthonormal `R`, the pose matrix `[Rᵀ | −Rᵀ T]` is a two-sided inverse of `[R | T]`. |
| Pinhole.PoseIsTheInverse | brown-condrady/src/PinholeCamera.ts:79-81 | Any left inverse of `[R | T]`, in particular the one the library computes, is the closed-form pose. Its translation is `−Rᵀ T`. |
| BrownConrady.DisplacementOfDistort | fisheye/src/BrownConradyDistortion.ts:51-52 | `dx` and `dy` are exactly how far the forward Brown-Conrady model moves the point. |
| BrownConrady.CorrectIsScaledStep | fisheye/src/BrownConradyDistortion.ts:47-54 | The correction is one Newton-like step: the divisor times the step equals the forward model's displacement at the point. |
| BrownConrady.CorrectWithoutTerms | fisheye/src/BrownConradyDistortion.ts:50-54 | With all four coefficients zero, the divisor is one and the corrected point is the input. |
| BrownConrady.RadiusOfMirror | fisheye/src/BrownConradyDistortion.ts:47 | Mirroring a point through the centre keeps `r²`. |
| BrownConrady.RadialSymmetry | fisheye/src/BrownConradyDistortion.ts:47-52 | Without tangential terms the divisor is even in the point and the displacement is odd. |
| BrownConrady.CorrectOddWithoutTangential | fisheye/src/BrownConradyDistortion.ts:47-54 | Without tangential terms the correction is odd: `(−x, −y)` corrects to `(−x′, −y′)`. |
| BrownConrady.UnitZoomKeepsPrincipalPoint | fisheye/src/BrownConradyDistortion.ts:57 | At zoom factor one the principal-point offset is `(0, 0)`. |
| BrownConrady.ZoomAxis | fisheye/src/BrownConradyDistortion.ts:44-58 | On one axis, going to camera coordinates and back with the zoomed re-projection scales the distance from 0.5 by the zoom factor. |
| BrownConrady.RoundTripZoomsAboutCentre | fisheye/src/BrownConradyDistortion.ts:44-58 | Both axes of the re-projection zoom about the texture centre. |
| BrownConrady.FragmentIgnoresK3 | fisheye/src/BrownConradyDistortion.ts:39-42 | The sampled coordinate does not depend on the fifth coefficient. |
| BrownConrady.FragmentWithoutTerms | fisheye/src/BrownConradyDistortion.ts:33-61 | Without distortion terms, the compensated sampled coordinate is the compensated input zoomed about the centre by the zoom factor. |
| BrownConrady.FragmentAtRest | fisheye/src/BrownConradyDistortion.ts:33-61 | Without distortion terms and at zoom one, the shader samples exactly where it draws, for every relative aspect. |
| BrownConradyNode.WithDefaults | gpu/src/BrownConradyDistortionNode.ts:9-28 | The defaulted constructor arguments give zoom factor one and relative aspect one; the other uniforms are stored as given. |
| BrownConradyNode.ShaderUniforms | gpu/src/BrownConradyDistortionNode.ts:95-98 | The four-vector's `.x .y .z .w` are read as `k1, k2, p1, p2`. |
| BrownConradyNode.NodeMatchesShader | gpu/src/BrownConradyDistortionNode.ts:87-148 | With the shader's grouping, the node samples exactly where the GLSL shader samples, whatever fifth coefficient the shader is given. |
| BrownConradyNode.DefaultsAtRest | gpu/src/BrownConradyDistortionNode.ts:87-148 | With zero coefficients and the defaulted zoom and aspect, the node samples where it draws. |
| BrownConradyNode.ChainedDenominatorWithoutP2 | gpu/src/BrownConradyDistortionNode.ts:106-112 | As chained, the whole divisor is multiplied by `p2 · x`, so the divisor is one whenever that product is zero. |
| BrownConradyNode.ChainedDisplacementY | gpu/src/BrownConradyDistortionNode.ts:118-120 | As chained, `dy` agrees with the shader's whenever `p1` is zero. |
| BrownConradyNode.ChainedWithoutTerms | gpu/src/BrownConradyDistortionNode.ts:106-123 | As chained, zero coefficients still give divisor one and leave the point unchanged. |
| BrownConradyNode.ChainedAlongAxis | gpu/src/BrownConradyDistortionNode.ts:106-123 | Along the x axis with `k1` alone, the chain divides by one and subtracts `k1 x⁷`. The shader divides by `4 k1 x² + 1` and displaces by `k1 x³`. |
| BrownConradyNode.CorrectAlongAxis | fisheye/src/BrownConradyDistortion.ts:50-54 | Along the x axis with `k1` alone, the shader's step times `4 k1 x² + 1` is `k1 x³`. |
| BrownConradyNode.ChainedStepDiffers | gpu/src/BrownConradyDistortionNode.ts:106-123 | With `k1` alone, at every off-centre point `(x, 0)` where both are defined and `d x⁴ ≠ 1`, the chained step and the shader's step give different results. |
| BrownConradyNode.AxisNodeIsTheStep | gpu/src/BrownConradyDistortionNode.ts:100-144 | A node with unit scales and centred principal point passes coordinates straight into and out of the correction step. |
| BrownConradyNode.AxisFragmentAsWritten | gpu/src/BrownConradyDistortionNode.ts:100-144 | Such a node, as written, samples the chained step applied to the fragment's own coordinate. |
| BrownConradyNode.AxisFragment | gpu/src/BrownConradyDistortionNode.ts:100-144 | Such a node, with the shader's grouping, samples the shader's correction step applied to the fragment's own coordinate. |
| BrownConradyNode.NodeAsWrittenDiffers | gpu/src/BrownConradyDistortionNode.ts:87-148 | Such a node, as written, samples a different coordinate than with the shader's grouping. |
| BrownConradyNode.NodeAsWrittenAtRest | gpu/src/BrownConradyDistortionNode.ts:89-146 | The node as written still samples where it draws when coefficients are zero and the zoom factor is one. |
| FisheyeLut.ReadsIntrinsics | gpu/src/FisheyeDistortion.ts:244-247 | The four column-major reads are `K`'s diagonal focal lengths and its last-column principal point. |
| FisheyeLut.AdjustedIntrinsics | gpu/src/FisheyeDistortion.ts:300-312 | The matrix built is upper triangular with no skew and last row `(0, 0, 1)`. |
| FisheyeLut.AdjustedScalesAboutCentre | gpu/src/FisheyeDistortion.ts:293-312 | Focal lengths are scaled by the zoom factor. The principal point's distance from the image centre is scaled by the same factor. |
| FisheyeLut.AdjustedAtUnitZoom | gpu/src/FisheyeDistortion.ts:293-312 | At zoom one the adjusted matrix equals `K` exactly when `K` has no skew and last row `(0, 0, 1)`; skew is always dropped. |
| FisheyeLut.RowMajor | gpu/src/FisheyeDistortion.ts:315 | `.flat()` lists the entries row by row. |
| FisheyeLut.RowMajorReadBack | gpu/src/FisheyeDistortion.ts:314-316 | `fromArray(flat)` followed by `transpose()` gives back the matrix written down. |
| FisheyeLut.InvertPinholeIsInverse | gpu/src/FisheyeDistortion.ts:314-317 | For nonzero determinant, the closed-form inverse is a two-sided inverse. |
| FisheyeLut.InvertPinholeSingular | gpu/src/FisheyeDistortion.ts:317 | A singular matrix inverts to the zero matrix, and then one of its focal lengths is zero. |
| FisheyeLut.AdjustedInverseCases | gpu/src/FisheyeDistortion.ts:287-320 | The returned matrix is the two-sided inverse of the adjusted matrix when neither scaled focal length is zero, and the zero matrix otherwise. |
| FisheyeLut.UnprojectIsApply | gpu/src/FisheyeDistortion.ts:252-263 | `(_x, _y, _w)` is the inverse applied to `(y, x, 1)`: the sample's `y` multiplies column zero. |
| FisheyeLut.UnprojectInvertsAdjusted | gpu/src/FisheyeDistortion.ts:252-267 | For an invertible setup, `_w = 1` and reprojecting the ray gives back the pixel, so the `_w ≤ 0` branch is never taken. For a singular setup every ray is zero. |
| FisheyeLut.DistortedAngleWithoutCoefficients | gpu/src/FisheyeDistortion.ts:272-277 | Zero coefficients give `θd = θ`. |
| FisheyeLut.DistortedAngleOdd | gpu/src/FisheyeDistortion.ts:272-277 | `θd` is odd in `θ`. |
| FisheyeLut.DistortCoordinate | gpu/src/FisheyeDistortion.ts:260-267 | A sample has no distorted point exactly when `_w ≤ 0`. |
| FisheyeLut.DistortsExactlyWhenInvertible | gpu/src/FisheyeDistortion.ts:162-184 | A sample of the scan has a distorted point exactly when the zoomed matrix is invertible. |
| FisheyeLut.PrincipalPointFixed | gpu/src/FisheyeDistortion.ts:269-281 | The pixel at the zoomed principal point has `r = 0` and scale one. It lands exactly on `K`'s `(cx, cy)`, for all coefficients. |
| FisheyeLut.Round | gpu/src/FisheyeDistortion.ts:186-192 | `Math.round` gives the integer within half a unit, with halves rounded up. |
| FisheyeLut.CellOfNearest | gpu/src/FisheyeDistortion.ts:186-201 | A point gets a cell exactly when both scaled coordinates lie in `[-0.5, R - 0.5)`. Its cell is then within half a cell of its scaled position. |
| FisheyeLut.CellIndex | gpu/src/FisheyeDistortion.ts:205-210 | Every written index, `+ 1` included, lies inside the `R · R · 4` buffer on a multiple of four. |
| FisheyeLut.CellIndexInjective | gpu/src/FisheyeDistortion.ts:205-210 | Two cells share a flat index exactly when they are the same cell. |
| FisheyeLut.SampleRange | gpu/src/FisheyeDistortion.ts:170-176 | The counter `-0.3 + n / 2048` is below 1.3 exactly for `n < 3277`. |
| FisheyeLut.SampleCoordinateNonzero | gpu/src/FisheyeDistortion.ts:170-176 | No counter value is exactly zero. |
| FisheyeLut.ScanOrder | gpu/src/FisheyeDistortion.ts:175-176 | Sample `n · 3277 + m` of the scan has outer counter `n` and inner counter `m`. |
| FisheyeLut.Blank | gpu/src/FisheyeDistortion.ts:156-160 | The buffer starts as `R · R · 4` zeros. |
| FisheyeLut.Store | gpu/src/FisheyeDistortion.ts:203-210 | A write puts `(u, v)` in a cell's first two channels and leaves every other entry unchanged. |
| FisheyeLut.ValueAfterStore | gpu/src/FisheyeDistortion.ts:205-210 | A write to one cell leaves every other cell's value unchanged. |
| FisheyeLut.Scan | gpu/src/FisheyeDistortion.ts:157-213 | The table keeps its length `R · R · 4` throughout the scan. |
| FisheyeLut.StepKeepsBlueAndAlpha | gpu/src/FisheyeDistortion.ts:203-211 | One sample's write, or its skip, leaves channels two and three of every cell as they were. |
| FisheyeLut.ScanKeepsBlueAndAlpha | gpu/src/FisheyeDistortion.ts:203-211 | Channels two and three stay zero. |
| FisheyeLut.ScanEmptyExactlyWhenUnwritten | gpu/src/FisheyeDistortion.ts:157-210 | A cell holds `(0, 0)` exactly when no sample so far was mapped to it. |
| FisheyeLut.ScanLastWriterWins | gpu/src/FisheyeDistortion.ts:175-210 | A cell holds `(j, 1 − i)` of the last sample in scan order mapped to it; there is no blending. |
| FisheyeLut.ScanWithoutHits | gpu/src/FisheyeDistortion.ts:175-213 | If no sample gets a cell, the table stays all zeros. |
| FisheyeLut.DegenerateSetupGivesBlankLut | gpu/src/FisheyeDistortion.ts:149-213 | A singular zoomed matrix or a zero image dimension leaves the whole table zero. |
| FisheyeLut.ScanGrid | gpu/src/FisheyeDistortion.ts:175-213 | The outer loop over `i` and the inner loop over `j`, visiting samples in row order, compute the same table as the fold over the scan order. |
| FisheyeLut.ComputeFisheyeLut | gpu/src/FisheyeDistortion.ts:149-228 | The two nested loops produce the fold `Scan` over all `3277²` samples, a buffer of `R · R · 4` entries. |
| FisheyeNode.FlipYInvolution | gpu/src/FisheyeDistortionNode.ts:91-109 | Flipping twice is the identity: `1 − (1 − y) = y`. |
| FisheyeNode.CompensationCommutesWithFlip | gpu/src/FisheyeDistortionNode.ts:88-109 | The Y flip commutes with both the forward and the inverse compensation. |
| FisheyeNode.NodeIsFlippedLegacy | gpu/src/FisheyeDistortionNode.ts:82-116 | The node's output for a fragment is the older copy's output for the mirrored fragment, flipped. |
| FisheyeNode.LegacyFragmentCases | gpu/src/FisheyeDistortion.ts:77-106 | The older copy samples the image exactly when its compensated coordinate is clear of the 0.001 margin and the table value there is not `(0, 0)`. When it samples, compensating the sampled coordinate gives back the table value. |
| FisheyeNode.FragmentCases | gpu/src/FisheyeDistortionNode.ts:95-110 | A fragment samples the image exactly when its flipped, compensated coordinate is clear of the 0.001 margin and the table value there is not `(0, 0)`. Otherwise it is blank. When it samples, compensating and flipping the sampled coordinate gives back the table value. |
| FisheyeNode.FragmentAtUnitAspect | gpu/src/FisheyeDistortionNode.ts:84-110 | At relative aspect one, an interior non-empty table value `(u, v)` is sampled at `(u, 1 − v)`. |
| FisheyeNode.NodeShowsLastSample | gpu/src/FisheyeDistortionNode.ts:96-110 | Reading a cell of the generated table that sample `(i, j)` wrote last, the node samples that sample's coordinate mapped back through the compensation. At relative aspect one this is `(j, i)`. |
| FisheyeNode.NodeBlankWhereUnreached | gpu/src/FisheyeDistortionNode.ts:102-104 | Reading a cell that no sample reached, the node is blank. |

## Left out

- Scene, renderer, point-cloud loading, DOM listeners and the animation loop are I/O and glue, not arithmetic.
- Node lifecycle (`updateBefore`, `setSize`, render targets, `QuadMesh`, `dispose`, pixel ratio) is GPU plumbing.
- Texture sampling and filtering: a sample of the input image is the coordinate it samples at. The table texture read is the parameter `lookup`, because the texel addressing and filtering belong to the library.
- `DataTexture` construction and `Float32Array` narrowing: the table is the exact `seq<real>` handed to them.
- three.js `Matrix4.invert` for `projectionMatrixInverse` is the parameter `invert`. Quaternion extraction in `setExtrinsicMatrix` is library code; only the closed-form inverse of `[R | T]` is modelled.
- Three.js `Matrix3.invert` is modelled only on the upper-triangular shape the generator builds (`InvertPinhole`), with the library's zero result for a zero determinant.
- `Math.sqrt` and `Math.atan` are parameters. Only `PrincipalPointFixed` assumes anything of them (`sqrt(0) = 0`).
- IEEE-754 effects are not modelled: rounding, NaN and infinities. The loop counter accumulated with `i += sampleStep` is modelled as the exact `-0.3 + n / 2048`; in floating point the number of iterations could differ by one.
- FisheyeLut.DistortCoordinate: the ±Infinity result for `_w ≤ 0` is `None`. So is a zero image dimension in `CellOf`. In both cases the source computes a non-finite index, which selects no buffer element.
- BrownConrady.Fragment: requires nonzero focal lengths, image dimensions and divisor (`Defined`). On a GPU these give infinities or NaN, which are not modelled.
- BrownConradyNode.FragmentAsWritten: requires the same nonzero divisors (`DefinedAsWritten`), for the same reason.
- Pinhole.CropBoxOf: requires positive image dimensions, relative aspect and zoom (`ViewportValid` for `UpdateProjectionMatrix`), for the same reason.
- The GLSL vertex shaders and the constructor's `PerspectiveCamera` field of view are overwritten or pass-through, so they are not modelled.

## Findings

| source | as written | input that shows it | evidently intended | confidence | as-written member | corrected member |
|---|---|---|---|---|---|---|
| gpu/src/BrownConradyDistortionNode.ts:106-116 | The divisor is `((((4 k1 r2 + 6) k2 r4 + 8) p1 y + 8) p2 x + 1)`, and `dx` starts with `(x k1 r2 + k2) r4`. Each method call in the chain wraps everything before it. | `k1 = 1`, the other coefficients zero, unit focal length and image, principal point `(0, 0)`, `uv = (1, 0)`. The node as written samples `x = 0`; the shader's grouping samples `x = 4/5`. | The GLSL shader's `4 k1 r2 + 6 k2 r4 + 8 p1 y + 8 p2 x + 1` and `x (k1 r2 + k2 r4) + ...` (fisheye/src/BrownConradyDistortion.ts:50-51). | not executed | BrownConradyNode.NodeAsWrittenDiffers | BrownConradyNode.NodeMatchesShader |
