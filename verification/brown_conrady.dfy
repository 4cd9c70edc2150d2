/** The Brown-Conrady undistortion fragment shader.

    For every output pixel the shader compensates the viewport's aspect
    ratio, converts the texture coordinate to normalised camera coordinates
    with the principal point and focal length, removes the lens distortion
    with a single Newton-like step, and maps the corrected point back to a
    texture coordinate, widened about the image centre by the zoom factor.
    Texture sampling is not modelled: the shader's result here is the
    coordinate it samples at. */
module BrownConrady {

  import opened LinAlg
  import opened Reals
  import Aspect

  /** `uCoefficients`: k1, k2 (radial), p1, p2 (tangential), k3. */
  datatype Coefficients = Coefficients(k1: real, k2: real, p1: real, p2: real, k3: real)

  /** The four coefficients the correction step reads. */
  datatype Terms = Terms(k1: real, k2: real, p1: real, p2: real)

  const NoTerms: Terms := Terms(0.0, 0.0, 0.0, 0.0)

  /** `uCoefficients[0]` to `uCoefficients[3]`; `uCoefficients[4]` is never read. */
  function Read(c: Coefficients): Terms {
    Terms(c.k1, c.k2, c.p1, c.p2)
  }

  /** The shader's uniforms, except the texture itself. */
  datatype Uniforms = Uniforms(
    coefficients: Coefficients,
    principalPoint: Vec2,
    focalLength: Vec2,
    imageWidth: real,
    imageHeight: real,
    relAspect: real,
    zoomForDistortionFactor: real)

  // ---------------------------------------------------------------------------
  // The polynomial pieces

  function RadiusSquared(p: Vec2): real {
    p.x * p.x + p.y * p.y
  }

  /** `k1 r2 + k2 r4`: the radial gain minus one. */
  function Radial(k: Terms, r2: real): real {
    k.k1 * r2 + k.k2 * (r2 * r2)
  }

  /** The tangential displacement along x. */
  function TangentialX(k: Terms, p: Vec2): real {
    2.0 * k.p1 * p.x * p.y + k.p2 * (RadiusSquared(p) + 2.0 * p.x * p.x)
  }

  /** The tangential displacement along y. */
  function TangentialY(k: Terms, p: Vec2): real {
    k.p1 * (RadiusSquared(p) + 2.0 * p.y * p.y) + 2.0 * k.p2 * p.x * p.y
  }

  /** The Brown-Conrady forward model, as a reference: where the lens sends
      the ideal normalised point `p`. */
  function Distort(k: Terms, p: Vec2): Vec2 {
    var g := 1.0 + Radial(k, RadiusSquared(p));
    Vec2(p.x * g + TangentialX(k, p), p.y * g + TangentialY(k, p))
  }

  // ---------------------------------------------------------------------------
  // The kernel

  /** `4 k1 r2 + 6 k2 r4 + 8 p1 y + 8 p2 x + 1`, the divisor of the step. */
  function Denominator(k: Terms, p: Vec2): real {
    var r2 := RadiusSquared(p);
    4.0 * k.k1 * r2 + 6.0 * k.k2 * (r2 * r2) + 8.0 * k.p1 * p.y + 8.0 * k.p2 * p.x + 1.0
  }

  /** `(dx, dy)`: the radial and tangential displacement at `p`. */
  function Displacement(k: Terms, p: Vec2): Vec2 {
    var r := Radial(k, RadiusSquared(p));
    Vec2(p.x * r + TangentialX(k, p), p.y * r + TangentialY(k, p))
  }

  /** The single correction step: the displacement `(dx, dy)` scaled by
      `invFactor` and subtracted from the distorted point. */
  function Correct(k: Terms, p: Vec2): Vec2
    requires Denominator(k, p) != 0.0
  {
    var invFactor := 1.0 / Denominator(k, p);
    var delta := Displacement(k, p);
    Vec2(p.x - invFactor * delta.x, p.y - invFactor * delta.y)
  }

  /** One axis of `imageCoordinates`: texture coordinate to normalised
      camera coordinate. */
  function ToCamera(a: real, size: real, pp: real, f: real): real
    requires f != 0.0
  {
    (a * size - pp) / f
  }

  /** One axis of `outputCoordinates`: normalised camera coordinate back to a
      texture coordinate, with the zoomed focal length and shifted principal point. */
  function FromCamera(q: real, size: real, pp: real, f: real, zoom: real): real
    requires size != 0.0
  {
    (q * f * zoom + pp + Aspect.CentreShift(size, pp, zoom)) / size
  }

  function ImageCoordinates(u: Uniforms, a: Vec2): Vec2
    requires u.focalLength.x != 0.0 && u.focalLength.y != 0.0
  {
    Vec2(ToCamera(a.x, u.imageWidth, u.principalPoint.x, u.focalLength.x),
         ToCamera(a.y, u.imageHeight, u.principalPoint.y, u.focalLength.y))
  }

  function PrincipalPointOffset(u: Uniforms): Vec2 {
    Vec2(Aspect.CentreShift(u.imageWidth, u.principalPoint.x, u.zoomForDistortionFactor),
         Aspect.CentreShift(u.imageHeight, u.principalPoint.y, u.zoomForDistortionFactor))
  }

  function OutputCoordinates(u: Uniforms, q: Vec2): Vec2
    requires u.imageWidth != 0.0 && u.imageHeight != 0.0
  {
    Vec2(FromCamera(q.x, u.imageWidth, u.principalPoint.x, u.focalLength.x, u.zoomForDistortionFactor),
         FromCamera(q.y, u.imageHeight, u.principalPoint.y, u.focalLength.y, u.zoomForDistortionFactor))
  }

  /** The normalised point the shader corrects for `vUv`. */
  function Undistorted(u: Uniforms, uv: Vec2): Vec2
    requires u.relAspect > 0.0 && u.focalLength.x != 0.0 && u.focalLength.y != 0.0
  {
    ImageCoordinates(u, Aspect.Compensate(u.relAspect, uv))
  }

  /** Everything the shader divides by is nonzero at `vUv`. */
  predicate Defined(u: Uniforms, uv: Vec2) {
    && u.relAspect > 0.0
    && u.focalLength.x != 0.0 && u.focalLength.y != 0.0
    && u.imageWidth != 0.0 && u.imageHeight != 0.0
    && Denominator(Read(u.coefficients), Undistorted(u, uv)) != 0.0
  }

  /** The fragment shader's `main`: the texture coordinate it samples for `vUv`. */
  function Fragment(u: Uniforms, uv: Vec2): Vec2
    requires Defined(u, uv)
  {
    var q := Correct(Read(u.coefficients), Undistorted(u, uv));
    Aspect.Uncompensate(u.relAspect, OutputCoordinates(u, q))
  }

  // ---------------------------------------------------------------------------
  // Properties of the step

  /** The shader's displacement is exactly what the forward model adds. */
  lemma DisplacementOfDistort(k: Terms, p: Vec2)
    ensures Distort(k, p).x == p.x + Displacement(k, p).x
    ensures Distort(k, p).y == p.y + Displacement(k, p).y
  {
    var r := Radial(k, RadiusSquared(p));
    assert p.x * (1.0 + r) == p.x + p.x * r;
    assert p.y * (1.0 + r) == p.y + p.y * r;
  }

  /** The step moves back by what the forward model adds at `p`, divided by
      the denominator: one Newton-like step towards the undistorted point. */
  lemma CorrectIsScaledStep(k: Terms, p: Vec2)
    requires Denominator(k, p) != 0.0
    ensures Denominator(k, p) * (p.x - Correct(k, p).x) == Distort(k, p).x - p.x
    ensures Denominator(k, p) * (p.y - Correct(k, p).y) == Distort(k, p).y - p.y
  {
    var d := Denominator(k, p);
    var delta := Displacement(k, p);
    assert Correct(k, p) == Vec2(p.x - 1.0 / d * delta.x, p.y - 1.0 / d * delta.y);
    ScaleByInverse(d, delta.x);
    ScaleByInverse(d, delta.y);
    DisplacementOfDistort(k, p);
  }

  /** Without distortion terms the divisor is one and the step changes nothing. */
  lemma CorrectWithoutTerms(p: Vec2)
    ensures Denominator(NoTerms, p) == 1.0
    ensures Correct(NoTerms, p) == p
  {
    assert Radial(NoTerms, RadiusSquared(p)) == 0.0;
    assert TangentialX(NoTerms, p) == 0.0 && TangentialY(NoTerms, p) == 0.0;
    assert Displacement(NoTerms, p) == Vec2(0.0, 0.0);
  }

  /** Mirroring through the principal point keeps the radius. */
  lemma RadiusOfMirror(p: Vec2)
    ensures RadiusSquared(Vec2(-p.x, -p.y)) == RadiusSquared(p)
  {
    assert (-p.x) * (-p.x) == p.x * p.x;
    assert (-p.y) * (-p.y) == p.y * p.y;
  }

  /** Without tangential terms the divisor is even and the displacement odd. */
  lemma RadialSymmetry(k: Terms, p: Vec2)
    requires k.p1 == 0.0 && k.p2 == 0.0
    ensures Denominator(k, Vec2(-p.x, -p.y)) == Denominator(k, p)
    ensures Displacement(k, Vec2(-p.x, -p.y)) == Vec2(-Displacement(k, p).x, -Displacement(k, p).y)
  {
    var m := Vec2(-p.x, -p.y);
    RadiusOfMirror(p);
    var r2 := RadiusSquared(p);
    var r := Radial(k, r2);
    assert TangentialX(k, p) == 0.0 && TangentialY(k, p) == 0.0;
    assert TangentialX(k, m) == 0.0 && TangentialY(k, m) == 0.0;
    assert Denominator(k, p) == 4.0 * k.k1 * r2 + 6.0 * k.k2 * (r2 * r2) + 1.0;
    assert Denominator(k, m) == 4.0 * k.k1 * r2 + 6.0 * k.k2 * (r2 * r2) + 1.0;
    assert Displacement(k, p) == Vec2(p.x * r, p.y * r);
    assert Displacement(k, m) == Vec2((-p.x) * r, (-p.y) * r);
    assert (-p.x) * r == -(p.x * r) && (-p.y) * r == -(p.y * r);
  }

  /** Radial-only correction is odd: mirroring the input through the
      principal point mirrors the output. */
  lemma CorrectOddWithoutTangential(k: Terms, p: Vec2)
    requires k.p1 == 0.0 && k.p2 == 0.0
    requires Denominator(k, p) != 0.0
    ensures Denominator(k, Vec2(-p.x, -p.y)) == Denominator(k, p)
    ensures Correct(k, Vec2(-p.x, -p.y)) == Vec2(-Correct(k, p).x, -Correct(k, p).y)
  {
    RadialSymmetry(k, p);
    var e := Displacement(k, p);
    var inv := 1.0 / Denominator(k, p);
    assert inv * -e.x == -(inv * e.x) && inv * -e.y == -(inv * e.y);
    assert Correct(k, p) == Vec2(p.x - inv * e.x, p.y - inv * e.y);
    assert Correct(k, Vec2(-p.x, -p.y)) == Vec2(-p.x - inv * -e.x, -p.y - inv * -e.y);
  }

  // ---------------------------------------------------------------------------
  // Properties of the whole shader

  /** At zoom factor one the principal point stays put. */
  lemma UnitZoomKeepsPrincipalPoint(u: Uniforms)
    requires u.zoomForDistortionFactor == 1.0
    ensures PrincipalPointOffset(u) == Vec2(0.0, 0.0)
  {
  }

  /** One axis of `RoundTripZoomsAboutCentre`: to camera coordinates and
      back scales about the centre by the zoom factor, whatever the focal
      length and principal point. */
  lemma ZoomAxis(a: real, size: real, pp: real, f: real, z: real)
    requires f != 0.0 && size != 0.0
    ensures FromCamera(ToCamera(a, size, pp, f), size, pp, f, z) - 0.5 == z * (a - 0.5)
  {
    var q := ToCamera(a, size, pp, f);
    assert q * f == a * size - pp;
    var n := q * f * z + pp + Aspect.CentreShift(size, pp, z);
    assert n == (a * size - pp) * z + pp + (size / 2.0 - pp) * (1.0 - z);
    assert n == a * size * z + size / 2.0 - size / 2.0 * z;
    var w := z * (a - 0.5) + 0.5;
    assert n == w * size;
    DivAsProduct(n, size, w);
    assert FromCamera(q, size, pp, f, z) == n / size;
  }

  /** Mapping to camera coordinates and straight back, without correction,
      scales the texture coordinate about the image centre by the zoom factor. */
  lemma RoundTripZoomsAboutCentre(u: Uniforms, a: Vec2)
    requires u.focalLength.x != 0.0 && u.focalLength.y != 0.0
    requires u.imageWidth != 0.0 && u.imageHeight != 0.0
    ensures OutputCoordinates(u, ImageCoordinates(u, a)).x - 0.5 == u.zoomForDistortionFactor * (a.x - 0.5)
    ensures OutputCoordinates(u, ImageCoordinates(u, a)).y - 0.5 == u.zoomForDistortionFactor * (a.y - 0.5)
  {
    ZoomAxis(a.x, u.imageWidth, u.principalPoint.x, u.focalLength.x, u.zoomForDistortionFactor);
    ZoomAxis(a.y, u.imageHeight, u.principalPoint.y, u.focalLength.y, u.zoomForDistortionFactor);
  }

  /** The fifth coefficient never influences the shader. */
  lemma FragmentIgnoresK3(u: Uniforms, uv: Vec2, k3: real)
    requires Defined(u, uv)
    ensures Defined(u.(coefficients := u.coefficients.(k3 := k3)), uv)
    ensures Fragment(u.(coefficients := u.coefficients.(k3 := k3)), uv) == Fragment(u, uv)
  {
    var u' := u.(coefficients := u.coefficients.(k3 := k3));
    assert Read(u'.coefficients) == Read(u.coefficients);
    assert Undistorted(u', uv) == Undistorted(u, uv);
    var q := Correct(Read(u.coefficients), Undistorted(u, uv));
    assert OutputCoordinates(u', q) == OutputCoordinates(u, q);
  }

  /** Without distortion terms the shader samples the zoomed window: the
      compensated coordinate scaled about the centre by the zoom factor. */
  lemma FragmentWithoutTerms(u: Uniforms, uv: Vec2)
    requires Defined(u, uv) && Read(u.coefficients) == NoTerms
    ensures var a := Aspect.Compensate(u.relAspect, uv);
            var s := Aspect.Compensate(u.relAspect, Fragment(u, uv));
            s.x - 0.5 == u.zoomForDistortionFactor * (a.x - 0.5)
            && s.y - 0.5 == u.zoomForDistortionFactor * (a.y - 0.5)
  {
    var a := Aspect.Compensate(u.relAspect, uv);
    var p := Undistorted(u, uv);
    CorrectWithoutTerms(p);
    var o := OutputCoordinates(u, p);
    assert Fragment(u, uv) == Aspect.Uncompensate(u.relAspect, o);
    Aspect.CompensationRoundTrip(u.relAspect, o);
    RoundTripZoomsAboutCentre(u, a);
  }

  /** At rest (no distortion terms, zoom factor one) the shader samples
      exactly where it draws, whatever the aspect ratios. */
  lemma FragmentAtRest(u: Uniforms, uv: Vec2)
    requires Defined(u, uv) && Read(u.coefficients) == NoTerms
    requires u.zoomForDistortionFactor == 1.0
    ensures Fragment(u, uv) == uv
  {
    var a := Aspect.Compensate(u.relAspect, uv);
    var p := Undistorted(u, uv);
    CorrectWithoutTerms(p);
    assert Fragment(u, uv) == Aspect.Uncompensate(u.relAspect, OutputCoordinates(u, p));
    RoundTripZoomsAboutCentre(u, a);
    assert OutputCoordinates(u, p) == a;
    Aspect.CompensationRoundTrip(u.relAspect, uv);
  }
}
