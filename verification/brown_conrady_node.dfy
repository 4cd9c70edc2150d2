/** The Brown-Conrady undistortion pass as a node-graph post-processing node.

    The node computes the same per-pixel map as the fragment shader of
    module `BrownConrady`: aspect compensation, normalised camera
    coordinates, one correction step, the zoomed output coordinate and the
    inverse compensation. Its uniforms differ in shape only: the four
    coefficients it reads arrive as one four-vector and the image size as one
    two-vector, and zoom factor and relative aspect default to one.

    The node spells its polynomial as a chain of method calls, and the chain
    groups the products differently from the shader: every `.add(c).mul(v)`
    wraps everything before it. `ChainedDenominator`, `ChainedDisplacement`
    and `FragmentAsWritten` model the chain as written; `Fragment` is the
    node with the shader's grouping, which the rest of the model uses. */
module BrownConradyNode {

  import opened LinAlg
  import opened Reals
  import Aspect
  import BrownConrady

  /** The node's uniforms: `coefficients` is `(k1, k2, p1, p2)`,
      `imageDimensions` is `(imageWidth, imageHeight)`. */
  datatype NodeUniforms = NodeUniforms(
    coefficients: Vec4,
    principalPoint: Vec2,
    focalLength: Vec2,
    imageDimensions: Vec2,
    zoomForDistortionFactor: real,
    relAspect: real)

  /** The constructor with its two defaulted parameters left out. */
  function WithDefaults(coefficients: Vec4, principalPoint: Vec2, focalLength: Vec2, imageDimensions: Vec2): (n: NodeUniforms)
    ensures n.zoomForDistortionFactor == 1.0 && n.relAspect == 1.0
    ensures n.coefficients == coefficients && n.principalPoint == principalPoint
    ensures n.focalLength == focalLength && n.imageDimensions == imageDimensions
  {
    NodeUniforms(coefficients, principalPoint, focalLength, imageDimensions, 1.0, 1.0)
  }

  /** `coefficients.x` to `coefficients.w`. */
  function TermsOf(c: Vec4): BrownConrady.Terms {
    BrownConrady.Terms(c.x, c.y, c.z, c.w)
  }

  /** The shader uniforms carrying the same values. The node has no fifth
      coefficient; the shader never reads its own, so zero stands in. */
  function ShaderUniforms(n: NodeUniforms): (u: BrownConrady.Uniforms)
    ensures BrownConrady.Read(u.coefficients) == TermsOf(n.coefficients)
  {
    var c := n.coefficients;
    BrownConrady.Uniforms(BrownConrady.Coefficients(c.x, c.y, c.z, c.w, 0.0),
                          n.principalPoint, n.focalLength,
                          n.imageDimensions.x, n.imageDimensions.y,
                          n.relAspect, n.zoomForDistortionFactor)
  }

  // ---------------------------------------------------------------------------
  // The polynomial as the method chain writes it

  /** `4 k1 r2 .add(6) .mul(k2) .mul(r4) .add(8) .mul(p1) .mul(y) .add(8)
      .mul(p2) .mul(x) .add(1)`. */
  function ChainedDenominator(k: BrownConrady.Terms, p: Vec2): real {
    var r2 := BrownConrady.RadiusSquared(p);
    (((4.0 * k.k1 * r2 + 6.0) * k.k2 * (r2 * r2) + 8.0) * k.p1 * p.y + 8.0) * k.p2 * p.x + 1.0
  }

  /** `dx` and `dy` as the chain writes them: `x k1 r2 .add(k2) .mul(r4)`
      and `(r2 + 2) x x` where the shader has `x (k1 r2 + k2 r4)` and
      `r2 + 2 x x`. */
  function ChainedDisplacement(k: BrownConrady.Terms, p: Vec2): Vec2 {
    var x := p.x;
    var y := p.y;
    var r2 := BrownConrady.RadiusSquared(p);
    var r4 := r2 * r2;
    Vec2((x * k.k1 * r2 + k.k2) * r4 + 2.0 * k.p1 * x * y + k.p2 * ((r2 + 2.0) * x * x),
         y * (k.k1 * r2 + k.k2 * r4) + k.p1 * ((r2 + 2.0) * y * y) + 2.0 * k.p2 * x * y)
  }

  /** `newX`, `newY` as written. */
  function ChainedCorrect(k: BrownConrady.Terms, p: Vec2): Vec2
    requires ChainedDenominator(k, p) != 0.0
  {
    var invFactor := 1.0 / ChainedDenominator(k, p);
    var delta := ChainedDisplacement(k, p);
    Vec2(p.x - invFactor * delta.x, p.y - invFactor * delta.y)
  }

  /** Everything the node as written divides by is nonzero at `uv`. */
  predicate DefinedAsWritten(n: NodeUniforms, uv: Vec2) {
    var u := ShaderUniforms(n);
    && u.relAspect > 0.0
    && u.focalLength.x != 0.0 && u.focalLength.y != 0.0
    && u.imageWidth != 0.0 && u.imageHeight != 0.0
    && ChainedDenominator(TermsOf(n.coefficients), BrownConrady.Undistorted(u, uv)) != 0.0
  }

  /** The node's fragment as written: the coordinate it samples for `uv`. */
  function FragmentAsWritten(n: NodeUniforms, uv: Vec2): Vec2
    requires DefinedAsWritten(n, uv)
  {
    var u := ShaderUniforms(n);
    var q := ChainedCorrect(TermsOf(n.coefficients), BrownConrady.Undistorted(u, uv));
    Aspect.Uncompensate(n.relAspect, BrownConrady.OutputCoordinates(u, q))
  }

  // ---------------------------------------------------------------------------
  // The node with the shader's grouping

  predicate Defined(n: NodeUniforms, uv: Vec2) {
    BrownConrady.Defined(ShaderUniforms(n), uv)
  }

  /** The node's fragment with the products grouped as in the shader. */
  function Fragment(n: NodeUniforms, uv: Vec2): Vec2
    requires Defined(n, uv)
  {
    var u := ShaderUniforms(n);
    var q := BrownConrady.Correct(TermsOf(n.coefficients), BrownConrady.Undistorted(u, uv));
    Aspect.Uncompensate(n.relAspect, BrownConrady.OutputCoordinates(u, q))
  }

  // ---------------------------------------------------------------------------
  // Properties

  /** The node, grouped as intended, samples exactly where the fragment
      shader samples, whatever fifth coefficient the shader is given. */
  lemma NodeMatchesShader(n: NodeUniforms, uv: Vec2, k3: real)
    requires Defined(n, uv)
    ensures var c := n.coefficients;
            var u := ShaderUniforms(n).(coefficients := BrownConrady.Coefficients(c.x, c.y, c.z, c.w, k3));
            BrownConrady.Defined(u, uv) && Fragment(n, uv) == BrownConrady.Fragment(u, uv)
  {
    BrownConrady.FragmentIgnoresK3(ShaderUniforms(n), uv, k3);
  }

  /** With the default zoom factor and aspect and no distortion terms, the
      node leaves every coordinate where it is. */
  lemma DefaultsAtRest(pp: Vec2, f: Vec2, dims: Vec2, uv: Vec2)
    requires Defined(WithDefaults(Vec4(0.0, 0.0, 0.0, 0.0), pp, f, dims), uv)
    ensures Fragment(WithDefaults(Vec4(0.0, 0.0, 0.0, 0.0), pp, f, dims), uv) == uv
  {
    var n := WithDefaults(Vec4(0.0, 0.0, 0.0, 0.0), pp, f, dims);
    NodeMatchesShader(n, uv, 0.0);
    BrownConrady.FragmentAtRest(ShaderUniforms(n), uv);
  }

  /** As written, the whole divisor is multiplied by `p2 x`, so it is one
      whenever `p2 x` vanishes: the radial and `p1` terms never reach it. */
  lemma ChainedDenominatorWithoutP2(k: BrownConrady.Terms, p: Vec2)
    requires k.p2 * p.x == 0.0
    ensures ChainedDenominator(k, p) == 1.0
  {
    var r2 := BrownConrady.RadiusSquared(p);
    var a := ((4.0 * k.k1 * r2 + 6.0) * k.k2 * (r2 * r2) + 8.0) * k.p1 * p.y + 8.0;
    assert a * k.p2 * p.x == a * (k.p2 * p.x);
  }

  /** As written, `dy` agrees with the shader's whenever `p1` is zero. */
  lemma ChainedDisplacementY(k: BrownConrady.Terms, p: Vec2)
    requires k.p1 == 0.0
    ensures ChainedDisplacement(k, p).y == BrownConrady.Displacement(k, p).y
  {
    var r2 := BrownConrady.RadiusSquared(p);
    assert k.p1 * ((r2 + 2.0) * p.y * p.y) == 0.0;
    assert BrownConrady.TangentialY(k, p) == 2.0 * k.p2 * p.x * p.y;
  }

  /** As written, the step still leaves every point alone without
      distortion terms. */
  lemma ChainedWithoutTerms(p: Vec2)
    ensures ChainedDenominator(BrownConrady.NoTerms, p) == 1.0
    ensures ChainedCorrect(BrownConrady.NoTerms, p) == p
  {
    ChainedDenominatorWithoutP2(BrownConrady.NoTerms, p);
    assert ChainedDisplacement(BrownConrady.NoTerms, p) == Vec2(0.0, 0.0);
  }

  /** Along the x axis with `k1` alone, the chain as written divides by one
      and subtracts `k1 x^7`, where the shader divides `k1 x^3` by
      `4 k1 x^2 + 1`. */
  lemma ChainedAlongAxis(k1: real, x: real)
    ensures var k := BrownConrady.Terms(k1, 0.0, 0.0, 0.0);
            var p := Vec2(x, 0.0);
            var r2 := x * x;
            && ChainedDenominator(k, p) == 1.0
            && ChainedCorrect(k, p) == Vec2(x - (x * k1 * r2) * (r2 * r2), 0.0)
            && BrownConrady.Denominator(k, p) == 4.0 * k1 * r2 + 1.0
            && BrownConrady.Displacement(k, p) == Vec2(x * (k1 * r2), 0.0)
  {
    var k := BrownConrady.Terms(k1, 0.0, 0.0, 0.0);
    var p := Vec2(x, 0.0);
    var r2 := x * x;
    assert BrownConrady.RadiusSquared(p) == r2;
    ChainedDenominatorWithoutP2(k, p);
    assert ChainedDisplacement(k, p) == Vec2((x * k1 * r2) * (r2 * r2), 0.0);
    assert BrownConrady.TangentialX(k, p) == 0.0 && BrownConrady.TangentialY(k, p) == 0.0;
    assert BrownConrady.Radial(k, r2) == k1 * r2;
  }

  /** The shader's step along the x axis with `k1` alone, as an equation. */
  lemma CorrectAlongAxis(k1: real, x: real)
    requires 4.0 * k1 * (x * x) + 1.0 != 0.0
    ensures var k := BrownConrady.Terms(k1, 0.0, 0.0, 0.0);
            var p := Vec2(x, 0.0);
            var r2 := x * x;
            && BrownConrady.Denominator(k, p) == 4.0 * k1 * r2 + 1.0
            && (4.0 * k1 * r2 + 1.0) * (x - BrownConrady.Correct(k, p).x) == x * (k1 * r2)
  {
    var k := BrownConrady.Terms(k1, 0.0, 0.0, 0.0);
    var p := Vec2(x, 0.0);
    ChainedAlongAxis(k1, x);
    BrownConrady.CorrectIsScaledStep(k, p);
    BrownConrady.DisplacementOfDistort(k, p);
  }

  /** The arithmetic behind `ChainedStepDiffers`: with `t = k1 x^3` and
      `r4 = x^4`, the shader's step moves by `y` with `d y = t`, the chain's
      by `t r4`, and the two differ unless `d r4 = 1`. */
  lemma AxisStepsDiffer(t: real, r4: real, d: real, y: real)
    requires t != 0.0 && d * r4 != 1.0
    requires d * y == t
    ensures y != t * r4
  {
    if y == t * r4 {
      calc {
        t;
        d * y;
        d * (t * r4);
        t * (d * r4);
      }
      NotUnit(t, d * r4);
    }
  }

  /** The grouping matters: with `k1` alone, at every point `(x, 0)` off
      the centre where the shader's step is defined and `d x^4 != 1` for
      its divisor `d`, the chain as written lands somewhere else. With
      `k1 = 1` at `(1, 0)` the chain gives `0` where the shader gives `4/5`. */
  lemma ChainedStepDiffers(k1: real, x: real)
    requires k1 != 0.0 && x != 0.0
    requires var r2 := x * x; 4.0 * k1 * r2 + 1.0 != 0.0 && (4.0 * k1 * r2 + 1.0) * (r2 * r2) != 1.0
    ensures var k := BrownConrady.Terms(k1, 0.0, 0.0, 0.0);
            var p := Vec2(x, 0.0);
            && ChainedDenominator(k, p) != 0.0 && BrownConrady.Denominator(k, p) != 0.0
            && ChainedCorrect(k, p).x != BrownConrady.Correct(k, p).x
  {
    var k := BrownConrady.Terms(k1, 0.0, 0.0, 0.0);
    var p := Vec2(x, 0.0);
    var r2 := x * x;
    ChainedAlongAxis(k1, x);
    CorrectAlongAxis(k1, x);
    var t := x * k1 * r2;
    assert t != 0.0 by {
      assert r2 != 0.0;
      assert x * k1 != 0.0;
    }
    assert x * (k1 * r2) == t;
    AxisStepsDiffer(t, r2 * r2, 4.0 * k1 * r2 + 1.0, x - BrownConrady.Correct(k, p).x);
  }

  /** The node with `k1` alone and every scale one: unit focal length, unit
      image, principal point at the origin, unit zoom and aspect. */
  function AxisNode(k1: real): NodeUniforms {
    WithDefaults(Vec4(k1, 0.0, 0.0, 0.0), Vec2(0.0, 0.0), Vec2(1.0, 1.0), Vec2(1.0, 1.0))
  }

  /** Such a node passes a texture coordinate straight to the step and the
      step's result straight back out. */
  lemma AxisNodeIsTheStep(k1: real, uv: Vec2, q: Vec2)
    ensures BrownConrady.Undistorted(ShaderUniforms(AxisNode(k1)), uv) == uv
    ensures BrownConrady.OutputCoordinates(ShaderUniforms(AxisNode(k1)), q) == q
    ensures Aspect.Uncompensate(1.0, q) == q
  {
    Aspect.CompensationAtUnitAspect(uv);
    Aspect.CompensationAtUnitAspect(q);
    assert Aspect.CentreShift(1.0, 0.0, 1.0) == 0.0;
  }

  /** Such a node, as written, samples the chain's step at `uv`. */
  lemma AxisFragmentAsWritten(k1: real, uv: Vec2)
    requires DefinedAsWritten(AxisNode(k1), uv)
    ensures FragmentAsWritten(AxisNode(k1), uv) == ChainedCorrect(BrownConrady.Terms(k1, 0.0, 0.0, 0.0), uv)
  {
    var n := AxisNode(k1);
    assert TermsOf(n.coefficients) == BrownConrady.Terms(k1, 0.0, 0.0, 0.0);
    AxisNodeIsTheStep(k1, uv, ChainedCorrect(TermsOf(n.coefficients), uv));
  }

  /** Such a node, grouped as intended, samples the shader's step at `uv`. */
  lemma AxisFragment(k1: real, uv: Vec2)
    requires Defined(AxisNode(k1), uv)
    ensures Fragment(AxisNode(k1), uv) == BrownConrady.Correct(BrownConrady.Terms(k1, 0.0, 0.0, 0.0), uv)
  {
    var n := AxisNode(k1);
    assert TermsOf(n.coefficients) == BrownConrady.Terms(k1, 0.0, 0.0, 0.0);
    AxisNodeIsTheStep(k1, uv, BrownConrady.Correct(TermsOf(n.coefficients), uv));
  }

  /** The discrepancy reaches the screen: such a node, as written, samples a
      different texture coordinate than with the shader's grouping. */
  lemma NodeAsWrittenDiffers(k1: real, x: real)
    requires k1 != 0.0 && x != 0.0
    requires var r2 := x * x; 4.0 * k1 * r2 + 1.0 != 0.0 && (4.0 * k1 * r2 + 1.0) * (r2 * r2) != 1.0
    ensures DefinedAsWritten(AxisNode(k1), Vec2(x, 0.0)) && Defined(AxisNode(k1), Vec2(x, 0.0))
    ensures FragmentAsWritten(AxisNode(k1), Vec2(x, 0.0)) != Fragment(AxisNode(k1), Vec2(x, 0.0))
  {
    var n := AxisNode(k1);
    var uv := Vec2(x, 0.0);
    assert TermsOf(n.coefficients) == BrownConrady.Terms(k1, 0.0, 0.0, 0.0);
    ChainedStepDiffers(k1, x);
    AxisNodeIsTheStep(k1, uv, uv);
    AxisFragmentAsWritten(k1, uv);
    AxisFragment(k1, uv);
  }

  /** The grouping goes unnoticed at rest: without distortion terms and with
      zoom factor one the node as written also samples exactly where it
      draws, whatever the aspect ratios. */
  lemma NodeAsWrittenAtRest(n: NodeUniforms, uv: Vec2)
    requires DefinedAsWritten(n, uv)
    requires n.coefficients == Vec4(0.0, 0.0, 0.0, 0.0) && n.zoomForDistortionFactor == 1.0
    ensures FragmentAsWritten(n, uv) == uv
  {
    var u := ShaderUniforms(n);
    assert TermsOf(n.coefficients) == BrownConrady.NoTerms;
    var a := Aspect.Compensate(u.relAspect, uv);
    var p := BrownConrady.Undistorted(u, uv);
    ChainedWithoutTerms(p);
    assert FragmentAsWritten(n, uv) == Aspect.Uncompensate(u.relAspect, BrownConrady.OutputCoordinates(u, p));
    BrownConrady.RoundTripZoomsAboutCentre(u, a);
    assert BrownConrady.OutputCoordinates(u, p) == a;
    Aspect.CompensationRoundTrip(u.relAspect, uv);
  }
}
