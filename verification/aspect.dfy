/** The aspect-ratio compensator shared by the projection builder and the
    per-pixel kernels.

    When the viewport's aspect ratio differs from the calibration image's, the
    image is letterboxed or pillarboxed: along the relatively longer viewport
    axis a factor greater than one widens the visible range, the other factor
    stays one. A normalised coordinate `u` is mapped forward as
    `u * factor + offset` and back as `(v - offset) / factor`, where
    `offset = (1 - factor * zoom) / 2`; the per-pixel kernels use `zoom = 1`. */
module Aspect {

  import opened LinAlg

  /** `Math.max(a, b)` for the finite reals modelled here. */
  function Max(a: real, b: real): (m: real)
    ensures m >= a && m >= b
    ensures m == a || m == b
  {
    if a >= b then a else b
  }

  /** `(viewportWidth / viewportHeight) / (imageWidth / imageHeight)`, with the
      viewport's ratio already divided out as `viewportAspect`. */
  function RelAspect(viewportAspect: real, imageWidth: real, imageHeight: real): (r: real)
    requires viewportAspect > 0.0 && imageWidth > 0.0 && imageHeight > 0.0
    ensures r > 0.0
    ensures r == 1.0 <==> viewportAspect * imageHeight == imageWidth
    ensures r > 1.0 <==> viewportAspect * imageHeight > imageWidth
  {
    var imageAspect := imageWidth / imageHeight;
    var r := viewportAspect / imageAspect;
    assert r * imageWidth == viewportAspect * imageHeight by {
      assert r * imageAspect == viewportAspect;
      assert imageAspect * imageHeight == imageWidth;
    }
    assert r > 1.0 ==> r * imageWidth > 1.0 * imageWidth;
    assert r <= 1.0 ==> r * imageWidth <= 1.0 * imageWidth;
    r
  }

  datatype Factors = Factors(x: real, y: real)

  /** `(max(1, relAspect), max(1, 1 / relAspect))`. */
  function FactorsOf(relAspect: real): (f: Factors)
    requires relAspect > 0.0
    ensures f.x >= 1.0 && f.y >= 1.0
    ensures f.x == 1.0 || f.y == 1.0
    // the compensated window has the viewport's shape
    ensures f.x == relAspect * f.y
  {
    Factors(Max(1.0, relAspect), Max(1.0, 1.0 / relAspect))
  }

  /** `(1 - factor * zoom) / 2`: the shift that keeps the window centred. */
  function Offset(factor: real, zoom: real): real {
    (1.0 - factor * zoom) / 2.0
  }

  /** Viewport-normalised coordinate to image-normalised coordinate. */
  function Forward(u: real, factor: real, offset: real): real {
    u * factor + offset
  }

  /** Image-normalised coordinate back to viewport-normalised coordinate. */
  function Inverse(v: real, factor: real, offset: real): real
    requires factor != 0.0
  {
    (v - offset) / factor
  }

  lemma InverseForward(u: real, factor: real, offset: real)
    requires factor != 0.0
    ensures Inverse(Forward(u, factor, offset), factor, offset) == u
  {
  }

  lemma ForwardInverse(v: real, factor: real, offset: real)
    requires factor != 0.0
    ensures Forward(Inverse(v, factor, offset), factor, offset) == v
  {
  }

  /** The forward map with the kernels' zero-zoom offset keeps the centre and
      maps the unit interval onto the centred window of width `factor`. */
  lemma ForwardCentred(u: real, factor: real)
    ensures Forward(0.5, factor, Offset(factor, 1.0)) == 0.5
    ensures Forward(u, factor, Offset(factor, 1.0)) - 0.5 == factor * (u - 0.5)
  {
  }

  /** Mirroring about the centre commutes with the forward map, so a Y flip may
      be applied before or after compensation. */
  lemma ForwardCommutesWithFlip(u: real, factor: real)
    ensures Forward(1.0 - u, factor, Offset(factor, 1.0)) == 1.0 - Forward(u, factor, Offset(factor, 1.0))
  {
  }

  /** Matching aspect ratios need no compensation. */
  lemma UnitRelAspect(zoom: real)
    ensures FactorsOf(1.0) == Factors(1.0, 1.0)
    ensures Offset(1.0, zoom) == (1.0 - zoom) / 2.0
    ensures Offset(1.0, 1.0) == 0.0
  {
  }

  /** One axis of `principalPointOffset`: how far the principal point moves
      towards the image centre when the zoom factor shrinks the focal length.
      The Brown-Conrady kernels and the fisheye lookup-table generator share it. */
  function CentreShift(size: real, pp: real, zoom: real): real {
    (size / 2.0 - pp) * (1.0 - zoom)
  }

  /** The shifted principal point lies between the original one and the image
      centre: its distance to the centre is scaled by the zoom factor. */
  lemma CentreShiftScalesAboutCentre(size: real, pp: real, zoom: real)
    ensures (pp + CentreShift(size, pp, zoom)) - size / 2.0 == zoom * (pp - size / 2.0)
    ensures zoom == 1.0 ==> CentreShift(size, pp, zoom) == 0.0
  {
  }

  // ---------------------------------------------------------------------------
  // The per-pixel kernels' compensation of a texture coordinate

  /** `inputCoordinatesWithAspectOffset`: the viewport texture coordinate as a
      texture coordinate of the calibration image. */
  function Compensate(relAspect: real, uv: Vec2): Vec2
    requires relAspect > 0.0
  {
    var f := FactorsOf(relAspect);
    Vec2(Forward(uv.x, f.x, Offset(f.x, 1.0)), Forward(uv.y, f.y, Offset(f.y, 1.0)))
  }

  /** `coordinatesWithAspectOffset`: an image texture coordinate back in the
      viewport. */
  function Uncompensate(relAspect: real, v: Vec2): Vec2
    requires relAspect > 0.0
  {
    var f := FactorsOf(relAspect);
    Vec2(Inverse(v.x, f.x, Offset(f.x, 1.0)), Inverse(v.y, f.y, Offset(f.y, 1.0)))
  }

  /** The two compensations are inverse to each other, for every aspect ratio. */
  lemma CompensationRoundTrip(relAspect: real, uv: Vec2)
    requires relAspect > 0.0
    ensures Uncompensate(relAspect, Compensate(relAspect, uv)) == uv
    ensures Compensate(relAspect, Uncompensate(relAspect, uv)) == uv
  {
    var f := FactorsOf(relAspect);
    InverseForward(uv.x, f.x, Offset(f.x, 1.0));
    InverseForward(uv.y, f.y, Offset(f.y, 1.0));
    ForwardInverse(uv.x, f.x, Offset(f.x, 1.0));
    ForwardInverse(uv.y, f.y, Offset(f.y, 1.0));
  }

  /** Compensation keeps the centre of the texture where it is. */
  lemma CompensationKeepsCentre(relAspect: real)
    requires relAspect > 0.0
    ensures Compensate(relAspect, Vec2(0.5, 0.5)) == Vec2(0.5, 0.5)
  {
    var f := FactorsOf(relAspect);
    ForwardCentred(0.5, f.x);
    ForwardCentred(0.5, f.y);
  }

  /** Matching aspect ratios leave texture coordinates unchanged. */
  lemma CompensationAtUnitAspect(uv: Vec2)
    ensures Compensate(1.0, uv) == uv
    ensures Uncompensate(1.0, uv) == uv
  {
    UnitRelAspect(1.0);
  }
}
