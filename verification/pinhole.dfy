/** The pinhole projection builder of `PinholeCamera`.

    A computer-vision intrinsic matrix `K` becomes a clip-space projection in
    two steps: a perspective matrix that sends a camera-space point to
    homogeneous pixel coordinates (with the camera depth as `w`), then an
    OpenGL-style orthographic remap that sends a pixel-space crop box to
    `[-1, 1]` and the depth range `[near, far]` to `[-1, 1]`. The crop box is the
    calibration image widened by the aspect compensator and scaled by the
    camera zoom, kept centred on the image.

    The camera pose handed to the renderer is the inverse of the homogeneous
    world-to-camera transform `[R | T]`. */
module Pinhole {

  import opened Wrappers
  import opened LinAlg
  import Aspect
  import opened Reals

  // ---------------------------------------------------------------------------
  // The two matrices

  /** `makeNdcMatrix(left, right, bottom, top, near, far)`. */
  function NdcMatrix(left: real, right: real, bottom: real, top: real, near: real, far: real): Mat4
    requires right != left && top != bottom && far != near
  {
    var tx := -(right + left) / (right - left);
    var ty := -(top + bottom) / (top - bottom);
    var tz := -(far + near) / (far - near);
    Mat4(Vec4(2.0 / (right - left), 0.0, 0.0, tx),
         Vec4(0.0, 2.0 / (top - bottom), 0.0, ty),
         Vec4(0.0, 0.0, -2.0 / (far - near), tz),
         Vec4(0.0, 0.0, 0.0, 1.0))
  }

  /** `makePerspectiveMatrix(s, alpha, beta, x0, y0, near, far)`. */
  function PerspectiveMatrix(s: real, alpha: real, beta: real, x0: real, y0: real, near: real, far: real): Mat4 {
    var a := near + far;
    var b := near * far;
    Mat4(Vec4(alpha, s, x0, 0.0),
         Vec4(0.0, beta, y0, 0.0),
         Vec4(0.0, 0.0, -a, b),
         Vec4(0.0, 0.0, 1.0, 0.0))
  }

  /** The remap sends the box edges to the edges of clip space: `left` to -1,
      `right` to +1, and, in the argument order the camera uses, `top` to +1
      and `bottom` to -1. Homogeneous points stay at `w = 1`. */
  lemma NdcMapsBoxEdges(left: real, right: real, bottom: real, top: real, near: real, far: real, y: real, z: real)
    requires right != left && top != bottom && far != near
    ensures Apply4(NdcMatrix(left, right, bottom, top, near, far), Vec4(left, top, z, 1.0)).x == -1.0
    ensures Apply4(NdcMatrix(left, right, bottom, top, near, far), Vec4(right, bottom, z, 1.0)).x == 1.0
    ensures Apply4(NdcMatrix(left, right, bottom, top, near, far), Vec4(left, top, z, 1.0)).y == 1.0
    ensures Apply4(NdcMatrix(left, right, bottom, top, near, far), Vec4(right, bottom, z, 1.0)).y == -1.0
    ensures Apply4(NdcMatrix(left, right, bottom, top, near, far), Vec4(left, y, z, 1.0)).w == 1.0
  {
    var d := right - left;
    assert (2.0 * left - (right + left)) / d == -1.0 by {
      assert 2.0 * left - (right + left) == -d;
    }
    assert (2.0 * right - (right + left)) / d == 1.0 by {
      assert 2.0 * right - (right + left) == d;
    }
    var e := top - bottom;
    assert (2.0 * top - (top + bottom)) / e == 1.0 by {
      assert 2.0 * top - (top + bottom) == e;
    }
    assert (2.0 * bottom - (top + bottom)) / e == -1.0 by {
      assert 2.0 * bottom - (top + bottom) == -e;
    }
  }

  // ---------------------------------------------------------------------------
  // The crop box

  /** The pixel-space window `[left, right] x [top, bottom]` of the calibration
      image that the viewport shows. */
  datatype CropBox = CropBox(left: real, right: real, top: real, bottom: real)

  function CropBoxOf(imageWidth: real, imageHeight: real, relAspect: real, zoom: real): (b: CropBox)
    requires imageWidth > 0.0 && imageHeight > 0.0 && relAspect > 0.0 && zoom > 0.0
    // centred on the image
    ensures b.left + b.right == imageWidth && b.top + b.bottom == imageHeight
    // as wide as the compensated, zoomed image
    ensures b.right - b.left == Aspect.FactorsOf(relAspect).x * zoom * imageWidth
    ensures b.bottom - b.top == Aspect.FactorsOf(relAspect).y * zoom * imageHeight
    ensures b.left < b.right && b.top < b.bottom
  {
    var f := Aspect.FactorsOf(relAspect);
    var offsetX := Aspect.Offset(f.x, zoom) * imageWidth;
    var offsetY := Aspect.Offset(f.y, zoom) * imageHeight;
    assert f.x * zoom * imageWidth > 0.0;
    assert f.y * zoom * imageHeight > 0.0;
    CropBox(offsetX, imageWidth - offsetX, offsetY, imageHeight - offsetY)
  }

  /** Without aspect mismatch and zoom the crop box is the whole image. */
  lemma CropBoxUnzoomed(imageWidth: real, imageHeight: real)
    requires imageWidth > 0.0 && imageHeight > 0.0
    ensures CropBoxOf(imageWidth, imageHeight, 1.0, 1.0) == CropBox(0.0, imageWidth, 0.0, imageHeight)
  {
  }

  // ---------------------------------------------------------------------------
  // Intrinsics and the projection

  /** The five intrinsic parameters the camera reads from `K`. */
  datatype Intrinsics = Intrinsics(fx: real, fy: real, ox: real, oy: real, s: real)

  /** Reads `K.elements` column-major, as `updateProjectionMatrix` does. */
  function IntrinsicsOf(K: Elements3): (k: Intrinsics)
    ensures k.fx == At3(FromElements(K), 0, 0) && k.fy == At3(FromElements(K), 1, 1)
    ensures k.ox == At3(FromElements(K), 0, 2) && k.oy == At3(FromElements(K), 1, 2)
    ensures k.s == At3(FromElements(K), 0, 1)
  {
    Intrinsics(K[0 + 0 * 3], K[1 + 1 * 3], K[0 + 2 * 3], K[1 + 2 * 3], K[0 + 1 * 3])
  }

  /** What `updateProjectionMatrix` needs of the camera state to divide safely. */
  predicate ViewportValid(imageWidth: real, imageHeight: real, aspect: real, near: real, far: real, zoom: real) {
    imageWidth > 0.0 && imageHeight > 0.0 && aspect > 0.0 && zoom > 0.0 && near != far
  }

  function BoxOf(imageWidth: real, imageHeight: real, aspect: real, zoom: real): CropBox
    requires imageWidth > 0.0 && imageHeight > 0.0 && aspect > 0.0 && zoom > 0.0
  {
    CropBoxOf(imageWidth, imageHeight, Aspect.RelAspect(aspect, imageWidth, imageHeight), zoom)
  }

  /** `ndc.multiply(persp)` for given intrinsics and crop box. */
  function ProjectionOf(k: Intrinsics, b: CropBox, near: real, far: real): Mat4
    requires b.right != b.left && b.top != b.bottom && near != far
  {
    var persp := PerspectiveMatrix(k.s, k.fx, k.fy, k.ox, k.oy, near, far);
    var ndc := NdcMatrix(b.left, b.right, b.bottom, b.top, near, far);
    Mul4(ndc, persp)
  }

  /** The projection `updateProjectionMatrix` computes from the camera's state. */
  function Projection(K: Elements3, imageWidth: real, imageHeight: real, aspect: real,
                      near: real, far: real, zoom: real): Mat4
    requires ViewportValid(imageWidth, imageHeight, aspect, near, far, zoom)
  {
    ProjectionOf(IntrinsicsOf(K), BoxOf(imageWidth, imageHeight, aspect, zoom), near, far)
  }

  /** Pixel coordinates of the camera-space point `p` under the pinhole model. */
  function PixelOf(k: Intrinsics, p: Vec3): Vec2
    requires p.z != 0.0
  {
    Vec2((k.fx * p.x + k.s * p.y + k.ox * p.z) / p.z, (k.fy * p.y + k.oy * p.z) / p.z)
  }

  /** Normalised device depth of camera depth `z`. */
  function DepthNdc(near: real, far: real, z: real): real
    requires near != far && z != 0.0
  {
    ((far + near) * z - 2.0 * far * near) / ((far - near) * z)
  }

  lemma DepthEnds(near: real, far: real)
    requires near != far && near != 0.0 && far != 0.0
    ensures DepthNdc(near, far, near) == -1.0
    ensures DepthNdc(near, far, far) == 1.0
  {
    var d := far - near;
    assert (far + near) * near - 2.0 * far * near == -(d * near);
    assert (far + near) * far - 2.0 * far * near == d * far;
    assert d * near != 0.0 && d * far != 0.0;
    DivSelf(d * near);
    DivSelf(d * far);
  }

  /** The perspective matrix sends a camera-space point to homogeneous pixel
      coordinates with its depth as `w`. */
  lemma PerspectiveApply(k: Intrinsics, near: real, far: real, p: Vec3)
    ensures var h := Apply4(PerspectiveMatrix(k.s, k.fx, k.fy, k.ox, k.oy, near, far), Vec4(p.x, p.y, p.z, 1.0));
            h == Vec4(k.fx * p.x + k.s * p.y + k.ox * p.z, k.fy * p.y + k.oy * p.z,
                      -(near + far) * p.z + near * far, p.z)
  {
  }

  lemma NdcApplyX(left: real, right: real, bottom: real, top: real, near: real, far: real, h: Vec4)
    requires right != left && top != bottom && far != near
    ensures var c := Apply4(NdcMatrix(left, right, bottom, top, near, far), h);
            c.x == (2.0 * h.x - (right + left) * h.w) / (right - left) && c.w == h.w
  {
    var c := Apply4(NdcMatrix(left, right, bottom, top, near, far), h);
    var d := right - left;
    assert c.x == 2.0 / d * h.x + (-(right + left) / d) * h.w;
    DivAsProduct(2.0 * h.x - (right + left) * h.w, d, c.x);
  }

  lemma NdcApplyY(left: real, right: real, bottom: real, top: real, near: real, far: real, h: Vec4)
    requires right != left && top != bottom && far != near
    ensures var c := Apply4(NdcMatrix(left, right, bottom, top, near, far), h);
            c.y == (2.0 * h.y - (top + bottom) * h.w) / (top - bottom)
  {
    var c := Apply4(NdcMatrix(left, right, bottom, top, near, far), h);
    var e := top - bottom;
    assert c.y == 2.0 / e * h.y + (-(top + bottom) / e) * h.w;
    DivAsProduct(2.0 * h.y - (top + bottom) * h.w, e, c.y);
  }

  lemma NdcApplyZ(left: real, right: real, bottom: real, top: real, near: real, far: real, h: Vec4)
    requires right != left && top != bottom && far != near
    ensures var c := Apply4(NdcMatrix(left, right, bottom, top, near, far), h);
            c.z == (-2.0 * h.z - (far + near) * h.w) / (far - near)
  {
    var c := Apply4(NdcMatrix(left, right, bottom, top, near, far), h);
    var g := far - near;
    assert c.z == (-2.0 / g) * h.z + (-(far + near) / g) * h.w;
    DivAsProduct(-2.0 * h.z - (far + near) * h.w, g, c.z);
  }

  /** Remapping the homogeneous coordinate `hx` (with weight `w`) through the
      box, then dividing by `w`, is remapping the point `hx / w`. */
  lemma RemapDivide(hx: real, w: real, lo: real, hi: real, c: real)
    requires hi != lo && w != 0.0
    requires c == (2.0 * hx - (hi + lo) * w) / (hi - lo)
    ensures c / w == 2.0 * (hx / w - lo) / (hi - lo) - 1.0
  {
    var u := hx / w;
    var d := hi - lo;
    var k := 2.0 * (u - lo) / d - 1.0;
    assert hx == u * w;
    assert k * d == 2.0 * (u - lo) - d;
    assert c * d == 2.0 * (u * w) - (hi + lo) * w;
    assert c * d == (k * d) * w;
    assert c == k * w;
    DivAsProduct(c, w, k);
  }

  lemma DepthDivide(near: real, far: real, z: real, c: real)
    requires near != far && z != 0.0
    requires c == (-2.0 * (-(near + far) * z + near * far) - (far + near) * z) / (far - near)
    ensures c / z == DepthNdc(near, far, z)
  {
    var g := far - near;
    assert c * g == (far + near) * z - 2.0 * far * near;
    assert g * z != 0.0;
    DivAsProduct((far + near) * z - 2.0 * far * near, g * z, c / z);
  }

  lemma ProjectionApply(k: Intrinsics, b: CropBox, near: real, far: real, q: Vec4)
    requires b.right != b.left && b.top != b.bottom && near != far
    ensures Apply4(ProjectionOf(k, b, near, far), q)
              == Apply4(NdcMatrix(b.left, b.right, b.bottom, b.top, near, far),
                        Apply4(PerspectiveMatrix(k.s, k.fx, k.fy, k.ox, k.oy, near, far), q))
  {
    ApplyMul4(NdcMatrix(b.left, b.right, b.bottom, b.top, near, far),
              PerspectiveMatrix(k.s, k.fx, k.fy, k.ox, k.oy, near, far), q);
  }

  /** Homogeneous pixel coordinates and clip coordinates of `p`, factor by factor. */
  function Homogeneous(k: Intrinsics, near: real, far: real, p: Vec3): Vec4 {
    Apply4(PerspectiveMatrix(k.s, k.fx, k.fy, k.ox, k.oy, near, far), Vec4(p.x, p.y, p.z, 1.0))
  }

  function ClipOf(k: Intrinsics, b: CropBox, near: real, far: real, p: Vec3): Vec4
    requires b.right != b.left && b.top != b.bottom && near != far
  {
    Apply4(NdcMatrix(b.left, b.right, b.bottom, b.top, near, far), Homogeneous(k, near, far, p))
  }

  lemma ClipOfX(k: Intrinsics, b: CropBox, near: real, far: real, p: Vec3)
    requires b.right != b.left && b.top != b.bottom && near != far
    requires p.z != 0.0
    ensures ClipOf(k, b, near, far, p).w == p.z
    ensures ClipOf(k, b, near, far, p).x / p.z == 2.0 * (PixelOf(k, p).x - b.left) / (b.right - b.left) - 1.0
  {
    PerspectiveApply(k, near, far, p);
    var h := Homogeneous(k, near, far, p);
    assert h.w == p.z;
    assert PixelOf(k, p).x == h.x / h.w;
    var c := ClipOf(k, b, near, far, p);
    NdcApplyX(b.left, b.right, b.bottom, b.top, near, far, h);
    assert c.x == (2.0 * h.x - (b.right + b.left) * h.w) / (b.right - b.left);
    RemapDivide(h.x, h.w, b.left, b.right, c.x);
  }

  lemma ClipOfY(k: Intrinsics, b: CropBox, near: real, far: real, p: Vec3)
    requires b.right != b.left && b.top != b.bottom && near != far
    requires p.z != 0.0
    ensures ClipOf(k, b, near, far, p).y / p.z == 2.0 * (PixelOf(k, p).y - b.bottom) / (b.top - b.bottom) - 1.0
  {
    PerspectiveApply(k, near, far, p);
    var h := Homogeneous(k, near, far, p);
    assert h.w == p.z;
    assert PixelOf(k, p).y == h.y / h.w;
    var c := ClipOf(k, b, near, far, p);
    NdcApplyY(b.left, b.right, b.bottom, b.top, near, far, h);
    assert c.y == (2.0 * h.y - (b.top + b.bottom) * h.w) / (b.top - b.bottom);
    RemapDivide(h.y, h.w, b.bottom, b.top, c.y);
  }

  lemma ClipOfZ(k: Intrinsics, b: CropBox, near: real, far: real, p: Vec3)
    requires b.right != b.left && b.top != b.bottom && near != far
    requires p.z != 0.0
    ensures ClipOf(k, b, near, far, p).z / p.z == DepthNdc(near, far, p.z)
  {
    PerspectiveApply(k, near, far, p);
    var h := Homogeneous(k, near, far, p);
    NdcApplyZ(b.left, b.right, b.bottom, b.top, near, far, h);
    var c := ClipOf(k, b, near, far, p);
    assert h.z == -(near + far) * p.z + near * far && h.w == p.z;
    assert c.z == (-2.0 * (-(near + far) * p.z + near * far) - (far + near) * p.z) / (far - near);
    DepthDivide(near, far, p.z, c.z);
  }

  /** The clip coordinates of a camera-space point: `w` is its depth, and after
      the perspective divide `x` and `y` are the pinhole pixel coordinates
      remapped from the crop box to `[-1, 1]` (left to -1, top to +1), while
      `z` is the OpenGL depth of the point. */
  lemma ProjectionClip(k: Intrinsics, b: CropBox, near: real, far: real, p: Vec3)
    requires b.right != b.left && b.top != b.bottom && near != far
    requires p.z != 0.0
    ensures var c := Apply4(ProjectionOf(k, b, near, far), Vec4(p.x, p.y, p.z, 1.0));
            var px := PixelOf(k, p);
            && c.w == p.z
            && c.x / c.w == 2.0 * (px.x - b.left) / (b.right - b.left) - 1.0
            && c.y / c.w == 2.0 * (px.y - b.bottom) / (b.top - b.bottom) - 1.0
            && c.z / c.w == DepthNdc(near, far, p.z)
  {
    ProjectionApply(k, b, near, far, Vec4(p.x, p.y, p.z, 1.0));
    ClipOfX(k, b, near, far, p);
    ClipOfY(k, b, near, far, p);
    ClipOfZ(k, b, near, far, p);
  }

  /** Points at the near and far plane land on the near and far faces of clip
      space after the perspective divide. */
  lemma ProjectionDepthRange(k: Intrinsics, b: CropBox, near: real, far: real, x: real, y: real)
    requires b.right != b.left && b.top != b.bottom && near != far
    requires near != 0.0 && far != 0.0
    ensures var m := ProjectionOf(k, b, near, far);
            var cn := Apply4(m, Vec4(x, y, near, 1.0));
            var cf := Apply4(m, Vec4(x, y, far, 1.0));
            cn.z / cn.w == -1.0 && cf.z / cf.w == 1.0
  {
    ProjectionClip(k, b, near, far, Vec3(x, y, near));
    ProjectionClip(k, b, near, far, Vec3(x, y, far));
    DepthEnds(near, far);
  }

  /** The horizontal scale term is the focal length over the half box width. */
  lemma ProjectionScale(k: Intrinsics, b: CropBox, near: real, far: real)
    requires b.right != b.left && b.top != b.bottom && near != far
    ensures ProjectionOf(k, b, near, far).r0.x == 2.0 * k.fx / (b.right - b.left)
  {
    var ndc := NdcMatrix(b.left, b.right, b.bottom, b.top, near, far);
    var persp := PerspectiveMatrix(k.s, k.fx, k.fy, k.ox, k.oy, near, far);
    RowTimesEntry(ndc.r0, persp, 0);
    assert Col4(persp, 0) == Vec4(k.fx, 0.0, 0.0, 0.0);
    assert Dot4(ndc.r0, Col4(persp, 0)) == 2.0 / (b.right - b.left) * k.fx;
  }

  /** The viewer gives the camera the zoom `1 / zoomForDistortionFactor`:
      the crop box grows by the inverse of the factor by which the kernels
      shrink the focal length, so the projection's horizontal scale is the
      kernels' zoomed focal length over the unzoomed box. */
  lemma CameraZoomMatchesKernelZoom(k: Intrinsics, imageWidth: real, imageHeight: real, relAspect: real,
                                    zoomForDistortionFactor: real, near: real, far: real)
    requires imageWidth > 0.0 && imageHeight > 0.0 && relAspect > 0.0 && zoomForDistortionFactor > 0.0
    requires near != far
    ensures var z := zoomForDistortionFactor;
            var zoomed := CropBoxOf(imageWidth, imageHeight, relAspect, 1.0 / z);
            var plain := CropBoxOf(imageWidth, imageHeight, relAspect, 1.0);
            ProjectionOf(k, zoomed, near, far).r0.x == ProjectionOf(k.(fx := k.fx * z), plain, near, far).r0.x
  {
    var z := zoomForDistortionFactor;
    var zoomed := CropBoxOf(imageWidth, imageHeight, relAspect, 1.0 / z);
    var plain := CropBoxOf(imageWidth, imageHeight, relAspect, 1.0);
    ProjectionScale(k, zoomed, near, far);
    ProjectionScale(k.(fx := k.fx * z), plain, near, far);
    var w := Aspect.FactorsOf(relAspect).x * imageWidth;
    assert plain.right - plain.left == w;
    assert zoomed.right - zoomed.left == w / z;
    assert 2.0 * k.fx / (w / z) == 2.0 * (k.fx * z) / w;
  }

  /** A viewport of the image's own shape, unzoomed, shows the whole image. */
  lemma WholeImageBox(imageWidth: real, imageHeight: real, aspect: real)
    requires imageWidth > 0.0 && imageHeight > 0.0 && aspect > 0.0
    requires aspect * imageHeight == imageWidth
    ensures BoxOf(imageWidth, imageHeight, aspect, 1.0) == CropBox(0.0, imageWidth, 0.0, imageHeight)
  {
    assert Aspect.RelAspect(aspect, imageWidth, imageHeight) == 1.0;
    CropBoxUnzoomed(imageWidth, imageHeight);
  }

  /** K = [[1000, 0, 960], [0, 1000, 540], [0, 0, 1]] read from its
      column-major elements. */
  lemma ReferenceIntrinsics(K: Elements3)
    requires K == [1000.0, 0.0, 0.0, 0.0, 1000.0, 0.0, 960.0, 540.0, 1.0]
    ensures IntrinsicsOf(K) == Intrinsics(1000.0, 1000.0, 960.0, 540.0, 0.0)
  {
  }

  // ---------------------------------------------------------------------------
  // Camera state

  /** The state `updateProjectionMatrix` reads and writes. `K` is absent until
      the constructor has stored it. */
  datatype Camera = Camera(
    K: Option<Elements3>,
    imageWidth: real,
    imageHeight: real,
    aspect: real,
    near: real,
    far: real,
    zoom: real,
    projection: Mat4,
    projectionInverse: Mat4)

  /** `updateProjectionMatrix`; `invert` stands for three.js `Matrix4.invert`. */
  function UpdateProjectionMatrix(c: Camera, invert: Mat4 -> Mat4): (c': Camera)
    requires c.K.Some? ==> ViewportValid(c.imageWidth, c.imageHeight, c.aspect, c.near, c.far, c.zoom)
    // without intrinsics nothing changes
    ensures c.K.None? ==> c' == c
    // only the two matrices are ever written
    ensures c' == c.(projection := c'.projection, projectionInverse := c'.projectionInverse)
    ensures c.K.Some? ==> c'.projection == Projection(c.K.value, c.imageWidth, c.imageHeight, c.aspect, c.near, c.far, c.zoom)
    ensures c.K.Some? ==> c'.projectionInverse == invert(c'.projection)
  {
    match c.K
    case None => c
    case Some(K) =>
      var m := Projection(K, c.imageWidth, c.imageHeight, c.aspect, c.near, c.far, c.zoom);
      c.(projection := m, projectionInverse := invert(m))
  }

  /** Recomputing from unchanged inputs changes nothing. */
  lemma UpdateIdempotent(c: Camera, invert: Mat4 -> Mat4)
    requires c.K.Some? ==> ViewportValid(c.imageWidth, c.imageHeight, c.aspect, c.near, c.far, c.zoom)
    ensures UpdateProjectionMatrix(UpdateProjectionMatrix(c, invert), invert) == UpdateProjectionMatrix(c, invert)
  {
  }

  // ---------------------------------------------------------------------------
  // Pose

  /** `R` is a rotation matrix up to orientation: `R^T R = R R^T = I`. */
  predicate Orthonormal(R: Mat3) {
    Mul3(Transpose3(R), R) == Identity3 && Mul3(R, Transpose3(R)) == Identity3
  }

  /** `new Matrix4().setFromMatrix3(R).setPosition(T)`: the homogeneous
      world-to-camera transform. */
  function ExtrinsicMatrix(R: Mat3, T: Vec3): Mat4 {
    Mat4(Vec4(R.r0.x, R.r0.y, R.r0.z, T.x),
         Vec4(R.r1.x, R.r1.y, R.r1.z, T.y),
         Vec4(R.r2.x, R.r2.y, R.r2.z, T.z),
         Vec4(0.0, 0.0, 0.0, 1.0))
  }

  /** Camera orientation (as a matrix) and position in world space. */
  datatype Pose = Pose(orientation: Mat3, position: Vec3)

  function PoseMatrix(p: Pose): Mat4 {
    ExtrinsicMatrix(p.orientation, p.position)
  }

  /** The closed form of the inverted extrinsic matrix for orthonormal `R`. */
  function CameraPose(R: Mat3, T: Vec3): (p: Pose)
    requires Orthonormal(R)
    // the camera sits at the world point that [R | T] sends to the camera origin
    ensures Apply3(R, p.position) == Neg3(T)
  {
    var Rt := Transpose3(R);
    var position := Neg3(Apply3(Rt, T));
    assert Apply3(R, Apply3(Rt, T)) == T by {
      ApplyMul3(R, Rt, T);
      Apply3Identity(T);
    }
    Apply3Neg(R, Apply3(Rt, T));
    Pose(Rt, position)
  }

  /** Composing two rigid transforms composes their rotations and carries the
      second translation through the first rotation. */
  lemma ExtrinsicCompose(A: Mat3, a: Vec3, B: Mat3, b: Vec3)
    ensures Mul4(ExtrinsicMatrix(A, a), ExtrinsicMatrix(B, b))
         == ExtrinsicMatrix(Mul3(A, B), Add3(Apply3(A, b), a))
  {
    ExtrinsicRow(A.r0, a.x, B, b);
    ExtrinsicRow(A.r1, a.y, B, b);
    ExtrinsicRow(A.r2, a.z, B, b);
  }

  /** One row `(v, t)` of an extrinsic matrix times another one. */
  lemma ExtrinsicRow(v: Vec3, t: real, B: Mat3, b: Vec3)
    ensures var r := RowTimes3(v, B);
            RowTimes4(Vec4(v.x, v.y, v.z, t), ExtrinsicMatrix(B, b)) == Vec4(r.x, r.y, r.z, Dot3(v, b) + t)
  {
  }

  lemma ExtrinsicIdentity()
    ensures ExtrinsicMatrix(Identity3, Vec3(0.0, 0.0, 0.0)) == Identity4
  {
  }

  /** The pose matrix is a two-sided inverse of `[R | T]`. */
  lemma PoseInvertsExtrinsic(R: Mat3, T: Vec3)
    requires Orthonormal(R)
    ensures Mul4(PoseMatrix(CameraPose(R, T)), ExtrinsicMatrix(R, T)) == Identity4
    ensures Mul4(ExtrinsicMatrix(R, T), PoseMatrix(CameraPose(R, T))) == Identity4
  {
    var p := CameraPose(R, T);
    var Rt := Transpose3(R);
    ExtrinsicIdentity();
    ExtrinsicCompose(Rt, p.position, R, T);
    assert Add3(Apply3(Rt, T), p.position) == Vec3(0.0, 0.0, 0.0);
    ExtrinsicCompose(R, T, Rt, p.position);
    assert Add3(Apply3(R, p.position), T) == Vec3(0.0, 0.0, 0.0);
  }

  /** Whatever general inverse the library computes, for orthonormal `R` it is
      the closed-form pose matrix, since inverses are unique. */
  lemma PoseIsTheInverse(R: Mat3, T: Vec3, inverse: Mat4)
    requires Orthonormal(R)
    requires Mul4(inverse, ExtrinsicMatrix(R, T)) == Identity4
    ensures inverse == PoseMatrix(CameraPose(R, T))
    ensures inverse.r0.w == -Dot3(Vec3(R.r0.x, R.r1.x, R.r2.x), T)
  {
    PoseInvertsExtrinsic(R, T);
    InverseUnique(ExtrinsicMatrix(R, T), inverse, PoseMatrix(CameraPose(R, T)));
  }
}
