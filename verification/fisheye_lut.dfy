/** The fisheye lookup-table generator.

    The fisheye pass does not distort per pixel on the GPU. Instead a
    512 x 512 RGBA table is filled once: the generator scans a grid of
    undistorted sample points that extends 0.3 beyond the image on every
    side, pushes each through the fisheye model (unproject with the zoomed
    intrinsic matrix, bend the ray angle with the four coefficients,
    reproject with the original intrinsics) and writes the sample's own
    texture coordinate into the table cell nearest to where it landed. The
    red and green channels hold that coordinate; blue and alpha stay zero,
    and a cell no sample reaches keeps `(0, 0)`, which the pass reads as
    "nothing here". When several samples land in one cell the last one in
    scan order wins.

    `Math.sqrt` and `Math.atan` are parameters (`MathFunctions`): nothing
    below depends on their values except where a lemma says so. */
module FisheyeLut {

  import opened Wrappers
  import opened LinAlg
  import opened Reals
  import Aspect

  /** `resolutionOfLUT`: the table is `Resolution` cells on a side. */
  const Resolution: nat := 512

  /** Four channels per cell. */
  const LutLength: nat := Resolution * Resolution * 4

  /** `sampleDomainExtension`: how far beyond the unit square the scan goes. */
  const DomainExtension: real := 0.3

  /** `sampleStep`: four samples per table cell along each axis. */
  const SampleStep: real := 1.0 / (Resolution * 4) as real

  /** The number of values the scan takes along each axis (see `SampleRange`). */
  const SamplesPerAxis: nat := 3277

  const SampleCount: nat := SamplesPerAxis * SamplesPerAxis

  datatype FisheyeCoefficients = FisheyeCoefficients(k1: real, k2: real, k3: real, k4: real)

  const NoCoefficients: FisheyeCoefficients := FisheyeCoefficients(0.0, 0.0, 0.0, 0.0)

  /** The two library functions the distortion calls. */
  datatype MathFunctions = MathFunctions(sqrt: real -> real, atan: real -> real)

  /** Everything `computeFisheyeLUT` is given. `intrinsicMatrix` is the
      column-major `elements` array of the calibration matrix `K`. */
  datatype Setup = Setup(
    math: MathFunctions,
    intrinsicMatrix: Elements3,
    coefficients: FisheyeCoefficients,
    imageWidth: real,
    imageHeight: real,
    zoomForDistortionFactor: real)

  // ---------------------------------------------------------------------------
  // Reading the calibration matrix

  /** `elements[0 + 0 * 3]` */
  function Fx(e: Elements3): real { e[0 + 0 * 3] }
  /** `elements[1 + 1 * 3]` */
  function Fy(e: Elements3): real { e[1 + 1 * 3] }
  /** `elements[0 + 2 * 3]` */
  function Cx(e: Elements3): real { e[0 + 2 * 3] }
  /** `elements[1 + 2 * 3]` */
  function Cy(e: Elements3): real { e[1 + 2 * 3] }

  /** The four reads pick the focal lengths off the diagonal of `K` and the
      principal point out of its last column. */
  lemma ReadsIntrinsics(e: Elements3)
    ensures var k := FromElements(e);
            && Fx(e) == At3(k, 0, 0) && Fy(e) == At3(k, 1, 1)
            && Cx(e) == At3(k, 0, 2) && Cy(e) == At3(k, 1, 2)
  {
    var k := FromElements(e);
    assert At3(k, 0, 0) == e[0] && At3(k, 1, 1) == e[4];
    assert At3(k, 0, 2) == e[6] && At3(k, 1, 2) == e[7];
  }

  // ---------------------------------------------------------------------------
  // The zoomed intrinsic matrix and its inverse

  /** Upper triangular with last row `(0, 0, 1)` and no skew: the shape of
      every matrix the generator builds. */
  predicate PinholeShape(a: Mat3) {
    a.r0.y == 0.0 && a.r1.x == 0.0 && a.r2 == Vec3(0.0, 0.0, 1.0)
  }

  /** `newIntrinsicMatrix`: focal lengths scaled by the zoom factor, the
      principal point moved towards the image centre by the same factor.
      The skew and the last row of `K` are not read. */
  function AdjustedIntrinsics(e: Elements3, zoom: real, width: real, height: real): (a: Mat3)
    ensures PinholeShape(a)
  {
    Mat3(Vec3(Fx(e) * zoom, 0.0, Cx(e) + Aspect.CentreShift(width, Cx(e), zoom)),
         Vec3(0.0, Fy(e) * zoom, Cy(e) + Aspect.CentreShift(height, Cy(e), zoom)),
         Vec3(0.0, 0.0, 1.0))
  }

  /** The adjusted principal point is `K`'s scaled towards the centre. */
  lemma AdjustedScalesAboutCentre(e: Elements3, zoom: real, width: real, height: real)
    ensures var a := AdjustedIntrinsics(e, zoom, width, height);
            && a.r0.z - width / 2.0 == zoom * (Cx(e) - width / 2.0)
            && a.r1.z - height / 2.0 == zoom * (Cy(e) - height / 2.0)
            && a.r0.x == zoom * Fx(e) && a.r1.y == zoom * Fy(e)
  {
    Aspect.CentreShiftScalesAboutCentre(width, Cx(e), zoom);
    Aspect.CentreShiftScalesAboutCentre(height, Cy(e), zoom);
  }

  /** At zoom one the adjusted matrix is `K` itself exactly when `K` already
      has the pinhole shape. */
  lemma AdjustedAtUnitZoom(e: Elements3, width: real, height: real)
    ensures AdjustedIntrinsics(e, 1.0, width, height) == FromElements(e)
            <==> PinholeShape(FromElements(e))
  {
    Aspect.CentreShiftScalesAboutCentre(width, Cx(e), 1.0);
    Aspect.CentreShiftScalesAboutCentre(height, Cy(e), 1.0);
  }

  /** `.flat()` of the nested rows. */
  function RowMajor(a: Mat3): (e: Elements3)
    ensures forall row: nat, col: nat {:trigger At3(a, row, col)} :: row < 3 && col < 3 ==> e[row * 3 + col] == At3(a, row, col)
  {
    [a.r0.x, a.r0.y, a.r0.z, a.r1.x, a.r1.y, a.r1.z, a.r2.x, a.r2.y, a.r2.z]
  }

  /** `fromArray` reads the row-major list as columns, and `transpose`
      undoes that: the matrix inverted is the one written down. */
  lemma RowMajorReadBack(a: Mat3)
    ensures Transpose3(FromElements(RowMajor(a))) == a
  {
  }

  function Determinant3(m: Mat3): real {
    m.r0.x * (m.r1.y * m.r2.z - m.r1.z * m.r2.y)
    - m.r0.y * (m.r1.x * m.r2.z - m.r1.z * m.r2.x)
    + m.r0.z * (m.r1.x * m.r2.y - m.r1.y * m.r2.x)
  }

  lemma PinholeDeterminant(a: Mat3)
    requires PinholeShape(a)
    ensures Determinant3(a) == a.r0.x * a.r1.y
    ensures Determinant3(a) == 0.0 <==> a.r0.x == 0.0 || a.r1.y == 0.0
  {
  }

  const Zero3: Mat3 := Mat3(Vec3(0.0, 0.0, 0.0), Vec3(0.0, 0.0, 0.0), Vec3(0.0, 0.0, 0.0))

  /** `Matrix3.invert` on a pinhole-shaped matrix: the zero matrix when the
      determinant is zero, the inverse otherwise. */
  function InvertPinhole(a: Mat3): (inv: Mat3)
    requires PinholeShape(a)
  {
    if Determinant3(a) == 0.0 then Zero3
    else
      Mat3(Vec3(1.0 / a.r0.x, 0.0, -a.r0.z / a.r0.x),
           Vec3(0.0, 1.0 / a.r1.y, -a.r1.z / a.r1.y),
           Vec3(0.0, 0.0, 1.0))
  }

  /** The result is a two-sided inverse whenever one exists. */
  lemma InvertPinholeIsInverse(a: Mat3)
    requires PinholeShape(a) && Determinant3(a) != 0.0
    ensures Mul3(a, InvertPinhole(a)) == Identity3
    ensures Mul3(InvertPinhole(a), a) == Identity3
  {
    PinholeDeterminant(a);
    DivSelf(a.r0.x);
    DivSelf(a.r1.y);
    assert a.r0.x * (-a.r0.z / a.r0.x) + a.r0.z == 0.0;
    assert a.r1.y * (-a.r1.z / a.r1.y) + a.r1.z == 0.0;
  }

  /** A singular matrix inverts to zero. */
  lemma InvertPinholeSingular(a: Mat3)
    requires PinholeShape(a) && Determinant3(a) == 0.0
    ensures InvertPinhole(a) == Zero3
    ensures a.r0.x == 0.0 || a.r1.y == 0.0
  {
    PinholeDeterminant(a);
  }

  /** `computeIntrinsicMatrixInverseWithZoomForDistortion`: build, flatten,
      read back, transpose and invert. */
  function AdjustedInverse(e: Elements3, zoom: real, width: real, height: real): Mat3 {
    var a := Transpose3(FromElements(RowMajor(AdjustedIntrinsics(e, zoom, width, height))));
    RowMajorReadBack(AdjustedIntrinsics(e, zoom, width, height));
    InvertPinhole(a)
  }

  /** The zoomed matrix is invertible exactly when neither scaled focal
      length vanishes. */
  predicate Invertible(e: Elements3, zoom: real) {
    Fx(e) * zoom != 0.0 && Fy(e) * zoom != 0.0
  }

  lemma AdjustedInverseCases(e: Elements3, zoom: real, width: real, height: real)
    ensures var a := AdjustedIntrinsics(e, zoom, width, height);
            var inv := AdjustedInverse(e, zoom, width, height);
            && (Invertible(e, zoom) ==> Mul3(a, inv) == Identity3 && Mul3(inv, a) == Identity3)
            && (!Invertible(e, zoom) ==> inv == Zero3)
  {
    var a := AdjustedIntrinsics(e, zoom, width, height);
    RowMajorReadBack(a);
    PinholeDeterminant(a);
    if Invertible(e, zoom) {
      InvertPinholeIsInverse(a);
    } else {
      InvertPinholeSingular(a);
    }
  }

  // ---------------------------------------------------------------------------
  // Distorting one sample

  /** `_x`, `_y`, `_w`: the inverse applied to the pixel whose horizontal
      coordinate is `p.y` and vertical coordinate `p.x`. The source reads
      `elements[1 * 3 + r]` (column one) as the weight of `x` and
      `elements[0 * 3 + r]` (column zero) as the weight of `y`. */
  function Unproject(inv: Mat3, p: Vec2): Vec3 {
    Vec3(p.x * inv.r0.y + p.y * inv.r0.x + inv.r0.z,
         p.x * inv.r1.y + p.y * inv.r1.x + inv.r1.z,
         p.x * inv.r2.y + p.y * inv.r2.x + inv.r2.z)
  }

  /** Unprojecting is applying the inverse to `(p.y, p.x, 1)`. */
  lemma UnprojectIsApply(inv: Mat3, p: Vec2)
    ensures Unproject(inv, p) == Apply3(inv, Vec3(p.y, p.x, 1.0))
  {
  }

  /** `theta_d = theta (1 + k1 theta^2 + k2 theta^4 + k3 theta^6 + k4 theta^8)`. */
  function DistortedAngle(c: FisheyeCoefficients, theta: real): real {
    var theta2 := theta * theta;
    var theta4 := theta2 * theta2;
    var theta6 := theta4 * theta2;
    var theta8 := theta4 * theta4;
    theta * (1.0 + c.k1 * theta2 + c.k2 * theta4 + c.k3 * theta6 + c.k4 * theta8)
  }

  /** Without coefficients the angle is kept. */
  lemma DistortedAngleWithoutCoefficients(theta: real)
    ensures DistortedAngle(NoCoefficients, theta) == theta
  {
  }

  /** The distorted angle is odd in the angle: rays mirrored through the
      axis stay mirrored. */
  lemma DistortedAngleOdd(c: FisheyeCoefficients, theta: real)
    ensures DistortedAngle(c, -theta) == -DistortedAngle(c, theta)
  {
  }

  /** `distortCoordinateFisheye`. A ray with `_w <= 0` points away from the
      camera; the source then returns infinities, which no table cell can
      take, modelled as `None`. */
  function DistortCoordinate(m: MathFunctions, p: Vec2, e: Elements3, c: FisheyeCoefficients, inv: Mat3): (d: Option<Vec2>)
    ensures d.None? <==> Unproject(inv, p).z <= 0.0
  {
    var h := Unproject(inv, p);
    if h.z <= 0.0 then None
    else
      var r := m.sqrt(h.x * h.x + h.y * h.y);
      var scale := if r == 0.0 then 1.0 else DistortedAngle(c, m.atan(r)) / r;
      Some(Vec2(Fx(e) * h.x * scale + Cx(e), Fy(e) * h.y * scale + Cy(e)))
  }

  /** The zoomed inverse undoes the zoomed projection: for an invertible
      setup the unprojected ray reprojects onto the pixel, and every sample
      is in front of the camera; for a singular one every sample is lost. */
  lemma UnprojectInvertsAdjusted(e: Elements3, zoom: real, width: real, height: real, p: Vec2)
    ensures var inv := AdjustedInverse(e, zoom, width, height);
            && (Invertible(e, zoom) ==>
                  Apply3(AdjustedIntrinsics(e, zoom, width, height), Unproject(inv, p)) == Vec3(p.y, p.x, 1.0)
                  && Unproject(inv, p).z == 1.0)
            && (!Invertible(e, zoom) ==> Unproject(inv, p) == Vec3(0.0, 0.0, 0.0))
  {
    var a := AdjustedIntrinsics(e, zoom, width, height);
    var inv := AdjustedInverse(e, zoom, width, height);
    var v := Vec3(p.y, p.x, 1.0);
    AdjustedInverseCases(e, zoom, width, height);
    UnprojectIsApply(inv, p);
    if Invertible(e, zoom) {
      ApplyMul3(a, inv, v);
      Apply3Identity(v);
    }
  }

  /** A sample is distorted exactly when the zoomed matrix is invertible. */
  lemma DistortsExactlyWhenInvertible(m: MathFunctions, p: Vec2, e: Elements3, c: FisheyeCoefficients, zoom: real, width: real, height: real)
    ensures DistortCoordinate(m, p, e, c, AdjustedInverse(e, zoom, width, height)).Some? <==> Invertible(e, zoom)
  {
    UnprojectInvertsAdjusted(e, zoom, width, height, p);
  }

  /** The pixel at the zoomed principal point sits on the optical axis and
      lands on `K`'s principal point, whatever the coefficients, provided
      `sqrt(0) = 0`. */
  lemma PrincipalPointFixed(m: MathFunctions, e: Elements3, c: FisheyeCoefficients, zoom: real, width: real, height: real)
    requires Invertible(e, zoom) && m.sqrt(0.0) == 0.0
    ensures var a := AdjustedIntrinsics(e, zoom, width, height);
            DistortCoordinate(m, Vec2(a.r1.z, a.r0.z), e, c, AdjustedInverse(e, zoom, width, height))
              == Some(Vec2(Cx(e), Cy(e)))
  {
    var a := AdjustedIntrinsics(e, zoom, width, height);
    var inv := AdjustedInverse(e, zoom, width, height);
    var p := Vec2(a.r1.z, a.r0.z);
    UnprojectInvertsAdjusted(e, zoom, width, height, p);
    var h := Unproject(inv, p);
    assert h.z == 1.0;
    assert Apply3(a, h) == Vec3(a.r0.z, a.r1.z, 1.0);
    assert a.r0.x * h.x == 0.0 && a.r1.y * h.y == 0.0;
    assert h.x == 0.0 && h.y == 0.0;
  }

  // ---------------------------------------------------------------------------
  // From a distorted point to a table cell

  /** `Math.round`: the nearest integer, halves rounded up. */
  function Round(v: real): (n: int)
    ensures v - 0.5 < n as real <= v + 0.5
  {
    (v + 0.5).Floor
  }

  datatype Cell = Cell(x: nat, y: nat)

  /** A cell of the table. */
  type LutCell = c: Cell | c.x < Resolution && c.y < Resolution witness Cell(0, 0)

  /** The distorted point's position in cell units: `x` along the table's
      rows, `y` counted from the top of the image. */
  function CellCoordinates(p: Vec2, width: real, height: real): Vec2
    requires width != 0.0 && height != 0.0
  {
    Vec2(p.x / width * (Resolution - 1) as real, (1.0 - p.y / height) * (Resolution - 1) as real)
  }

  /** The cell a distorted point is written to, if any. A zero image
      dimension makes every index a non-finite number, which lands outside
      the table's elements, so nothing is written then either. */
  function CellOf(d: Option<Vec2>, width: real, height: real): Option<LutCell> {
    match d
    case None => None
    case Some(p) =>
      if width == 0.0 || height == 0.0 then None
      else
        var q := CellCoordinates(p, width, height);
        var ix := Round(q.x);
        var iy := Round(q.y);
        if ix < 0 || ix >= Resolution || iy < 0 || iy >= Resolution then None
        else Some(Cell(ix, iy))
  }

  /** A point is kept exactly when its cell coordinates round into the
      table, and then its cell is the nearest one. */
  lemma CellOfNearest(p: Vec2, width: real, height: real)
    requires width != 0.0 && height != 0.0
    ensures var q := CellCoordinates(p, width, height);
            var cell := CellOf(Some(p), width, height);
            && (cell.Some? <==> -0.5 <= q.x < Resolution as real - 0.5 && -0.5 <= q.y < Resolution as real - 0.5)
            && (cell.Some? ==> q.x - 0.5 < cell.value.x as real <= q.x + 0.5
                               && q.y - 0.5 < cell.value.y as real <= q.y + 0.5)
  {
  }

  /** `distortionLUTIndexY * resolutionOfLUT * 4 + distortionLUTIndexX * 4`:
      where a cell's red channel lives. */
  function CellIndex(c: LutCell): (i: nat)
    ensures i + 3 < LutLength && i % 4 == 0
  {
    c.y * Resolution * 4 + c.x * 4
  }

  /** Different cells never share a channel. */
  lemma CellIndexInjective(a: LutCell, b: LutCell)
    ensures CellIndex(a) == CellIndex(b) <==> a == b
  {
  }

  // ---------------------------------------------------------------------------
  // The scan

  /** The `n`-th value of the loop counter `i` (or `j`): `-0.3 + n / 2048`. */
  function SampleCoordinate(n: nat): real {
    -DomainExtension + n as real * SampleStep
  }

  /** The loop runs while the counter is below `1.3`: exactly
      `SamplesPerAxis` values. */
  lemma SampleRange(n: nat)
    ensures SampleCoordinate(n) < 1.0 + DomainExtension <==> n < SamplesPerAxis
  {
  }

  /** No counter value is exactly zero (`0.3 * 2048` is not whole), so a
      written texel never looks like an empty cell. */
  lemma SampleCoordinateNonzero(n: nat)
    ensures SampleCoordinate(n) != 0.0
  {
  }

  /** `undistortedCoordinate` for outer counter `i` and inner counter `j`:
      the pixel `i * imageHeight` down and `j * imageWidth` across. */
  function SamplePixel(s: Setup, n: nat, m: nat): Vec2 {
    Vec2(SampleCoordinate(n) * s.imageHeight, SampleCoordinate(m) * s.imageWidth)
  }

  /** `(u, v) = (j, 1 - i)`: what the sample writes into its cell. */
  function Texel(n: nat, m: nat): Vec2 {
    Vec2(SampleCoordinate(m), 1.0 - SampleCoordinate(n))
  }

  /** Sample number `k` of the scan has outer counter `k / SamplesPerAxis`
      and inner counter `k % SamplesPerAxis`. */
  function Outer(k: nat): nat { k / SamplesPerAxis }
  function Inner(k: nat): nat { k % SamplesPerAxis }

  lemma ScanOrder(n: nat, m: nat)
    requires m < SamplesPerAxis
    ensures Outer(n * SamplesPerAxis + m) == n && Inner(n * SamplesPerAxis + m) == m
  {
  }

  function TexelOf(k: nat): Vec2 {
    Texel(Outer(k), Inner(k))
  }

  /** The cell the `(n, m)`-th sample is written to, if any. */
  function SampleCell(s: Setup, n: nat, m: nat): Option<LutCell> {
    var inv := AdjustedInverse(s.intrinsicMatrix, s.zoomForDistortionFactor, s.imageWidth, s.imageHeight);
    var d := DistortCoordinate(s.math, SamplePixel(s, n, m), s.intrinsicMatrix, s.coefficients, inv);
    CellOf(d, s.imageWidth, s.imageHeight)
  }

  /** The cells of the whole scan, by sample number. */
  function CellsOf(s: Setup): nat -> Option<LutCell> {
    (k: nat) => SampleCell(s, Outer(k), Inner(k))
  }

  /** `Array.from({ length }, () => 0)`. */
  function Blank(): (lut: seq<real>)
    ensures |lut| == LutLength
    ensures forall i :: 0 <= i < LutLength ==> lut[i] == 0.0
  {
    seq(LutLength, _ => 0.0)
  }

  /** The first two channels of a cell. */
  function ValueAt(lut: seq<real>, c: LutCell): Vec2
    requires |lut| == LutLength
  {
    Vec2(lut[CellIndex(c)], lut[CellIndex(c) + 1])
  }

  /** Writes `u` and `v` into a cell's first two channels. */
  function Store(lut: seq<real>, c: LutCell, t: Vec2): (r: seq<real>)
    requires |lut| == LutLength
    ensures |r| == LutLength
    ensures ValueAt(r, c) == t
    ensures forall i :: 0 <= i < LutLength && i != CellIndex(c) && i != CellIndex(c) + 1 ==> r[i] == lut[i]
  {
    lut[CellIndex(c) := t.x][CellIndex(c) + 1 := t.y]
  }

  /** Storing into one cell leaves every other cell's value alone. */
  lemma ValueAfterStore(lut: seq<real>, d: LutCell, t: Vec2, c: LutCell)
    requires |lut| == LutLength
    ensures ValueAt(Store(lut, d, t), c) == if c == d then t else ValueAt(lut, c)
  {
    CellIndexInjective(c, d);
  }

  /** The table after the first `k` samples of the scan: each sample with a
      cell overwrites that cell with its texel. */
  function Scan(cells: nat -> Option<LutCell>, k: nat): (lut: seq<real>)
    ensures |lut| == LutLength
  {
    if k == 0 then Blank()
    else Step(Scan(cells, k - 1), cells(k - 1), TexelOf(k - 1))
  }

  /** One sample of the scan: skipped without a cell, stored otherwise. */
  function Step(lut: seq<real>, cell: Option<LutCell>, t: Vec2): (r: seq<real>)
    requires |lut| == LutLength
    ensures |r| == LutLength
  {
    match cell
    case None => lut
    case Some(c) => Store(lut, c, t)
  }

  /** `computeFisheyeLUT`, as the flat channel array handed to the texture. */
  function FisheyeLut(s: Setup): seq<real> {
    Scan(CellsOf(s), SampleCount)
  }

  // ---------------------------------------------------------------------------
  // What the table holds

  /** A step writes neither blue nor alpha. */
  lemma StepKeepsBlueAndAlpha(lut: seq<real>, cell: Option<LutCell>, t: Vec2, i: nat)
    requires |lut| == LutLength && i < LutLength && i % 4 >= 2
    ensures Step(lut, cell, t)[i] == lut[i]
  {
    if cell.Some? {
      var b := CellIndex(cell.value);
      assert i != b && i != b + 1 by {
        assert b % 4 == 0 && (b + 1) % 4 == 1;
      }
    }
  }

  /** Blue and alpha stay zero. */
  lemma {:induction false} ScanKeepsBlueAndAlpha(cells: nat -> Option<LutCell>, k: nat, i: nat)
    requires i < LutLength && i % 4 >= 2
    ensures Scan(cells, k)[i] == 0.0
  {
    if k > 0 {
      ScanKeepsBlueAndAlpha(cells, k - 1, i);
      StepKeepsBlueAndAlpha(Scan(cells, k - 1), cells(k - 1), TexelOf(k - 1), i);
    }
  }

  /** A cell holds `(0, 0)` exactly when no sample so far was written to
      it. */
  lemma {:induction false} ScanEmptyExactlyWhenUnwritten(cells: nat -> Option<LutCell>, k: nat, c: LutCell)
    ensures ValueAt(Scan(cells, k), c) == Vec2(0.0, 0.0)
            <==> forall j :: 0 <= j < k ==> cells(j) != Some(c)
  {
    if k > 0 {
      ScanEmptyExactlyWhenUnwritten(cells, k - 1, c);
      match cells(k - 1)
      case None =>
      case Some(d) =>
        ValueAfterStore(Scan(cells, k - 1), d, TexelOf(k - 1), c);
        SampleCoordinateNonzero(Inner(k - 1));
    }
  }

  /** A written cell holds the texel of the last sample written to it. */
  lemma {:induction false} ScanLastWriterWins(cells: nat -> Option<LutCell>, k: nat, j: nat, c: LutCell)
    requires j < k && cells(j) == Some(c)
    requires forall l :: j < l < k ==> cells(l) != Some(c)
    ensures ValueAt(Scan(cells, k), c) == TexelOf(j)
  {
    if k - 1 == j {
      ValueAfterStore(Scan(cells, k - 1), c, TexelOf(j), c);
    } else {
      ScanLastWriterWins(cells, k - 1, j, c);
      match cells(k - 1)
      case None =>
      case Some(d) =>
        ValueAfterStore(Scan(cells, k - 1), d, TexelOf(k - 1), c);
    }
  }

  /** Without a single hit the table stays blank. */
  lemma {:induction false} ScanWithoutHits(cells: nat -> Option<LutCell>, k: nat)
    requires forall j :: 0 <= j < k ==> cells(j).None?
    ensures Scan(cells, k) == Blank()
  {
    if k > 0 {
      ScanWithoutHits(cells, k - 1);
    }
  }

  /** A singular zoomed matrix, or a zero image dimension, leaves the whole
      table blank. */
  lemma DegenerateSetupGivesBlankLut(s: Setup)
    requires !Invertible(s.intrinsicMatrix, s.zoomForDistortionFactor) || s.imageWidth == 0.0 || s.imageHeight == 0.0
    ensures FisheyeLut(s) == Blank()
  {
    forall j: nat | j < SampleCount
      ensures CellsOf(s)(j).None?
    {
      var e := s.intrinsicMatrix;
      var z := s.zoomForDistortionFactor;
      DistortsExactlyWhenInvertible(s.math, SamplePixel(s, Outer(j), Inner(j)), e, s.coefficients, z, s.imageWidth, s.imageHeight);
    }
    ScanWithoutHits(CellsOf(s), SampleCount);
  }

  /** The generator's two nested loops, `i` outer and `j` inner, over the
      cells of the samples. */
  method ScanGrid(cells: nat -> Option<LutCell>) returns (lut: seq<real>)
    ensures |lut| == LutLength
    ensures lut == Scan(cells, SampleCount)
  {
    lut := Blank();
    var i := 0;
    while i < SamplesPerAxis
      invariant 0 <= i <= SamplesPerAxis
      invariant lut == Scan(cells, i * SamplesPerAxis)
    {
      var j := 0;
      while j < SamplesPerAxis
        invariant 0 <= j <= SamplesPerAxis
        invariant lut == Scan(cells, i * SamplesPerAxis + j)
      {
        var k := i * SamplesPerAxis + j;
        lut := Step(lut, cells(k), TexelOf(k));
        j := j + 1;
      }
      i := i + 1;
    }
  }

  /** `computeFisheyeLUT`: the scan over the setup's samples. */
  method ComputeFisheyeLut(s: Setup) returns (lut: seq<real>)
    ensures |lut| == LutLength
    ensures lut == FisheyeLut(s)
  {
    lut := ScanGrid(CellsOf(s));
  }
}
