/** The fisheye post-processing node: the per-pixel half of the fisheye pass.

    For each fragment the node compensates the texture coordinate for the
    aspect ratios, flips it vertically, and reads the lookup table there.
    Near the border of the table, or where the table holds its empty value
    `(0, 0)`, it shows a translucent black; otherwise it maps the value it
    read back through the compensation, flips it again and samples the
    input image there. An older copy of the same node (`LegacyFragment`)
    does the same without either flip.

    The table read is a parameter `lookup`: the first two channels of the
    table texture at a texture coordinate. */
module FisheyeNode {

  import opened Wrappers
  import opened LinAlg
  import Aspect
  import FisheyeLut

  /** `threshold`: how close to the table's border a coordinate may come. */
  const Threshold: real := 0.001

  /** The value of an empty cell. */
  const Empty: Vec2 := Vec2(0.0, 0.0)

  /** What a fragment shows: `Blank` is `vec4(0, 0, 0, 0.4)`, `Sampled(at)`
      the input image sampled at texture coordinate `at`. */
  datatype Output = Blank | Sampled(at: Vec2)

  /** `1 - y`. */
  function FlipY(v: Vec2): Vec2 {
    Vec2(v.x, 1.0 - v.y)
  }

  function FlipOutput(o: Output): Output {
    match o
    case Blank => Blank
    case Sampled(at) => Sampled(FlipY(at))
  }

  /** Within `Threshold` of an edge of the unit square, edges included. */
  predicate NearEdge(a: Vec2) {
    a.x <= 0.0 + Threshold || a.x >= 1.0 - Threshold || a.y <= 0.0 + Threshold || a.y >= 1.0 - Threshold
  }

  /** Where the node reads the table for texture coordinate `uv`. */
  function LookupCoordinate(relAspect: real, uv: Vec2): Vec2
    requires relAspect > 0.0
  {
    FlipY(Aspect.Compensate(relAspect, uv))
  }

  /** The node's fragment. */
  function Fragment(relAspect: real, lookup: Vec2 -> Vec2, uv: Vec2): Output
    requires relAspect > 0.0
  {
    var a := LookupCoordinate(relAspect, uv);
    var out := lookup(a);
    if NearEdge(a) then Blank
    else if out == Empty then Blank
    else Sampled(FlipY(Aspect.Uncompensate(relAspect, out)))
  }

  /** The older copy of the node, without the two flips. */
  function LegacyFragment(relAspect: real, lookup: Vec2 -> Vec2, uv: Vec2): Output
    requires relAspect > 0.0
  {
    var a := Aspect.Compensate(relAspect, uv);
    var out := lookup(a);
    if NearEdge(a) then Blank
    else if out == Empty then Blank
    else Sampled(Aspect.Uncompensate(relAspect, out))
  }

  // ---------------------------------------------------------------------------
  // Properties

  lemma FlipYInvolution(v: Vec2)
    ensures FlipY(FlipY(v)) == v
  {
  }

  /** Flipping commutes with both directions of the compensation. */
  lemma CompensationCommutesWithFlip(relAspect: real, uv: Vec2)
    requires relAspect > 0.0
    ensures Aspect.Compensate(relAspect, FlipY(uv)) == FlipY(Aspect.Compensate(relAspect, uv))
    ensures Aspect.Uncompensate(relAspect, FlipY(uv)) == FlipY(Aspect.Uncompensate(relAspect, uv))
  {
    var f := Aspect.FactorsOf(relAspect);
    Aspect.ForwardCommutesWithFlip(uv.y, f.y);
    var o := Aspect.Offset(f.y, 1.0);
    assert 1.0 - o == f.y + o;
    calc {
      Aspect.Inverse(1.0 - uv.y, f.y, o);
      (1.0 - uv.y - o) / f.y;
      (f.y - (uv.y - o)) / f.y;
      1.0 - (uv.y - o) / f.y;
    }
  }

  /** The node shows, upside down, what the older copy shows for the
      mirrored fragment: the two flips turn the older node upside down and
      change nothing else. */
  lemma NodeIsFlippedLegacy(relAspect: real, lookup: Vec2 -> Vec2, uv: Vec2)
    requires relAspect > 0.0
    ensures Fragment(relAspect, lookup, uv) == FlipOutput(LegacyFragment(relAspect, lookup, FlipY(uv)))
  {
    CompensationCommutesWithFlip(relAspect, uv);
    var out := lookup(LookupCoordinate(relAspect, uv));
    CompensationCommutesWithFlip(relAspect, out);
    FlipYInvolution(Aspect.Uncompensate(relAspect, out));
  }

  /** A fragment is drawn from the image exactly when its table coordinate
      stays clear of the border and the table is not empty there; the
      coordinate sampled then, compensated and flipped, is the value read. */
  lemma FragmentCases(relAspect: real, lookup: Vec2 -> Vec2, uv: Vec2)
    requires relAspect > 0.0
    ensures var a := LookupCoordinate(relAspect, uv);
            && (Fragment(relAspect, lookup, uv).Sampled? <==> !NearEdge(a) && lookup(a) != Empty)
            && (Fragment(relAspect, lookup, uv).Sampled? ==>
                  FlipY(Aspect.Compensate(relAspect, Fragment(relAspect, lookup, uv).at)) == lookup(a))
  {
    var a := LookupCoordinate(relAspect, uv);
    var out := lookup(a);
    if Fragment(relAspect, lookup, uv).Sampled? {
      var b := Aspect.Uncompensate(relAspect, out);
      CompensationCommutesWithFlip(relAspect, b);
      Aspect.CompensationRoundTrip(relAspect, out);
      FlipYInvolution(out);
    }
  }

  /** The older copy draws from the image exactly when its compensated
      coordinate stays clear of the border and the table is not empty there;
      compensating the coordinate it samples gives back the value read. */
  lemma LegacyFragmentCases(relAspect: real, lookup: Vec2 -> Vec2, uv: Vec2)
    requires relAspect > 0.0
    ensures var a := Aspect.Compensate(relAspect, uv);
            && (LegacyFragment(relAspect, lookup, uv).Sampled? <==> !NearEdge(a) && lookup(a) != Empty)
            && (LegacyFragment(relAspect, lookup, uv).Sampled? ==>
                  Aspect.Compensate(relAspect, LegacyFragment(relAspect, lookup, uv).at) == lookup(a))
  {
    var a := Aspect.Compensate(relAspect, uv);
    Aspect.CompensationRoundTrip(relAspect, lookup(a));
  }

  /** With matching aspect ratios the node samples the value read with its
      second coordinate flipped. */
  lemma FragmentAtUnitAspect(lookup: Vec2 -> Vec2, uv: Vec2)
    requires !NearEdge(FlipY(uv)) && lookup(FlipY(uv)) != Empty
    ensures Fragment(1.0, lookup, uv) == Sampled(FlipY(lookup(FlipY(uv))))
  {
    Aspect.CompensationAtUnitAspect(uv);
    Aspect.CompensationAtUnitAspect(lookup(FlipY(uv)));
  }

  // ---------------------------------------------------------------------------
  // The node reading the generated table

  /** Where the lookup reads the generated table at cell `c` written last
      by sample `k`, the node samples the image at that sample's texture
      coordinate mapped back through the compensation; with matching aspect
      ratios, at the sample's own counters `(j, i)`. */
  lemma NodeShowsLastSample(s: FisheyeLut.Setup, relAspect: real, lookup: Vec2 -> Vec2, uv: Vec2, c: FisheyeLut.LutCell, k: nat)
    requires relAspect > 0.0
    requires !NearEdge(LookupCoordinate(relAspect, uv))
    requires lookup(LookupCoordinate(relAspect, uv)) == FisheyeLut.ValueAt(FisheyeLut.FisheyeLut(s), c)
    requires k < FisheyeLut.SampleCount && FisheyeLut.CellsOf(s)(k) == Some(c)
    requires forall l :: k < l < FisheyeLut.SampleCount ==> FisheyeLut.CellsOf(s)(l) != Some(c)
    ensures Fragment(relAspect, lookup, uv) == Sampled(FlipY(Aspect.Uncompensate(relAspect, FisheyeLut.TexelOf(k))))
    ensures relAspect == 1.0 ==>
              Fragment(relAspect, lookup, uv)
                == Sampled(Vec2(FisheyeLut.SampleCoordinate(FisheyeLut.Inner(k)), FisheyeLut.SampleCoordinate(FisheyeLut.Outer(k))))
  {
    FisheyeLut.ScanLastWriterWins(FisheyeLut.CellsOf(s), FisheyeLut.SampleCount, k, c);
    FisheyeLut.SampleCoordinateNonzero(FisheyeLut.Inner(k));
    Aspect.CompensationAtUnitAspect(FisheyeLut.TexelOf(k));
  }

  /** Where the lookup reads a cell no sample reached, the node is blank. */
  lemma NodeBlankWhereUnreached(s: FisheyeLut.Setup, relAspect: real, lookup: Vec2 -> Vec2, uv: Vec2, c: FisheyeLut.LutCell)
    requires relAspect > 0.0
    requires lookup(LookupCoordinate(relAspect, uv)) == FisheyeLut.ValueAt(FisheyeLut.FisheyeLut(s), c)
    requires forall l :: 0 <= l < FisheyeLut.SampleCount ==> FisheyeLut.CellsOf(s)(l) != Some(c)
    ensures Fragment(relAspect, lookup, uv) == Blank
  {
    FisheyeLut.ScanEmptyExactlyWhenUnwritten(FisheyeLut.CellsOf(s), FisheyeLut.SampleCount, c);
  }
}
