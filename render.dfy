/**
 * What `generate_render_frames` decides before rasterising: no frames for a
 * file that does not load or a scene without vertices; otherwise the
 * bounding-box centre, the largest extent (a zero extent becomes 1), the
 * scale factor, the decimated face list, and one frame per turn step.
 * Drawing the wireframe itself is not modelled: a frame records what it
 * would be drawn from.
 */
module Render {
  import opened Wrappers
  import opened Matrices
  import opened Transform
  import opened Scene
  import opened BakeSpec
  import opened Baker
  import opened Decimation

  datatype Axis = X | Y | Z

  function Coord(p: Point, a: Axis): real
  {
    match a
    case X => p.x
    case Y => p.y
    case Z => p.z
  }

  /** `np.min(all_vertices, axis=0)`, one axis. */
  function MinCoord(vs: seq<Point>, a: Axis): (m: real)
    requires vs != []
    ensures forall i :: 0 <= i < |vs| ==> m <= Coord(vs[i], a)
    ensures exists i :: 0 <= i < |vs| && m == Coord(vs[i], a)
    decreases |vs|
  {
    if |vs| == 1 then Coord(vs[0], a)
    else
      var rest := MinCoord(vs[1..], a);
      assert forall i :: 1 <= i < |vs| ==> vs[i] == vs[1..][i - 1];
      if Coord(vs[0], a) <= rest then Coord(vs[0], a) else rest
  }

  /** `np.max(all_vertices, axis=0)`, one axis. */
  function MaxCoord(vs: seq<Point>, a: Axis): (m: real)
    requires vs != []
    ensures forall i :: 0 <= i < |vs| ==> Coord(vs[i], a) <= m
    ensures exists i :: 0 <= i < |vs| && m == Coord(vs[i], a)
    decreases |vs|
  {
    if |vs| == 1 then Coord(vs[0], a)
    else
      var rest := MaxCoord(vs[1..], a);
      assert forall i :: 1 <= i < |vs| ==> vs[i] == vs[1..][i - 1];
      if Coord(vs[0], a) >= rest then Coord(vs[0], a) else rest
  }

  /** `max_vals - min_vals` on one axis. */
  function Extent(vs: seq<Point>, a: Axis): (e: real)
    requires vs != []
    ensures e >= 0.0
  {
    MaxCoord(vs, a) - MinCoord(vs, a)
  }

  /** `(min_vals + max_vals) / 2` */
  function Center(vs: seq<Point>): Point
    requires vs != []
  {
    Point((MinCoord(vs, X) + MaxCoord(vs, X)) / 2.0,
          (MinCoord(vs, Y) + MaxCoord(vs, Y)) / 2.0,
          (MinCoord(vs, Z) + MaxCoord(vs, Z)) / 2.0)
  }

  function Max3(a: real, b: real, c: real): real
  {
    if a >= b && a >= c then a else if b >= c then b else c
  }

  /**
   * `max_dim`: the largest extent, replaced by 1 when it is 0, so the scale
   * factor never divides by zero.
   */
  function MaxDim(vs: seq<Point>): (d: real)
    requires vs != []
    ensures d > 0.0
    ensures d >= Extent(vs, X) && d >= Extent(vs, Y) && d >= Extent(vs, Z)
    ensures Extent(vs, X) == 0.0 && Extent(vs, Y) == 0.0 && Extent(vs, Z) == 0.0 ==> d == 1.0
    ensures Extent(vs, X) > 0.0 || Extent(vs, Y) > 0.0 || Extent(vs, Z) > 0.0 ==>
      d == Extent(vs, X) || d == Extent(vs, Y) || d == Extent(vs, Z)
  {
    var e := Max3(Extent(vs, X), Extent(vs, Y), Extent(vs, Z));
    if e == 0.0 then 1.0 else e
  }

  /** `(size - size * 0.2) / max_dim` */
  function ScaleFactor(vs: seq<Point>, size: int): real
    requires vs != []
  {
    (size as real - size as real * 0.2) / MaxDim(vs)
  }

  /** What frame `i` of `framesCount` is drawn from. */
  datatype Frame = Frame(turn: real, center: Point, scale: real, faces: seq<seq<int>>)

  function FrameAt(b: Baked, size: int, framesCount: int, i: nat): Frame
    requires b.vertices != [] && framesCount > 0
  {
    Frame(i as real / framesCount as real, Center(b.vertices), ScaleFactor(b.vertices, size),
          OptimizedFaces(b.faces))
  }

  /**
   * Why `generate_render_frames` raises: the bake fails, `np.zeros` rejects
   * a negative image size, or OpenCV rejects the empty image of size 0.
   */
  datatype RenderError = BakeFailed(cause: BakeError) | NegativeSize | EmptyImage

  /**
   * The frames for a baked scene. The image of the first frame is where a
   * size that is not positive raises, so it raises only when some frame is
   * drawn.
   */
  function RenderFrames(b: Baked, size: int, framesCount: int): Result<seq<Frame>, RenderError>
  {
    if b.vertices == [] || framesCount <= 0 then Ok([])
    else if size < 0 then Err(NegativeSize)
    else if size == 0 then Err(EmptyImage)
    else Ok(seq(framesCount, i requires 0 <= i < framesCount => FrameAt(b, size, framesCount, i)))
  }

  /**
   * A scene without vertices, or a count that is not positive, gives no
   * frames. Otherwise a negative size and size 0 raise, and a positive size
   * gives exactly `framesCount` frames, all drawn from the same decimated
   * faces, at turns `i / framesCount` that step through one full
   * revolution, with a positive scale.
   */
  lemma RenderFramesShape(b: Baked, size: int, framesCount: int)
    ensures var r := RenderFrames(b, size, framesCount);
      && (b.vertices == [] || framesCount <= 0 ==> r == Ok([]))
      && (b.vertices != [] && framesCount > 0 ==>
            && (size < 0 <==> r == Err(NegativeSize))
            && (size == 0 <==> r == Err(EmptyImage))
            && (size > 0 <==> r.Ok?))
      && (r.Ok? && b.vertices != [] && framesCount > 0 ==> |r.value| == framesCount)
      && (r.Ok? ==> forall i :: 0 <= i < |r.value| ==>
            && r.value[i].faces == OptimizedFaces(b.faces)
            && 0.0 <= r.value[i].turn < 1.0
            && r.value[i].scale > 0.0)
  {
    var r := RenderFrames(b, size, framesCount);
    if r.Ok? {
      var fs := r.value;
      forall i | 0 <= i < |fs|
        ensures 0.0 <= fs[i].turn < 1.0 && fs[i].scale > 0.0
      {
        TurnInRange(i, framesCount);
        ScalePositive(b.vertices, size);
      }
    }
  }

  lemma TurnInRange(i: nat, n: int)
    requires i < n
    ensures 0.0 <= i as real / n as real < 1.0
  {
    var t := i as real / n as real;
    assert t * n as real == i as real;
  }

  lemma ScalePositive(vs: seq<Point>, size: int)
    requires vs != [] && size > 0
    ensures ScaleFactor(vs, size) > 0.0
  {
    var d := MaxDim(vs);
    assert size as real - size as real * 0.2 == size as real * 0.8;
  }

  /** A scene whose vertices all coincide has extent 0, clamped to 1. */
  lemma CoincidentVerticesClampToOne(vs: seq<Point>)
    requires vs != [] && forall i :: 0 <= i < |vs| ==> vs[i] == vs[0]
    ensures MaxDim(vs) == 1.0
  {
    forall a: Axis
      ensures Extent(vs, a) == 0.0
    {
      var lo := MinCoord(vs, a);
      var hi := MaxCoord(vs, a);
      var i :| 0 <= i < |vs| && lo == Coord(vs[i], a);
      var j :| 0 <= j < |vs| && hi == Coord(vs[j], a);
    }
  }

  /**
   * `generate_render_frames`. `loaded` is the parsed file, `None` when
   * reading or parsing fails (the source then returns an empty list); an
   * exception raised while baking or drawing propagates.
   */
  method GenerateRenderFrames(trig: Trig, loaded: Option<SceneDoc>, size: int, framesCount: int)
    returns (r: Result<seq<Frame>, RenderError>)
    ensures loaded.None? ==> r == Ok([])
    ensures loaded.Some? && Bake(trig, loaded.value).Err? ==> r == Err(BakeFailed(Bake(trig, loaded.value).error))
    ensures loaded.Some? && Bake(trig, loaded.value).Ok? ==>
              r == RenderFrames(Bake(trig, loaded.value).value, size, framesCount)
  {
    if loaded.None? {
      return Ok([]);
    }
    var baked := BakeGeometry(trig, loaded.value);
    if baked.Err? {
      return Err(BakeFailed(baked.error));
    }
    var b := baked.value;
    if |b.vertices| == 0 {
      return Ok([]);
    }
    r := FramesFor(b, size, framesCount);
  }

  /**
   * The part of `generate_render_frames` after a non-empty bake. Each frame
   * allocates its image first, which is where a size that is not positive
   * raises.
   */
  method FramesFor(b: Baked, size: int, framesCount: int) returns (r: Result<seq<Frame>, RenderError>)
    requires b.vertices != []
    ensures r == RenderFrames(b, size, framesCount)
  {
    var center := Center(b.vertices);
    var maxDim := MaxDim(b.vertices);
    var padding := size as real * 0.2;
    var scale := (size as real - padding) / maxDim;
    var stride := 1;
    if |b.faces| > TargetFaceCount {
      stride := |b.faces| / TargetFaceCount;
    }
    var optimized := Decimate(b.faces, stride);
    var frames := [];
    var i := 0;
    while i < framesCount
      invariant 0 <= i && (i > 0 ==> i <= framesCount)
      invariant i > 0 ==> size > 0
      invariant i > 0 ==> frames == RenderFrames(b, size, framesCount).value[..i]
      invariant i == 0 ==> frames == []
    {
      if size < 0 {
        return Err(NegativeSize);
      }
      if size == 0 {
        return Err(EmptyImage);
      }
      frames := frames + [Frame(i as real / framesCount as real, center, scale, optimized)];
      i := i + 1;
    }
    if framesCount > 0 {
      var fs := RenderFrames(b, size, framesCount).value;
      assert |fs| == framesCount;
      assert frames == fs[..framesCount] == fs;
    }
    r := Ok(frames);
  }
}
