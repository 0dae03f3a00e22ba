/**
 * Worked scenes: one part at the origin with the identity transform,
 * baked without and with the implicit-symmetry flag. Exact trigonometry is
 * assumed only at angle 0 (sin 0 = 0, cos 0 = 1, 0 degrees = 0 radians).
 */
module Scenarios {
  import opened Wrappers
  import opened Matrices
  import opened Transform
  import opened Scene
  import opened Hierarchy
  import opened BakeSpec
  import opened Render
  import opened Decimation

  /** Trigonometry that is exact at angle 0. */
  predicate ExactAtZero(t: Trig)
  {
    t.radians(0.0) == 0.0 && t.sin(0.0) == 0.0 && t.cos(0.0) == 1.0
  }

  const Origin: Scene.Transform := Scene.Transform([0.0, 0.0, 0.0], [0.0, 0.0, 0.0], [1.0, 1.0, 1.0], -1)

  /** The part: object 1, no parent, blueprint 10 of type "hull", mesh 100. */
  function Part(flags: int): SceneObject
  {
    SceneObject(1, -1, Origin, flags, 10, false)
  }

  /** A triangle: vertices (0,0,0), (1,0,0), (0,1,0) and one face. */
  const Triangle: Mesh := Mesh(100, [0.0, 0.0, 0.0, 1.0, 0.0, 0.0, 0.0, 1.0, 0.0], [[0, 1, 2]])

  const TrianglePoints: seq<Point> := [Point(0.0, 0.0, 0.0), Point(1.0, 0.0, 0.0), Point(0.0, 1.0, 0.0)]

  const Hull: Blueprint := Blueprint(10, "hull", 100)

  function OnePart(flags: int): SceneDoc
  {
    SceneDoc([Part(flags)], [Hull], [Triangle])
  }

  function OnePartIndex(flags: int): Indexed
  {
    Indexed(map[1 := Part(flags)], [1], map[10 := Hull], map[100 := Triangle])
  }

  /** The dictionaries of the one-part document and its object order. */
  lemma IndexOnePart(flags: int)
    ensures IndexScene(OnePart(flags)) == OnePartIndex(flags)
  {
    var d := OnePart(flags);
    assert d.objects[..0] == [] && d.blueprints[..0] == [] && d.meshes[..0] == [];
    assert KeyOrder(d.objects, (o: SceneObject) => o.vuid) == [1];
  }

  /** The part resolves to the identity, and the cache holds that alone. */
  lemma OnePartResolves(t: Trig, flags: int)
    requires ExactAtZero(t)
    ensures PrePass(t, map[1 := Part(flags)], [1]) == Ok(())
    ensures GlobalMap(t, map[1 := Part(flags)]) == map[1 := Identity()]
  {
    var objs := map[1 := Part(flags)];
    DefaultTransformIsIdentity(t, Origin.pos, Origin.rot, Origin.scale);
    assert Global(t, objs, 1) == Ok(Identity());
    assert PrePass(t, objs, [1][1..]) == Ok(());
    assert GlobalMap(t, objs).Keys == {1};
  }

  /** The triangle placed by the identity is the triangle. */
  lemma TriangleUnmoved()
    ensures TransformVertices(Identity(), Triangle.vertices) == TrianglePoints
  {
    var ps := TransformVertices(Identity(), Triangle.vertices);
    assert |ps| == 3;
    ApplyIdentity(TrianglePoints[0]);
    ApplyIdentity(TrianglePoints[1]);
    ApplyIdentity(TrianglePoints[2]);
  }

  /** The triangle's face, shifted by a vertex offset. */
  lemma TriangleFaceShifted(offset: int)
    ensures ShiftFaces(Triangle.faces, offset) == [[offset, offset + 1, offset + 2]]
  {
    assert ShiftFace([0, 1, 2], offset) == [offset, offset + 1, offset + 2];
  }

  /** A loop over one object is that object's step. */
  lemma BakeLoopSingle(t: Trig, ix: Indexed, gm: map<int, Matrix>, acc: Baked, v: int)
    requires Covers(ix, gm) && v in ix.objects
    ensures BakeLoop(t, ix, gm, acc, [v]) == BakeObject(t, ix, gm, acc, v)
  {
    match BakeObject(t, ix, gm, acc, v)
    case Err(_) =>
    case Ok(b) => assert BakeLoop(t, ix, gm, b, [v][1..]) == Ok(b);
  }

  /** Baking the one-part document is baking its one object. */
  lemma BakeOnePart(t: Trig, flags: int)
    requires ExactAtZero(t)
    ensures var ix, gm := OnePartIndex(flags), map[1 := Identity()];
      Covers(ix, gm) && Bake(t, OnePart(flags)) == BakeObject(t, ix, gm, Baked([], []), 1)
  {
    IndexOnePart(flags);
    OnePartResolves(t, flags);
    var ix, gm := OnePartIndex(flags), map[1 := Identity()];
    assert Bake(t, OnePart(flags)) == BakeLoop(t, ix, gm, Baked([], []), [1]);
    BakeLoopSingle(t, ix, gm, Baked([], []), 1);
  }

  /** The one step: the part passes the filter and its triangle is added under the identity. */
  lemma PartStep(t: Trig, flags: int)
    ensures var ix, gm := OnePartIndex(flags), map[1 := Identity()];
      var once := Baked(TrianglePoints, [[0, 1, 2]]);
      && Covers(ix, gm)
      && AddMesh(Baked([], []), ix.meshes, 100, Identity()) == Ok(once)
      && (!HasGhost(Part(flags)) ==> BakeObject(t, ix, gm, Baked([], []), 1) == Ok(once))
      && (HasGhost(Part(flags)) && GhostMatrix(t, gm, Part(flags)).Some? ==>
            BakeObject(t, ix, gm, Baked([], []), 1)
            == AddMesh(once, ix.meshes, 100, GhostMatrix(t, gm, Part(flags)).value))
  {
    TriangleUnmoved();
    TriangleFaceShifted(0);
    var ix := OnePartIndex(flags);
    assert Included(ix, Part(flags));
  }

  /** Without the symmetry flag the baked scene is the triangle as given. */
  lemma PlainPartBakesUnchanged(t: Trig)
    requires ExactAtZero(t)
    ensures Bake(t, OnePart(0)) == Ok(Baked(TrianglePoints, [[0, 1, 2]]))
  {
    assert 0 / 4 == 0;
    BakeOnePart(t, 0);
    PartStep(t, 0);
  }

  /** Rendering it at size 100 gives four frames, all drawn from its one face. */
  lemma PlainPartFrames()
    ensures var r := RenderFrames(Baked(TrianglePoints, [[0, 1, 2]]), 100, 4);
      var fs := r.value;
      r.Ok? && |fs| == 4 && forall i :: 0 <= i < 4 ==> fs[i].faces == [[0, 1, 2]] && fs[i].turn == i as real / 4.0
  {
    assert OptimizedFaces([[0, 1, 2]]) == [[0, 1, 2]];
  }

  /** The ghost of the part sits exactly on the part: its matrix is the identity too. */
  lemma CenteredGhost(t: Trig)
    requires ExactAtZero(t)
    ensures HasGhost(Part(4)) && GhostMatrix(t, map[1 := Identity()], Part(4)) == Some(Identity())
  {
    MirroredTransformOfSymmetric(t, Origin.pos, Origin.rot, Origin.scale);
    DefaultTransformIsIdentity(t, Origin.pos, Origin.rot, Origin.scale);
    MulIdentity(Identity());
  }

  /** The second copy of the triangle, under the identity, after the first. */
  lemma SecondTriangle()
    ensures AddMesh(Baked(TrianglePoints, [[0, 1, 2]]), map[100 := Triangle], 100, Identity())
         == Ok(Baked(TrianglePoints + TrianglePoints, [[0, 1, 2], [3, 4, 5]]))
  {
    TriangleUnmoved();
    TriangleFaceShifted(3);
    assert |TrianglePoints| == 3;
    assert [[0, 1, 2]] + [[3, 4, 5]] == [[0, 1, 2], [3, 4, 5]];
  }

  /**
   * With the symmetry flag and no explicit mirror, the triangle is baked
   * twice and the second copy's faces are shifted past the first copy. The
   * ghost of a part at the origin coincides with it: the second copy keeps
   * the vertex (1,0,0) where it is instead of moving it to (-1,0,0).
   */
  lemma SymmetricPartBakesTwice(t: Trig)
    requires ExactAtZero(t)
    ensures Bake(t, OnePart(4)) == Ok(Baked(TrianglePoints + TrianglePoints, [[0, 1, 2], [3, 4, 5]]))
    ensures Bake(t, OnePart(4)).value.vertices[4] == Point(1.0, 0.0, 0.0)
  {
    BakeOnePart(t, 4);
    PartStep(t, 4);
    CenteredGhost(t);
    SecondTriangle();
  }
}
