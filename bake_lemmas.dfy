/** Properties of the bake: index ranges, counts, filtering and the ghost. */
module BakeProperties {
  import opened Wrappers
  import opened Matrices
  import opened Transform
  import opened Scene
  import opened Hierarchy
  import opened BakeSpec

  /** Every face of the mesh indexes one of its own vertices. */
  predicate MeshFacesValid(m: Mesh)
  {
    forall k, i :: 0 <= k < |m.faces| && 0 <= i < |m.faces[k]| ==> 0 <= m.faces[k][i] < |m.vertices| / 3
  }

  /** Every baked face index is a valid offset into the baked vertex buffer. */
  predicate FacesInRange(b: Baked)
  {
    forall k, i :: 0 <= k < |b.faces| && 0 <= i < |b.faces[k]| ==> 0 <= b.faces[k][i] < |b.vertices|
  }

  lemma AddMeshInRange(acc: Baked, meshes: map<int, Mesh>, meshId: int, m: Matrix)
    requires IsMat4(m) && FacesInRange(acc)
    requires meshId in meshes ==> MeshFacesValid(meshes[meshId])
    requires AddMesh(acc, meshes, meshId, m).Ok?
    ensures FacesInRange(AddMesh(acc, meshes, meshId, m).value)
  {
    var r := AddMesh(acc, meshes, meshId, m).value;
    if meshId in meshes && meshes[meshId].vertices != [] {
      var mesh := meshes[meshId];
      forall k, i | 0 <= k < |r.faces| && 0 <= i < |r.faces[k]|
        ensures 0 <= r.faces[k][i] < |r.vertices|
      {
        if k < |acc.faces| {
          assert r.faces[k] == r.faces[..|acc.faces|][k];
        } else {
          assert r.faces[k][i] == mesh.faces[k - |acc.faces|][i] + |acc.vertices|;
        }
      }
    }
  }

  lemma BakeObjectInRange(t: Trig, ix: Indexed, gm: map<int, Matrix>, acc: Baked, v: int)
    requires Covers(ix, gm) && v in ix.objects && FacesInRange(acc)
    requires forall k :: k in ix.meshes ==> MeshFacesValid(ix.meshes[k])
    requires BakeObject(t, ix, gm, acc, v).Ok?
    ensures FacesInRange(BakeObject(t, ix, gm, acc, v).value)
  {
    var o := ix.objects[v];
    if Included(ix, o) {
      var meshId := BodyMesh(ix, o);
      AddMeshInRange(acc, ix.meshes, meshId, gm[v]);
      var acc1 := AddMesh(acc, ix.meshes, meshId, gm[v]).value;
      if HasGhost(o) {
        AddMeshInRange(acc1, ix.meshes, meshId, GhostMatrix(t, gm, o).value);
      }
    }
  }

  lemma {:induction false} BakeLoopInRange(t: Trig, ix: Indexed, gm: map<int, Matrix>, acc: Baked, order: seq<int>)
    requires Covers(ix, gm) && (forall v :: v in order ==> v in ix.objects) && FacesInRange(acc)
    requires forall k :: k in ix.meshes ==> MeshFacesValid(ix.meshes[k])
    requires BakeLoop(t, ix, gm, acc, order).Ok?
    ensures FacesInRange(BakeLoop(t, ix, gm, acc, order).value)
    decreases |order|
  {
    if order != [] {
      BakeObjectInRange(t, ix, gm, acc, order[0]);
      BakeLoopInRange(t, ix, gm, BakeObject(t, ix, gm, acc, order[0]).value, order[1..]);
    }
  }

  /**
   * When every mesh of the document only references its own vertices, every
   * face index of the baked scene is below the baked vertex count.
   */
  lemma BakeFacesInRange(t: Trig, doc: SceneDoc)
    requires forall m :: m in doc.meshes ==> MeshFacesValid(m)
    requires Bake(t, doc).Ok?
    ensures FacesInRange(Bake(t, doc).value)
  {
    var ix := IndexScene(doc);
    var gm := GlobalMap(t, ix.objects);
    BakeLoopInRange(t, ix, gm, Baked([], []), ix.order);
  }

  /** Placements of an object's mesh: two with a ghost, one without. */
  function Copies(o: SceneObject): nat
  {
    if HasGhost(o) then 2 else 1
  }

  /** Whether the object's mesh exists and has vertices (only then it adds anything). */
  predicate MeshPresent(ix: Indexed, o: SceneObject)
  {
    Included(ix, o) && BodyMesh(ix, o) in ix.meshes && ix.meshes[BodyMesh(ix, o)].vertices != []
  }

  function VertexContribution(ix: Indexed, o: SceneObject): nat
  {
    if MeshPresent(ix, o) then Copies(o) * (|ix.meshes[BodyMesh(ix, o)].vertices| / 3) else 0
  }

  function FaceContribution(ix: Indexed, o: SceneObject): nat
  {
    if MeshPresent(ix, o) then Copies(o) * |ix.meshes[BodyMesh(ix, o)].faces| else 0
  }

  function SumVertices(ix: Indexed, order: seq<int>): nat
    requires forall v :: v in order ==> v in ix.objects
  {
    if order == [] then 0
    else
      var v := order[0];
      assert v in order;
      VertexContribution(ix, ix.objects[v]) + SumVertices(ix, order[1..])
  }

  function SumFaces(ix: Indexed, order: seq<int>): nat
    requires forall v :: v in order ==> v in ix.objects
  {
    if order == [] then 0
    else
      var v := order[0];
      assert v in order;
      FaceContribution(ix, ix.objects[v]) + SumFaces(ix, order[1..])
  }

  /**
   * One object adds exactly its contribution: nothing when it is filtered
   * out or its mesh is missing or empty, the mesh's vertex and face counts
   * once, and twice when the symmetry ghost applies.
   */
  lemma BakeObjectCounts(t: Trig, ix: Indexed, gm: map<int, Matrix>, acc: Baked, v: int)
    requires Covers(ix, gm) && v in ix.objects
    requires BakeObject(t, ix, gm, acc, v).Ok?
    ensures var r, o := BakeObject(t, ix, gm, acc, v).value, ix.objects[v];
      && |r.vertices| == |acc.vertices| + VertexContribution(ix, o)
      && |r.faces| == |acc.faces| + FaceContribution(ix, o)
      && (!MeshPresent(ix, o) ==> r == acc)
  {
  }

  lemma {:induction false} BakeLoopCounts(t: Trig, ix: Indexed, gm: map<int, Matrix>, acc: Baked, order: seq<int>)
    requires Covers(ix, gm) && forall v :: v in order ==> v in ix.objects
    requires BakeLoop(t, ix, gm, acc, order).Ok?
    ensures |BakeLoop(t, ix, gm, acc, order).value.vertices| == |acc.vertices| + SumVertices(ix, order)
    ensures |BakeLoop(t, ix, gm, acc, order).value.faces| == |acc.faces| + SumFaces(ix, order)
    decreases |order|
  {
    if order != [] {
      BakeObjectCounts(t, ix, gm, acc, order[0]);
      BakeLoopCounts(t, ix, gm, BakeObject(t, ix, gm, acc, order[0]).value, order[1..]);
    }
  }

  /**
   * The baked vertex count is the sum over the objects, in document order,
   * of their mesh's vertex count times their number of placements; the same
   * holds for faces.
   */
  lemma BakeCounts(t: Trig, doc: SceneDoc)
    requires Bake(t, doc).Ok?
    ensures var ix := IndexScene(doc);
      && |Bake(t, doc).value.vertices| == SumVertices(ix, ix.order)
      && |Bake(t, doc).value.faces| == SumFaces(ix, ix.order)
  {
    var ix := IndexScene(doc);
    BakeLoopCounts(t, ix, GlobalMap(t, ix.objects), Baked([], []), ix.order);
  }

  /**
   * With the ghost, the object's mesh is appended twice: first under the
   * object's global matrix, then under the ghost matrix, the second copy's
   * faces shifted by the first copy's vertex count.
   */
  lemma GhostAppendsSecondCopy(t: Trig, ix: Indexed, gm: map<int, Matrix>, acc: Baked, v: int)
    requires Covers(ix, gm) && v in ix.objects
    requires MeshPresent(ix, ix.objects[v]) && HasGhost(ix.objects[v])
    requires BakeObject(t, ix, gm, acc, v).Ok?
    ensures var o, r := ix.objects[v], BakeObject(t, ix, gm, acc, v).value;
      var mesh := ix.meshes[BodyMesh(ix, o)];
      var n := |mesh.vertices| / 3;
      && GhostMatrix(t, gm, o).Some?
      && r.vertices == acc.vertices + TransformVertices(gm[v], mesh.vertices)
                                    + TransformVertices(GhostMatrix(t, gm, o).value, mesh.vertices)
      && r.faces == acc.faces + ShiftFaces(mesh.faces, |acc.vertices|)
                              + ShiftFaces(mesh.faces, |acc.vertices| + n)
  {
    var o := ix.objects[v];
    var meshId := BodyMesh(ix, o);
    var mesh := ix.meshes[meshId];
    var acc1 := AddMesh(acc, ix.meshes, meshId, gm[v]).value;
    assert acc1.vertices == acc.vertices + TransformVertices(gm[v], mesh.vertices);
    assert |acc1.vertices| == |acc.vertices| + |mesh.vertices| / 3;
  }

  /**
   * Where the ghost lands. Under the parent's cached global matrix (or
   * none), it maps a mesh point q to the X-mirror, in the parent's frame, of
   * where the object's own local transform maps the X-mirrored point, as
   * long as sine is odd and cosine even at the negated angles. The mesh is
   * not reflected: for a mesh that is not symmetric in X the ghost is not
   * the mirror image of the part.
   */
  lemma GhostIsMirrorInParentFrame(t: Trig, gm: map<int, Matrix>, o: SceneObject, q: Point)
    requires forall k :: k in gm ==> IsAffine(gm[k])
    requires |o.transform.pos| >= 3 && |o.transform.rot| >= 3
    requires var rot := o.transform.rot;
      && t.sin(t.radians(-rot[1])) == -t.sin(t.radians(rot[1]))
      && t.cos(t.radians(-rot[1])) == t.cos(t.radians(rot[1]))
      && t.sin(t.radians(-rot[2])) == -t.sin(t.radians(rot[2]))
      && t.cos(t.radians(-rot[2])) == t.cos(t.radians(rot[2]))
    ensures var mirrored := ReflectX(Apply(LocalMatrix(t, o), ReflectX(q)));
      Apply(GhostMatrix(t, gm, o).value, q)
      == if o.pvuid in gm then Apply(gm[o.pvuid], mirrored) else mirrored
  {
    var tf := o.transform;
    var local := MirroredTransform(t, tf.pos, tf.rot, tf.scale).value;
    var parent := if o.pvuid in gm then gm[o.pvuid] else Identity();
    ApplyMul(parent, local, q);
    MirroredTransformReflects(t, tf.pos, tf.rot, tf.scale, q);
    if o.pvuid !in gm {
      ApplyIdentity(Apply(local, q));
    }
  }

  /**
   * An object with X position 0 and zero Y and Z angles gets a ghost that
   * coincides with its own placement: the ghost negates the position's X
   * and the Y and Z angles, all zero here, and re-places the same mesh
   * under the parent's cached matrix, which is how the object itself is
   * placed. For a root that parent is `global_matrices.get(-1, I)`, so the
   * coincidence needs that no object has vuid -1.
   */
  lemma GhostOfCenteredPartCoincides(t: Trig, objs: map<int, SceneObject>, v: int)
    requires v in objs && Global(t, objs, v).Ok?
    requires objs[v].pvuid == -1 ==> -1 !in objs
    requires var tf := objs[v].transform;
      |tf.pos| >= 3 && |tf.rot| >= 3 && tf.pos[0] == 0.0 && tf.rot[1] == 0.0 && tf.rot[2] == 0.0
    ensures var gm := GlobalMap(t, objs);
      v in gm && GhostMatrix(t, gm, objs[v]) == Some(gm[v])
  {
    var o := objs[v];
    var tf := o.transform;
    var local := LocalMatrix(t, o);
    MirroredTransformOfSymmetric(t, tf.pos, tf.rot, tf.scale);
    GlobalRule(t, objs, v, Point(0.0, 0.0, 0.0));
    if o.pvuid == -1 || o.pvuid !in objs {
      MulIdentity(local);
    }
  }

  /** A loop over objects that are all filtered out leaves the buffers alone. */
  lemma {:induction false} BakeLoopIdle(t: Trig, ix: Indexed, gm: map<int, Matrix>, acc: Baked, order: seq<int>)
    requires Covers(ix, gm) && forall v :: v in order ==> v in ix.objects && !Included(ix, ix.objects[v])
    ensures BakeLoop(t, ix, gm, acc, order) == Ok(acc)
    decreases |order|
  {
    if order != [] {
      assert BakeObject(t, ix, gm, acc, order[0]) == Ok(acc);
      BakeLoopIdle(t, ix, gm, acc, order[1..]);
    }
  }

  /**
   * A document none of whose objects passes the filter bakes to empty
   * buffers; only a cyclic parent chain can still make it fail.
   */
  lemma NothingIncludedBakesEmpty(t: Trig, doc: SceneDoc)
    requires forall i :: 0 <= i < |doc.objects| ==> !Included(IndexScene(doc), doc.objects[i])
    ensures Bake(t, doc).Ok? <==> PrePass(t, IndexScene(doc).objects, IndexScene(doc).order).Ok?
    ensures Bake(t, doc).Ok? ==> Bake(t, doc).value == Baked([], [])
  {
    var ix := IndexScene(doc);
    if PrePass(t, ix.objects, ix.order).Ok? {
      forall v | v in ix.order
        ensures v in ix.objects && !Included(ix, ix.objects[v])
      {
        var o := ix.objects[v];
        assert o in doc.objects;
        var i :| 0 <= i < |doc.objects| && doc.objects[i] == o;
      }
      BakeLoopIdle(t, ix, GlobalMap(t, ix.objects), Baked([], []), ix.order);
    }
  }
}
