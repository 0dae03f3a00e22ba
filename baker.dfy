/**
 * `bake_geometry` as the source runs it: a memo dictionary of global
 * matrices filled by a recursive lookup, and vertex and face buffers grown
 * by `add_mesh_to_scene` with a running `vertex_offset`. The closure state
 * of the source is the state of a `SceneBaker`.
 */
module Baker {
  import opened Wrappers
  import opened Matrices
  import opened Transform
  import opened Scene
  import opened Hierarchy
  import opened BakeSpec

  /** Each cached object's matrix is its resolution with `onPath` in progress. */
  ghost predicate MemoSound(t: Trig, objs: map<int, SceneObject>, memo: map<int, Matrix>, onPath: set<int>)
  {
    forall k {:trigger memo[k]} :: k in memo ==> k in objs && Resolve(t, objs, k, onPath) == Ok(memo[k])
  }

  /** A cached object's parent, when it names an object, is cached too. */
  ghost predicate MemoClosed(objs: map<int, SceneObject>, memo: map<int, Matrix>)
  {
    forall k {:trigger objs[k]} :: k in memo && k in objs && objs[k].pvuid != -1 && objs[k].pvuid in objs ==> objs[k].pvuid in memo
  }

  /** The cache invariant of `get_global_matrix`. */
  ghost predicate MemoOk(t: Trig, objs: map<int, SceneObject>, memo: map<int, Matrix>, onPath: set<int>)
  {
    MemoSound(t, objs, memo, onPath) && MemoClosed(objs, memo)
  }

  /**
   * A resolution that succeeds is unaffected by marking in progress an
   * object that is not cached, when the cache is closed under parents.
   */
  lemma {:induction false} ResolveAvoidsUncached(t: Trig, objs: map<int, SceneObject>, memo: map<int, Matrix>,
                                                 k: int, onPath: set<int>, x: int)
    requires k in memo && x !in memo
    requires forall j :: j in memo ==> j in objs
    requires forall j {:trigger objs[j]} :: j in memo && objs[j].pvuid != -1 && objs[j].pvuid in objs ==> objs[j].pvuid in memo
    requires Resolve(t, objs, k, onPath).Ok?
    ensures Resolve(t, objs, k, onPath + {x}) == Resolve(t, objs, k, onPath)
    decreases |objs.Keys - onPath|
  {
    var o := objs[k];
    if o.pvuid != -1 && o.pvuid in objs {
      RemoveOneMore(objs.Keys, onPath, k);
      ResolveAvoidsUncached(t, objs, memo, o.pvuid, onPath + {k}, x);
      assert onPath + {x} + {k} == onPath + {k} + {x};
    }
  }

  /** Entering an uncached object keeps the cache valid. */
  lemma MemoEnter(t: Trig, objs: map<int, SceneObject>, memo: map<int, Matrix>, onPath: set<int>, v: int)
    requires MemoOk(t, objs, memo, onPath) && v !in memo
    ensures MemoOk(t, objs, memo, onPath + {v})
  {
    forall k | k in memo
      ensures Resolve(t, objs, k, onPath + {v}) == Ok(memo[k])
    {
      ResolveAvoidsUncached(t, objs, memo, k, onPath, v);
    }
  }

  /** Leaving an object keeps the cache valid. */
  lemma MemoLeave(t: Trig, objs: map<int, SceneObject>, memo: map<int, Matrix>, onPath: set<int>, v: int)
    requires MemoOk(t, objs, memo, onPath + {v})
    ensures MemoOk(t, objs, memo, onPath)
  {
    forall k | k in memo
      ensures Resolve(t, objs, k, onPath) == Ok(memo[k])
    {
      ResolveMonotone(t, objs, k, onPath, onPath + {v});
    }
  }

  /** Caching a resolved object whose parent is cached keeps the cache valid. */
  lemma MemoInsert(t: Trig, objs: map<int, SceneObject>, memo: map<int, Matrix>, onPath: set<int>, v: int, g: Matrix)
    requires MemoOk(t, objs, memo, onPath)
    requires v in objs && Resolve(t, objs, v, onPath) == Ok(g)
    requires objs[v].pvuid != -1 && objs[v].pvuid in objs ==> objs[v].pvuid in memo
    ensures MemoOk(t, objs, memo[v := g], onPath)
  {
  }

  /** Every object of a sound cache resolves. */
  lemma CachedResolve(t: Trig, objs: map<int, SceneObject>, memo: map<int, Matrix>, order: seq<int>, i: nat)
    requires MemoSound(t, objs, memo, {}) && i <= |order|
    requires forall j :: 0 <= j < i ==> order[j] in memo
    ensures forall j :: 0 <= j < i ==> Global(t, objs, order[j]).Ok?
  {
    forall j | 0 <= j < i
      ensures Global(t, objs, order[j]).Ok?
    {
      var m := memo[order[j]];
    }
  }

  /** The pre-pass stops at the first object that does not resolve. */
  lemma {:induction false} PrePassFirstError(t: Trig, objs: map<int, SceneObject>, order: seq<int>, i: nat)
    requires i < |order| && Global(t, objs, order[i]).Err?
    requires forall j :: 0 <= j < i ==> Global(t, objs, order[j]).Ok?
    ensures PrePass(t, objs, order) == Err(Global(t, objs, order[i]).error)
    decreases i
  {
    if i > 0 {
      PrePassFirstError(t, objs, order[1..], i - 1);
    }
  }

  /**
   * The pre-pass fails at object `i` when the objects before it are
   * cached and it does not resolve.
   */
  lemma PrePassStopsAt(t: Trig, objs: map<int, SceneObject>, memo: map<int, Matrix>, order: seq<int>, i: nat)
    requires MemoSound(t, objs, memo, {}) && i < |order|
    requires forall j :: 0 <= j < i ==> order[j] in memo
    requires Global(t, objs, order[i]).Err?
    ensures PrePass(t, objs, order) == Err(Global(t, objs, order[i]).error)
  {
    CachedResolve(t, objs, memo, order, i);
    PrePassFirstError(t, objs, order, i);
  }

  /**
   * Once every object in `order` is cached, the pre-pass has succeeded and
   * the cache is the map of all global matrices.
   */
  lemma PrePassDone(t: Trig, objs: map<int, SceneObject>, memo: map<int, Matrix>, order: seq<int>)
    requires MemoSound(t, objs, memo, {})
    requires forall v :: v in objs ==> v in order
    requires forall j :: 0 <= j < |order| ==> order[j] in memo
    ensures PrePass(t, objs, order) == Ok(())
    ensures memo == GlobalMap(t, objs)
  {
    CachedResolve(t, objs, memo, order, |order|);
    PrePassAllOk(t, objs, order);
    MemoIsGlobalMap(t, objs, order, memo);
  }

  /** The pre-pass succeeds when every object in `order` resolves. */
  lemma PrePassAllOk(t: Trig, objs: map<int, SceneObject>, order: seq<int>)
    requires forall j :: 0 <= j < |order| ==> Global(t, objs, order[j]).Ok?
    ensures PrePass(t, objs, order) == Ok(())
  {
  }

  /**
   * A sound cache that holds every object listed in `order`, where `order`
   * lists every object, is the map of all global matrices.
   */
  lemma MemoIsGlobalMap(t: Trig, objs: map<int, SceneObject>, order: seq<int>, memo: map<int, Matrix>)
    requires MemoSound(t, objs, memo, {})
    requires forall v :: v in objs ==> v in order
    requires forall j :: 0 <= j < |order| ==> order[j] in memo
    ensures memo == GlobalMap(t, objs)
  {
    GlobalMapCached(t, objs, order, memo);
    SoundIsGlobalMap(t, objs, memo);
  }

  lemma GlobalMapCached(t: Trig, objs: map<int, SceneObject>, order: seq<int>, memo: map<int, Matrix>)
    requires MemoSound(t, objs, memo, {})
    requires forall v :: v in objs ==> v in order
    requires forall j :: 0 <= j < |order| ==> order[j] in memo
    ensures forall k :: k in GlobalMap(t, objs) <==> k in memo
  {
    var gm := GlobalMap(t, objs);
    forall k | k in gm
      ensures k in memo
    {
      var j :| 0 <= j < |order| && order[j] == k;
    }
    forall k | k in memo
      ensures k in gm
    {
      var m := memo[k];
      assert Global(t, objs, k) == Resolve(t, objs, k, {});
    }
  }

  lemma SoundIsGlobalMap(t: Trig, objs: map<int, SceneObject>, memo: map<int, Matrix>)
    requires MemoSound(t, objs, memo, {})
    requires forall k :: k in GlobalMap(t, objs) <==> k in memo
    ensures memo == GlobalMap(t, objs)
  {
    var gm := GlobalMap(t, objs);
    forall k | k in memo
      ensures gm[k] == memo[k]
    {
      assert Global(t, objs, k) == Resolve(t, objs, k, {});
    }
    assert memo.Keys == gm.Keys;
  }

  class SceneBaker {
    const trig: Trig
    const ix: Indexed
    /** `global_matrices` */
    var globalMatrices: map<int, Matrix>
    /** `baked_vertices` */
    var bakedVertices: seq<Point>
    /** `baked_faces` */
    var bakedFaces: seq<seq<int>>
    /** `vertex_offset` */
    var vertexOffset: int

    constructor (trig: Trig, doc: SceneDoc)
      ensures this.trig == trig && ix == IndexScene(doc)
      ensures globalMatrices == map[] && bakedVertices == [] && bakedFaces == [] && vertexOffset == 0
    {
      this.trig := trig;
      ix := IndexScene(doc);
      globalMatrices := map[];
      bakedVertices := [];
      bakedFaces := [];
      vertexOffset := 0;
    }

    ghost function Acc(): Baked
      reads this
    {
      Baked(bakedVertices, bakedFaces)
    }

    ghost predicate MemoValid(onPath: set<int>)
      reads this
    {
      MemoOk(trig, ix.objects, globalMatrices, onPath)
    }

    /**
     * `get_global_matrix`, with the objects in progress passed along: a
     * cached vuid returns its cached matrix, an unknown vuid the identity
     * (not cached), an object met again while in progress a cycle error;
     * otherwise the result is computed, cached and returned. Cached entries
     * are never changed.
     */
    method GlobalMatrix(vuid: int, onPath: set<int>) returns (r: Result<Matrix, BakeError>)
      requires MemoValid(onPath)
      modifies this`globalMatrices
      decreases |ix.objects.Keys - onPath|
      ensures r == Resolve(trig, ix.objects, vuid, onPath)
      ensures r.Ok? ==> MemoValid(onPath)
      ensures r.Ok? ==> old(globalMatrices).Keys <= globalMatrices.Keys
      ensures r.Ok? ==> forall k :: k in old(globalMatrices) ==> globalMatrices[k] == old(globalMatrices)[k]
      ensures r.Ok? && vuid in ix.objects ==> vuid in globalMatrices
      ensures vuid in old(globalMatrices) ==> r == Ok(old(globalMatrices)[vuid]) && globalMatrices == old(globalMatrices)
      ensures vuid !in ix.objects ==> r == Ok(Identity()) && globalMatrices == old(globalMatrices)
    {
      if vuid in globalMatrices {
        return Ok(globalMatrices[vuid]);
      }
      if vuid !in ix.objects {
        return Ok(Identity());
      }
      if vuid in onPath {
        return Err(CyclicParent(vuid));
      }
      var obj := ix.objects[vuid];
      var local := LocalMatrix(trig, obj);
      var global: Matrix;
      if obj.pvuid != -1 {
        RemoveOneMore(ix.objects.Keys, onPath, vuid);
        MemoEnter(trig, ix.objects, globalMatrices, onPath, vuid);
        var parent := GlobalMatrix(obj.pvuid, onPath + {vuid});
        if parent.Err? {
          return parent;
        }
        MemoLeave(trig, ix.objects, globalMatrices, onPath, vuid);
        global := Mul(parent.value, local);
      } else {
        global := local;
      }
      assert Resolve(trig, ix.objects, vuid, onPath) == Ok(global);
      MemoInsert(trig, ix.objects, globalMatrices, onPath, vuid, global);
      globalMatrices := globalMatrices[vuid := global];
      r := Ok(global);
    }
      /**
     * `add_mesh_to_scene`: appends the transformed vertices and, face by
     * face, the faces shifted by `vertexOffset`, then advances the offset;
     * the new buffers are exactly what `AddMesh` gives, and the offset
     * stays equal to the number of baked vertices.
     */
    method AddMeshToScene(meshId: int, matrix: Matrix) returns (r: Result<(), BakeError>)
      requires IsMat4(matrix) && vertexOffset == |bakedVertices|
      modifies this`bakedVertices, this`bakedFaces, this`vertexOffset
      ensures vertexOffset == |bakedVertices|
      ensures var spec := AddMesh(old(Acc()), ix.meshes, meshId, matrix);
        && (r.Ok? <==> spec.Ok?)
        && (r.Ok? ==> Acc() == spec.value)
        && (r.Err? ==> r.error == spec.error)
    {
      if meshId !in ix.meshes {
        return Ok(());
      }
      var mesh := ix.meshes[meshId];
      if mesh.vertices == [] {
        return Ok(());
      }
      if |mesh.vertices| % 3 != 0 {
        return Err(MalformedVertices(meshId));
      }
      var transformed := TransformVertices(matrix, mesh.vertices);
      bakedVertices := bakedVertices + transformed;
      ghost var faces0 := bakedFaces;
      var k := 0;
      while k < |mesh.faces|
        invariant 0 <= k <= |mesh.faces|
        invariant bakedVertices == old(bakedVertices) + transformed && vertexOffset == old(vertexOffset)
        invariant bakedFaces == faces0 + ShiftFaces(mesh.faces[..k], vertexOffset)
      {
        assert ShiftFaces(mesh.faces[..k + 1], vertexOffset)
            == ShiftFaces(mesh.faces[..k], vertexOffset) + [ShiftFace(mesh.faces[k], vertexOffset)];
        bakedFaces := bakedFaces + [ShiftFace(mesh.faces[k], vertexOffset)];
        k := k + 1;
      }
      assert mesh.faces[..k] == mesh.faces;
      vertexOffset := vertexOffset + |transformed|;
      r := Ok(());
    }

    /**
     * The pre-pass `for vuid in objects: get_global_matrix(vuid)`: its
     * outcome is `PrePass`, and after it succeeds the cache holds exactly
     * one global matrix per object.
     */
    method ResolveAll() returns (r: Result<(), BakeError>)
      requires globalMatrices == map[]
      requires forall j :: 0 <= j < |ix.order| ==> ix.order[j] in ix.objects
      requires forall v :: v in ix.objects ==> v in ix.order
      modifies this`globalMatrices
      ensures r == PrePass(trig, ix.objects, ix.order)
      ensures r.Ok? ==> globalMatrices == GlobalMap(trig, ix.objects)
    {
      var i := 0;
      while i < |ix.order|
        invariant 0 <= i <= |ix.order|
        invariant MemoValid({})
        invariant forall j :: 0 <= j < i ==> ix.order[j] in globalMatrices
      {
        var vuid := ix.order[i];
        ghost var before := globalMatrices;
        var g := GlobalMatrix(vuid, {});
        if g.Err? {
          PrePassStopsAt(trig, ix.objects, before, ix.order, i);
          return Err(g.error);
        }
        assert vuid in globalMatrices && before.Keys <= globalMatrices.Keys;
        forall j | 0 <= j <= i
          ensures ix.order[j] in globalMatrices
        {
          if j < i {
            assert ix.order[j] in before;
          }
        }
        i := i + 1;
      }
      PrePassDone(trig, ix.objects, globalMatrices, ix.order);
      r := Ok(());
    }

    /**
     * One pass of the bake loop for the object stored under `vuid`: the
     * filter, the mesh at the object's global matrix, then the symmetry
     * ghost; the buffers end as `BakeObject` says.
     */
    method BakeObjectAt(vuid: int) returns (r: Result<(), BakeError>)
      requires Covers(ix, globalMatrices) && vuid in ix.objects && vertexOffset == |bakedVertices|
      modifies this`bakedVertices, this`bakedFaces, this`vertexOffset
      ensures vertexOffset == |bakedVertices|
      ensures var spec := BakeObject(trig, ix, globalMatrices, old(Acc()), vuid);
        && (r.Ok? <==> spec.Ok?)
        && (r.Ok? ==> Acc() == spec.value)
        && (r.Err? ==> r.error == spec.error)
    {
      var obj := ix.objects[vuid];
      if obj.hasCannonBlueprint {
        return Ok(());
      }
      var bpId := obj.structureBlueprintVuid;
      if bpId == -1 || bpId !in ix.blueprints {
        return Ok(());
      }
      var bp := ix.blueprints[bpId];
      if bp.kind in NonGeometricKinds {
        return Ok(());
      }
      var meshId := bp.bodyMeshVuid;
      r := AddMeshToScene(meshId, globalMatrices[vuid]);
      if r.Err? {
        return;
      }
      if SymmetryBit(obj.flags) && obj.transform.mirrorVuid == -1 {
        var parent := if obj.pvuid in globalMatrices then globalMatrices[obj.pvuid] else Identity();
        var local := MirroredTransform(trig, obj.transform.pos, obj.transform.rot, obj.transform.scale);
        if local.None? {
          return Err(ShortTransform(vuid));
        }
        r := AddMeshToScene(meshId, Mul(parent, local.value));
      }
    }

    /** The bake loop over the objects in document order. */
    method BakeAll() returns (r: Result<(), BakeError>)
      requires Covers(ix, globalMatrices) && vertexOffset == |bakedVertices|
      requires forall v :: v in ix.order ==> v in ix.objects
      modifies this`bakedVertices, this`bakedFaces, this`vertexOffset
      ensures var spec := BakeLoop(trig, ix, globalMatrices, old(Acc()), ix.order);
        && (r.Ok? <==> spec.Ok?)
        && (r.Ok? ==> Acc() == spec.value)
        && (r.Err? ==> r.error == spec.error)
    {
      var i := 0;
      while i < |ix.order|
        invariant 0 <= i <= |ix.order|
        invariant vertexOffset == |bakedVertices|
        invariant BakeLoop(trig, ix, globalMatrices, old(Acc()), ix.order)
               == BakeLoop(trig, ix, globalMatrices, Acc(), ix.order[i..])
      {
        assert ix.order[i..][1..] == ix.order[i + 1..];
        var step := BakeObjectAt(ix.order[i]);
        if step.Err? {
          return step;
        }
        i := i + 1;
      }
      r := Ok(());
    }
  }

  /**
   * `bake_geometry`: index the document, resolve every object, then bake
   * them in order. Returns what `Bake` specifies: the same buffers, or the
   * same error.
   */
  method BakeGeometry(trig: Trig, doc: SceneDoc) returns (r: Result<Baked, BakeError>)
    ensures r == Bake(trig, doc)
  {
    var baker := new SceneBaker(trig, doc);
    var pre := baker.ResolveAll();
    if pre.Err? {
      return Err(pre.error);
    }
    var baked := baker.BakeAll();
    if baked.Err? {
      return Err(baked.error);
    }
    r := Ok(Baked(baker.bakedVertices, baker.bakedFaces));
  }
}
