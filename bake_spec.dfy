/**
 * What `bake_geometry` computes, as functions: the filter, the mesh append
 * with its running vertex offset, the symmetry ghost and the loop over the
 * objects in document order. The imperative version in `Baker` is proved
 * to compute exactly `Bake`.
 */
module BakeSpec {
  import opened Wrappers
  import opened Matrices
  import opened Transform
  import opened Scene
  import opened Hierarchy

  /** The baked scene: one vertex buffer and faces indexing into it. */
  datatype Baked = Baked(vertices: seq<Point>, faces: seq<seq<int>>)

  /** The three lookup dictionaries of the document and the object order. */
  datatype Indexed = Indexed(
    objects: map<int, SceneObject>,
    order: seq<int>,
    blueprints: map<int, Blueprint>,
    meshes: map<int, Mesh>)

  function IndexScene(doc: SceneDoc): (ix: Indexed)
    ensures forall v :: v in ix.order <==> v in ix.objects
  {
    var vuid := (o: SceneObject) => o.vuid;
    Indexed(IndexBy(doc.objects, vuid), KeyOrder(doc.objects, vuid),
            IndexBy(doc.blueprints, (b: Blueprint) => b.id),
            IndexBy(doc.meshes, (m: Mesh) => m.vuid))
  }

  /** `reshape(-1, 3)` of a flat coordinate list, then the homogeneous transform. */
  function TransformVertices(m: Matrix, flat: seq<real>): (ps: seq<Point>)
    requires IsMat4(m) && |flat| % 3 == 0
  {
    seq(|flat| / 3, i requires 0 <= i < |flat| / 3 =>
      Apply(m, Point(flat[3 * i], flat[3 * i + 1], flat[3 * i + 2])))
  }

  /** What `extend` leaves: the old list as a prefix, then the new items in order. */
  lemma AppendedAt<T>(xs: seq<T>, ys: seq<T>)
    ensures |xs + ys| == |xs| + |ys| && (xs + ys)[..|xs|] == xs
    ensures forall i :: 0 <= i < |ys| ==> (xs + ys)[|xs| + i] == ys[i]
  {
  }

  /** `[idx + vertex_offset for idx in f["v"]]` */
  function ShiftFace(f: seq<int>, offset: int): seq<int>
  {
    seq(|f|, i requires 0 <= i < |f| => f[i] + offset)
  }

  function ShiftFaces(faces: seq<seq<int>>, offset: int): seq<seq<int>>
  {
    seq(|faces|, k requires 0 <= k < |faces| => ShiftFace(faces[k], offset))
  }

  /**
   * `add_mesh_to_scene`: an unknown mesh or an empty vertex list adds
   * nothing; a vertex list whose length is not a multiple of 3 raises;
   * otherwise the transformed vertices are appended and every face is
   * appended with each index shifted by the vertex count before the append.
   */
  function AddMesh(acc: Baked, meshes: map<int, Mesh>, meshId: int, m: Matrix): (r: Result<Baked, BakeError>)
    requires IsMat4(m)
    ensures r.Err? <==> meshId in meshes && |meshes[meshId].vertices| % 3 != 0
    ensures r.Ok? && (meshId !in meshes || meshes[meshId].vertices == []) ==> r.value == acc
    ensures r.Ok? && meshId in meshes && meshes[meshId].vertices != [] ==>
      var mesh, n := meshes[meshId], |meshes[meshId].vertices| / 3;
      && |r.value.vertices| == |acc.vertices| + n
      && r.value.vertices[..|acc.vertices|] == acc.vertices
      && (forall i :: 0 <= i < n ==>
            r.value.vertices[|acc.vertices| + i]
            == Apply(m, Point(mesh.vertices[3 * i], mesh.vertices[3 * i + 1], mesh.vertices[3 * i + 2])))
      && |r.value.faces| == |acc.faces| + |mesh.faces|
      && r.value.faces[..|acc.faces|] == acc.faces
      && (forall k, i :: 0 <= k < |mesh.faces| && 0 <= i < |mesh.faces[k]| ==>
            |r.value.faces[|acc.faces| + k]| == |mesh.faces[k]| &&
            r.value.faces[|acc.faces| + k][i] == mesh.faces[k][i] + |acc.vertices|)
  {
    if meshId !in meshes then Ok(acc)
    else
      var mesh := meshes[meshId];
      if mesh.vertices == [] then Ok(acc)
      else if |mesh.vertices| % 3 != 0 then Err(MalformedVertices(meshId))
      else
        var added := TransformVertices(m, mesh.vertices);
        AppendedAt(acc.vertices, added);
        Ok(Baked(acc.vertices + added, acc.faces + ShiftFaces(mesh.faces, |acc.vertices|)))
  }

  /**
   * The strict filter: no `cannonBlueprintVuid`, a `structureBlueprintVuid`
   * other than -1 that names a blueprint, and a blueprint type other than
   * decal, crew and internal.
   */
  predicate Included(ix: Indexed, o: SceneObject)
  {
    && !o.hasCannonBlueprint
    && o.structureBlueprintVuid != -1
    && o.structureBlueprintVuid in ix.blueprints
    && ix.blueprints[o.structureBlueprintVuid].kind !in NonGeometricKinds
  }

  function BodyMesh(ix: Indexed, o: SceneObject): int
    requires Included(ix, o)
  {
    ix.blueprints[o.structureBlueprintVuid].bodyMeshVuid
  }

  /** `flags & 4` is non-zero (two's-complement bit 2, negative flags included). */
  predicate SymmetryBit(flags: int)
  {
    (flags / 4) % 2 == 1
  }

  /** The implicit-symmetry rule: bit value 4 set and no explicit mirror. */
  predicate HasGhost(o: SceneObject)
  {
    SymmetryBit(o.flags) && o.transform.mirrorVuid == -1
  }

  /**
   * The ghost's global matrix: the parent's cached global matrix (identity
   * when the parent vuid has none) times the mirrored local transform.
   */
  function GhostMatrix(t: Trig, gm: map<int, Matrix>, o: SceneObject): (r: Option<Matrix>)
    requires forall k :: k in gm ==> IsAffine(gm[k])
    ensures r.Some? <==> |o.transform.pos| >= 3 && |o.transform.rot| >= 3
    ensures r.Some? ==> IsAffine(r.value)
  {
    var parent := if o.pvuid in gm then gm[o.pvuid] else Identity();
    assert IsAffine(parent);
    match MirroredTransform(t, o.transform.pos, o.transform.rot, o.transform.scale)
    case None => None
    case Some(local) => Some(Mul(parent, local))
  }

  /** Matrices that every object of the index has, all affine. */
  predicate Covers(ix: Indexed, gm: map<int, Matrix>)
  {
    (forall v :: v in ix.objects ==> v in gm) && (forall k :: k in gm ==> IsAffine(gm[k]))
  }

  /** One iteration of the bake loop, for the object stored under `v`. */
  function BakeObject(t: Trig, ix: Indexed, gm: map<int, Matrix>, acc: Baked, v: int): (r: Result<Baked, BakeError>)
    requires Covers(ix, gm) && v in ix.objects
  {
    var o := ix.objects[v];
    if !Included(ix, o) then Ok(acc)
    else
      var meshId := BodyMesh(ix, o);
      match AddMesh(acc, ix.meshes, meshId, gm[v])
      case Err(e) => Err(e)
      case Ok(acc1) =>
        if !HasGhost(o) then Ok(acc1)
        else
          match GhostMatrix(t, gm, o)
          case None => Err(ShortTransform(v))
          case Some(mirror) => AddMesh(acc1, ix.meshes, meshId, mirror)
  }

  /** The bake loop over `order`, stopping at the first exception. */
  function BakeLoop(t: Trig, ix: Indexed, gm: map<int, Matrix>, acc: Baked, order: seq<int>): (r: Result<Baked, BakeError>)
    requires Covers(ix, gm) && forall v :: v in order ==> v in ix.objects
    decreases |order|
  {
    if order == [] then Ok(acc)
    else
      match BakeObject(t, ix, gm, acc, order[0])
      case Err(e) => Err(e)
      case Ok(acc1) => BakeLoop(t, ix, gm, acc1, order[1..])
  }

  /** The pre-pass: resolve every object in order; the first cycle escapes. */
  function PrePass(t: Trig, objs: map<int, SceneObject>, order: seq<int>): (r: Result<(), BakeError>)
    ensures r.Ok? <==> forall v :: v in order ==> Global(t, objs, v).Ok?
  {
    if order == [] then Ok(())
    else
      match Global(t, objs, order[0])
      case Err(e) => Err(e)
      case Ok(_) => PrePass(t, objs, order[1..])
  }

  /** The cache after a successful pre-pass: one global matrix per object. */
  function GlobalMap(t: Trig, objs: map<int, SceneObject>): (gm: map<int, Matrix>)
    ensures forall k :: k in gm <==> k in objs && Global(t, objs, k).Ok?
    ensures forall k :: k in gm ==> gm[k] == Global(t, objs, k).value && IsAffine(gm[k])
  {
    map k | k in objs && Global(t, objs, k).Ok? :: Global(t, objs, k).value
  }

  /** `bake_geometry`. */
  function Bake(t: Trig, doc: SceneDoc): (r: Result<Baked, BakeError>)
  {
    var ix := IndexScene(doc);
    match PrePass(t, ix.objects, ix.order)
    case Err(e) => Err(e)
    case Ok(_) =>
      var gm := GlobalMap(t, ix.objects);
      BakeLoop(t, ix, gm, Baked([], []), ix.order)
  }
}
