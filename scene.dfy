/**
 * The scene document after loading: objects, blueprints and meshes, with
 * every optional field already given the default the source reads with
 * `.get(key, default)`.
 */
module Scene {

  /**
   * `transform`: `pos` and `rot` default to [0, 0, 0], `scale` to [1, 1, 1]
   * (the arrays may be shorter or longer than 3); `mirrorVuid` defaults to -1.
   */
  datatype Transform = Transform(pos: seq<real>, rot: seq<real>, scale: seq<real>, mirrorVuid: int)

  /**
   * A scene object. `pvuid` is -1 for a root, `flags` defaults to 0,
   * `structureBlueprintVuid` to -1, and `hasCannonBlueprint` records whether
   * the key `cannonBlueprintVuid` is present at all.
   */
  datatype SceneObject = SceneObject(
    vuid: int,
    pvuid: int,
    transform: Transform,
    flags: int,
    structureBlueprintVuid: int,
    hasCannonBlueprint: bool)

  /**
   * A blueprint: its `id`, its `type` tag (the empty string when absent,
   * which no rule of the core matches) and its `blueprint.bodyMeshVuid`
   * (default -1).
   */
  datatype Blueprint = Blueprint(id: int, kind: string, bodyMeshVuid: int)

  /**
   * A mesh: `meshData.mesh.vertices` as the flat coordinate list of the
   * document and `meshData.mesh.faces[k].v` as lists of local vertex indices.
   */
  datatype Mesh = Mesh(vuid: int, vertices: seq<real>, faces: seq<seq<int>>)

  datatype SceneDoc = SceneDoc(objects: seq<SceneObject>, blueprints: seq<Blueprint>, meshes: seq<Mesh>)

  /**
   * The exceptions that escape `bake_geometry`: a parent chain that loops
   * (unbounded recursion in the source), a flat vertex list whose length is
   * not a multiple of 3 (the reshape fails), and a ghost whose `pos` or
   * `rot` has fewer than 3 entries (the mirrored arrays index past the end).
   */
  datatype BakeError = CyclicParent(vuid: int) | MalformedVertices(meshVuid: int) | ShortTransform(vuid: int)

  /** Blueprint types that are never baked. */
  const NonGeometricKinds: set<string> := {"decal", "crew", "internal"}

  /**
   * The dictionary `{key(x): x for x in xs}`: exactly the keys of `xs`, each
   * mapped to an element carrying it (the last one: `IndexByLastWins`).
   */
  function IndexBy<T>(xs: seq<T>, key: T -> int): (m: map<int, T>)
    ensures forall k :: k in m <==> exists i :: 0 <= i < |xs| && key(xs[i]) == k
    ensures forall k :: k in m ==> m[k] in xs && key(m[k]) == k
  {
    if xs == [] then map[]
    else
      var init, last := xs[..|xs| - 1], xs[|xs| - 1];
      assert forall i :: 0 <= i < |xs| - 1 ==> init[i] == xs[i];
      assert forall x :: x in init ==> x in xs;
      IndexBy(init, key)[key(last) := last]
  }

  /** For a repeated key, the last element carrying it wins. */
  lemma {:induction false} IndexByLastWins<T>(xs: seq<T>, key: T -> int, i: nat)
    requires i < |xs|
    requires forall j :: i < j < |xs| ==> key(xs[j]) != key(xs[i])
    ensures IndexBy(xs, key)[key(xs[i])] == xs[i]
  {
    if i < |xs| - 1 {
      var init := xs[..|xs| - 1];
      assert forall j :: i < j < |init| ==> init[j] == xs[j];
      IndexByLastWins(init, key, i);
    }
  }

  /**
   * The iteration order of that dictionary: each key once, in the order of
   * its first occurrence.
   */
  function KeyOrder<T>(xs: seq<T>, key: T -> int): (ks: seq<int>)
    ensures forall i, j :: 0 <= i < j < |ks| ==> ks[i] != ks[j]
    ensures forall k :: k in ks <==> exists i :: 0 <= i < |xs| && key(xs[i]) == k
  {
    if xs == [] then []
    else
      var ks := KeyOrder(xs[..|xs| - 1], key);
      var k := key(xs[|xs| - 1]);
      assert forall i :: 0 <= i < |xs| - 1 ==> xs[..|xs| - 1][i] == xs[i];
      if k in ks then ks else ks + [k]
  }

  /** `k1` occurs in `xs` at a position where `k2` has not occurred yet. */
  ghost predicate OccursBefore<T>(xs: seq<T>, key: T -> int, k1: int, k2: int)
  {
    exists a :: 0 <= a < |xs| && key(xs[a]) == k1 && forall b :: 0 <= b <= a ==> key(xs[b]) != k2
  }

  ghost predicate FirstOccurrenceOrder<T>(xs: seq<T>, key: T -> int, ks: seq<int>)
  {
    forall i, j :: 0 <= i < j < |ks| ==> OccursBefore(xs, key, ks[i], ks[j])
  }

  /**
   * The keys come in the order of their first occurrence: a key listed
   * before another occurs at a position where the other has not occurred
   * yet.
   */
  lemma {:induction false} KeyOrderFirstOccurrence<T>(xs: seq<T>, key: T -> int)
    ensures FirstOccurrenceOrder(xs, key, KeyOrder(xs, key))
    decreases |xs|
  {
    if xs != [] {
      var pre := xs[..|xs| - 1];
      KeyOrderFirstOccurrence(pre, key);
      var ks, ks' := KeyOrder(xs, key), KeyOrder(pre, key);
      var k := key(xs[|xs| - 1]);
      assert forall b :: 0 <= b < |pre| ==> pre[b] == xs[b];
      forall i, j | 0 <= i < j < |ks|
        ensures OccursBefore(xs, key, ks[i], ks[j])
      {
        if j < |ks'| {
          assert ks[i] == ks'[i] && ks[j] == ks'[j];
          assert OccursBefore(pre, key, ks'[i], ks'[j]);
          var a :| 0 <= a < |pre| && key(pre[a]) == ks'[i] && forall b :: 0 <= b <= a ==> key(pre[b]) != ks'[j];
          assert key(xs[a]) == ks[i];
        } else {
          assert ks[i] in ks';
          var a :| 0 <= a < |pre| && key(pre[a]) == ks[i];
          assert ks[j] == k && k !in ks';
          assert key(xs[a]) == ks[i];
        }
      }
    }
  }

  /** With no key repeated, the order is the order of the items. */
  lemma {:induction false} KeyOrderDistinct<T>(xs: seq<T>, key: T -> int)
    requires forall i, j :: 0 <= i < j < |xs| ==> key(xs[i]) != key(xs[j])
    ensures KeyOrder(xs, key) == seq(|xs|, i requires 0 <= i < |xs| => key(xs[i]))
    decreases |xs|
  {
    if xs != [] {
      var pre := xs[..|xs| - 1];
      assert forall b :: 0 <= b < |pre| ==> pre[b] == xs[b];
      KeyOrderDistinct(pre, key);
      var k := key(xs[|xs| - 1]);
      assert k !in KeyOrder(pre, key);
    }
  }
}
