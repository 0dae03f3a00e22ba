/**
 * Hierarchy resolution (`get_global_matrix` inside `bake_geometry`), as a
 * specification. The source recurses through `pvuid` without a guard; here
 * `onPath` is the set of objects whose resolution is in progress, and
 * meeting one of them again reports `CyclicParent` instead of recursing for
 * ever (the source's recursion would end in a RecursionError).
 */
module Hierarchy {
  import opened Wrappers
  import opened Matrices
  import opened Transform
  import opened Scene

  /** The object's local matrix, from its (defaulted) transform. */
  function LocalMatrix(t: Trig, o: SceneObject): (m: Matrix)
    ensures IsAffine(m)
  {
    ComposeTransform(t, o.transform.pos, o.transform.rot, o.transform.scale)
  }

  lemma RemoveOneMore(keys: set<int>, onPath: set<int>, v: int)
    requires v in keys && v !in onPath
    ensures |keys - (onPath + {v})| < |keys - onPath|
  {
    assert keys - onPath == (keys - (onPath + {v})) + {v};
  }

  /**
   * The global matrix of `v` while the objects in `onPath` are being
   * resolved: identity for an unknown vuid, the local matrix for a root
   * (`pvuid == -1`), the parent's global matrix times the local matrix
   * otherwise.
   */
  function Resolve(t: Trig, objs: map<int, SceneObject>, v: int, onPath: set<int>): (r: Result<Matrix, BakeError>)
    ensures r.Ok? ==> IsAffine(r.value)
    decreases |objs.Keys - onPath|
  {
    if v !in objs then Ok(Identity())
    else if v in onPath then Err(CyclicParent(v))
    else
      var local := LocalMatrix(t, objs[v]);
      if objs[v].pvuid == -1 then Ok(local)
      else
        RemoveOneMore(objs.Keys, onPath, v);
        match Resolve(t, objs, objs[v].pvuid, onPath + {v})
        case Err(e) => Err(e)
        case Ok(parent) => Ok(Mul(parent, local))
  }

  /** The global matrix of `v` in a fresh bake. */
  function Global(t: Trig, objs: map<int, SceneObject>, v: int): (r: Result<Matrix, BakeError>)
  {
    Resolve(t, objs, v, {})
  }

  /**
   * Fewer objects in progress never turn a result into an error nor change
   * a matrix: a resolution that succeeds with `big` in progress gives the
   * same matrix with any `small` subset of it.
   */
  lemma {:induction false} ResolveMonotone(t: Trig, objs: map<int, SceneObject>, v: int, small: set<int>, big: set<int>)
    requires small <= big
    requires Resolve(t, objs, v, big).Ok?
    ensures Resolve(t, objs, v, small) == Resolve(t, objs, v, big)
    decreases |objs.Keys - big|
  {
    if v in objs && objs[v].pvuid != -1 {
      RemoveOneMore(objs.Keys, big, v);
      ResolveMonotone(t, objs, objs[v].pvuid, small + {v}, big + {v});
    }
  }

  /**
   * The recursive rule of `get_global_matrix`: a root's global matrix is its
   * local matrix; a child's is its parent's global matrix times its local
   * matrix, and so maps a mesh point first through the local transform and
   * then through the parent's; a parent vuid that names no object
   * contributes the identity.
   */
  lemma GlobalRule(t: Trig, objs: map<int, SceneObject>, v: int, q: Point)
    requires v in objs && Global(t, objs, v).Ok?
    ensures var o, g := objs[v], Global(t, objs, v).value;
      && (o.pvuid == -1 ==> g == LocalMatrix(t, o))
      && (o.pvuid != -1 && o.pvuid !in objs ==> g == LocalMatrix(t, o))
      && (o.pvuid != -1 && o.pvuid in objs ==>
            && Global(t, objs, o.pvuid).Ok?
            && g == Mul(Global(t, objs, o.pvuid).value, LocalMatrix(t, o))
            && Apply(g, q) == Apply(Global(t, objs, o.pvuid).value, Apply(LocalMatrix(t, o), q)))
  {
    var o := objs[v];
    if o.pvuid != -1 {
      var none: set<int> := {};
      assert none + {v} == {v};
      ResolveMonotone(t, objs, o.pvuid, {}, {v});
      var p := Resolve(t, objs, o.pvuid, {v}).value;
      if o.pvuid !in objs {
        MulIdentity(LocalMatrix(t, o));
      } else {
        ApplyMul(p, LocalMatrix(t, o), q);
      }
    }
  }

  /**
   * An object that is its own parent never resolves: the source recurses
   * without end on it.
   */
  lemma SelfParentIsCyclic(t: Trig, objs: map<int, SceneObject>, v: int)
    requires v in objs && objs[v].pvuid == v && v != -1
    ensures Global(t, objs, v) == Err(CyclicParent(v))
  {
    var none: set<int> := {};
    assert none + {v} == {v};
    assert Resolve(t, objs, v, {v}) == Err(CyclicParent(v));
  }

  /** Parent links strictly decrease `rank`: the parent relation is acyclic. */
  ghost predicate RankedBy(objs: map<int, SceneObject>, rank: int -> nat)
  {
    forall k :: k in objs && objs[k].pvuid != -1 && objs[k].pvuid in objs ==>
      rank(objs[k].pvuid) < rank(k)
  }

  /** With an acyclic parent relation every object resolves. */
  lemma AcyclicResolves(t: Trig, objs: map<int, SceneObject>, rank: int -> nat, v: int)
    requires RankedBy(objs, rank)
    ensures Global(t, objs, v).Ok?
  {
    AcyclicResolvesFrom(t, objs, rank, v, {});
  }

  lemma {:induction false} AcyclicResolvesFrom(t: Trig, objs: map<int, SceneObject>, rank: int -> nat, v: int, onPath: set<int>)
    requires RankedBy(objs, rank)
    requires forall k :: k in onPath ==> k in objs && rank(v) < rank(k)
    ensures Resolve(t, objs, v, onPath).Ok?
    decreases rank(v)
  {
    if v in objs && objs[v].pvuid != -1 && objs[v].pvuid in objs {
      RemoveOneMore(objs.Keys, onPath, v);
      AcyclicResolvesFrom(t, objs, rank, objs[v].pvuid, onPath + {v});
    }
  }
}
