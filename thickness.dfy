/**
 * `recursive_thickness_update`: every list stored under the key "t",
 * anywhere in the tree, becomes a list of the same length holding only the
 * target value; the walk does not descend into a list it has replaced, and
 * nothing else changes.
 */
module Thickness {
  import opened JsonTree

  /** `[v] * n` */
  function Repeat(v: Json, n: nat): seq<Json>
  {
    seq(n, _ => v)
  }

  /** A dict member the update replaces: key "t" holding a list. */
  predicate IsThicknessList(m: (string, Json))
  {
    m.0 == "t" && m.1.JArray?
  }

  /** The tree after the update. */
  function Thicken(j: Json, target: Json): Json
    decreases j, 1
  {
    match j
    case JObject(ms) => JObject(seq(|ms|, i requires 0 <= i < |ms| => ThickenMember(ms[i], target)))
    case JArray(items) => JArray(seq(|items|, i requires 0 <= i < |items| => Thicken(items[i], target)))
    case _ => j
  }

  function ThickenMember(m: (string, Json), target: Json): (string, Json)
    decreases m, 0
  {
    if IsThicknessList(m) then (m.0, JArray(Repeat(target, |m.1.items|)))
    else (m.0, Thicken(m.1, target))
  }

  /** Every "t" list holds only `target`. */
  predicate Uniform(j: Json, target: Json)
    decreases j, 1
  {
    match j
    case JObject(ms) => forall i :: 0 <= i < |ms| ==> MemberUniform(ms[i], target)
    case JArray(items) => forall i :: 0 <= i < |items| ==> Uniform(items[i], target)
    case _ => true
  }

  predicate MemberUniform(m: (string, Json), target: Json)
    decreases m, 0
  {
    if IsThicknessList(m) then forall i :: 0 <= i < |m.1.items| ==> m.1.items[i] == target
    else Uniform(m.1, target)
  }

  /**
   * `b` has the shape of `a`: the same dicts with the same keys in the same
   * order, the same lists, the same leaves, except that a "t" list of `a`
   * may hold other values in `b`, as long as it keeps its length.
   */
  predicate SameOutside(a: Json, b: Json)
    decreases a, 1
  {
    match a
    case JObject(ms) =>
      b.JObject? && |b.members| == |ms| &&
      forall i :: 0 <= i < |ms| ==> MemberSameOutside(ms[i], b.members[i])
    case JArray(items) =>
      b.JArray? && |b.items| == |items| &&
      forall i :: 0 <= i < |items| ==> SameOutside(items[i], b.items[i])
    case _ => b == a
  }

  predicate MemberSameOutside(m: (string, Json), n: (string, Json))
    decreases m, 0
  {
    m.0 == n.0 &&
    if IsThicknessList(m) then n.1.JArray? && |n.1.items| == |m.1.items|
    else SameOutside(m.1, n.1)
  }

  /**
   * The update does what it promises: every "t" list holds only the target
   * and keeps its length, and nothing else in the tree changes.
   */
  lemma {:induction false} ThickenSpec(j: Json, target: Json)
    ensures Uniform(Thicken(j, target), target) && SameOutside(j, Thicken(j, target))
    decreases j, 1
  {
    match j
    case JObject(ms) =>
      forall i | 0 <= i < |ms|
        ensures MemberUniform(ThickenMember(ms[i], target), target)
             && MemberSameOutside(ms[i], ThickenMember(ms[i], target))
      {
        ThickenMemberSpec(ms[i], target);
      }
    case JArray(items) =>
      forall i | 0 <= i < |items|
        ensures Uniform(Thicken(items[i], target), target) && SameOutside(items[i], Thicken(items[i], target))
      {
        ThickenSpec(items[i], target);
      }
    case _ =>
  }

  lemma {:induction false} ThickenMemberSpec(m: (string, Json), target: Json)
    ensures MemberUniform(ThickenMember(m, target), target)
         && MemberSameOutside(m, ThickenMember(m, target))
    decreases m, 0
  {
    if !IsThicknessList(m) {
      ThickenSpec(m.1, target);
      ThickenPreservesKind(m.1, target);
    }
  }

  /** The update never changes what kind of value a node is. */
  lemma ThickenPreservesKind(j: Json, target: Json)
    ensures Thicken(j, target).JArray? == j.JArray?
    ensures Thicken(j, target).JObject? == j.JObject?
  {
  }

  /**
   * The update is the only tree of the input's shape whose "t" lists hold
   * only the target.
   */
  lemma {:induction false} ThickenUnique(j: Json, k: Json, target: Json)
    requires SameOutside(j, k) && Uniform(k, target)
    ensures k == Thicken(j, target)
    decreases j, 1
  {
    match j
    case JObject(ms) =>
      forall i | 0 <= i < |ms|
        ensures k.members[i] == ThickenMember(ms[i], target)
      {
        ThickenMemberUnique(ms[i], k.members[i], target);
      }
    case JArray(items) =>
      forall i | 0 <= i < |items|
        ensures k.items[i] == Thicken(items[i], target)
      {
        ThickenUnique(items[i], k.items[i], target);
      }
    case _ =>
  }

  lemma {:induction false} ThickenMemberUnique(m: (string, Json), n: (string, Json), target: Json)
    requires MemberSameOutside(m, n) && MemberUniform(n, target)
    ensures n == ThickenMember(m, target)
    decreases m, 0
  {
    if IsThicknessList(m) {
      assert n.1.items == Repeat(target, |m.1.items|);
    } else {
      assert !IsThicknessList(n) by {
        SameOutsideKind(m.1, n.1);
      }
      ThickenUnique(m.1, n.1, target);
    }
  }

  lemma SameOutsideKind(a: Json, b: Json)
    requires SameOutside(a, b)
    ensures b.JArray? == a.JArray?
  {
  }

  lemma {:induction false} SameOutsideRefl(j: Json)
    ensures SameOutside(j, j)
    decreases j, 1
  {
    match j
    case JObject(ms) =>
      forall i | 0 <= i < |ms|
        ensures MemberSameOutside(ms[i], ms[i])
      {
        if !IsThicknessList(ms[i]) {
          SameOutsideRefl(ms[i].1);
        }
      }
    case JArray(items) =>
      forall i | 0 <= i < |items|
        ensures SameOutside(items[i], items[i])
      {
        SameOutsideRefl(items[i]);
      }
    case _ =>
  }

  /** Running the update twice with the same target is running it once. */
  lemma ThickenIdempotent(j: Json, target: Json)
    ensures Thicken(Thicken(j, target), target) == Thicken(j, target)
  {
    var once := Thicken(j, target);
    ThickenSpec(j, target);
    SameOutsideRefl(once);
    ThickenUnique(once, once, target);
  }

  /**
   * The walk as the source runs it: over a dict's items, replacing a "t"
   * list and descending into dicts and lists; over a list's items,
   * descending into each.
   */
  method RecursiveThicknessUpdate(data: Json, target: Json) returns (r: Json)
    ensures r == Thicken(data, target)
    decreases data
  {
    match data {
      case JObject(ms) =>
        var out := ms;
        var i := 0;
        while i < |ms|
          invariant 0 <= i <= |ms| && |out| == |ms|
          invariant forall k :: 0 <= k < i ==> out[k] == ThickenMember(ms[k], target)
          invariant forall k :: i <= k < |ms| ==> out[k] == ms[k]
        {
          var key := ms[i].0;
          var value := ms[i].1;
          if key == "t" && value.JArray? {
            out := out[i := (key, JArray(Repeat(target, |value.items|)))];
          } else if value.JObject? || value.JArray? {
            assert ms[i] in ms;
            var updated := RecursiveThicknessUpdate(value, target);
            out := out[i := (key, updated)];
          }
          i := i + 1;
        }
        r := JObject(out);
      case JArray(items) =>
        var out := items;
        var i := 0;
        while i < |items|
          invariant 0 <= i <= |items| && |out| == |items|
          invariant forall k :: 0 <= k < i ==> out[k] == Thicken(items[k], target)
          invariant forall k :: i <= k < |items| ==> out[k] == items[k]
        {
          var updated := RecursiveThicknessUpdate(items[i], target);
          out := out[i := updated];
          i := i + 1;
        }
        r := JArray(out);
      case _ =>
        r := data;
    }
  }
}
