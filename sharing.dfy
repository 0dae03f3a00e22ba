/**
 * The lookups of the blueprint sharing feature: the distinct local decal
 * images (`get_blueprint_decals`) and the first local paint map
 * (`get_paint`). A path counts as local when it is truthy and does not
 * start with "http".
 */
module Sharing {
  import opened Wrappers
  import opened JsonTree
  import opened Edits

  /** `data.get("blueprints", [])`, and what iterating it yields. */
  function BlueprintItems(data: Json): (r: Result<seq<Json>, PyError>)
  {
    if !data.JObject? then Err(NoGet)
    else Iterate(GetOr(data.members, "blueprints", JArray([])))
  }

  /**
   * `u` is the local path a blueprint of type `kind` carries under
   * `field` of its "blueprint" dict: a non-empty string not starting with
   * "http".
   */
  predicate LocalField(bp: Json, kind: string, field: string, u: string)
  {
    && bp.JObject? && HasType(bp, kind)
    && var inner := GetOr(bp.members, "blueprint", JObject([]));
       && inner.JObject?
       && Lookup(inner.members, field) == Some(JString(u))
       && u != [] && !IsRemote(u)
  }

  /**
   * One iteration of the decal or paint loop for blueprints of type
   * `kind`: `bp.get` and `.get(field)` on the inner "blueprint" raise
   * unless they are dicts, `startswith` raises on a truthy non-string; the
   * result is the field's string when it is a local path.
   */
  function LocalAsset(bp: Json, kind: string, field: string): (r: Result<Option<string>, PyError>)
    ensures r == Ok(None) <== bp.JObject? && !HasType(bp, kind)
    ensures r.Ok? && r.value.Some? ==> LocalField(bp, kind, field, r.value.value)
    ensures forall u :: LocalField(bp, kind, field, u) ==> r == Ok(Some(u))
  {
    if !bp.JObject? then Err(NoGet)
    else if !HasType(bp, kind) then Ok(None)
    else
      var inner := GetOr(bp.members, "blueprint", JObject([]));
      if !inner.JObject? then Err(NoGet)
      else
        match Lookup(inner.members, field)
        case None => Ok(None)
        case Some(url) =>
          if !Truthy(url) then Ok(None)
          else if !url.JString? then Err(NoStartswith)
          else if IsRemote(url.s) then Ok(None)
          else Ok(Some(url.s))
  }

  function DecalOf(bp: Json): Result<Option<string>, PyError>
  {
    LocalAsset(bp, "decal", "imageURL")
  }

  function PaintOf(bp: Json): Result<Option<string>, PyError>
  {
    LocalAsset(bp, "paintJob", "colourMapUrl")
  }

  /**
   * `get_blueprint_decals`: the set of local image paths of the decal
   * blueprints, or the first exception the loop raises.
   */
  method GetBlueprintDecals(data: Json) returns (r: Result<set<string>, PyError>)
    ensures BlueprintItems(data).Err? ==> r == Err(BlueprintItems(data).error)
    ensures BlueprintItems(data).Ok? ==> DecalsOf(BlueprintItems(data).value, r)
  {
    var items := BlueprintItems(data);
    if items.Err? {
      return Err(items.error);
    }
    r := CollectDecals(items.value);
  }

  /**
   * `r` is what the decal loop gives for `bps`: it succeeds iff no
   * blueprint raises, then holds exactly the local decal paths; otherwise
   * it is the exception of the first blueprint that raises.
   */
  ghost predicate DecalsOf(bps: seq<Json>, r: Result<set<string>, PyError>)
  {
    && (r.Ok? <==> forall i :: 0 <= i < |bps| ==> DecalOf(bps[i]).Ok?)
    && (r.Ok? ==> forall u :: u in r.value <==> exists i :: 0 <= i < |bps| && DecalOf(bps[i]) == Ok(Some(u)))
    && (r.Err? ==> exists i :: 0 <= i < |bps| && DecalOf(bps[i]) == Err(r.error) &&
                     forall j :: 0 <= j < i ==> DecalOf(bps[j]).Ok?)
  }

  /** The decal loop: `decals.add(image_url)` for every local decal path. */
  method CollectDecals(bps: seq<Json>) returns (r: Result<set<string>, PyError>)
    ensures DecalsOf(bps, r)
  {
    var decals: set<string> := {};
    var i := 0;
    while i < |bps|
      invariant 0 <= i <= |bps|
      invariant forall j :: 0 <= j < i ==> DecalOf(bps[j]).Ok?
      invariant forall u :: u in decals <==> exists j :: 0 <= j < i && DecalOf(bps[j]) == Ok(Some(u))
    {
      var d := DecalOf(bps[i]);
      if d.Err? {
        return Err(d.error);
      }
      if d.value.Some? {
        decals := decals + {d.value.value};
      }
      i := i + 1;
    }
    r := Ok(decals);
  }

  /** The paint loop over `bps`: the first local paint path, if any. */
  function FirstPaint(bps: seq<Json>): (r: Result<Option<string>, PyError>)
    decreases |bps|
  {
    if bps == [] then Ok(None)
    else
      match PaintOf(bps[0])
      case Err(e) => Err(e)
      case Ok(Some(url)) => Ok(Some(url))
      case Ok(None) => FirstPaint(bps[1..])
  }

  /**
   * `get_paint`: an unreadable "blueprints" value raises; otherwise None
   * exactly when no blueprint has a local paint path and none raises, and
   * else what the first blueprint not giving None gives: its exception, or
   * the local "colourMapUrl" of that paintJob blueprint.
   */
  function GetPaint(data: Json): (r: Result<Option<string>, PyError>)
    ensures BlueprintItems(data).Err? ==> r == Err(BlueprintItems(data).error)
    ensures BlueprintItems(data).Ok? ==> var bps := BlueprintItems(data).value;
      && (r == Ok(None) <==> forall i :: 0 <= i < |bps| ==> PaintOf(bps[i]) == Ok(None))
      && (r != Ok(None) ==>
            exists i :: 0 <= i < |bps| && PaintOf(bps[i]) == r &&
              forall j :: 0 <= j < i ==> PaintOf(bps[j]) == Ok(None))
    ensures r.Ok? && r.value.Some? ==> var bps := BlueprintItems(data).value;
      exists i :: 0 <= i < |bps| && LocalField(bps[i], "paintJob", "colourMapUrl", r.value.value)
  {
    match BlueprintItems(data)
    case Err(e) => Err(e)
    case Ok(bps) =>
      FirstPaintNone(bps);
      if FirstPaint(bps) == Ok(None) then Ok(None)
      else FirstPaintFound(bps); FirstPaint(bps)
  }

  /** The paint search finds nothing iff no blueprint has a local paint path. */
  lemma {:induction false} FirstPaintNone(bps: seq<Json>)
    ensures FirstPaint(bps) == Ok(None) <==> forall i :: 0 <= i < |bps| ==> PaintOf(bps[i]) == Ok(None)
    decreases |bps|
  {
    if bps != [] {
      FirstPaintNone(bps[1..]);
      assert forall i :: 1 <= i < |bps| ==> bps[i] == bps[1..][i - 1];
    }
  }

  /**
   * Otherwise the search returns what the first blueprint that does not
   * give "nothing" gives: its local paint path or its exception, looking at
   * nothing after it.
   */
  lemma {:induction false} FirstPaintFound(bps: seq<Json>)
    requires FirstPaint(bps) != Ok(None)
    ensures exists i :: 0 <= i < |bps| && PaintOf(bps[i]) == FirstPaint(bps) &&
              forall j :: 0 <= j < i ==> PaintOf(bps[j]) == Ok(None)
    decreases |bps|
  {
    if PaintOf(bps[0]) == Ok(None) {
      var rest := bps[1..];
      FirstPaintFound(rest);
      var i :| 0 <= i < |rest| && PaintOf(rest[i]) == FirstPaint(rest) &&
        forall j :: 0 <= j < i ==> PaintOf(rest[j]) == Ok(None);
      assert bps[i + 1] == rest[i];
      assert forall j :: 1 <= j < i + 1 ==> bps[j] == rest[j - 1];
    } else {
      assert PaintOf(bps[0]) == FirstPaint(bps);
    }
  }

  /**
   * A paint path found by the search is the local "colourMapUrl" of a
   * paintJob blueprint, and every blueprint before it gives nothing.
   */
  lemma PaintIsLocal(data: Json)
    requires GetPaint(data).Ok? && GetPaint(data).value.Some?
    ensures var p, bps := GetPaint(data).value.value, BlueprintItems(data).value;
      exists i :: 0 <= i < |bps| && LocalField(bps[i], "paintJob", "colourMapUrl", p) &&
        forall j :: 0 <= j < i ==> PaintOf(bps[j]) == Ok(None)
  {
    FirstPaintFound(BlueprintItems(data).value);
  }

  /**
   * The decals collected are exactly the local "imageURL" paths of the
   * decal blueprints.
   */
  lemma DecalsAreLocalImageURLs(bps: seq<Json>, r: Result<set<string>, PyError>)
    requires DecalsOf(bps, r) && r.Ok?
    ensures forall u :: u in r.value <==> exists i :: 0 <= i < |bps| && LocalField(bps[i], "decal", "imageURL", u)
  {
    forall u | u in r.value
      ensures exists i :: 0 <= i < |bps| && LocalField(bps[i], "decal", "imageURL", u)
    {
      var i :| 0 <= i < |bps| && DecalOf(bps[i]) == Ok(Some(u));
      assert LocalField(bps[i], "decal", "imageURL", u);
    }
    forall u, i | 0 <= i < |bps| && LocalField(bps[i], "decal", "imageURL", u)
      ensures u in r.value
    {
      assert DecalOf(bps[i]) == Ok(Some(u));
    }
  }
}
