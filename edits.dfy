/**
 * The edits of `edit_blueprint_file` on the loaded document: the armour
 * thickness update and the invisible-tracks rewrite, which sets
 * `blueprint.segmentID` to a fixed GUID on every blueprint of type
 * "trackBelt". Loading and saving the file are not modelled; an exception
 * during the edits (which the source reports as a failed edit) is an
 * `Err`.
 */
module Edits {
  import opened Wrappers
  import opened JsonTree
  import opened Thickness

  /** The segment GUID of the invisible track. */
  const TrackGuid: string := "843f3a65-30f6-4180-a719-f3af1e2bacfe"

  /** A dict whose "type" is the string `kind`. */
  predicate HasType(bp: Json, kind: string)
  {
    bp.JObject? && Lookup(bp.members, "type") == Some(JString(kind))
  }

  /**
   * One iteration of the track loop: `bp.get` raises unless `bp` is a dict;
   * a trackBelt gets "blueprint" (created empty when absent, appended) with
   * "segmentID" set to the GUID; an existing "blueprint" that is not a dict
   * raises on the item assignment.
   */
  function Retrack(bp: Json): (r: Result<Json, PyError>)
  {
    if !bp.JObject? then Err(NoGet)
    else if !HasType(bp, "trackBelt") then Ok(bp)
    else
      var inner := GetOr(bp.members, "blueprint", JObject([]));
      if !inner.JObject? then Err(NoItemAssign)
      else Ok(JObject(Assign(bp.members, "blueprint",
                             JObject(Assign(inner.members, "segmentID", JString(TrackGuid))))))
  }

  /** The track loop over the blueprint list, stopping at the first exception. */
  function RetrackAll(bps: seq<Json>): (r: Result<seq<Json>, PyError>)
    decreases |bps|
  {
    if bps == [] then Ok([])
    else
      match Retrack(bps[0])
      case Err(e) => Err(e)
      case Ok(b) =>
        match RetrackAll(bps[1..])
        case Err(e) => Err(e)
        case Ok(rest) => Ok([b] + rest)
  }

  /**
   * The invisible-tracks edit: `data.get("blueprints", [])` raises unless
   * `data` is a dict; the loop runs over whatever iterating that value
   * yields; a "blueprints" list is updated where it stands, and a document
   * without that key is left as it is.
   */
  function InvisibleTracks(data: Json): (r: Result<Json, PyError>)
  {
    if !data.JObject? then Err(NoGet)
    else
      var bps := GetOr(data.members, "blueprints", JArray([]));
      match Iterate(bps)
      case Err(e) => Err(e)
      case Ok(items) =>
        match RetrackAll(items)
        case Err(e) => Err(e)
        case Ok(updated) =>
          if Lookup(data.members, "blueprints").Some? && bps.JArray? then
            Ok(JObject(Assign(data.members, "blueprints", JArray(updated))))
          else Ok(data)
  }

  /**
   * A retracked blueprint: a trackBelt carries the GUID under
   * `blueprint.segmentID`, keeps every other key of the blueprint and of
   * its "blueprint" dict, and keeps its keys in place; any other dict is
   * unchanged.
   */
  lemma RetrackSpec(bp: Json)
    requires Retrack(bp).Ok?
    ensures var r := Retrack(bp).value;
      && (!HasType(bp, "trackBelt") ==> r == bp)
      && (HasType(bp, "trackBelt") ==>
            && r.JObject?
            && (forall k :: k != "blueprint" ==> Lookup(r.members, k) == Lookup(bp.members, k))
            && Lookup(r.members, "blueprint").Some?
            && var inner := Lookup(r.members, "blueprint").value;
               var prior := GetOr(bp.members, "blueprint", JObject([]));
               && inner.JObject? && prior.JObject?
               && Lookup(inner.members, "segmentID") == Some(JString(TrackGuid))
               && (forall k :: k != "segmentID" ==> Lookup(inner.members, k) == Lookup(prior.members, k)))
  {
  }

  /** Retracking a retracked blueprint changes nothing. */
  lemma RetrackIdempotent(bp: Json)
    requires Retrack(bp).Ok?
    ensures Retrack(Retrack(bp).value) == Retrack(bp)
  {
    if HasType(bp, "trackBelt") {
      var r := Retrack(bp).value;
      var inner := Lookup(r.members, "blueprint").value;
      assert HasType(r, "trackBelt");
      AssignSame(inner.members, "segmentID", JString(TrackGuid));
      AssignSame(r.members, "blueprint", inner);
    }
  }

  /**
   * The loop succeeds iff every blueprint retracks, and then retracks each
   * blueprint where it stands; otherwise it reports the first failure.
   */
  lemma {:induction false} RetrackAllSpec(bps: seq<Json>)
    ensures RetrackAll(bps).Ok? <==> forall i :: 0 <= i < |bps| ==> Retrack(bps[i]).Ok?
    ensures RetrackAll(bps).Ok? ==>
      |RetrackAll(bps).value| == |bps| &&
      forall i :: 0 <= i < |bps| ==> RetrackAll(bps).value[i] == Retrack(bps[i]).value
    ensures RetrackAll(bps).Err? ==>
      exists i :: 0 <= i < |bps| && Retrack(bps[i]) == Err(RetrackAll(bps).error) &&
        forall j :: 0 <= j < i ==> Retrack(bps[j]).Ok?
    decreases |bps|
  {
    if bps != [] {
      RetrackAllSpec(bps[1..]);
      assert forall i :: 1 <= i < |bps| ==> bps[i] == bps[1..][i - 1];
      if Retrack(bps[0]).Ok? && RetrackAll(bps[1..]).Err? {
        var i :| 0 <= i < |bps[1..]| && Retrack(bps[1..][i]) == Err(RetrackAll(bps[1..]).error) &&
          forall j :: 0 <= j < i ==> Retrack(bps[1..][j]).Ok?;
        assert Retrack(bps[i + 1]) == Err(RetrackAll(bps).error);
      }
    }
  }

  /** Running the invisible-tracks edit twice is running it once. */
  lemma InvisibleTracksIdempotent(data: Json)
    requires InvisibleTracks(data).Ok?
    ensures InvisibleTracks(InvisibleTracks(data).value) == InvisibleTracks(data)
  {
    var bps := GetOr(data.members, "blueprints", JArray([]));
    if Lookup(data.members, "blueprints").Some? && bps.JArray? {
      var updated := RetrackAll(bps.items).value;
      RetrackAllSpec(bps.items);
      forall i | 0 <= i < |updated|
        ensures Retrack(updated[i]) == Ok(updated[i])
      {
        RetrackIdempotent(bps.items[i]);
      }
      RetrackAllSpec(updated);
      assert RetrackAll(updated).value == updated;
      var r := InvisibleTracks(data).value;
      assert Lookup(r.members, "blueprints") == Some(JArray(updated));
      AssignSame(r.members, "blueprints", JArray(updated));
    }
  }

  /**
   * A document without a "blueprints" key comes back unchanged: the loop
   * runs over the empty default and nothing is written back.
   */
  lemma NoBlueprintsUnchanged(data: Json)
    requires data.JObject? && Lookup(data.members, "blueprints").None?
    ensures InvisibleTracks(data) == Ok(data)
  {
    assert RetrackAll([]) == Ok([]);
  }

  /** The body of the track loop, as the source runs it on one blueprint. */
  method RetrackBlueprint(bp: Json) returns (r: Result<Json, PyError>)
    ensures r == Retrack(bp)
  {
    if !bp.JObject? {
      return Err(NoGet);
    }
    if !HasType(bp, "trackBelt") {
      return Ok(bp);
    }
    var members := bp.members;
    if Lookup(members, "blueprint").None? {
      members := Assign(members, "blueprint", JObject([]));
      AssignOverwrite(bp.members, "blueprint", JObject([]),
                      JObject(Assign([], "segmentID", JString(TrackGuid))));
    }
    var inner := Lookup(members, "blueprint").value;
    if !inner.JObject? {
      return Err(NoItemAssign);
    }
    inner := JObject(Assign(inner.members, "segmentID", JString(TrackGuid)));
    members := Assign(members, "blueprint", inner);
    r := Ok(JObject(members));
  }

  /**
   * The track loop as the source runs it, updating each blueprint of the
   * list in turn.
   */
  method SetInvisibleTracks(data: Json) returns (r: Result<Json, PyError>)
    ensures r == InvisibleTracks(data)
  {
    if !data.JObject? {
      return Err(NoGet);
    }
    var bps := GetOr(data.members, "blueprints", JArray([]));
    var it := Iterate(bps);
    if it.Err? {
      return Err(it.error);
    }
    ghost var orig := it.value;
    RetrackAllSpec(orig);
    var items := it.value;
    var i := 0;
    while i < |items|
      invariant 0 <= i <= |items| && |items| == |orig|
      invariant forall k :: 0 <= k < i ==> Retrack(orig[k]) == Ok(items[k])
      invariant forall k :: i <= k < |items| ==> items[k] == orig[k]
    {
      var step := RetrackBlueprint(items[i]);
      if step.Err? {
        assert RetrackAll(orig).Err?;
        ghost var j :| 0 <= j < |orig| && Retrack(orig[j]) == Err(RetrackAll(orig).error) &&
          forall j' :: 0 <= j' < j ==> Retrack(orig[j']).Ok?;
        assert j == i;
        return Err(step.error);
      }
      items := items[i := step.value];
      i := i + 1;
    }
    assert RetrackAll(orig).value == items;
    if Lookup(data.members, "blueprints").Some? && bps.JArray? {
      r := Ok(JObject(Assign(data.members, "blueprints", JArray(items))));
    } else {
      r := Ok(data);
    }
  }

  /** The edit options of `edit_blueprint_file`. */
  datatype Settings = Settings(
    useThickness: bool,
    thicknessVal: Option<Json>,
    useTracks: bool,
    invisibleTracks: bool)

  /** `settings.get("thickness_val", 5)` */
  function TargetThickness(s: Settings): Json
  {
    match s.thicknessVal
    case Some(v) => v
    case None => JNumber(5.0)
  }

  /** The document `edit_blueprint_file` writes out, or the exception it reports. */
  function EditBlueprint(data: Json, s: Settings): (r: Result<Json, PyError>)
  {
    var thick := if s.useThickness then Thicken(data, TargetThickness(s)) else data;
    if s.useTracks && s.invisibleTracks then InvisibleTracks(thick) else Ok(thick)
  }

  /**
   * With only the thickness option the edit never fails and leaves the
   * document of the same shape with every "t" list uniform.
   */
  lemma ThicknessOnlyEdit(data: Json, s: Settings)
    requires s.useThickness && !(s.useTracks && s.invisibleTracks)
    ensures EditBlueprint(data, s).Ok?
    ensures var r := EditBlueprint(data, s).value;
      SameOutside(data, r) && Uniform(r, TargetThickness(s))
  {
    ThickenSpec(data, TargetThickness(s));
  }

  /** The edits of `edit_blueprint_file`, in the source's order. */
  method EditBlueprintFile(data: Json, s: Settings) returns (r: Result<Json, PyError>)
    ensures r == EditBlueprint(data, s)
  {
    var doc := data;
    if s.useThickness {
      doc := RecursiveThicknessUpdate(doc, TargetThickness(s));
    }
    if s.useTracks && s.invisibleTracks {
      r := SetInvisibleTracks(doc);
    } else {
      r := Ok(doc);
    }
  }
}
