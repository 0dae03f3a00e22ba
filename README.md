# SprocketForge geometry and blueprint edits, in Dafny

SprocketForge reads Sprocket tank blueprints. A blueprint is a JSON
document of scene objects, blueprints and meshes. SprocketForge does
three things with it:

- It bakes the scene into one vertex buffer and one face list, then
  draws turntable frames of the wireframe.
- It edits the blueprint file: it sets every armour-thickness list to one
  value and can make the tracks invisible.
- It collects the local decal images and the paint map a shared
  blueprint needs.

This project models that core as it is written in
`src/sprocketforge/functions.py`. The same functions appear in
`src/sfedit/functions.py` and in the top-level `functions.py`. The three
copies agree statement for statement on everything modelled here, with
two exceptions: `get_paint` exists only in the first copy, and the
top-level copy stops after `generate_render_frames`. The table below
cites the first copy. In `src/sfedit/functions.py` the same code sits at
lines 16-61 (matrices), 63-152 (bake), 154-223 (frames), 230-246
(thickness), 248-297 (edits) and 304-318 (decals). In `functions.py` it
sits at lines 11-67 (matrices), 69-172 (bake) and 174-243 (frames).

## How the model is organised

- `Matrices` and `Transform` build the local matrix of a part. The
  rotation is Ry · Rx · Rz from Euler angles in degrees. The composed
  transform is T · R · S, with `pos`/`rot` padded with 0 and `scale`
  padded with 1. Sine, cosine and the degree-to-radian conversion are
  parameters, a `Trig` record. Every result therefore holds for any
  values they take; a result that needs a trigonometric identity states
  it as a precondition.
- `Scene` is the loaded document with every `.get(key, default)`
  default already applied. `IndexBy` and `KeyOrder` are the
  `{o["vuid"]: o ...}` dictionaries and their iteration order.
- `Hierarchy.Resolve` is the specification of `get_global_matrix`:
  - an unknown vuid gives the identity;
  - a root gives its local matrix;
  - any other object gives its parent's global matrix times its local
    matrix.
  The source recurses without a guard, so a parent chain that loops ends
  in a `RecursionError` that escapes `bake_geometry`. The model keeps the
  set of objects whose resolution is in progress and reports
  `CyclicParent` instead.
- `BakeSpec` states `bake_geometry` as functions. They cover the filter
  (no cannon, a known structural blueprint, a type other than decal,
  crew and internal), the mesh append with its running vertex offset,
  the implicit-symmetry ghost (flag value 4, `flags & 4`, and no `mirrorVuid`) and the
  loop in document order.
- `Baker` is the same algorithm as the source runs it. A `SceneBaker`
  holds the memo dictionary, the two buffers and the vertex offset. Its
  methods are proved to compute exactly what `BakeSpec.Bake` specifies.
  The memo's invariant is that every cached matrix is the object's
  resolution and that the cache is closed under parents.
- `Decimation` and `Render` cover what `generate_render_frames` decides
  before drawing: the empty results, the bounding box, the extent clamp,
  the scale factor, the face stride, the frame turns and the raise for an
  image size that is not positive.
- `JsonTree`, `Thickness`, `Edits` and `Sharing` model the edits and the
  sharing lookups on a JSON value:
  - dicts are member lists in insertion order;
  - exceptions are `PyError` values;
  - the tracks and thickness loops are methods proved equal to their
    specification functions, and the decal loop is a method tied to the
    predicate `Sharing.DecalsOf`;
  - the paint search, which returns from inside its loop, is the
    recursive function `Sharing.FirstPaint`.
- `Scenarios` works through two concrete scenes: one part with the
  identity transform, baked without and with the symmetry flag.

The symmetry ghost does not reflect vertices: reflecting them would send
(1,0,0) to (-1,0,0). The code instead re-places the same mesh under a
transform whose X position and Y/Z angles are negated
(src/sprocketforge/functions.py:144-146). For a part with X position 0
and Y/Z angles 0 that transform is the part's own, so the ghost lands on
the original.
`Scenarios.SymmetricPartBakesTwice` shows the second copy keeping
(1,0,0).

## Model

| member | source | states |
|---|---|---|
| Transform.Pad3 | src/sprocketforge/functions.py:16-18 | the first three entries of the array, missing ones filled with the default; always three entries |
| Transform.RotationMatrix | src/sprocketforge/functions.py:15-43 | the rotation leaves the translation column zero and the bottom row (0,0,0,1) |
| Transform.ComposeTransform | src/sprocketforge/functions.py:45-60 | `compose_transform` as T·(R·S) from the padded position, angles and scale; the result is affine, bottom row (0,0,0,1); its action on a point and its translation column are stated by the next two rows |
| Transform.ComposeTransformApply | src/sprocketforge/functions.py:15-60 | the composed matrix scales, then rolls (Z), pitches (X) and yaws (Y), then translates a point |
| Transform.ComposeTransformShape | src/sprocketforge/functions.py:45-60 | the composed matrix is affine and its translation column is the padded position |
| Transform.TRSShape | src/sprocketforge/functions.py:57-60 | entries of T·(R·S): translation column is the position, the 3x3 block is R with columns scaled |
| Transform.DefaultTransformIsIdentity | src/sprocketforge/functions.py:45-60 | the default transform (position 0, angles 0, scale 1, in any padded form) is the identity |
| Transform.MirroredTransform | src/sprocketforge/functions.py:144-146 | the ghost's local matrix exists exactly when `pos` and `rot` have three entries, and is affine |
| Transform.MirroredTransformReflects | src/sprocketforge/functions.py:144-146 | with odd sine and even cosine, the ghost's local matrix is the original conjugated by the X reflection |
| Transform.MirroredTransformOfSymmetric | src/sprocketforge/functions.py:144-146 | a placement with X position 0 and Y/Z angles 0 is its own mirror |
| Scene.IndexBy | src/sprocketforge/functions.py:63-65 | the dictionary has exactly the keys of the list, each mapped to a list element carrying that key |
| Scene.IndexByLastWins | src/sprocketforge/functions.py:63-65 | for a repeated key the last element wins |
| Scene.KeyOrder | src/sprocketforge/functions.py:91-92 | dictionary iteration order: each key once, every key of the list present |
| Scene.KeyOrderFirstOccurrence | src/sprocketforge/functions.py:63-65 | a key listed before another occurs in the list at a position where the other has not occurred yet (insertion order of the first occurrence) |
| Scene.KeyOrderDistinct | src/sprocketforge/functions.py:63-65 | with no key repeated, the iteration order is the keys of the list in list order |
| BakeSpec.IndexScene | src/sprocketforge/functions.py:63-65 | the iteration order lists exactly the object dictionary's keys |
| Hierarchy.Resolve | src/sprocketforge/functions.py:69-89 | every matrix the resolution returns is affine |
| Hierarchy.GlobalRule | src/sprocketforge/functions.py:71-86 | root: global = local; parent not an object: global = local; otherwise global = parent's global · local, so a point goes through the local transform and then the parent's |
| Hierarchy.ResolveMonotone | src/sprocketforge/functions.py:69-89 | a resolution that succeeds does not depend on which ancestors are marked in progress |
| Hierarchy.SelfParentIsCyclic | src/sprocketforge/functions.py:81-83 | an object that is its own parent never resolves (the source recurses without end) |
| Hierarchy.AcyclicResolves | src/sprocketforge/functions.py:69-89 | when parent links strictly decrease a rank, every object resolves |
| Baker.SceneBaker.GlobalMatrix | src/sprocketforge/functions.py:69-89 | the memoised lookup returns the resolution; a cached entry is returned and never changed; a resolved object is cached, an unknown vuid gives the identity and is not cached; the memo stays sound and closed under parents |
| Baker.MemoEnter | src/sprocketforge/functions.py:82-83 | marking an uncached object in progress keeps every cached matrix equal to its resolution |
| Baker.MemoLeave | src/sprocketforge/functions.py:82-88 | unmarking an object keeps the memo valid |
| Baker.MemoInsert | src/sprocketforge/functions.py:88 | caching a resolved object whose parent is cached keeps the memo valid |
| Baker.PrePassFirstError | src/sprocketforge/functions.py:91-92 | the pre-pass fails with the error of the first object in order that does not resolve |
| Baker.PrePassAllOk | src/sprocketforge/functions.py:91-92 | the pre-pass succeeds when every object resolves |
| Baker.MemoIsGlobalMap | src/sprocketforge/functions.py:67-92 | a sound memo holding every object is exactly the map of global matrices |
| BakeSpec.PrePass | src/sprocketforge/functions.py:91-92 | the pre-pass succeeds iff every object in order resolves |
| BakeSpec.GlobalMap | src/sprocketforge/functions.py:67-92 | one entry per resolvable object, equal to its global matrix, all affine |
| Baker.SceneBaker.ResolveAll | src/sprocketforge/functions.py:91-92 | the pre-pass loop's outcome is `PrePass`; on success the memo is exactly `GlobalMap` |
| BakeSpec.AddMesh | src/sprocketforge/functions.py:98-116 | unknown mesh or empty vertices: nothing changes; vertex count not a multiple of 3: error; otherwise old buffers kept as prefixes, n = len/3 vertices added, the i-th of them the matrix applied to the point (v[3i], v[3i+1], v[3i+2]), and every face added with each index shifted by the old vertex count |
| Baker.SceneBaker.AddMeshToScene | src/sprocketforge/functions.py:98-116 | the face-by-face append leaves the buffers exactly as `AddMesh` says, with the same error, and the offset equal to the vertex count |
| BakeSpec.GhostMatrix | src/sprocketforge/functions.py:135-147 | the ghost's global matrix exists exactly when `pos`/`rot` have three entries, and is affine |
| Baker.SceneBaker.BakeObjectAt | src/sprocketforge/functions.py:118-149 | one loop iteration (filter, mesh, ghost) leaves the buffers as `BakeObject` says, or fails with its error |
| Baker.SceneBaker.BakeAll | src/sprocketforge/functions.py:118-149 | the loop over the objects in order ends as `BakeLoop` says, stopping at the first error |
| Baker.BakeGeometry | src/sprocketforge/functions.py:62-151 | the imperative bake returns exactly `Bake`: the same buffers or the same error |
| BakeProperties.AddMeshInRange | src/sprocketforge/functions.py:113-116 | when the mesh's faces index its own vertices, every baked face index stays below the vertex count |
| BakeProperties.BakeFacesInRange | src/sprocketforge/functions.py:62-151 | when every mesh's faces index its own vertices, every baked face index is a valid vertex index |
| BakeProperties.BakeObjectCounts | src/sprocketforge/functions.py:118-149 | one object adds its mesh's vertex and face counts times its placements, and nothing when filtered out or meshless |
| BakeProperties.BakeCounts | src/sprocketforge/functions.py:62-151 | baked vertex and face counts are the sums over the objects of mesh count × placements |
| BakeProperties.NothingIncludedBakesEmpty | src/sprocketforge/functions.py:118-125 | if no object passes the filter, the bake is empty, and it fails only when the pre-pass fails |
| BakeProperties.GhostAppendsSecondCopy | src/sprocketforge/functions.py:130-149 | with a ghost the mesh is appended twice, under the object's matrix and then under the ghost's, the second copy's faces shifted past the first copy |
| BakeProperties.GhostIsMirrorInParentFrame | src/sprocketforge/functions.py:135-149 | the ghost maps a point to the X mirror, in the parent's frame, of where the part's local transform maps the mirrored point; the mesh itself is not reflected |
| BakeProperties.GhostOfCenteredPartCoincides | src/sprocketforge/functions.py:135-149 | a resolved object, root or child, with X position 0 and Y/Z angles 0 gets a ghost matrix equal to its own global matrix; for a root this holds when no object has vuid -1, since the ghost's parent is `global_matrices.get(-1, I)` |
| Decimation.Stride | src/sprocketforge/functions.py:176-178 | the stride is 1 up to 15000 faces, otherwise the floor of n/15000 (s·15000 ≤ n < (s+1)·15000) |
| Decimation.Decimate | src/sprocketforge/functions.py:179 | the slice is never longer than the list and starts with its first element |
| Decimation.DecimateIndex | src/sprocketforge/functions.py:179 | the i-th kept face is face i·stride, so order is preserved |
| Decimation.DecimateCovers | src/sprocketforge/functions.py:179 | no multiple of the stride below the length is skipped |
| Decimation.DecimateByOne | src/sprocketforge/functions.py:179 | stride 1 keeps the list unchanged |
| Decimation.SmallSceneUndecimated | src/sprocketforge/functions.py:176-179 | up to 15000 faces all faces are drawn |
| Decimation.LargeSceneBudget | src/sprocketforge/functions.py:176-179 | above 15000 faces between 15000 and 29999 faces are drawn |
| Decimation.JustBelowDoubleTarget | src/sprocketforge/functions.py:176-179 | 29999 faces give stride 1 and are all drawn |
| Render.MinCoord | src/sprocketforge/functions.py:166 | the minimum is at most every coordinate and is one of them |
| Render.MaxCoord | src/sprocketforge/functions.py:167 | the maximum is at least every coordinate and is one of them |
| Render.Extent | src/sprocketforge/functions.py:169 | extents are never negative |
| Render.MaxDim | src/sprocketforge/functions.py:169-171 | the size used for scaling is the largest extent (at least every extent and equal to one of them) when some extent is positive, and 1 when all three are 0 |
| Render.CoincidentVerticesClampToOne | src/sprocketforge/functions.py:170-171 | a scene whose vertices all coincide has its zero extent clamped to 1 |
| Render.RenderFramesShape | src/sprocketforge/functions.py:173-186 | no vertices or no frames asked for: no frames; otherwise a negative size raises (`np.zeros`), size 0 raises (OpenCV rejects the empty image), and a positive size gives exactly `frames_count` frames, all drawn from the decimated faces, at turns in [0, 1) of a revolution, with a positive scale |
| Render.FramesFor | src/sprocketforge/functions.py:166-219 | the frame loop, raising at the first image when the size is not positive, produces exactly `RenderFrames` |
| Render.GenerateRenderFrames | src/sprocketforge/functions.py:153-164 | a file that does not load gives no frames; a bake error propagates; otherwise the frames of the baked scene or the image-size error |
| JsonTree.Lookup | src/sprocketforge/functions.py:259 | `get` finds nothing iff no member has the key; what it finds is a member's value under that key |
| JsonTree.Assign | src/sprocketforge/functions.py:262-265 | after item assignment the key maps to the new value and every other key is unchanged; an existing key keeps its place, a new key is appended |
| JsonTree.AssignOverwrite | src/sprocketforge/functions.py:262-265 | a second assignment to a key overrides the first |
| JsonTree.AssignSame | src/sprocketforge/functions.py:265 | assigning the value a key already has changes nothing |
| JsonTree.Iterate | src/sprocketforge/functions.py:259-260 | iteration fails exactly on null, booleans and numbers; dicts and strings yield strings; nothing is yielded iff the value is falsy |
| Thickness.ThickenSpec | src/sprocketforge/functions.py:228-240 | after the update every "t" list holds only the target and keeps its length, and nothing else in the tree changes |
| Thickness.ThickenPreservesKind | src/sprocketforge/functions.py:230-238 | the update never changes whether a node is a list or a dict |
| Thickness.ThickenUnique | src/sprocketforge/functions.py:228-240 | the updated tree is the only tree of the input's shape whose "t" lists hold only the target |
| Thickness.ThickenIdempotent | src/sprocketforge/functions.py:228-240 | updating twice with the same target is updating once |
| Thickness.RecursiveThicknessUpdate | src/sprocketforge/functions.py:228-240 | the walk over dict items and list items computes exactly the updated tree |
| Edits.RetrackSpec | src/sprocketforge/functions.py:260-265 | a trackBelt gets `blueprint.segmentID` set to the invisible-track GUID, keeps every other key of itself and of its inner blueprint, and other blueprints are unchanged |
| Edits.RetrackIdempotent | src/sprocketforge/functions.py:260-265 | retracking a retracked blueprint changes nothing |
| Edits.RetrackAllSpec | src/sprocketforge/functions.py:259-265 | the track loop succeeds iff every blueprint retracks, then retracks each in place; otherwise it reports the first failure |
| Edits.NoBlueprintsUnchanged | src/sprocketforge/functions.py:259-260 | a document without a "blueprints" key comes back unchanged: the loop runs over the empty default and nothing is added |
| Edits.InvisibleTracksIdempotent | src/sprocketforge/functions.py:256-265 | running the invisible-tracks edit twice is running it once |
| Edits.RetrackBlueprint | src/sprocketforge/functions.py:261-265 | one loop body as written (create `blueprint` when absent, then assign) gives exactly `Retrack` |
| Edits.SetInvisibleTracks | src/sprocketforge/functions.py:256-265 | the loop that updates each blueprint in turn gives exactly `InvisibleTracks` |
| Edits.ThicknessOnlyEdit | src/sprocketforge/functions.py:248-250 | with only the thickness option the edit cannot fail, keeps the document's shape and makes every "t" list uniform |
| Edits.EditBlueprintFile | src/sprocketforge/functions.py:248-265 | thickness first, then tracks, each only when its option is set: exactly `EditBlueprint` |
| Sharing.LocalAsset | src/sprocketforge/functions.py:308-311 | a dict of another type contributes nothing; a path is returned exactly when the inner "blueprint" dict holds it as a non-empty string under the field and it does not start with "http" |
| Sharing.CollectDecals | src/sprocketforge/functions.py:303-313 | the decal loop succeeds iff no blueprint raises, then holds exactly the local decal paths; otherwise it fails with the first blueprint's exception |
| Sharing.GetBlueprintDecals | src/sprocketforge/functions.py:298-313 | a document whose blueprints cannot be read fails; otherwise the result is what the decal loop gives |
| Sharing.GetPaint | src/sprocketforge/functions.py:285-295 | an unreadable "blueprints" value raises; otherwise None exactly when no blueprint has a local paint path and none raises; else the result of the first blueprint not giving None, its exception or its path, and a path returned is the local "colourMapUrl" of a paintJob blueprint |
| Sharing.FirstPaintNone | src/sprocketforge/functions.py:285-295 | the paint search gives None iff no blueprint has a local paint path and none raises |
| Sharing.FirstPaintFound | src/sprocketforge/functions.py:289-293 | otherwise it gives what the first blueprint not yielding None gives, its path or its exception |
| Sharing.PaintIsLocal | src/sprocketforge/functions.py:290-293 | a paint path found is the local "colourMapUrl" of a paintJob blueprint, and every blueprint before it gives nothing |
| Sharing.DecalsAreLocalImageURLs | src/sprocketforge/functions.py:306-311 | the decals collected are exactly the local "imageURL" paths of the decal blueprints |
| Scenarios.PlainPartBakesUnchanged | src/sprocketforge/functions.py:62-151 | one part with the identity transform bakes to its triangle unchanged, with faces [[0,1,2]] |
| Scenarios.PlainPartFrames | src/sprocketforge/functions.py:176-186 | rendering that triangle with four frames gives four frames at quarter turns, each drawn from [[0,1,2]] |

## Left out

- Rasterisation: the camera matrices, the projection to pixels, `cv2.polylines` and the PIL images. A frame records the turn, centre, scale and faces it would be drawn from.
- Numeric trigonometry and floating point: sines, cosines and radians are parameters; arithmetic is exact on reals; `int()` of a float quotient is taken as exact floor division, which holds for face counts in floating-point range.
- File I/O: reading and parsing the document, the error print, the output file name and `json.dump` are not modelled. A load failure is the `None` input of `Render.GenerateRenderFrames`. `Edits.EditBlueprintFile` returns the document it would write or the exception, not the `(bool, message)` pair.
- `pack_blueprint_for_sharing` and `generate_era_files` (zip packing and file copying), the UI modules and the regex rewrite are not part of this model.
- Sharing.GetBlueprintDecals: returns the set of paths; the list order that `list(decals)` gives is not modelled.
- Update in place: the edits are modelled on values. `json.load` builds a tree without shared sub-objects, so updating in place and returning the new tree agree; the tracks edit writes the list back only when the document already has a "blueprints" list.
- Hierarchy.AcyclicResolves: Python's recursion limit (about 1000 frames by default) is not modelled; a parent chain deeper than that raises `RecursionError` in `get_global_matrix`, where the model resolves it.
- Thickness.RecursiveThicknessUpdate: the same recursion limit applies to the walk over nested dicts and lists; a document nested deeper than it raises in the source and is updated in the model.
- Duplicate keys in a JSON object: `json.load` keeps the last value, and the model assumes the parsed dicts have distinct keys.
- Out-of-range face indices in drawing: the renderer indexes `pts_cache[face]`, which raises for a face index past the vertex buffer. `BakeProperties.BakeFacesInRange` shows that this cannot happen when the meshes are well formed; the raise itself is not modelled.
- Non-numeric vertex or transform data (a string in `pos`, a float face index) is outside the typed document model.
- Non-dict values in the scene: `bake_geometry` calls `.get` on the document (src/sprocketforge/functions.py:63) and on a blueprint's `"blueprint"` value (127), so a list or scalar there raises `AttributeError`. `Scene.SceneDoc` and `Scene.Blueprint` are records, so the model cannot express that raise.
- Missing required keys: `bake_geometry` reads `o["vuid"]`, `b["id"]` and `m["vuid"]` when it indexes the document (src/sprocketforge/functions.py:63-65), `["meshData"]["mesh"]`, `["vertices"]` and `["faces"]` of a mesh it adds (102-104) and `f["v"]` of each face (114) by subscript, so a document lacking one of them raises `KeyError`. The typed `Scene.SceneDoc` always carries these fields, so the model cannot express that raise.
- Settings: `use_thickness`, `use_tracks` and `invisible_tracks` are read for truthiness in the source and are booleans here. The default thickness 5 is the number 5.0; the model does not tell an integer from a float in the written file.
