# Bathroom tile visualizer — verified model of the upload and texturing logic

The visualizer loads one bathroom model, lets the user upload up to four tile
images (categories L, D, HL and F), and on "Generate" maps each category's
texture onto a fixed set of meshes, chosen by name. This project models the
bookkeeping behind that in Dafny:

- `Upload` (upload.dfy): the file validator. A file is accepted iff its MIME type
  starts with `image/` and its size is at most 5 MiB (5 242 880 bytes).
  Otherwise it is rejected with the fixed message
  `Invalid image (must be JPG/PNG, <=5MB).`
- `Textures` (texture.dfy): what every texture-load callback writes onto a decoded
  texture. That is a quarter-turn rotation about the centre, no vertical flip,
  repeat wrapping on both axes, and a 1×1 repeat.
- `Meshes` (meshes.dfy): the mesh name lists. There are four lists used at
  generate time and the 48-name tile list used at load time. This module also
  holds the material preparation run on every mesh when the model loads.
- `Texturing` (texturing.dfy): the generate-time traversal. It runs the first-match
  `else if` chain over the four lists, gives each mesh at most one map, and counts
  the assignments (`appliedCount`).
- `Session` (session.dfy): the page state and its events. The state holds the
  per-category stored image, prepared texture, slot view and in-flight requests,
  plus the model-load state, whether the model is in the scene, whether the
  canvas is visible, and the alerts shown. Each asynchronous callback is one
  discrete event: FileReader `onload`, TextureLoader success/error and
  GLTFLoader success/error. A completion is only enabled while a matching
  request is in flight.
- `Behaviour` (behaviour.dfy): properties that span several events.

Meshes are abstracted to names. Images (data URLs) are strings. Decoded pixels
are an opaque number inside `Texture`. A material keeps only what the logic reads
or writes: whether its `type` is exactly `MeshStandardMaterial`, its tile/wall finish tag, its
`map` and its `needsUpdate` flag.

Some behaviours of the code are easy to miss and are modelled as written:

- The file input's `change` event runs two listeners: the validator and a texture
  load. The texture is loaded from the selected file itself, not from the
  validated image, and the load does not consult the validator. So an image over 5 MiB
  is rejected on screen but still becomes the category's texture
  (`Behaviour.OversizeImageIsStillTextured`).
- A drop assigns `input.files`, and that fires no `change` event. So a drop stores
  the image but never prepares a texture (`Behaviour.NoTextureWithoutInputChange`).
- Clear does not cancel requests in flight. A texture load that completes after a
  clear puts a texture back, so a clear empties the slot for good only once the
  requests in flight have completed (`Behaviour.LateTextureSurvivesClear`).

## Model

| member | source | states |
|---|---|---|
| `Upload.Validate` | index.js:155-177 | Accepts exactly the files whose MIME type begins with the six characters `image/` and whose size is at most 5 242 880 bytes. Every rejection carries the exact error text. |
| `Upload.SizeBoundaryIsInclusive` | index.js:155 | For an image type, a file of exactly 5 MiB is accepted and one byte more is rejected. |
| `Upload.TypeTestIsCaseSensitivePrefix` | index.js:155 | The type test is a case-sensitive prefix test. Any `image/` subtype passes; `Image/png`, `image` and non-image types fail. |
| `Textures.Orient` | index.js:201-208 | A completed texture load ends oriented (quarter turn about the centre, no flipY, repeat wrapping on both axes, repeat 1×1) with its pixels kept. Orienting an already oriented texture changes nothing. |
| `Textures.OrientIgnoresSettings` | index.js:201-208 | The prepared texture depends only on the decoded pixels, not on the decoder's default settings. |
| `Textures.OrientIdempotent` | index.js:201-208 | Running the orientation callback twice gives the same texture as running it once. |
| `Meshes.ListsDisjoint` | index.js:307-314 | The four generate-time name lists are pairwise disjoint. |
| `Meshes.OnlyList` | index.js:307-314 | A name in one category's list is in none of the other three lists. |
| `Meshes.TileNamesAreDLF` | index.js:62-67 | The 48-name load-time list is exactly the D list, then the L list, then the F list. |
| `Meshes.TileNameIff` | index.js:62-68 | A name is in the load-time tile list iff it is an L, D or F name. |
| `Meshes.Classify` | index.js:307-314 | Returns the category whose list holds the name; returns none exactly when the name is in no list. |
| `Meshes.ClassifyExact` | index.js:307-314 | A name classifies as category c iff it is in c's list. |
| `Meshes.PrepareMaterial` | index.js:68-95 | A prepared material is always a standard material marked for update and tagged with its branch. A standard material keeps its map; any other material is replaced by one without a map. |
| `Meshes.PrepareNode` | index.js:59-97 | Load-time preparation keeps every node's name and kind, and leaves non-mesh nodes untouched. |
| `Meshes.PreparedFinish` | index.js:59-97 | After loading, a mesh has the tile finish iff its name is an L, D or F name, and the wall finish otherwise (HL names included). Every mesh is standard and marked for update. |
| `Meshes.HLMeshesAreWalls` | index.js:62-68 | A mesh with an HL name always takes the wall branch at load time. |
| `Texturing.ChainCategory` | index.js:316-336 | When the `else if` chain picks a category, the name is in that category's list and that category's texture is present. |
| `Texturing.ChainCategoryExact` | index.js:316-336 | The chain picks category c iff the name is in c's list and c's texture is present. This covers both directions, using the lists' disjointness. |
| `Texturing.ChainIsClassifyThenLookup` | index.js:307-336 | The first-match chain equals "classify the name, then use that category's texture if it is present". |
| `Texturing.RetextureEffect` | index.js:316-336 | A mesh in c's list gets c's texture as its map and is marked for update when c's texture is present. A node with an unknown name, a node whose category has no texture, and a non-mesh node are left unchanged. |
| `Texturing.RetextureAllEffect` | index.js:304-338 | In the generate traversal, the i-th node keeps its name and kind. If it is a mesh in c's list and c's texture is present, it gets that texture as its map and is marked for update. A node with an unknown name, a node whose category has no texture, and a non-mesh node come out unchanged. |
| `Texturing.Matching` | index.js:303-338 | There are never more matched names than meshes. |
| `Texturing.MatchedNamesAreClassified` | index.js:316-336 | Every matched name is in the list of a category whose texture is present. |
| `Texturing.ApplyToNode` | index.js:316-336 | The `else if` chain as written in the handler produces the node the traversal specifies. It reports an assignment exactly when the chain picks a category for a mesh. |
| `Texturing.ApplyTextures` | index.js:303-338 | The traversal with its `appliedCount` counter produces the retextured model. The counter ends equal to the number of matched meshes, so it never exceeds the mesh count. |
| `Texturing.MatchingMembers` | index.js:304-338 | A name is among the matched names iff some mesh of that name is picked by the chain. |
| `Texturing.UnknownNamesNeverTextured` | index.js:316-336 | A name in no list is never matched, and nodes with that name are never changed. |
| `Texturing.NoTexturesNoMatches` | index.js:316-336 | With no texture present nothing matches, and the model is unchanged. |
| `Texturing.SingleCategoryMatches` | index.js:316-336 | With exactly one category's texture present, the matched meshes are exactly the meshes in that category's list, in traversal order. |
| `Texturing.RetextureIdempotent` | index.js:316-336 | Applying the same textures a second time changes no material and matches the same meshes. |
| `Session.ProcessFile` | index.js:153-179 | A missing file changes nothing. A valid file starts one read. An invalid file shows the exact error and keeps the stored image and texture. No other category changes. |
| `Session.StartTextureLoad` | index.js:194-200 | Any selected file starts one texture load for its category, whether or not it is valid. Nothing else changes. |
| `Session.ReadComplete` | index.js:157-167 | A completed read stores its data URL as the category's image and shows the preview. The texture and every other category are left alone. |
| `Session.TextureComplete` | index.js:201-208 | A completed texture load makes the category's texture an oriented texture with the decoded pixels. The image, the view and every other category are left alone. |
| `Session.Clear` | index.js:134-150 | Clear removes the category's image and texture and shows the blank slot. Every other category, the model and the canvas are unchanged, and requests in flight are kept. |
| `Session.Generate` | index.js:296-350 | While the model is not loaded (still loading, or failed to load), only the not-loaded alert is added. After it loads, the model goes into the scene and is retextured. The canvas is shown if some mesh's name is in the list of a category whose texture is present; otherwise the no-match alert is raised and the canvas is unchanged. |
| `Session.AppliedCountZeroIff` | index.js:339-346 | `appliedCount` is zero iff no mesh's name is in the list of a category whose texture is present. |
| `Behaviour.ModelLoadedOnlyByLoadSuccess` | index.js:45-57 | `modelLoaded` becomes true only through the model-load success callback, and once true it stays true. |
| `Behaviour.NoTextureWithoutInputChange` | index.js:124-132 | Without a file chosen through an input, no texture ever appears: drops, reads, clears, loads and generate clicks prepare none. |
| `Behaviour.DropStartsNoTextureLoad` | index.js:124-132 | A drop leaves every category's texture and in-flight loads unchanged. |
| `Behaviour.UploadThenClearIsEmpty` | index.js:134-150 | Upload a valid file, let its read and texture load finish, then clear: the slot ends with no image, no texture and a blank view, and other categories are as before. |
| `Behaviour.OversizeImageIsStillTextured` | index.js:195-216 | A 5 242 881-byte PNG is rejected with the error and stores no image. Its texture load still completes into the category's texture. |
| `Behaviour.RejectionKeepsStoredImage` | index.js:170-177 | A rejected file, whether dropped or chosen, keeps the category's previous image and texture. |
| `Behaviour.LateTextureSurvivesClear` | index.js:199-210 | A texture load in flight when clear is clicked puts a texture back into the cleared slot when it completes. |
| `Behaviour.LastCompletedReadWins` | index.js:156-169 | With two reads in flight for one category, the stored image is the data URL carried by the last read completion. |
| `Behaviour.GenerateWithoutTextures` | index.js:340-341 | With the model loaded and no texture present, generate raises the no-match alert, leaves the canvas as it was and changes no material. |
| `Behaviour.GenerateSingleCategory` | index.js:316-346 | With exactly one texture present, the textured meshes are that category's meshes. The canvas is made visible when there is at least one; otherwise the no-match alert is raised and the canvas is left as it was. |
| `Behaviour.GenerateIdempotent` | index.js:296-349 | A second generate click leaves the model, the canvas and the upload slots as the first click left them, whether or not the model is loaded. |

## Left out

- The three.js scene, lights, camera, renderer, orbit controls, animation loop and
  resize handling (index.js:1-20, 352-373). These are rendering calls with no
  decision logic.
- The environment cube map and its try/catch (index.js:22-37). This is network
  I/O; the `envMap` it feeds is not modelled.
- FileReader, TextureLoader and GLTFLoader internals, and the load-progress
  percentage (index.js:99-101). Only their completions are modelled, as events
  carrying the data URL, the decoded texture or the scene graph.
- Floating-point material values (roughness, metalness, emissive, colours), the
  model's position and scale, and the `isCloned` marker. The only trace of the
  load-time branches kept is the tile/wall finish tag.
- The texture rotation is kept as "one quarter turn" and the pivot as "centred".
  The source's floating-point pi/2 and (0.5, 0.5) are not modelled.
- DOM styling: drag-over and drag-leave border colours, preview `src`, the
  `has-image` class, the clear button's display, `input.value = ''`, and console
  logging. The slot view (blank, preview or error) stands for them.
- The canvas is assumed hidden at start-up by the page's stylesheet, which is not
  part of this model.
- Races between overlapping requests are modelled only to the extent of
  completion order. Any in-flight completion may fire at any time, but events are
  atomic.
