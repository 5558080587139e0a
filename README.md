# osgEarth terrain layer drawing and terrain mesh URIs, in Dafny

This project models two pieces of osgEarth.

The first is the NVIDIA bindless ("NVGL") draw path of the REX terrain
engine, `LayerDrawableNVGL`. Once per cull traversal it turns the list of
visible tiles of one terrain layer into device tile entries, a fixed-layout
record per tile that the shader reads. Each entry holds the tile's
model-view matrix, its tile key, the texture-arena index and texture matrix
of every bound sampler (color, parent color, elevation, normal, land cover
and up to 14 generic shared samplers), and the layer's draw order. While it
does so it stamps the policy fields of the textures it meets. When it
finishes it publishes the tiles and marks the render state dirty.

At draw time, per graphics context, the draw path:

- lazily creates the tile buffer, the indirect command buffer with its
  vertex array object, and the shared-constants buffer;
- re-uploads the tile entries and the rebuilt draw commands when the state
  is dirty;
- applies the texture arena, binds the buffers, and submits one
  multi-draw, or hands the tiles to a patch layer's renderer.

Releasing GL objects drops one context's handles or resets every context's
cache. Resizing only ever grows the per-context array.

The second piece is the URL handling of `TerrainMeshLayer`:

- the `invert_y` option, which defaults to false;
- the `[...]` rotation group picked out of the template when the layer
  opens;
- `createURI`, which fills the eight `${x}`/`{x}`-style placeholders with
  decimal numbers, inverts y in unsigned 32-bit arithmetic, and replaces
  the rotation group by one character of it, cycling with a wrapping
  unsigned counter.

Modules:

- `Wrappers`: `Option`.
- `Strings`: the left-to-right replace-all and `std::to_string`.
- `Textures`: texture identities, their policy fields, the per-role stamps,
  and the arena class.
- `TileRecords`: tiles, samplers, the device tile entry, and the rebuild
  rules as predicates.
- `LayerDrawables`: the classes `RenderState` and `LayerDrawableNVGL`, with
  the draw bookkeeping as functions on frames.
- `TerrainMesh`: the class `TerrainMeshLayer` and its URI functions.

The state that the source updates in place is modelled as classes:

- the render state (`tiles`, `tilebuf`, `commands`, `dirty`, `gcState`);
- the collected tile list and the warning log of the drawable;
- the arena's index map and the policy fields of the textures;
- the template and rotation fields of the terrain mesh layer.

Each method is proved against a function or predicate on values. The
properties of those functions are proved as lemmas.

## Model

| member | source | states |
|---|---|---|
| `Strings.ReplaceAll` | src/osgEarth/TerrainMeshLayer.cpp:115-124 | `replaceIn`: scanning from the left, each occurrence of the pattern is replaced and the scan resumes after the inserted text. Its properties are the lemmas below. |
| `Strings.ReplaceAllAppend` | src/osgEarth/TerrainMeshLayer.cpp:115-124 | When no occurrence of the pattern straddles the seam of two strings, replacing in their concatenation is replacing in each. |
| `Strings.ReplaceAllWithoutMatch` | src/osgEarth/TerrainMeshLayer.cpp:115-124 | Replacing a placeholder that does not occur leaves the location unchanged. |
| `Strings.OccurrenceAfterReplace` | src/osgEarth/TerrainMeshLayer.cpp:115-124 | An occurrence of `q` in the result, when `q` shares no character with the inserted text, was already in the input and is not the replaced pattern. |
| `Strings.ReplaceAllRemovesPattern` | src/osgEarth/TerrainMeshLayer.cpp:115-124 | After a pattern is replaced by text sharing no character with it, the pattern no longer occurs. |
| `Strings.ReplaceAllKeepsAbsent` | src/osgEarth/TerrainMeshLayer.cpp:115-124 | A replacement cannot create an occurrence of a pattern that shares no character with the inserted text. |
| `Strings.DecimalString` | src/osgEarth/TerrainMeshLayer.cpp:115-118 | `std::to_string` of an unsigned value is non-empty and all decimal digits, with no leading zero for a positive value. |
| `Strings.DecimalRoundTrip` | src/osgEarth/TerrainMeshLayer.cpp:115-118 | Reading the decimal text back gives the number. |
| `TerrainMesh.InvertYOption` | src/osgEarth/TerrainMeshLayer.cpp:33-37 | `invert_y` is false when the key is absent and equals its value when present. |
| `TerrainMesh.InvertedY` | src/osgEarth/TerrainMeshLayer.cpp:105 | For a row inside the profile the result is `rows - y - 1`, and it is inside the profile too; otherwise the unsigned subtraction wraps by 2^32. |
| `TerrainMesh.InvertedYInvolution` | src/osgEarth/TerrainMeshLayer.cpp:105-110 | Inverting a row inside the profile twice gives the row back. |
| `TerrainMesh.RowFor` | src/osgEarth/TerrainMeshLayer.cpp:107-110 | The `${y}` value is the inverted row when `invertY` is set and the tile's own row otherwise. |
| `TerrainMesh.PlaceholdersHaveNoDigits` | src/osgEarth/TerrainMeshLayer.cpp:115-124 | The eight placeholders are non-empty and contain no digit. |
| `TerrainMesh.SubstitutionStep` | src/osgEarth/TerrainMeshLayer.cpp:115-124 | Replacing the next placeholder by a decimal number removes it and brings back none of the earlier ones. |
| `TerrainMesh.Substitute` | src/osgEarth/TerrainMeshLayer.cpp:112-124 | The eight replacements, `${...}` forms first. After them no placeholder occurs in the location, whatever the template. |
| `TerrainMesh.DigitsUntouched` | src/osgEarth/TerrainMeshLayer.cpp:121-124 | A location made only of decimal digits is unchanged by the replacement of any placeholder. Numbers inside a larger location are covered by `TerrainMesh.SubstituteFillsFields`. |
| `TerrainMesh.FieldValue` | src/osgEarth/TerrainMeshLayer.cpp:116-124 | The `x` placeholders receive the column, the `y` ones the row, the `-y` ones the inverted row and the `z` ones the level. |
| `TerrainMesh.PlaceholderShape` | src/osgEarth/TerrainMeshLayer.cpp:116-124 | Each placeholder opens with `$` or `{`, holds `}` only as its last character, and differs from the others in opener, length or letter. |
| `TerrainMesh.LaterPlaceholdersAbsent` | src/osgEarth/TerrainMeshLayer.cpp:116-124 | No placeholder contains one replaced before it, so an earlier pass never rewrites inside a later placeholder; this is why the `${...}` forms are replaced before the legacy `{...}` ones they contain. |
| `TerrainMesh.PieceText` | src/osgEarth/TerrainMeshLayer.cpp:116-124 | After `done` passes a piece of literal text is unchanged, a placeholder already replaced is its value's decimal text, and any other placeholder is still its own text. |
| `TerrainMesh.RenderPass` | src/osgEarth/TerrainMeshLayer.cpp:116-124 | Each single replacement pass turns the template written after `k` passes into the template written after `k + 1` passes. |
| `TerrainMesh.SubstituteFillsFields` | src/osgEarth/TerrainMeshLayer.cpp:112-124 | For every template made of literal text (free of `$`, `{`, `}`) and placeholders, the eight replacements keep the text and put in each placeholder the decimal digits of its value. |
| `TerrainMesh.LegacyYReceivesRow` | src/osgEarth/TerrainMeshLayer.cpp:116-122 | The template `{y}` becomes the decimal text of the row that `${y}` would receive. |
| `TerrainMesh.Find` | src/osgEarth/TerrainMeshLayer.cpp:67-68 | `std::string::find` of a character gives its first position, and gives no position exactly when the character is absent. |
| `TerrainMesh.RotationGroup` | src/osgEarth/TerrainMeshLayer.cpp:67-73 | The intended rule (see Findings): a group iff both brackets occur and the first `]` is at least two places after the first `[`. Its choices are the characters strictly between them, non-empty, and the group is `[` + choices + `]`. The source's own guard at line 69 differs and is `TerrainMesh.RotationGroupAsWritten`. |
| `TerrainMesh.Substr` | src/osgEarth/TerrainMeshLayer.cpp:71-72 | `substr(pos, count)` is the slice starting at `pos`, of length `count` when that fits and the rest of the string otherwise. |
| `TerrainMesh.SizeTSub` | src/osgEarth/TerrainMeshLayer.cpp:69 | A `size_t` difference stays below 2^64. |
| `TerrainMesh.SizeTAdd` | src/osgEarth/TerrainMeshLayer.cpp:71-72 | A `size_t` sum stays below 2^64. |
| `TerrainMesh.SizeTWraps` | src/osgEarth/TerrainMeshLayer.cpp:69-72 | The `size_t` difference and sum are the mathematical ones modulo 2^64. |
| `TerrainMesh.RotationGroupAsWritten` | src/osgEarth/TerrainMeshLayer.cpp:67-73 | The guard as written accepts both brackets in any order except a `]` directly after the `[`. |
| `TerrainMesh.AsWrittenAgreesWhenOrdered` | src/osgEarth/TerrainMeshLayer.cpp:67-73 | When the first `]` follows the first `[`, the guard as written and the intended rule give the same group. |
| `TerrainMesh.AsWrittenAcceptsReversedBrackets` | src/osgEarth/TerrainMeshLayer.cpp:67-72 | As written, a `]` placed before the `[` still passes the guard: the as-written group exists, the corrected one does not, and when the `]` lies more than one place before the `[`, the as-written group runs from the `[` to the end of the template and the choices are everything after the `[`. |
| `TerrainMesh.ReversedBracketsExample` | src/osgEarth/TerrainMeshLayer.cpp:69-72 | For the template `a]b[cd`, the as-written code takes `[cd` as the group and `cd` as the choices; the corrected rule finds no group. |
| `TerrainMesh.RotationIndex` | src/osgEarth/TerrainMeshLayer.cpp:131 | The chosen index is the pre-incremented, 32-bit wrapped counter modulo the number of choices, so it always indexes a choice. |
| `TerrainMesh.RotationCycles` | src/osgEarth/TerrainMeshLayer.cpp:128-132 | Successive tiles take successive choices cyclically while the counter does not wrap. |
| `TerrainMesh.TerrainMeshLayer.constructor` | src/osgEarth/TerrainMeshLayer.cpp:33 | A new layer has the configured or default `invertY` and no template, rotation group or counter value. |
| `TerrainMesh.TerrainMeshLayer.Open` | src/osgEarth/TerrainMeshLayer.cpp:60-76 | A base-layer error is returned with nothing changed. Otherwise the result is OK, the template is the full URI, and the rotation fields take the group when there is one and keep their values when there is none. |
| `TerrainMesh.TerrainMeshLayer.CreateURI` | src/osgEarth/TerrainMeshLayer.cpp:99-136 | The location is the template with the eight placeholders filled. Only with a rotation group, the counter advances with 32-bit wrap and the whole bracketed group `[` + choices + `]` is replaced by the choice at `RotationIndex`. |
| `Textures.Stamp` | src/osgEarthDrivers/engine_rex/LayerDrawable.cpp:207-272 | Every stamp turns compression off and sets mip-mapping by role; only the elevation stamp sets the format (`GL_R32F`); every stamp but the shared one sets anisotropy to 1. |
| `Textures.ApplyStamps` | src/osgEarthDrivers/engine_rex/LayerDrawable.cpp:207-272 | Stamping policies never adds or removes a texture. |
| `Textures.StampAll` | src/osgEarthDrivers/engine_rex/LayerDrawable.cpp:207-272 | After a sequence of stamps: the last stamp decides mip-mapping, and any stamp turns compression off. An elevation stamp fixes the format to `GL_R32F`, and any stamp other than a shared one sets anisotropy to 1. No stamp keeps the policy. |
| `Textures.ApplyStampsAt` | src/osgEarthDrivers/engine_rex/LayerDrawable.cpp:207-272 | A texture's final policy depends only on the roles under which it was stamped, in stamp order. |
| `Textures.ApplyStampsAppend` | src/osgEarthDrivers/engine_rex/LayerDrawable.cpp:175-283 | Stamping tile after tile is stamping the concatenated log. |
| `Textures.StampedPolicy` | src/osgEarthDrivers/engine_rex/LayerDrawable.cpp:207-272 | A texture stamped at least once, and only under one role, ends uncompressed and with exactly that role's stamp on its original fields. |
| `Textures.TextureArena.ValidInjective` | src/osgEarthDrivers/engine_rex/LayerDrawable.cpp:195-270 | Distinct textures in the arena have distinct indices. |
| `Textures.TextureArena.Add` | src/osgEarthDrivers/engine_rex/LayerDrawable.cpp:195 | What the rebuild relies on: the index is non-negative, a known texture gets its old index back, and a new texture gets an index no other texture holds. The allocation itself (the next position, appended) is the model's own choice; see "## Left out". |
| `TileRecords.SameTiles` | src/osgEarthDrivers/engine_rex/LayerDrawable.cpp:164 | The test that decides a rebuild: the same number of tiles with the same identity at each position. |
| `TileRecords.SetSlot` | src/osgEarthDrivers/engine_rex/LayerDrawable.cpp:195-196 | Binding a slot writes its index and matrix and leaves every other slot and the header fields as they were. |
| `TileRecords.SetIndex` | src/osgEarthDrivers/engine_rex/LayerDrawable.cpp:188-189 | Resetting a slot changes only that slot's index. |
| `TileRecords.Grown` | src/osgEarthDrivers/engine_rex/LayerDrawable.cpp:167-170 | The entry array grows only when it is shorter than the tile list. It keeps its entries and appends value-initialised ones. |
| `TileRecords.SlotIs` | src/osgEarthDrivers/engine_rex/LayerDrawable.cpp:187-272 | What one slot of a rebuilt entry holds: a bound texture's arena index and its sampler's matrix; otherwise -1 for a slot reset first, or the prior index, and the prior matrix. |
| `TileRecords.EntryMatches` | src/osgEarthDrivers/engine_rex/LayerDrawable.cpp:177-282 | A rebuilt entry: the tile's model-view matrix and key, the layer's draw order, and every slot as `SlotIs` says. |
| `TileRecords.RebuiltFrom` | src/osgEarthDrivers/engine_rex/LayerDrawable.cpp:164-285 | A rebuilt array: grown to the tile count, entry `i` matching tile `i` over the grown prior entry, and every entry past the tiles unchanged. |
| `TileRecords.EntryDeterministic` | src/osgEarthDrivers/engine_rex/LayerDrawable.cpp:175-283 | One entry is determined by its tile, its prior contents, the arena indices, the land-cover option and the draw order. |
| `TileRecords.RebuiltDeterministic` | src/osgEarthDrivers/engine_rex/LayerDrawable.cpp:164-285 | A rebuild's entry array is determined by the prior array, the tiles and the arena indices. |
| `TileRecords.RebuiltCorrespondence` | src/osgEarthDrivers/engine_rex/LayerDrawable.cpp:177-282 | Entry `i` carries tile `i`'s model-view matrix, tile key and the layer's draw order. The array is at least as long as both the tile list and the prior array. |
| `TileRecords.RebuiltSlot` | src/osgEarthDrivers/engine_rex/LayerDrawable.cpp:187-254 | A bound slot holds its texture's arena index and its sampler's matrix, and an empty color, parent, elevation or normal slot holds -1. |
| `TileRecords.SameIndexIffSameTexture` | src/osgEarthDrivers/engine_rex/LayerDrawable.cpp:187-272 | Two bound slots, of the same tile or of different tiles, hold the same index exactly when they bind the same texture. |
| `TileRecords.RebuiltKeepsUnwritten` | src/osgEarthDrivers/engine_rex/LayerDrawable.cpp:238-278 | Without land cover, the land-cover index and matrix keep their prior values; an empty shared slot keeps its prior index and matrix. |
| `TileRecords.TexturesBelowExact` | src/osgEarthDrivers/engine_rex/LayerDrawable.cpp:187-279 | A texture is added for a tile's slots below `hi` exactly when one of those slots binds it. |
| `TileRecords.ListTexturesExact` | src/osgEarthDrivers/engine_rex/LayerDrawable.cpp:175-283 | A rebuild adds a texture to the arena exactly when some slot of some tile binds it. |
| `TileRecords.SharedEndUnbound` | src/osgEarthDrivers/engine_rex/LayerDrawable.cpp:257-279 | No slot at or past the end of the shared-sampler loop binds anything or is reset. |
| `TileRecords.SlotStampsRoles` | src/osgEarthDrivers/engine_rex/LayerDrawable.cpp:207-272 | One tile stamps a texture under a role exactly when some slot of that role binds it. |
| `TileRecords.ListStampsRoles` | src/osgEarthDrivers/engine_rex/LayerDrawable.cpp:175-283 | A rebuild stamps a texture under a role exactly when some slot of that role, in some tile, binds it. |
| `TileRecords.StampedAs` | src/osgEarthDrivers/engine_rex/LayerDrawable.cpp:207-272 | A texture bound, in every tile, only through slots of one role ends the rebuild with exactly that role's stamp. |
| `TileRecords.OverflowIffDropped` | src/osgEarthDrivers/engine_rex/LayerDrawable.cpp:259-276 | A tile's rebuild warns exactly when a populated shared sampler lies past the entry's capacity. |
| `LayerDrawables.Warnings` | src/osgEarthDrivers/engine_rex/LayerDrawable.cpp:275 | `n` warnings are `n` lines. |
| `LayerDrawables.WarningsAreOverflows` | src/osgEarthDrivers/engine_rex/LayerDrawable.cpp:275 | Each of those lines is the shared-sampler overflow warning with the `[LayerDrawable] ` prefix. |
| `LayerDrawables.GrowTo` | src/osgEarthDrivers/engine_rex/LayerDrawable.cpp:527-530 | The per-context array only grows, keeps every entry, and appends default entries. |
| `LayerDrawables.Released` | src/osgEarthDrivers/engine_rex/LayerDrawable.cpp:507-521 | For one context, its four handles are nulled, its resolved entry points stay, and every other entry is unchanged. For all contexts, every entry becomes a default one and the length is kept. |
| `LayerDrawables.CommandsFor` | src/osgEarthDrivers/engine_rex/LayerDrawable.cpp:440-445 | The command list has one command per tile, in tile order, each from that tile's geometry. |
| `LayerDrawables.WithTileBuffer` | src/osgEarthDrivers/engine_rex/LayerDrawable.cpp:314-328 | The tile buffer is live afterwards and is replaced exactly when it was null or invalid. No other handle changes. |
| `LayerDrawables.WithCommandBuffer` | src/osgEarthDrivers/engine_rex/LayerDrawable.cpp:330-394 | The command buffer is live afterwards and is replaced exactly when it was null or invalid. A replacement comes with a live vertex array and resolved entry points. |
| `LayerDrawables.WithSharedBuffer` | src/osgEarthDrivers/engine_rex/LayerDrawable.cpp:396-418 | The shared-constants buffer is live afterwards and is replaced exactly when it was null or invalid. No other handle changes. |
| `LayerDrawables.Creations` | src/osgEarthDrivers/engine_rex/LayerDrawable.cpp:314-419 | The creation calls: a tile buffer when none is live, and on the surface path a command buffer with its vertex array and a shared buffer when those are not live. |
| `LayerDrawables.Uploads` | src/osgEarthDrivers/engine_rex/LayerDrawable.cpp:421-449 | A dirty draw uploads the tile entries, and on the surface path the commands; a clean one uploads nothing. |
| `LayerDrawables.Submission` | src/osgEarthDrivers/engine_rex/LayerDrawable.cpp:451-501 | The arena apply unless current, the tile-buffer bind, and then the command-buffer bind, the shared bind at draw order 0 and the multi-draw on the surface path, or the hand-over to a patch renderer. |
| `LayerDrawables.DrawFrame` | src/osgEarthDrivers/engine_rex/LayerDrawable.cpp:298-504 | A draw grows the per-context array to cover its context, and it only appends to the call log. |
| `LayerDrawables.DrawSkipsEmpty` | src/osgEarthDrivers/engine_rex/LayerDrawable.cpp:305-309 | With no tiles a draw issues no call and keeps the flag, commands and every existing context entry. It may only append default entries. |
| `LayerDrawables.DrawEmptyCalls` | src/osgEarthDrivers/engine_rex/LayerDrawable.cpp:308-309 | A draw with no tiles issues no call. |
| `LayerDrawables.DrawPreparesContext` | src/osgEarthDrivers/engine_rex/LayerDrawable.cpp:311-449 | After a draw with tiles: the flag is clear and the tile buffer live. On the surface path the command and shared buffers are live, with a vertex array whenever the command buffer was created. A clean draw keeps a live tile buffer. A tile buffer is created exactly when none was live. |
| `LayerDrawables.DrawUploadsWhenDirty` | src/osgEarthDrivers/engine_rex/LayerDrawable.cpp:421-449 | A dirty draw clears the flag and uploads exactly the current tiles' entries. On the surface path it rebuilds one command per tile, in order, and uploads them; otherwise it keeps the commands and uploads none. |
| `LayerDrawables.DrawUploadsNothingWhenClean` | src/osgEarthDrivers/engine_rex/LayerDrawable.cpp:421-449 | A clean draw issues no upload and keeps the commands and any live tile buffer. |
| `LayerDrawables.SharedBindInDrawCalls` | src/osgEarthDrivers/engine_rex/LayerDrawable.cpp:462-472 | Among a draw's calls, the shared buffer is bound at binding 30 exactly on the surface path at draw order 0. |
| `LayerDrawables.DrawBindsSharedAtOrderZero` | src/osgEarthDrivers/engine_rex/LayerDrawable.cpp:462-472 | A draw binds the shared buffer exactly when it has tiles, draws the surface and has draw order 0. |
| `LayerDrawables.SubmissionEnds` | src/osgEarthDrivers/engine_rex/LayerDrawable.cpp:451-501 | The draw's binds end with the configured multi-draw over the command count on the surface path, or with the hand-over of all tiles to a patch renderer. They submit nothing otherwise. |
| `LayerDrawables.PreparationSubmitsNothing` | src/osgEarthDrivers/engine_rex/LayerDrawable.cpp:314-449 | The creation and upload calls submit no geometry. |
| `LayerDrawables.DrawCallsEnd` | src/osgEarthDrivers/engine_rex/LayerDrawable.cpp:314-501 | A draw's calls submit at most once, as their last call, as the submission step decides. |
| `LayerDrawables.DrawSubmits` | src/osgEarthDrivers/engine_rex/LayerDrawable.cpp:462-501 | A surface draw with tiles ends with exactly one multi-draw, of the configured primitive and of as many commands as the render state holds. A patch layer with a renderer instead hands it every tile. Nothing is submitted otherwise. |
| `LayerDrawables.DrawLeavesOtherContexts` | src/osgEarthDrivers/engine_rex/LayerDrawable.cpp:305 | A draw in one context leaves every other context's cache entry as it was. |
| `LayerDrawables.SecondContextDoesNotUpload` | src/osgEarthDrivers/engine_rex/LayerDrawable.cpp:421-449 | Because the dirty flag is shared, a second context drawn after a first one has uploaded uploads nothing. Its live tile buffer keeps its old contents. |
| `LayerDrawables.RenderState.constructor` | src/osgEarthDrivers/engine_rex/LayerDrawable.cpp:292-295 | A render state starts with 64 default context entries, no tiles, entries or commands, and a clear flag. |
| `LayerDrawables.LayerDrawableNVGL.BindSlot` | src/osgEarthDrivers/engine_rex/LayerDrawable.cpp:212-219 | Binding a sampler adds its texture to the arena, stamps it when the slot has a role, and writes the index and matrix into that slot only. |
| `LayerDrawables.LayerDrawableNVGL.ResolveColorSlot` | src/osgEarthDrivers/engine_rex/LayerDrawable.cpp:187-205 | A color slot is reset to -1 and then bound when its sampler has a texture. No policy is touched. |
| `LayerDrawables.LayerDrawableNVGL.ResolveFixedSlot` | src/osgEarthDrivers/engine_rex/LayerDrawable.cpp:207-254 | An elevation, normal or land-cover slot is reset, then bound and stamped with its role's policy when its sampler has a texture. |
| `LayerDrawables.LayerDrawableNVGL.ResolveFixedSlots` | src/osgEarthDrivers/engine_rex/LayerDrawable.cpp:207-254 | The three fixed shared-array slots are written in order, the land-cover one only when land cover is in use. |
| `LayerDrawables.LayerDrawableNVGL.ResolveSharedSlot` | src/osgEarthDrivers/engine_rex/LayerDrawable.cpp:259-272 | A generic shared slot is bound and stamped when its sampler has a texture, and left as it was otherwise. |
| `LayerDrawables.LayerDrawableNVGL.ResolveSharedSlots` | src/osgEarthDrivers/engine_rex/LayerDrawable.cpp:257-272 | The generic shared slots are written up to the end of the array or the entry's capacity. |
| `LayerDrawables.LayerDrawableNVGL.WarnSharedOverflow` | src/osgEarthDrivers/engine_rex/LayerDrawable.cpp:259-276 | One warning is logged per populated shared sampler that does not fit. |
| `LayerDrawables.LayerDrawableNVGL.ResolveTile` | src/osgEarthDrivers/engine_rex/LayerDrawable.cpp:177-283 | One tile's entry is the one the rebuild rules define. The arena gains exactly the tile's textures, the tile's stamps are applied in order, and its overflow warnings are logged. |
| `LayerDrawables.LayerDrawableNVGL.RebuildTile` | src/osgEarthDrivers/engine_rex/LayerDrawable.cpp:177-283 | One pass of the loop writes the next tile's entry as the rebuild rules define it, and adds that tile's textures, stamps and warnings to the bookkeeping. |
| `LayerDrawables.LayerDrawableNVGL.RebuildEntries` | src/osgEarthDrivers/engine_rex/LayerDrawable.cpp:174-283 | Every tile's entry, in order, is the one the rebuild rules define. The arena and the log hold the whole list's textures, stamps and warnings. |
| `LayerDrawables.LayerDrawableNVGL.RefreshRenderState` | src/osgEarthDrivers/engine_rex/LayerDrawable.cpp:156-290 | When the collected tiles equal the published ones, nothing changes. Otherwise the entries are rebuilt from them, the tiles are moved into the render state, and the state is marked dirty. |
| `LayerDrawables.LayerDrawableNVGL.PrepareContext` | src/osgEarthDrivers/engine_rex/LayerDrawable.cpp:314-419 | The lazy creation step computes exactly the prepared cache entry and the creation calls. |
| `LayerDrawables.LayerDrawableNVGL.BuildCommands` | src/osgEarthDrivers/engine_rex/LayerDrawable.cpp:440-445 | The commands rebuilt by the loop are one per tile, in tile order. |
| `LayerDrawables.LayerDrawableNVGL.Upload` | src/osgEarthDrivers/engine_rex/LayerDrawable.cpp:427-448 | The dirty upload stores the current tiles' entries and, on the surface path, the rebuilt commands. |
| `LayerDrawables.LayerDrawableNVGL.Submit` | src/osgEarthDrivers/engine_rex/LayerDrawable.cpp:451-501 | The binds and the submission are exactly those of the submission step. |
| `LayerDrawables.LayerDrawableNVGL.DrawImplementation` | src/osgEarthDrivers/engine_rex/LayerDrawable.cpp:298-504 | The new render state and call log are exactly `DrawFrame` of the old ones, so every `Draw...` lemma above applies to the method. |
| `LayerDrawables.LayerDrawableNVGL.ReleaseGLObjects` | src/osgEarthDrivers/engine_rex/LayerDrawable.cpp:507-524 | The per-context array becomes `Released` of the old one. |
| `LayerDrawables.LayerDrawableNVGL.ResizeGLObjectBuffers` | src/osgEarthDrivers/engine_rex/LayerDrawable.cpp:527-533 | The per-context array becomes `GrowTo` of the old one. |

## Left out

- The base-class calls `LayerDrawable::drawImplementation`, `LayerDrawable::releaseGLObjects` and `LayerDrawable::resizeGLObjectBuffers` (LayerDrawable.cpp:503, 523, 532): `LayerDrawable` is not part of this model.
- OpenGL is modelled as handles with a validity bit, a contents sequence and a log of calls. Left out:
  - buffer sizes and the 512-entry preallocation;
  - the extension lookup itself and the `OE_HARD_ASSERT` on the entry points;
  - the recorded vertex attribute formats and offsets;
  - the bind and unbind of the vertex array around the multi-draw;
  - the fixed arguments of the multi-draw (index type, stride, one binding).
- The morphing constants of the shared-constants buffer (LayerDrawable.cpp:398-409) are not modelled: they are floating point, computed from `SelectionInfo`, which is not part of this model.
- The texture-arena apply (LayerDrawable.cpp:452-456): which attribute the OpenGL state last applied is the parameter `arenaCurrent`. `haveAppliedAttribute` is not modelled.
- `Textures.TextureArena.Add`: `TextureArena::add` is not part of this model, so its allocation rule is assumed. A new texture goes at the end of the list, a freed index is never reused, and `add` never fails or returns -1. Texture removal and the arena's own GPU residency are not modelled.
- The model-view matrix is converted from double to float as it is copied into the tile record (src/osgEarthDrivers/engine_rex/LayerDrawable.cpp:179-181); the model copies it as opaque `real` values and does not model the loss of precision.
- The sampler texture matrices are float-to-float copies by `COPY_MAT4F` (src/osgEarthDrivers/engine_rex/LayerDrawable.cpp:32); the model copies them as opaque `real` values.
- The comparison `_tiles != _rs.tiles` uses `DrawTileCommand`'s equality, which is not part of this model. It is modelled as same length and the same tile identity per position (`SameTiles`).
- `SamplerBinding::COLOR` … `SHARED` (0 to 5) and `MAX_NUM_SHARED_SAMPLERS` (14) are taken from headers that are not part of this model.
- The sampler arrays are indexed without a bounds check. `RefreshRenderState` therefore requires each present array to hold the fixed slots it reads (`SamplersPresent`). It also requires every texture met to be a live object in the arena.
- After `std::move`, the collected tile list is modelled as empty.
- `tile_num` is an `unsigned`, and a list of 2^32 tiles or more is not modelled.
- Multi-threaded rendering and the double-buffering the source leaves as a TODO are not modelled.
- `LayerDrawables.DrawCommand` is built from the tile's geometry alone. `getOrCreateNVGLCommand(state)` (LayerDrawable.cpp:444) also takes the drawing context's `osg::State`. The commands are built by the first context that draws while dirty, and the other contexts reuse them; what part of the command depends on that context is not modelled.
- `LayerDrawables.RenderState.constructor`: the clear dirty flag and the empty tile, entry and command lists come from member initialisers in a header that is not part of this model. Lines 292-295 only size the per-context array.
- The patch layer's renderer and `TileBatch` are reduced to one hand-over call that carries the tile count.
- `TerrainMeshLayer`: `getConfig`, `init`, `addedToMap`, `removedFromMap`, `prepareForRendering` and `createTile` are outside this model.
  - `TileKey::getTileXY` and `Profile::getNumTiles` become the parameters `x`, `y`, `lod` and `rows`.
  - The URI's context is not modelled.
  - `cacheKey` (TerrainMeshLayer.cpp:126-130) is assigned but never used, so it is left out.
- `replaceIn` comes from osgEarth's string utilities, which are not part of this model. It is modelled (`Strings.ReplaceAll`) as a left-to-right, non-overlapping replacement that resumes after the inserted text; an empty pattern changes nothing.
- `_rotateIter` is declared in a header that is not part of this model. It is modelled as an unsigned 32-bit counter; that it is `mutable` inside a `const` method becomes an ordinary field update.
- `TerrainMesh.TerrainMeshLayer.Open` runs the corrected rotation rule (`TerrainMesh.RotationGroup`), not the guard as written at TerrainMeshLayer.cpp:69. For a template whose first `]` comes before its first `[`, the source sets the rotation fields (to `[cd` and `cd` for `a]b[cd`, to an empty string and `ab` for `x][ab`), while the model keeps them. `TerrainMesh.AsWrittenAgreesWhenOrdered` shows the two agree whenever the `]` follows the `[`.
- `TerrainMesh.TerrainMeshLayer.constructor`: `rotateIter` starting at 0, and an empty template and rotation fields, come from member initialisers in a header that is not part of this model.
- `TerrainMesh.RotationCycles` is stated only while the counter does not wrap, because at the wrap the cyclic order breaks whenever the number of choices does not divide 2^32.
- Strings are sequences of characters: URI encoding and character sets are not modelled.

## Findings

| source | as written | input that shows it | evidently intended | confidence | as-written member | corrected member |
|---|---|---|---|---|---|---|
| src/osgEarth/TerrainMeshLayer.cpp:69 | The guard `end - start > 1` is computed on `size_t`. When the `]` comes before the `[`, the difference wraps to a huge value and the guard passes. When the `]` lies more than one place before the `[`, `substr` then takes from the `[` to the end of the template as the group, and everything after the `[` as the choices. | the template `a]b[cd` gives the group `[cd` and the choices `cd` | A rotation group only when the first `]` comes at least two places after the first `[` | not executed | `TerrainMesh.AsWrittenAcceptsReversedBrackets` | `TerrainMesh.RotationGroup` |

The corrected rule is the one `TerrainMeshLayer.Open` uses (see "## Left out"). The code as written is `TerrainMesh.RotationGroupAsWritten`, and `TerrainMesh.ReversedBracketsExample` evaluates it on `a]b[cd`.
