/**
 * The NVIDIA bindless draw path of one terrain layer: the render state it
 * publishes from the cull traversal (tile list, device tile entries, draw
 * commands and the dirty flag), the per-graphics-context cache of buffer
 * handles, and the frame bookkeeping of a draw. OpenGL objects are handles
 * with a validity bit and a contents sequence; the driver calls a draw
 * issues are recorded as events.
 */
module LayerDrawables {
  import opened Wrappers
  import opened Textures
  import opened TileRecords

  /** The number of per-context slots a render state starts with. */
  const INITIAL_CONTEXT_SLOTS: nat := 64

  /** The shader binding points of the shared constants and of the tile buffer. */
  const SHARED_BUFFER_BINDING: nat := 30
  const TILE_BUFFER_BINDING: nat := 31

  /** The warning logged for each shared sampler that does not fit in a device tile entry. */
  const SHARED_OVERFLOW_WARNING: string := "[LayerDrawable] Exceeded number of shared samplers"

  /** `n` overflow warnings in a row. */
  function Warnings(n: nat): (w: seq<string>)
    ensures |w| == n
  {
    if n == 0 then [] else Warnings(n - 1) + [SHARED_OVERFLOW_WARNING]
  }

  /** Every entry of `Warnings(n)` is the overflow warning. */
  lemma {:induction false} WarningsAreOverflows(n: nat, k: nat)
    requires k < n
    ensures Warnings(n)[k] == SHARED_OVERFLOW_WARNING
  {
    if k < n - 1 {
      WarningsAreOverflows(n - 1, k);
    }
  }

  /** One more warning at the end of a log. */
  lemma WarningsStep(log: seq<string>, n: nat)
    ensures log + Warnings(n) + [SHARED_OVERFLOW_WARNING] == log + Warnings(n + 1)
  {
  }

  /** The warnings of two runs, one after the other. */
  lemma {:induction false} WarningsAppend(a: nat, b: nat)
    ensures Warnings(a) + Warnings(b) == Warnings(a + b)
  {
    if b > 0 {
      WarningsAppend(a, b - 1);
      assert Warnings(a) + Warnings(b) == Warnings(a) + Warnings(b - 1) + [SHARED_OVERFLOW_WARNING];
    }
  }

  /**
   * The arena and the warning log after the first tiles of a rebuild: the
   * arena holds their textures, their stamps are applied in order, and one
   * warning is logged per dropped shared sampler.
   */
  predicate RebuildBookkept(keys: set<Texture>, policies: map<Texture, TexturePolicy>, warnings: seq<string>,
                            keys0: set<Texture>, policies0: map<Texture, TexturePolicy>, warnings0: seq<string>, tiles: seq<Tile>, useLandCover: bool)
  {
    && keys == keys0 + ListTextures(tiles, useLandCover)
    && policies == ApplyStamps(policies0, ListStamps(tiles, useLandCover))
    && warnings == warnings0 + Warnings(ListOverflow(tiles))
  }

  /** The bookkeeping of one more tile of the list. */
  lemma RebuildBookkeptStep(keys: set<Texture>, policies: map<Texture, TexturePolicy>, warnings: seq<string>,
                            keys': set<Texture>, policies': map<Texture, TexturePolicy>, warnings': seq<string>,
                            keys0: set<Texture>, policies0: map<Texture, TexturePolicy>, warnings0: seq<string>, tiles: seq<Tile>, useLandCover: bool, k: nat)
    requires k < |tiles| && RebuildBookkept(keys, policies, warnings, keys0, policies0, warnings0, tiles[..k], useLandCover)
    requires keys' == keys + TileTextures(tiles[k], useLandCover)
    requires policies' == ApplyStamps(policies, TileStamps(tiles[k], useLandCover))
    requires warnings' == warnings + Warnings(TileOverflow(tiles[k]))
    ensures RebuildBookkept(keys', policies', warnings', keys0, policies0, warnings0, tiles[..k + 1], useLandCover)
  {
    ListStep(tiles, useLandCover, k);
    ApplyStampsAppend(policies0, ListStamps(tiles[..k], useLandCover), TileStamps(tiles[k], useLandCover));
    WarningsAppend(ListOverflow(tiles[..k]), TileOverflow(tiles[k]));
  }

  /** A buffer object: whether the handle is still valid, and what was last uploaded into it. */
  datatype GLBuffer<T> = GLBuffer(valid: bool, contents: seq<T>)

  /** A GL object whose contents are not modelled: the shared-constants buffer and the vertex array object. */
  datatype GLObject = GLObject(valid: bool)

  /** The indirect draw command a tile's shared geometry yields; tiles of one geometry get the same command. */
  datatype DrawCommand = DrawCommand(geometry: Geometry)

  /**
   * One graphics context's cache: whether the extension table and the two
   * looked-up entry points are resolved, and the (nullable) handles of the
   * tile buffer, the command buffer, the shared-constants buffer and the
   * vertex array object.
   */
  datatype GCState = GCState(
    extensions: bool,
    tiles: Option<GLBuffer<DeviceTile>>,
    commands: Option<GLBuffer<DrawCommand>>,
    shared: Option<GLObject>,
    vao: Option<GLObject>,
    drawProcs: bool)

  /** A default-constructed cache entry. */
  const EMPTY_GC_STATE: GCState := GCState(false, None, None, None, None, false)

  /** A handle that is neither null nor invalidated. */
  predicate Live<T>(b: Option<GLBuffer<T>>)
  {
    b.Some? && b.value.valid
  }

  predicate LiveObject(o: Option<GLObject>)
  {
    o.Some? && o.value.valid
  }

  /**
   * The per-context array after indexing or resizing it to `n` slots: it
   * only grows, appending default entries, and keeps every existing one.
   */
  function GrowTo(g: seq<GCState>, n: nat): (g': seq<GCState>)
    ensures |g'| == Max(|g|, n) && g'[..|g|] == g
    ensures forall i :: |g| <= i < |g'| ==> g'[i] == EMPTY_GC_STATE
  {
    if |g| < n then g + seq(n - |g|, _ => EMPTY_GC_STATE) else g
  }

  /**
   * The per-context array after a release: for one context, its four
   * handles are nulled and nothing else changes (its resolved entry points
   * stay); for all contexts, every entry is reset to a default one.
   */
  function Released(g: seq<GCState>, contextId: Option<nat>): (r: seq<GCState>)
    ensures contextId.None? ==> |r| == |g| && forall i :: 0 <= i < |r| ==> r[i] == EMPTY_GC_STATE
    ensures contextId.Some? ==> var c := contextId.value;
      && |r| == Max(|g|, c + 1)
      && r[c].tiles.None? && r[c].commands.None? && r[c].shared.None? && r[c].vao.None?
      && (c < |g| ==> r[c].extensions == g[c].extensions && r[c].drawProcs == g[c].drawProcs)
      && (c >= |g| ==> r[c] == EMPTY_GC_STATE)
      && (forall i :: 0 <= i < |r| && i != c ==> r[i] == if i < |g| then g[i] else EMPTY_GC_STATE)
  {
    match contextId
    case None => seq(|g|, _ => EMPTY_GC_STATE)
    case Some(c) =>
      var grown := GrowTo(g, c + 1);
      grown[c := grown[c].(shared := None, tiles := None, commands := None, vao := None)]
  }

  /** The primitive the multi-draw submits. */
  datatype Primitive = Triangles | Patches

  /** The driver calls a draw issues, in order. */
  datatype GLCall =
    | CreateTileBuffer
    | CreateCommandBuffer
    | RecordVertexArray
    | CreateSharedBuffer
    | UploadTiles(count: nat)
    | UploadCommands(count: nat)
    | ApplyTextureArena
    | BindTileBuffer(binding: nat)
    | BindCommandBuffer
    | BindSharedBuffer(binding: nat)
    | MultiDraw(primitive: Primitive, count: nat)
    | DelegateToPatchRenderer(count: nat)

  /** A patch layer, which renders its tiles itself when it has a renderer. */
  datatype PatchLayer = PatchLayer(hasRenderer: bool)

  /** The layer's configuration as a draw reads it. */
  datatype DrawSettings = DrawSettings(patchLayer: Option<PatchLayer>, surfaceDrawOrder: int, gpuTessellation: bool)

  /** The terrain surface is drawn by the multi-draw exactly when the layer is not a patch layer. */
  predicate RendersSurface(settings: DrawSettings)
  {
    settings.patchLayer.None?
  }

  function PrimitiveFor(settings: DrawSettings): Primitive
  {
    if settings.gpuTessellation then Patches else Triangles
  }

  /** One command per tile, in tile order. */
  function CommandsFor(tiles: seq<Tile>): (cs: seq<DrawCommand>)
    ensures |cs| == |tiles|
    ensures forall i :: 0 <= i < |tiles| ==> cs[i] == DrawCommand(tiles[i].geometry)
    decreases |tiles|
  {
    if tiles == [] then [] else CommandsFor(tiles[..|tiles| - 1]) + [DrawCommand(tiles[|tiles| - 1].geometry)]
  }

  /** What a draw reads and writes besides the tile list and the entry array. */
  datatype Frame = Frame(gcState: seq<GCState>, dirty: bool, commands: seq<DrawCommand>, calls: seq<GLCall>)

  /** A context's cache with a tile buffer: the old one if it is live, a new empty one (with the extensions resolved) otherwise. */
  function WithTileBuffer(gs: GCState): (r: GCState)
    ensures Live(r.tiles) && r.commands == gs.commands && r.shared == gs.shared && r.vao == gs.vao
    ensures Live(gs.tiles) <==> r == gs
  {
    if Live(gs.tiles) then gs else gs.(extensions := true, tiles := Some(GLBuffer(true, [])))
  }

  /** A context's cache with a command buffer and its vertex array: kept if the command buffer is live, both created otherwise. */
  function WithCommandBuffer(gs: GCState): (r: GCState)
    ensures Live(r.commands) && r.tiles == gs.tiles && r.shared == gs.shared
    ensures Live(gs.commands) <==> r == gs
    ensures !Live(gs.commands) ==> LiveObject(r.vao) && r.drawProcs
  {
    if Live(gs.commands) then gs else gs.(commands := Some(GLBuffer(true, [])), drawProcs := true, vao := Some(GLObject(true)))
  }

  /** A context's cache with a shared-constants buffer: kept if live, created otherwise. */
  function WithSharedBuffer(gs: GCState): (r: GCState)
    ensures LiveObject(r.shared) && r.tiles == gs.tiles && r.commands == gs.commands && r.vao == gs.vao
    ensures LiveObject(gs.shared) <==> r == gs
  {
    if LiveObject(gs.shared) then gs else gs.(shared := Some(GLObject(true)))
  }

  /**
   * A context's cache after the lazy creation step of a draw with tiles:
   * a tile buffer always, and on the surface path a command buffer with its
   * vertex array and a shared-constants buffer.
   */
  function Prepared(gs: GCState, surface: bool): GCState
  {
    var g1 := WithTileBuffer(gs);
    if surface then WithSharedBuffer(WithCommandBuffer(g1)) else g1
  }

  /** The creation calls of that step, one group per handle found null or invalid. */
  function Creations(gs: GCState, surface: bool): seq<GLCall>
  {
    var commandCalls := if Live(gs.commands) then [] else [CreateCommandBuffer, RecordVertexArray];
    var sharedCalls := if LiveObject(gs.shared) then [] else [CreateSharedBuffer];
    (if Live(gs.tiles) then [] else [CreateTileBuffer]) + (if surface then commandCalls + sharedCalls else [])
  }

  /** A context's cache after the dirty upload: the tile data, and on the surface path the commands. */
  function Uploaded(gs: GCState, surface: bool, tileData: seq<DeviceTile>, commands: seq<DrawCommand>): GCState
    requires Live(gs.tiles) && (surface ==> Live(gs.commands))
  {
    var g1 := gs.(tiles := Some(gs.tiles.value.(contents := tileData)));
    if surface then g1.(commands := Some(g1.commands.value.(contents := commands))) else g1
  }

  /** The upload calls of a draw. */
  function Uploads(dirty: bool, surface: bool, tileCount: nat): seq<GLCall>
  {
    if !dirty then [] else [UploadTiles(tileCount)] + if surface then [UploadCommands(tileCount)] else []
  }

  /** The binds and the submission that end a draw. */
  function Submission(settings: DrawSettings, tileCount: nat, commandCount: nat, arenaCurrent: bool): seq<GLCall>
  {
    (if arenaCurrent then [] else [ApplyTextureArena])
    + [BindTileBuffer(TILE_BUFFER_BINDING)]
    + if RendersSurface(settings) then
        [BindCommandBuffer]
        + (if settings.surfaceDrawOrder == 0 then [BindSharedBuffer(SHARED_BUFFER_BINDING)] else [])
        + [MultiDraw(PrimitiveFor(settings), commandCount)]
      else if settings.patchLayer.value.hasRenderer then [DelegateToPatchRenderer(tileCount)]
      else []
  }

  /** The commands a draw with tiles leaves: rebuilt on a dirty surface draw, kept otherwise. */
  function CommandsAfter(f: Frame, tiles: seq<Tile>, settings: DrawSettings): seq<DrawCommand>
  {
    if f.dirty && RendersSurface(settings) then CommandsFor(tiles) else f.commands
  }

  /** The context's cache entry after a draw with tiles. */
  function ContextAfter(f: Frame, gs: GCState, tiles: seq<Tile>, tilebuf: seq<DeviceTile>, settings: DrawSettings): GCState
    requires |tilebuf| >= |tiles|
  {
    var surface := RendersSurface(settings);
    var prepared := Prepared(gs, surface);
    if f.dirty then Uploaded(prepared, surface, tilebuf[..|tiles|], CommandsAfter(f, tiles, settings)) else prepared
  }

  /** The calls a draw with tiles issues, in order: creations, uploads, binds and submission. */
  function DrawCalls(f: Frame, gs: GCState, tiles: seq<Tile>, settings: DrawSettings, arenaCurrent: bool): seq<GLCall>
  {
    var surface := RendersSurface(settings);
    Creations(gs, surface) + Uploads(f.dirty, surface, |tiles|)
      + Submission(settings, |tiles|, |CommandsAfter(f, tiles, settings)|, arenaCurrent)
  }

  /**
   * One draw in context `contextId`: index (and so grow) the per-context
   * array; with no tiles stop there; otherwise create what is missing,
   * upload and rebuild the commands if the state is dirty, clear the flag,
   * then bind and submit.
   */
  function DrawFrame(f: Frame, contextId: nat, tiles: seq<Tile>, tilebuf: seq<DeviceTile>, settings: DrawSettings, arenaCurrent: bool): (r: Frame)
    requires |tilebuf| >= |tiles|
    ensures |r.gcState| == Max(|f.gcState|, contextId + 1)
    ensures |r.calls| >= |f.calls| && r.calls[..|f.calls|] == f.calls
  {
    var g := GrowTo(f.gcState, contextId + 1);
    if tiles == [] then f.(gcState := g)
    else
      Frame(g[contextId := ContextAfter(f, g[contextId], tiles, tilebuf, settings)], false,
            CommandsAfter(f, tiles, settings), f.calls + DrawCalls(f, g[contextId], tiles, settings, arenaCurrent))
  }

  /** The calls one draw added. */
  function NewCalls(f: Frame, r: Frame): seq<GLCall>
    requires |r.calls| >= |f.calls|
  {
    r.calls[|f.calls|..]
  }

  /** The context's entry before a draw, as the draw sees it after growing the array. */
  function EntryBefore(f: Frame, contextId: nat): GCState
  {
    if contextId < |f.gcState| then f.gcState[contextId] else EMPTY_GC_STATE
  }

  /** The pieces of a draw with tiles. */
  lemma DrawFrameParts(f: Frame, contextId: nat, tiles: seq<Tile>, tilebuf: seq<DeviceTile>, settings: DrawSettings, arenaCurrent: bool)
    requires |tilebuf| >= |tiles| && tiles != []
    ensures var r := DrawFrame(f, contextId, tiles, tilebuf, settings, arenaCurrent);
      && GrowTo(f.gcState, contextId + 1)[contextId] == EntryBefore(f, contextId)
      && r.gcState[contextId] == ContextAfter(f, EntryBefore(f, contextId), tiles, tilebuf, settings)
      && NewCalls(f, r) == DrawCalls(f, EntryBefore(f, contextId), tiles, settings, arenaCurrent)
      && r.commands == CommandsAfter(f, tiles, settings) && !r.dirty
  {
    var g := GrowTo(f.gcState, contextId + 1);
    assert g[contextId] == EntryBefore(f, contextId);
    var calls := DrawCalls(f, g[contextId], tiles, settings, arenaCurrent);
    assert (f.calls + calls)[|f.calls|..] == calls;
  }

  /** No call in `calls` submits geometry. */
  predicate NoSubmission(calls: seq<GLCall>)
  {
    forall k :: 0 <= k < |calls| ==> !calls[k].MultiDraw? && !calls[k].DelegateToPatchRenderer?
  }

  /** No call in `calls` uploads. */
  predicate NoUpload(calls: seq<GLCall>)
  {
    forall k :: 0 <= k < |calls| ==> !calls[k].UploadTiles? && !calls[k].UploadCommands?
  }

  /** With no tiles a draw issues no call and changes no flag, command or handle; it may only grow the per-context array. */
  lemma DrawSkipsEmpty(f: Frame, contextId: nat, tilebuf: seq<DeviceTile>, settings: DrawSettings, arenaCurrent: bool)
    ensures var r := DrawFrame(f, contextId, [], tilebuf, settings, arenaCurrent);
      && r.calls == f.calls && r.dirty == f.dirty && r.commands == f.commands
      && r.gcState[..|f.gcState|] == f.gcState
      && forall i :: |f.gcState| <= i < |r.gcState| ==> r.gcState[i] == EMPTY_GC_STATE
  {
  }

  /**
   * After a draw with tiles, the dirty flag is clear and the context holds
   * a live tile buffer, and on the surface path a live command buffer and
   * shared buffer, with a vertex array recorded whenever the command buffer
   * had to be created. A tile buffer is created exactly when
   * the context had none that was live, and a clean draw keeps a live one.
   */
  lemma DrawPreparesContext(f: Frame, contextId: nat, tiles: seq<Tile>, tilebuf: seq<DeviceTile>, settings: DrawSettings, arenaCurrent: bool)
    requires |tilebuf| >= |tiles| && tiles != []
    ensures var r := DrawFrame(f, contextId, tiles, tilebuf, settings, arenaCurrent);
      var gs := r.gcState[contextId];
      && !r.dirty
      && Live(gs.tiles)
      && (RendersSurface(settings) ==> Live(gs.commands) && LiveObject(gs.shared))
      && (RendersSurface(settings) && !Live(EntryBefore(f, contextId).commands) ==> LiveObject(gs.vao))
      && (Live(EntryBefore(f, contextId).tiles) && !f.dirty ==> gs.tiles == EntryBefore(f, contextId).tiles)
      && (CreateTileBuffer in NewCalls(f, r) <==> !Live(EntryBefore(f, contextId).tiles))
  {
    DrawFrameParts(f, contextId, tiles, tilebuf, settings, arenaCurrent);
    var before := EntryBefore(f, contextId);
    var surface := RendersSurface(settings);
    if surface && !Live(before.commands) {
      assert !Live(WithTileBuffer(before).commands);
    }
    var uploads := Uploads(f.dirty, surface, |tiles|);
    var submission := Submission(settings, |tiles|, |CommandsAfter(f, tiles, settings)|, arenaCurrent);
    assert CreateTileBuffer !in uploads && CreateTileBuffer !in submission;
    assert CreateTileBuffer in Creations(before, surface) <==> !Live(before.tiles);
  }

  /**
   * A draw that finds the state dirty clears the flag and uploads exactly
   * the entries of the current tiles; on the surface path it rebuilds the
   * commands, one per tile in tile order, and uploads them too.
   */
  lemma DrawUploadsWhenDirty(f: Frame, contextId: nat, tiles: seq<Tile>, tilebuf: seq<DeviceTile>, settings: DrawSettings, arenaCurrent: bool)
    requires |tilebuf| >= |tiles| && tiles != [] && f.dirty
    ensures var r := DrawFrame(f, contextId, tiles, tilebuf, settings, arenaCurrent);
      && !r.dirty
      && r.gcState[contextId].tiles.Some? && r.gcState[contextId].tiles.value.contents == tilebuf[..|tiles|]
      && UploadTiles(|tiles|) in NewCalls(f, r)
      && (RendersSurface(settings) ==>
            && |r.commands| == |tiles|
            && (forall i :: 0 <= i < |tiles| ==> r.commands[i] == DrawCommand(tiles[i].geometry))
            && r.gcState[contextId].commands.Some? && r.gcState[contextId].commands.value.contents == r.commands
            && UploadCommands(|tiles|) in NewCalls(f, r))
      && (!RendersSurface(settings) ==> r.commands == f.commands && UploadCommands(|tiles|) !in NewCalls(f, r))
  {
    DrawFrameParts(f, contextId, tiles, tilebuf, settings, arenaCurrent);
    var before := EntryBefore(f, contextId);
    var surface := RendersSurface(settings);
    var submission := Submission(settings, |tiles|, |CommandsAfter(f, tiles, settings)|, arenaCurrent);
    assert UploadCommands(|tiles|) !in Creations(before, surface) && UploadCommands(|tiles|) !in submission;
    assert UploadTiles(|tiles|) in Uploads(f.dirty, surface, |tiles|);
  }

  /** A draw that finds the state clean uploads nothing and leaves the commands and any live tile buffer alone. */
  lemma DrawUploadsNothingWhenClean(f: Frame, contextId: nat, tiles: seq<Tile>, tilebuf: seq<DeviceTile>, settings: DrawSettings, arenaCurrent: bool)
    requires |tilebuf| >= |tiles| && !f.dirty
    ensures var r := DrawFrame(f, contextId, tiles, tilebuf, settings, arenaCurrent);
      && r.commands == f.commands && NoUpload(NewCalls(f, r))
      && (Live(EntryBefore(f, contextId).tiles) ==> r.gcState[contextId].tiles == EntryBefore(f, contextId).tiles)
  {
    var r := DrawFrame(f, contextId, tiles, tilebuf, settings, arenaCurrent);
    if tiles == [] {
      assert NewCalls(f, r) == [];
      assert GrowTo(f.gcState, contextId + 1)[contextId] == EntryBefore(f, contextId);
    } else {
      DrawFrameParts(f, contextId, tiles, tilebuf, settings, arenaCurrent);
      var before := EntryBefore(f, contextId);
      var surface := RendersSurface(settings);
      NoUploadConcat(Creations(before, surface), Uploads(false, surface, |tiles|));
      NoUploadConcat(Creations(before, surface) + Uploads(false, surface, |tiles|), Submission(settings, |tiles|, |f.commands|, arenaCurrent));
    }
  }

  lemma NoUploadConcat(a: seq<GLCall>, b: seq<GLCall>)
    requires NoUpload(a) && NoUpload(b)
    ensures NoUpload(a + b)
  {
    assert forall k :: |a| <= k < |a + b| ==> (a + b)[k] == b[k - |a|];
  }

  lemma NoSubmissionConcat(a: seq<GLCall>, b: seq<GLCall>)
    requires NoSubmission(a) && NoSubmission(b)
    ensures NoSubmission(a + b)
  {
    assert forall k :: |a| <= k < |a + b| ==> (a + b)[k] == b[k - |a|];
  }

  /** A draw with no tiles adds no call. */
  lemma DrawEmptyCalls(f: Frame, contextId: nat, tilebuf: seq<DeviceTile>, settings: DrawSettings, arenaCurrent: bool)
    ensures NewCalls(f, DrawFrame(f, contextId, [], tilebuf, settings, arenaCurrent)) == []
  {
  }

  /** Among the calls of a draw with tiles, the shared constants are bound exactly on the surface path at draw order 0. */
  lemma SharedBindInDrawCalls(f: Frame, gs: GCState, tiles: seq<Tile>, settings: DrawSettings, arenaCurrent: bool)
    ensures BindSharedBuffer(SHARED_BUFFER_BINDING) in DrawCalls(f, gs, tiles, settings, arenaCurrent)
      <==> RendersSurface(settings) && settings.surfaceDrawOrder == 0
  {
    var surface := RendersSurface(settings);
    var bind := BindSharedBuffer(SHARED_BUFFER_BINDING);
    assert bind !in Creations(gs, surface) && bind !in Uploads(f.dirty, surface, |tiles|);
  }

  /** The shared constants are bound exactly on a surface draw with tiles whose layer has draw order 0. */
  lemma DrawBindsSharedAtOrderZero(f: Frame, contextId: nat, tiles: seq<Tile>, tilebuf: seq<DeviceTile>, settings: DrawSettings, arenaCurrent: bool)
    requires |tilebuf| >= |tiles|
    ensures var r := DrawFrame(f, contextId, tiles, tilebuf, settings, arenaCurrent);
      BindSharedBuffer(SHARED_BUFFER_BINDING) in NewCalls(f, r) <==> tiles != [] && RendersSurface(settings) && settings.surfaceDrawOrder == 0
  {
    if tiles == [] {
      DrawEmptyCalls(f, contextId, tilebuf, settings, arenaCurrent);
    } else {
      DrawFrameParts(f, contextId, tiles, tilebuf, settings, arenaCurrent);
      SharedBindInDrawCalls(f, EntryBefore(f, contextId), tiles, settings, arenaCurrent);
    }
  }

  /** `calls` is not empty and only its last call may submit geometry. */
  predicate SubmitsOnlyLast(calls: seq<GLCall>)
  {
    calls != [] && forall k :: 0 <= k < |calls| - 1 ==> !calls[k].MultiDraw? && !calls[k].DelegateToPatchRenderer?
  }

  /** The submission of a draw: the configured multi-draw last on the surface path, the delegation on a patch layer with a renderer, nothing else. */
  lemma SubmissionEnds(settings: DrawSettings, tileCount: nat, commandCount: nat, arenaCurrent: bool)
    ensures var s := Submission(settings, tileCount, commandCount, arenaCurrent);
      && SubmitsOnlyLast(s)
      && (RendersSurface(settings) ==> s[|s| - 1] == MultiDraw(PrimitiveFor(settings), commandCount))
      && (!RendersSurface(settings) && settings.patchLayer.value.hasRenderer ==> s[|s| - 1] == DelegateToPatchRenderer(tileCount))
      && (!RendersSurface(settings) && !settings.patchLayer.value.hasRenderer ==> NoSubmission(s))
  {
  }

  /** The creations and uploads of a draw submit nothing. */
  lemma PreparationSubmitsNothing(gs: GCState, dirty: bool, surface: bool, tileCount: nat)
    ensures NoSubmission(Creations(gs, surface) + Uploads(dirty, surface, tileCount))
  {
    NoSubmissionConcat(Creations(gs, surface), Uploads(dirty, surface, tileCount));
  }

  /** Calls that do not submit, followed by a group that submits at most in its last call. */
  lemma SubmitsLast(front: seq<GLCall>, s: seq<GLCall>)
    requires NoSubmission(front) && SubmitsOnlyLast(s)
    ensures SubmitsOnlyLast(front + s) && (front + s)[|front + s| - 1] == s[|s| - 1]
    ensures NoSubmission(s) ==> NoSubmission(front + s)
  {
    assert forall k :: |front| <= k < |front + s| ==> (front + s)[k] == s[k - |front|];
  }

  /** The calls of a draw with tiles submit at most once, as their last call, as the submission decides. */
  lemma DrawCallsEnd(f: Frame, gs: GCState, tiles: seq<Tile>, settings: DrawSettings, arenaCurrent: bool)
    ensures var calls := DrawCalls(f, gs, tiles, settings, arenaCurrent);
      var s := Submission(settings, |tiles|, |CommandsAfter(f, tiles, settings)|, arenaCurrent);
      && SubmitsOnlyLast(calls) && calls[|calls| - 1] == s[|s| - 1]
      && (NoSubmission(s) ==> NoSubmission(calls))
  {
    var surface := RendersSurface(settings);
    SubmissionEnds(settings, |tiles|, |CommandsAfter(f, tiles, settings)|, arenaCurrent);
    PreparationSubmitsNothing(gs, f.dirty, surface, |tiles|);
    SubmitsLast(Creations(gs, surface) + Uploads(f.dirty, surface, |tiles|), Submission(settings, |tiles|, |CommandsAfter(f, tiles, settings)|, arenaCurrent));
  }

  /**
   * A surface draw with tiles ends with exactly one multi-draw, of the
   * configured primitive and as many commands as the render state holds; a
   * patch layer with a renderer instead hands all its tiles to it; nothing
   * is submitted otherwise.
   */
  lemma DrawSubmits(f: Frame, contextId: nat, tiles: seq<Tile>, tilebuf: seq<DeviceTile>, settings: DrawSettings, arenaCurrent: bool)
    requires |tilebuf| >= |tiles|
    ensures var r := DrawFrame(f, contextId, tiles, tilebuf, settings, arenaCurrent);
      var calls := NewCalls(f, r);
      && (tiles != [] && RendersSurface(settings) ==>
            SubmitsOnlyLast(calls) && calls[|calls| - 1] == MultiDraw(PrimitiveFor(settings), |r.commands|))
      && (tiles != [] && !RendersSurface(settings) && settings.patchLayer.value.hasRenderer ==>
            SubmitsOnlyLast(calls) && calls[|calls| - 1] == DelegateToPatchRenderer(|tiles|))
      && (tiles == [] || (!RendersSurface(settings) && !settings.patchLayer.value.hasRenderer) ==> NoSubmission(calls))
  {
    if tiles == [] {
      DrawEmptyCalls(f, contextId, tilebuf, settings, arenaCurrent);
    } else {
      DrawFrameParts(f, contextId, tiles, tilebuf, settings, arenaCurrent);
      SubmissionEnds(settings, |tiles|, |CommandsAfter(f, tiles, settings)|, arenaCurrent);
      DrawCallsEnd(f, EntryBefore(f, contextId), tiles, settings, arenaCurrent);
    }
  }

  /** A draw in one context leaves every other context's cache entry as it was. */
  lemma DrawLeavesOtherContexts(f: Frame, contextId: nat, tiles: seq<Tile>, tilebuf: seq<DeviceTile>, settings: DrawSettings, arenaCurrent: bool, other: nat)
    requires |tilebuf| >= |tiles| && other != contextId && other < |f.gcState|
    ensures DrawFrame(f, contextId, tiles, tilebuf, settings, arenaCurrent).gcState[other] == f.gcState[other]
  {
    assert GrowTo(f.gcState, contextId + 1)[other] == f.gcState[other];
  }

  /**
   * The dirty flag is shared by all contexts: after a first context's draw
   * has uploaded, a second context's draw of the same tiles uploads nothing
   * and its tile buffer, if it was live, keeps its old contents.
   */
  lemma SecondContextDoesNotUpload(f: Frame, first: nat, second: nat, tiles: seq<Tile>, tilebuf: seq<DeviceTile>, settings: DrawSettings, arenaCurrent: bool)
    requires |tilebuf| >= |tiles| && tiles != [] && f.dirty && first != second
    ensures var r1 := DrawFrame(f, first, tiles, tilebuf, settings, arenaCurrent);
      var r2 := DrawFrame(r1, second, tiles, tilebuf, settings, arenaCurrent);
      && r1.gcState[first].tiles.Some? && r1.gcState[first].tiles.value.contents == tilebuf[..|tiles|]
      && !r2.dirty && r2.commands == r1.commands && NoUpload(NewCalls(r1, r2))
      && (Live(EntryBefore(f, second).tiles) ==> r2.gcState[second].tiles == EntryBefore(f, second).tiles)
  {
    var r1 := DrawFrame(f, first, tiles, tilebuf, settings, arenaCurrent);
    DrawUploadsWhenDirty(f, first, tiles, tilebuf, settings, arenaCurrent);
    DrawUploadsNothingWhenClean(r1, second, tiles, tilebuf, settings, arenaCurrent);
    DrawFrameParts(r1, second, tiles, tilebuf, settings, arenaCurrent);
    if second < |f.gcState| {
      DrawLeavesOtherContexts(f, first, tiles, tilebuf, settings, arenaCurrent, second);
    }
    assert EntryBefore(r1, second) == EntryBefore(f, second);
  }

  /** The render state shared by the cull traversal and the draws of every context. */
  class RenderState {
    var tiles: seq<Tile>
    var tilebuf: seq<DeviceTile>
    var commands: seq<DrawCommand>
    var dirty: bool
    var gcState: seq<GCState>

    ghost predicate Valid()
      reads this
    {
      |tilebuf| >= |tiles|
    }

    /** A new render state: nothing published, and 64 default per-context entries. */
    constructor ()
      ensures Valid() && tiles == [] && tilebuf == [] && commands == [] && !dirty
      ensures |gcState| == INITIAL_CONTEXT_SLOTS && forall i :: 0 <= i < |gcState| ==> gcState[i] == EMPTY_GC_STATE
    {
      tiles := [];
      tilebuf := [];
      commands := [];
      dirty := false;
      gcState := seq(INITIAL_CONTEXT_SLOTS, _ => EMPTY_GC_STATE);
    }
  }

  /** A terrain layer drawn through the bindless multi-draw path. */
  class LayerDrawableNVGL {
    const rs: RenderState
    const arena: TextureArena
    const settings: DrawSettings
    const useLandCover: bool
    /** The tile list the cull traversal has collected for this frame. */
    var tiles: seq<Tile>
    /** The warnings logged so far. */
    var warnings: seq<string>
    /** The driver calls issued so far. */
    var calls: seq<GLCall>

    ghost predicate Valid()
      reads this, rs, arena
    {
      rs.Valid() && arena.Valid()
    }

    constructor (arena: TextureArena, settings: DrawSettings, useLandCover: bool)
      requires arena.Valid()
      ensures Valid() && fresh(rs)
      ensures this.arena == arena && this.settings == settings && this.useLandCover == useLandCover
      ensures tiles == [] && warnings == [] && calls == []
      ensures rs.tiles == [] && rs.tilebuf == [] && rs.commands == [] && !rs.dirty
      ensures |rs.gcState| == INITIAL_CONTEXT_SLOTS && forall i :: 0 <= i < |rs.gcState| ==> rs.gcState[i] == EMPTY_GC_STATE
    {
      rs := new RenderState();
      this.arena := arena;
      this.settings := settings;
      this.useLandCover := useLandCover;
      tiles := [];
      warnings := [];
      calls := [];
    }

    /** The body of the resolution of one populated sampler: stamp its policy (not for color slots), add it to the arena, copy its matrix. */
    method BindSlot(buf: DeviceTile, sampler: Sampler, slot: nat) returns (out: DeviceTile)
      requires arena.Valid() && slot < SLOT_COUNT && sampler.texture.Some?
      requires sampler.texture.value in arena.policies
      modifies arena
      ensures arena.Valid() && Extends(arena.indices, old(arena.indices))
      ensures arena.indices.Keys == old(arena.indices).Keys + {sampler.texture.value}
      ensures arena.policies == if slot < ELEVATION then old(arena.policies)
        else old(arena.policies)[sampler.texture.value := Stamp(old(arena.policies)[sampler.texture.value], RoleOf(slot))]
      ensures sampler.texture.value in arena.indices && out == SetSlot(buf, slot, arena.indices[sampler.texture.value], sampler.matrix)
    {
      var t := sampler.texture.value;
      if slot >= ELEVATION {
        arena.policies := arena.policies[t := Stamp(arena.policies[t], RoleOf(slot))];
      }
      var index := arena.Add(t);
      out := SetSlot(buf, slot, index, sampler.matrix);
    }

    /** One of the elevation, normal and land-cover blocks: reset the index, then resolve the sampler if the shared array has one. */
    method ResolveFixedSlot(buf: DeviceTile, tile: Tile, slot: nat, ghost prior: DeviceTile, ghost policies0: map<Texture, TexturePolicy>, ghost keys0: set<Texture>)
      returns (out: DeviceTile)
      requires ELEVATION <= slot <= LANDCOVER && (slot == LANDCOVER ==> useLandCover)
      requires SamplersPresent(tile, useLandCover)
      requires arena.Valid() && TileTextures(tile, useLandCover) <= arena.policies.Keys
      requires Progress(buf, prior, tile, arena.indices, useLandCover, slot)
      requires arena.policies == ApplyStamps(policies0, SlotStamps(tile, useLandCover, slot))
      requires arena.indices.Keys == keys0 + TexturesBelow(tile, useLandCover, slot)
      modifies arena
      ensures arena.Valid() && Extends(arena.indices, old(arena.indices)) && arena.policies.Keys == old(arena.policies).Keys
      ensures Progress(out, prior, tile, arena.indices, useLandCover, slot + 1)
      ensures arena.policies == ApplyStamps(policies0, SlotStamps(tile, useLandCover, slot + 1))
      ensures arena.indices.Keys == keys0 + TexturesBelow(tile, useLandCover, slot + 1)
      ensures out.modelViewMatrix == buf.modelViewMatrix && out.tileKey == buf.tileKey && out.drawOrder == buf.drawOrder
    {
      ghost var indices0 := arena.indices;
      ghost var policies := arena.policies;
      out := SetIndex(buf, slot, -1);
      if tile.sharedSamplers.Some? {
        var s := tile.sharedSamplers.value[slot];
        assert Bound(tile, useLandCover, slot) == s.texture;
        if s.texture.Some? {
          BoundInTileTextures(tile, useLandCover, slot);
          out := BindSlot(out, s, slot);
        }
      }
      SlotBookkeepingStep(policies0, keys0, tile, useLandCover, slot, policies, arena.policies, indices0.Keys, arena.indices.Keys);
      assert SlotIs(out, prior, tile, arena.indices, useLandCover, slot);
      ProgressStep(buf, out, prior, tile, indices0, arena.indices, useLandCover, slot);
    }

    /**
     * One half of the color block: reset the slot's index, then resolve the
     * color array's sampler for the slot if it is populated. Color textures
     * are not stamped.
     */
    method ResolveColorSlot(buf: DeviceTile, tile: Tile, slot: nat, ghost prior: DeviceTile, ghost keys0: set<Texture>) returns (out: DeviceTile)
      requires slot <= COLOR_PARENT && SamplersPresent(tile, useLandCover)
      requires arena.Valid() && TileTextures(tile, useLandCover) <= arena.policies.Keys
      requires Progress(buf, prior, tile, arena.indices, useLandCover, slot)
      requires arena.indices.Keys == keys0 + TexturesBelow(tile, useLandCover, slot)
      modifies arena
      ensures arena.Valid() && Extends(arena.indices, old(arena.indices)) && arena.policies == old(arena.policies)
      ensures Progress(out, prior, tile, arena.indices, useLandCover, slot + 1)
      ensures arena.indices.Keys == keys0 + TexturesBelow(tile, useLandCover, slot + 1)
      ensures out.modelViewMatrix == buf.modelViewMatrix && out.tileKey == buf.tileKey && out.drawOrder == buf.drawOrder
    {
      ghost var indices0 := arena.indices;
      out := SetIndex(buf, slot, -1);
      if tile.colorSamplers.Some? {
        var s := tile.colorSamplers.value[slot];
        assert Bound(tile, useLandCover, slot) == s.texture;
        if s.texture.Some? {
          BoundInTileTextures(tile, useLandCover, slot);
          out := BindSlot(out, s, slot);
        }
      }
      KeysStep(keys0, tile, useLandCover, slot, indices0.Keys, arena.indices.Keys);
      assert SlotIs(out, prior, tile, arena.indices, useLandCover, slot);
      ProgressStep(buf, out, prior, tile, indices0, arena.indices, useLandCover, slot);
    }

    /** The elevation, normal and, when land cover is in use, land-cover blocks. */
    method ResolveFixedSlots(buf: DeviceTile, tile: Tile, ghost prior: DeviceTile, ghost policies0: map<Texture, TexturePolicy>, ghost keys0: set<Texture>)
      returns (out: DeviceTile)
      requires SamplersPresent(tile, useLandCover)
      requires arena.Valid() && TileTextures(tile, useLandCover) <= arena.policies.Keys
      requires Progress(buf, prior, tile, arena.indices, useLandCover, ELEVATION)
      requires arena.policies == ApplyStamps(policies0, SlotStamps(tile, useLandCover, ELEVATION))
      requires arena.indices.Keys == keys0 + TexturesBelow(tile, useLandCover, ELEVATION)
      modifies arena
      ensures arena.Valid() && Extends(arena.indices, old(arena.indices)) && arena.policies.Keys == old(arena.policies).Keys
      ensures Progress(out, prior, tile, arena.indices, useLandCover, SHARED)
      ensures arena.policies == ApplyStamps(policies0, SlotStamps(tile, useLandCover, SHARED))
      ensures arena.indices.Keys == keys0 + TexturesBelow(tile, useLandCover, SHARED)
      ensures out.modelViewMatrix == buf.modelViewMatrix && out.tileKey == buf.tileKey && out.drawOrder == buf.drawOrder
    {
      out := ResolveFixedSlot(buf, tile, ELEVATION, prior, policies0, keys0);
      out := ResolveFixedSlot(out, tile, NORMAL, prior, policies0, keys0);
      if useLandCover {
        out := ResolveFixedSlot(out, tile, LANDCOVER, prior, policies0, keys0);
      } else {
        SkipSlot(out, prior, tile, arena.indices, useLandCover, LANDCOVER, policies0, keys0, arena.policies, arena.indices.Keys);
      }
    }

    /**
     * One iteration of the loop over the shared array, at a position that
     * fits in the entry: a populated sampler is resolved as a shared texture;
     * the slot is not reset.
     */
    method ResolveSharedSlot(buf: DeviceTile, tile: Tile, i: nat, ghost prior: DeviceTile, ghost indices0: map<Texture, int>, ghost policies0: map<Texture, TexturePolicy>, ghost keys0: set<Texture>)
      returns (out: DeviceTile)
      requires tile.sharedSamplers.Some? && SHARED <= i < |tile.sharedSamplers.value| && i < SLOT_COUNT
      requires arena.Valid() && Extends(arena.indices, indices0) && TileTextures(tile, useLandCover) <= policies0.Keys
      requires Progress(buf, prior, tile, arena.indices, useLandCover, i)
      requires Bookkept(arena.policies, arena.indices.Keys, policies0, keys0, tile, useLandCover, i)
      modifies arena
      ensures arena.Valid() && Extends(arena.indices, indices0)
      ensures Progress(out, prior, tile, arena.indices, useLandCover, i + 1)
      ensures Bookkept(arena.policies, arena.indices.Keys, policies0, keys0, tile, useLandCover, i + 1)
      ensures out.modelViewMatrix == buf.modelViewMatrix && out.tileKey == buf.tileKey && out.drawOrder == buf.drawOrder
    {
      ghost var indices := arena.indices;
      ghost var policies := arena.policies;
      out := buf;
      var s := tile.sharedSamplers.value[i];
      assert Bound(tile, useLandCover, i) == s.texture;
      if s.texture.Some? {
        BoundInTileTextures(tile, useLandCover, i);
        out := BindSlot(out, s, i);
      }
      SlotBookkeepingStep(policies0, keys0, tile, useLandCover, i, policies, arena.policies, indices.Keys, arena.indices.Keys);
      ProgressStep(buf, out, prior, tile, indices, arena.indices, useLandCover, i);
    }

    /**
     * The loop over the shared array past the fixed slots, up to the entry's
     * capacity: every position resolves into its slot.
     */
    method ResolveSharedSlots(buf: DeviceTile, tile: Tile, ghost prior: DeviceTile, ghost policies0: map<Texture, TexturePolicy>, ghost keys0: set<Texture>)
      returns (out: DeviceTile)
      requires tile.sharedSamplers.Some?
      requires arena.Valid() && TileTextures(tile, useLandCover) <= policies0.Keys
      requires Progress(buf, prior, tile, arena.indices, useLandCover, SHARED)
      requires Bookkept(arena.policies, arena.indices.Keys, policies0, keys0, tile, useLandCover, SHARED)
      modifies arena
      ensures arena.Valid() && Extends(arena.indices, old(arena.indices))
      ensures Progress(out, prior, tile, arena.indices, useLandCover, SharedEnd(tile))
      ensures Bookkept(arena.policies, arena.indices.Keys, policies0, keys0, tile, useLandCover, SharedEnd(tile))
      ensures out.modelViewMatrix == buf.modelViewMatrix && out.tileKey == buf.tileKey && out.drawOrder == buf.drawOrder
    {
      var samplers := tile.sharedSamplers.value;
      out := buf;
      var i := SHARED;
      while i < |samplers| && i < SLOT_COUNT
        invariant SHARED <= i <= SLOT_COUNT && (i <= |samplers| || i == SHARED)
        invariant arena.Valid() && Extends(arena.indices, old(arena.indices))
        invariant Progress(out, prior, tile, arena.indices, useLandCover, i)
        invariant Bookkept(arena.policies, arena.indices.Keys, policies0, keys0, tile, useLandCover, i)
        invariant out.modelViewMatrix == buf.modelViewMatrix && out.tileKey == buf.tileKey && out.drawOrder == buf.drawOrder
      {
        out := ResolveSharedSlot(out, tile, i, prior, old(arena.indices), policies0, keys0);
        i := i + 1;
      }
      assert i == SharedEnd(tile);
    }

    /**
     * The rest of the loop over the shared array: a populated sampler past
     * the entry's capacity is dropped with a warning.
     */
    method WarnSharedOverflow(samplers: seq<Sampler>)
      modifies this`warnings
      ensures warnings == old(warnings) + Warnings(OverflowUpTo(samplers, |samplers|))
    {
      var i := SLOT_COUNT;
      while i < |samplers|
        invariant SLOT_COUNT <= i && (i <= |samplers| || i == SLOT_COUNT)
        invariant warnings == old(warnings) + Warnings(OverflowUpTo(samplers, i))
      {
        OverflowStep(samplers, i);
        if samplers[i].texture.Some? {
          WarningsStep(old(warnings), OverflowUpTo(samplers, i));
          warnings := warnings + [SHARED_OVERFLOW_WARNING];
        }
        i := i + 1;
      }
      assert OverflowUpTo(samplers, |samplers|) == OverflowUpTo(samplers, i);
    }

    /**
     * One iteration of the rebuild loop: the entry for `tile`, written over
     * the entry `prior` the array holds at its position.
     */
    method ResolveTile(prior: DeviceTile, tile: Tile) returns (buf: DeviceTile)
      requires arena.Valid() && SamplersPresent(tile, useLandCover)
      requires TileTextures(tile, useLandCover) <= arena.policies.Keys
      modifies arena, this`warnings
      ensures arena.Valid() && Extends(arena.indices, old(arena.indices))
      ensures arena.indices.Keys == old(arena.indices).Keys + TileTextures(tile, useLandCover)
      ensures arena.policies == ApplyStamps(old(arena.policies), TileStamps(tile, useLandCover))
      ensures warnings == old(warnings) + Warnings(TileOverflow(tile))
      ensures EntryMatches(buf, prior, tile, arena.indices, useLandCover, settings.surfaceDrawOrder)
    {
      ghost var policies0 := arena.policies;
      ghost var keys0 := arena.indices.Keys;
      buf := prior.(modelViewMatrix := tile.modelViewMatrix, tileKey := tile.keyValue);
      assert TexturesBelow(tile, useLandCover, COLOR) == {};
      buf := ResolveColorSlot(buf, tile, COLOR, prior, keys0);
      buf := ResolveColorSlot(buf, tile, COLOR_PARENT, prior, keys0);
      assert SlotStamps(tile, useLandCover, ELEVATION) == [];

      buf := ResolveFixedSlots(buf, tile, prior, policies0, keys0);

      if tile.sharedSamplers.Some? {
        buf := ResolveSharedSlots(buf, tile, prior, policies0, keys0);
        WarnSharedOverflow(tile.sharedSamplers.value);
      }
      SharedEndUnbound(tile, useLandCover);
      FinishEntry(buf, prior, tile, arena.indices, useLandCover, SharedEnd(tile), settings.surfaceDrawOrder);
      buf := buf.(drawOrder := settings.surfaceDrawOrder);
    }

    /**
     * One iteration of the loop of the cull-time refresh: write the entry
     * of the tile at position `k` over the entry the array holds there.
     */
    method RebuildTile(k: nat, ghost grown: seq<DeviceTile>, ghost indices0: map<Texture, int>,
                       ghost policies0: map<Texture, TexturePolicy>, ghost warnings0: seq<string>)
      requires k < |tiles| && AllSamplersPresent(tiles, useLandCover) && ListTextures(tiles, useLandCover) <= policies0.Keys
      requires arena.Valid() && Extends(arena.indices, indices0)
      requires RebuiltUpTo(rs.tilebuf, grown, tiles, arena.indices, useLandCover, settings.surfaceDrawOrder, k)
      requires RebuildBookkept(arena.indices.Keys, arena.policies, warnings, indices0.Keys, policies0, warnings0, tiles[..k], useLandCover)
      modifies this`warnings, rs`tilebuf, arena
      ensures arena.Valid() && Extends(arena.indices, indices0)
      ensures RebuiltUpTo(rs.tilebuf, grown, tiles, arena.indices, useLandCover, settings.surfaceDrawOrder, k + 1)
      ensures RebuildBookkept(arena.indices.Keys, arena.policies, warnings, indices0.Keys, policies0, warnings0, tiles[..k + 1], useLandCover)
    {
      ghost var indicesBefore := arena.indices;
      ghost var policiesBefore := arena.policies;
      ghost var warningsBefore := warnings;
      ghost var tilebufBefore := rs.tilebuf;
      TileTexturesInList(tiles, useLandCover, k);
      var buf := ResolveTile(rs.tilebuf[k], tiles[k]);
      RebuiltUpToStep(tilebufBefore, grown, tiles, indicesBefore, arena.indices, useLandCover, settings.surfaceDrawOrder, k, buf);
      RebuildBookkeptStep(indicesBefore.Keys, policiesBefore, warningsBefore, arena.indices.Keys, arena.policies, warnings,
                          indices0.Keys, policies0, warnings0, tiles, useLandCover, k);
      rs.tilebuf := rs.tilebuf[k := buf];
    }

    /**
     * The loop of the cull-time refresh: write the entry of every collected
     * tile, in order, over the entry array that already holds them.
     */
    method RebuildEntries()
      requires arena.Valid() && |rs.tilebuf| >= |tiles| && AllSamplersPresent(tiles, useLandCover)
      requires ListTextures(tiles, useLandCover) <= arena.policies.Keys
      modifies this`warnings, rs`tilebuf, arena
      ensures arena.Valid() && Extends(arena.indices, old(arena.indices))
      ensures RebuiltUpTo(rs.tilebuf, old(rs.tilebuf), tiles, arena.indices, useLandCover, settings.surfaceDrawOrder, |tiles|)
      ensures RebuildBookkept(arena.indices.Keys, arena.policies, warnings, old(arena.indices).Keys, old(arena.policies), old(warnings), tiles, useLandCover)
    {
      var tileNum := 0;
      while tileNum < |tiles|
        invariant 0 <= tileNum <= |tiles|
        invariant arena.Valid() && Extends(arena.indices, old(arena.indices))
        invariant RebuiltUpTo(rs.tilebuf, old(rs.tilebuf), tiles, arena.indices, useLandCover, settings.surfaceDrawOrder, tileNum)
        invariant RebuildBookkept(arena.indices.Keys, arena.policies, warnings, old(arena.indices).Keys, old(arena.policies), old(warnings), tiles[..tileNum], useLandCover)
      {
        RebuildTile(tileNum, old(rs.tilebuf), old(arena.indices), old(arena.policies), old(warnings));
        tileNum := tileNum + 1;
      }
      assert tiles[..tileNum] == tiles;
    }

    /**
     * The cull-time refresh: when the collected tiles differ from the
     * published ones, grow the entry array to hold them, write one entry per
     * tile in order, publish the tiles and mark the state dirty; otherwise
     * change nothing.
     */
    method RefreshRenderState()
      requires Valid() && AllSamplersPresent(tiles, useLandCover)
      requires ListTextures(tiles, useLandCover) <= arena.policies.Keys
      modifies this`tiles, this`warnings, rs`tilebuf, rs`tiles, rs`dirty, arena
      ensures Valid()
      ensures SameTiles(old(tiles), old(rs.tiles)) ==>
        && tiles == old(tiles) && warnings == old(warnings)
        && rs.tiles == old(rs.tiles) && rs.tilebuf == old(rs.tilebuf) && rs.dirty == old(rs.dirty)
        && arena.indices == old(arena.indices) && arena.policies == old(arena.policies)
      ensures !SameTiles(old(tiles), old(rs.tiles)) ==>
        && rs.tiles == old(tiles) && tiles == [] && rs.dirty
        && RebuiltFrom(rs.tilebuf, old(rs.tilebuf), old(tiles), arena.indices, useLandCover, settings.surfaceDrawOrder)
        && Extends(arena.indices, old(arena.indices))
        && RebuildBookkept(arena.indices.Keys, arena.policies, warnings, old(arena.indices).Keys, old(arena.policies), old(warnings), old(tiles), useLandCover)
    {
      if !SameTiles(tiles, rs.tiles) {
        var n := |tiles|;
        if |rs.tilebuf| < n {
          rs.tilebuf := rs.tilebuf + seq(n - |rs.tilebuf|, _ => FRESH_DEVICE_TILE);
        }
        assert rs.tilebuf == Grown(old(rs.tilebuf), n);
        RebuildEntries();
        RebuiltUpToDone(rs.tilebuf, old(rs.tilebuf), tiles, arena.indices, useLandCover, settings.surfaceDrawOrder);
        rs.tiles := tiles;
        tiles := [];
        rs.dirty := true;
      }
    }

    /**
     * The lazy creation step of a draw: a tile buffer if the context has
     * none that is live, and on the surface path a command buffer with its
     * vertex array and a shared-constants buffer if missing or invalid.
     */
    method PrepareContext(gs: GCState, renderTerrainSurface: bool) returns (gs': GCState, created: seq<GLCall>)
      ensures gs' == Prepared(gs, renderTerrainSurface) && created == Creations(gs, renderTerrainSurface)
    {
      gs' := gs;
      created := [];
      if gs'.tiles.None? || !gs'.tiles.value.valid {
        gs' := gs'.(extensions := true, tiles := Some(GLBuffer(true, [])));
        created := created + [CreateTileBuffer];
      }
      if renderTerrainSurface {
        if gs'.commands.None? || !gs'.commands.value.valid {
          gs' := gs'.(commands := Some(GLBuffer(true, [])), drawProcs := true, vao := Some(GLObject(true)));
          created := created + [CreateCommandBuffer, RecordVertexArray];
        }
        if gs'.shared.None? || !gs'.shared.value.valid {
          gs' := gs'.(shared := Some(GLObject(true)));
          created := created + [CreateSharedBuffer];
        }
      }
    }

    /** The command list rebuilt from the tiles: one command per tile's shared geometry, in tile order. */
    method BuildCommands(tiles: seq<Tile>) returns (commands: seq<DrawCommand>)
      ensures commands == CommandsFor(tiles)
    {
      commands := [];
      var i := 0;
      while i < |tiles|
        invariant 0 <= i <= |tiles|
        invariant commands == CommandsFor(tiles[..i])
      {
        assert tiles[..i + 1][..i] == tiles[..i];
        commands := commands + [DrawCommand(tiles[i].geometry)];
        i := i + 1;
      }
      assert tiles[..i] == tiles;
    }

    /**
     * The dirty upload: the entries of the current tiles into the tile
     * buffer and, on the surface path, the rebuilt command list into the
     * command buffer.
     */
    method Upload(gs: GCState, renderTerrainSurface: bool) returns (gs': GCState, uploads: seq<GLCall>)
      requires rs.Valid() && Live(gs.tiles) && (renderTerrainSurface ==> Live(gs.commands))
      modifies rs`commands
      ensures rs.commands == if renderTerrainSurface then CommandsFor(rs.tiles) else old(rs.commands)
      ensures gs' == Uploaded(gs, renderTerrainSurface, rs.tilebuf[..|rs.tiles|], rs.commands)
      ensures uploads == Uploads(true, renderTerrainSurface, |rs.tiles|)
    {
      gs' := gs.(tiles := Some(gs.tiles.value.(contents := rs.tilebuf[..|rs.tiles|])));
      uploads := [UploadTiles(|rs.tiles|)];
      if renderTerrainSurface {
        rs.commands := BuildCommands(rs.tiles);
        gs' := gs'.(commands := Some(gs'.commands.value.(contents := rs.commands)));
        uploads := uploads + [UploadCommands(|rs.commands|)];
      }
    }

    /** The binds and the submission that end a draw with tiles. */
    method Submit(tileCount: nat, commandCount: nat, arenaCurrent: bool) returns (submitted: seq<GLCall>)
      ensures submitted == Submission(settings, tileCount, commandCount, arenaCurrent)
    {
      submitted := [];
      if !arenaCurrent {
        submitted := submitted + [ApplyTextureArena];
      }
      submitted := submitted + [BindTileBuffer(TILE_BUFFER_BINDING)];
      if settings.patchLayer.None? {
        submitted := submitted + [BindCommandBuffer];
        if settings.surfaceDrawOrder == 0 {
          submitted := submitted + [BindSharedBuffer(SHARED_BUFFER_BINDING)];
        }
        submitted := submitted + [MultiDraw(PrimitiveFor(settings), commandCount)];
      } else if settings.patchLayer.value.hasRenderer {
        submitted := submitted + [DelegateToPatchRenderer(tileCount)];
      }
    }

    /**
     * The draw of one frame in context `contextId`. `arenaCurrent` says
     * whether the state already has this layer's texture arena applied.
     */
    method DrawImplementation(contextId: nat, arenaCurrent: bool)
      requires Valid()
      modifies rs`gcState, rs`dirty, rs`commands, this`calls
      ensures Valid()
      ensures Frame(rs.gcState, rs.dirty, rs.commands, calls)
        == DrawFrame(Frame(old(rs.gcState), old(rs.dirty), old(rs.commands), old(calls)), contextId, rs.tiles, rs.tilebuf, settings, arenaCurrent)
    {
      if |rs.gcState| <= contextId {
        rs.gcState := GrowTo(rs.gcState, contextId + 1);
      }
      var gs := rs.gcState[contextId];
      if |rs.tiles| == 0 {
        return;
      }
      ghost var gs0 := gs;
      var renderTerrainSurface := settings.patchLayer.None?;
      var created;
      gs, created := PrepareContext(gs, renderTerrainSurface);
      var uploads := [];
      if rs.dirty {
        rs.dirty := false;
        gs, uploads := Upload(gs, renderTerrainSurface);
      }
      var submitted := Submit(|rs.tiles|, |rs.commands|, arenaCurrent);
      calls := calls + (created + uploads + submitted);
      rs.gcState := rs.gcState[contextId := gs];
    }

    /** Release the GL objects of one context (`Some`), or of every context (`None`). */
    method ReleaseGLObjects(contextId: Option<nat>)
      modifies rs`gcState
      ensures rs.gcState == Released(old(rs.gcState), contextId)
    {
      match contextId {
        case Some(c) =>
          if |rs.gcState| <= c {
            rs.gcState := GrowTo(rs.gcState, c + 1);
          }
          var gs := rs.gcState[c];
          gs := gs.(shared := None);
          gs := gs.(tiles := None);
          gs := gs.(commands := None);
          gs := gs.(vao := None);
          rs.gcState := rs.gcState[c := gs];
        case None =>
          var i := 0;
          while i < |rs.gcState|
            invariant 0 <= i <= |rs.gcState| == |old(rs.gcState)|
            invariant forall k :: 0 <= k < i ==> rs.gcState[k] == EMPTY_GC_STATE
          {
            rs.gcState := rs.gcState[i := EMPTY_GC_STATE];
            i := i + 1;
          }
      }
    }

    /** Make room for `size` contexts; the array never shrinks. */
    method ResizeGLObjectBuffers(size: nat)
      modifies rs`gcState
      ensures rs.gcState == GrowTo(old(rs.gcState), size)
    {
      if |rs.gcState| < size {
        rs.gcState := GrowTo(rs.gcState, size);
      }
    }
  }

}
