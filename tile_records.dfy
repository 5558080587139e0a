/**
 * The records the tile-buffer builder reads and writes: the tile list the
 * cull traversal hands over (one draw command per visible tile, with its
 * sampler bindings), and the fixed-layout device tile entry the shader reads.
 * The rules of one rebuild are stated here as predicates and functions on
 * values; the class that performs the rebuild in place is in LayerDrawables.
 */
module TileRecords {
  import opened Wrappers
  import opened Textures

  /** The sampler binding slots. The two color slots live in a tile's color sampler array, the others in its shared one. */
  const COLOR: nat := 0
  const COLOR_PARENT: nat := 1
  const ELEVATION: nat := 2
  const NORMAL: nat := 3
  const LANDCOVER: nat := 4
  const SHARED: nat := 5

  /** The number of generic shared sampler slots a device tile entry holds. */
  const MAX_NUM_SHARED_SAMPLERS: nat := 14

  /** The slots a device tile entry can hold: the five fixed ones and the generic shared ones. */
  const SLOT_COUNT: nat := SHARED + MAX_NUM_SHARED_SAMPLERS

  /** Matrix and tile-key elements are opaque values; only their positions matter. */
  type Mat4 = m: seq<real> | |m| == 16 witness [0.0, 0.0, 0.0, 0.0, 0.0, 0.0, 0.0, 0.0, 0.0, 0.0, 0.0, 0.0, 0.0, 0.0, 0.0, 0.0]
  type Vec4 = v: seq<real> | |v| == 4 witness [0.0, 0.0, 0.0, 0.0]

  const ZERO_MAT4: Mat4 := [0.0, 0.0, 0.0, 0.0, 0.0, 0.0, 0.0, 0.0, 0.0, 0.0, 0.0, 0.0, 0.0, 0.0, 0.0, 0.0]
  const ZERO_VEC4: Vec4 := [0.0, 0.0, 0.0, 0.0]

  type SharedIndices = s: seq<int> | |s| == MAX_NUM_SHARED_SAMPLERS witness NO_SHARED_INDICES
  type SharedMatrices = s: seq<Mat4> | |s| == MAX_NUM_SHARED_SAMPLERS witness NO_SHARED_MATRICES

  const NO_SHARED_INDICES: seq<int> := [0, 0, 0, 0, 0, 0, 0, 0, 0, 0, 0, 0, 0, 0]
  const NO_SHARED_MATRICES: seq<Mat4> := [
    ZERO_MAT4, ZERO_MAT4, ZERO_MAT4, ZERO_MAT4, ZERO_MAT4, ZERO_MAT4, ZERO_MAT4,
    ZERO_MAT4, ZERO_MAT4, ZERO_MAT4, ZERO_MAT4, ZERO_MAT4, ZERO_MAT4, ZERO_MAT4]

  /** A shared geometry object; tiles built from the same one share it. */
  datatype Geometry = Geometry(id: nat)

  /** A sampler: an optional texture and its texture matrix. */
  datatype Sampler = Sampler(texture: Option<Texture>, matrix: Mat4)

  /**
   * One draw-tile command of the incoming list. `ident` is the identity of
   * the command; the sampler arrays are pointers that may be null.
   */
  datatype Tile = Tile(
    ident: nat,
    geometry: Geometry,
    modelViewMatrix: Mat4,
    keyValue: Vec4,
    colorSamplers: Option<seq<Sampler>>,
    sharedSamplers: Option<seq<Sampler>>)

  /** The comparison that decides whether a rebuild is needed: same length, same tile identities in the same order. */
  predicate SameTiles(a: seq<Tile>, b: seq<Tile>)
  {
    |a| == |b| && forall i :: 0 <= i < |a| ==> a[i].ident == b[i].ident
  }

  /**
   * The sampler arrays are indexed without a bounds check, so each present
   * array must hold the fixed slots the rebuild reads from it.
   */
  predicate SamplersPresent(tile: Tile, useLandCover: bool)
  {
    && (tile.colorSamplers.Some? ==> |tile.colorSamplers.value| > COLOR_PARENT)
    && (tile.sharedSamplers.Some? ==> |tile.sharedSamplers.value| > if useLandCover then LANDCOVER else NORMAL)
  }

  predicate AllSamplersPresent(tiles: seq<Tile>, useLandCover: bool)
  {
    forall i :: 0 <= i < |tiles| ==> SamplersPresent(tiles[i], useLandCover)
  }

  /**
   * The sampler a rebuild reads for `slot`, if it reads one: the color slots
   * come from the color array, the others from the shared array; the
   * land-cover slot is read only when land cover is in use, and shared slots
   * past the entry's capacity are never stored.
   */
  function SlotSampler(tile: Tile, useLandCover: bool, slot: nat): Option<Sampler>
  {
    if slot <= COLOR_PARENT then
      if tile.colorSamplers.Some? && slot < |tile.colorSamplers.value| then Some(tile.colorSamplers.value[slot]) else None
    else if (slot == LANDCOVER && !useLandCover) || slot >= SLOT_COUNT then None
    else if tile.sharedSamplers.Some? && slot < |tile.sharedSamplers.value| then Some(tile.sharedSamplers.value[slot])
    else None
  }

  /** The texture a rebuild resolves into `slot`, if any. */
  function Bound(tile: Tile, useLandCover: bool, slot: nat): Option<Texture>
  {
    match SlotSampler(tile, useLandCover, slot)
    case None => None
    case Some(s) => s.texture
  }

  /** The slots whose index is reset to -1 before an empty sampler is skipped. */
  predicate ResetsWhenEmpty(useLandCover: bool, slot: nat)
  {
    slot <= NORMAL || (slot == LANDCOVER && useLandCover)
  }

  /** The policy a slot's texture is stamped with; the color slots stamp nothing. */
  function RoleOf(slot: nat): Role
    requires ELEVATION <= slot
  {
    if slot == ELEVATION then Elevation
    else if slot == NORMAL then Normal
    else if slot == LANDCOVER then LandCover
    else Shared
  }

  /** The device-side tile record, one per tile, read by the shader. */
  datatype DeviceTile = DeviceTile(
    modelViewMatrix: Mat4,
    tileKey: Vec4,
    colorIndex: int,
    parentIndex: int,
    elevIndex: int,
    normalIndex: int,
    landcoverIndex: int,
    sharedIndex: SharedIndices,
    colorMat: Mat4,
    parentMat: Mat4,
    elevMat: Mat4,
    normalMat: Mat4,
    landcoverMat: Mat4,
    sharedMat: SharedMatrices,
    drawOrder: int)

  /** A value-initialised entry, as appended when the entry array grows. */
  const FRESH_DEVICE_TILE: DeviceTile := DeviceTile(
    ZERO_MAT4, ZERO_VEC4, 0, 0, 0, 0, 0, NO_SHARED_INDICES,
    ZERO_MAT4, ZERO_MAT4, ZERO_MAT4, ZERO_MAT4, ZERO_MAT4, NO_SHARED_MATRICES, 0)

  /** The arena index an entry holds for `slot`. */
  function SlotIndex(e: DeviceTile, slot: nat): int
    requires slot < SLOT_COUNT
  {
    if slot == COLOR then e.colorIndex
    else if slot == COLOR_PARENT then e.parentIndex
    else if slot == ELEVATION then e.elevIndex
    else if slot == NORMAL then e.normalIndex
    else if slot == LANDCOVER then e.landcoverIndex
    else e.sharedIndex[slot - SHARED]
  }

  /** The texture matrix an entry holds for `slot`. */
  function SlotMatrix(e: DeviceTile, slot: nat): Mat4
    requires slot < SLOT_COUNT
  {
    if slot == COLOR then e.colorMat
    else if slot == COLOR_PARENT then e.parentMat
    else if slot == ELEVATION then e.elevMat
    else if slot == NORMAL then e.normalMat
    else if slot == LANDCOVER then e.landcoverMat
    else e.sharedMat[slot - SHARED]
  }

  /** The entry with the index and matrix of one slot written; every other field is kept. */
  function SetSlot(e: DeviceTile, slot: nat, index: int, matrix: Mat4): (e': DeviceTile)
    requires slot < SLOT_COUNT
    ensures SlotIndex(e', slot) == index && SlotMatrix(e', slot) == matrix
    ensures forall q {:trigger SlotIndex(e', q)} {:trigger SlotMatrix(e', q)} :: 0 <= q < SLOT_COUNT && q != slot ==> SlotIndex(e', q) == SlotIndex(e, q) && SlotMatrix(e', q) == SlotMatrix(e, q)
    ensures e'.modelViewMatrix == e.modelViewMatrix && e'.tileKey == e.tileKey && e'.drawOrder == e.drawOrder
  {
    if slot == COLOR then e.(colorIndex := index, colorMat := matrix)
    else if slot == COLOR_PARENT then e.(parentIndex := index, parentMat := matrix)
    else if slot == ELEVATION then e.(elevIndex := index, elevMat := matrix)
    else if slot == NORMAL then e.(normalIndex := index, normalMat := matrix)
    else if slot == LANDCOVER then e.(landcoverIndex := index, landcoverMat := matrix)
    else e.(sharedIndex := e.sharedIndex[slot - SHARED := index], sharedMat := e.sharedMat[slot - SHARED := matrix])
  }

  /** The entry with one slot's index written; its matrix and every other field are kept. */
  function SetIndex(e: DeviceTile, slot: nat, index: int): (e': DeviceTile)
    requires slot < SLOT_COUNT
    ensures SlotIndex(e', slot) == index
    ensures forall q {:trigger SlotMatrix(e', q)} :: 0 <= q < SLOT_COUNT ==> SlotMatrix(e', q) == SlotMatrix(e, q)
    ensures forall q {:trigger SlotIndex(e', q)} :: 0 <= q < SLOT_COUNT && q != slot ==> SlotIndex(e', q) == SlotIndex(e, q)
    ensures e'.modelViewMatrix == e.modelViewMatrix && e'.tileKey == e.tileKey && e'.drawOrder == e.drawOrder
  {
    SetSlot(e, slot, index, SlotMatrix(e, slot))
  }

  /**
   * What a rebuild leaves in one slot of entry `e`, written over `prior`:
   * a resolved texture's arena index and matrix; otherwise -1 for a slot
   * that is reset first, or the prior index; an empty slot's matrix is
   * never written.
   */
  predicate SlotIs(e: DeviceTile, prior: DeviceTile, tile: Tile, indexOf: map<Texture, int>, useLandCover: bool, slot: nat)
    requires slot < SLOT_COUNT
  {
    match Bound(tile, useLandCover, slot)
    case Some(t) =>
      t in indexOf && SlotIndex(e, slot) == indexOf[t] && SlotMatrix(e, slot) == SlotSampler(tile, useLandCover, slot).value.matrix
    case None =>
      && SlotIndex(e, slot) == (if ResetsWhenEmpty(useLandCover, slot) then -1 else SlotIndex(prior, slot))
      && SlotMatrix(e, slot) == SlotMatrix(prior, slot)
  }

  /** The entry a rebuild writes for `tile` over `prior`, given the arena's index of every resolved texture. */
  predicate EntryMatches(e: DeviceTile, prior: DeviceTile, tile: Tile, indexOf: map<Texture, int>, useLandCover: bool, drawOrder: int)
  {
    && e.modelViewMatrix == tile.modelViewMatrix
    && e.tileKey == tile.keyValue
    && e.drawOrder == drawOrder
    && forall slot: nat :: slot < SLOT_COUNT ==> SlotIs(e, prior, tile, indexOf, useLandCover, slot)
  }

  function Max(a: nat, b: nat): nat
  {
    if a < b then b else a
  }

  /** The entry array before a rebuild of `n` tiles, grown with value-initialised entries. */
  function Grown(prior: seq<DeviceTile>, n: nat): (g: seq<DeviceTile>)
    ensures |g| == Max(|prior|, n) && g[..|prior|] == prior
    ensures forall i :: |prior| <= i < |g| ==> g[i] == FRESH_DEVICE_TILE
  {
    if |prior| < n then prior + seq(n - |prior|, _ => FRESH_DEVICE_TILE) else prior
  }

  /**
   * The entry array after a rebuild of `tiles` over `prior`: grown to hold
   * every tile, entry i written for tile i, and every entry past the tiles
   * left as it was.
   */
  predicate RebuiltFrom(r: seq<DeviceTile>, prior: seq<DeviceTile>, tiles: seq<Tile>, indexOf: map<Texture, int>, useLandCover: bool, drawOrder: int)
  {
    var g := Grown(prior, |tiles|);
    && |r| == |g|
    && (forall i :: 0 <= i < |tiles| ==> EntryMatches(r[i], g[i], tiles[i], indexOf, useLandCover, drawOrder))
    && (forall i :: |tiles| <= i < |r| ==> r[i] == prior[i])
  }

  /** Two entries that match the same tile over the same prior entry are equal: the rules leave no field open. */
  lemma EntryDeterministic(e1: DeviceTile, e2: DeviceTile, prior: DeviceTile, tile: Tile, indexOf: map<Texture, int>, useLandCover: bool, drawOrder: int)
    requires EntryMatches(e1, prior, tile, indexOf, useLandCover, drawOrder)
    requires EntryMatches(e2, prior, tile, indexOf, useLandCover, drawOrder)
    ensures e1 == e2
  {
    forall slot: nat | slot < SLOT_COUNT
      ensures SlotIndex(e1, slot) == SlotIndex(e2, slot) && SlotMatrix(e1, slot) == SlotMatrix(e2, slot)
    {
      assert SlotIs(e1, prior, tile, indexOf, useLandCover, slot);
      assert SlotIs(e2, prior, tile, indexOf, useLandCover, slot);
    }
    forall k | 0 <= k < MAX_NUM_SHARED_SAMPLERS
      ensures e1.sharedIndex[k] == e2.sharedIndex[k] && e1.sharedMat[k] == e2.sharedMat[k]
    {
      assert SlotIndex(e1, SHARED + k) == SlotIndex(e2, SHARED + k);
      assert SlotMatrix(e1, SHARED + k) == SlotMatrix(e2, SHARED + k);
    }
    assert SlotIndex(e1, COLOR) == SlotIndex(e2, COLOR) && SlotMatrix(e1, COLOR) == SlotMatrix(e2, COLOR);
    assert SlotIndex(e1, COLOR_PARENT) == SlotIndex(e2, COLOR_PARENT) && SlotMatrix(e1, COLOR_PARENT) == SlotMatrix(e2, COLOR_PARENT);
    assert SlotIndex(e1, ELEVATION) == SlotIndex(e2, ELEVATION) && SlotMatrix(e1, ELEVATION) == SlotMatrix(e2, ELEVATION);
    assert SlotIndex(e1, NORMAL) == SlotIndex(e2, NORMAL) && SlotMatrix(e1, NORMAL) == SlotMatrix(e2, NORMAL);
    assert SlotIndex(e1, LANDCOVER) == SlotIndex(e2, LANDCOVER) && SlotMatrix(e1, LANDCOVER) == SlotMatrix(e2, LANDCOVER);
  }

  /** The rebuilt entry array is determined by the prior array, the tiles and the arena's indices. */
  lemma RebuiltDeterministic(r1: seq<DeviceTile>, r2: seq<DeviceTile>, prior: seq<DeviceTile>, tiles: seq<Tile>, indexOf: map<Texture, int>, useLandCover: bool, drawOrder: int)
    requires RebuiltFrom(r1, prior, tiles, indexOf, useLandCover, drawOrder)
    requires RebuiltFrom(r2, prior, tiles, indexOf, useLandCover, drawOrder)
    ensures r1 == r2
  {
    var g := Grown(prior, |tiles|);
    forall i | 0 <= i < |r1|
      ensures r1[i] == r2[i]
    {
      if i < |tiles| {
        EntryDeterministic(r1[i], r2[i], g[i], tiles[i], indexOf, useLandCover, drawOrder);
      }
    }
  }

  /**
   * The entry array after a rebuild holds at least one entry per tile, and
   * entry i carries tile i's model-view matrix, tile key and the layer's
   * draw order.
   */
  lemma RebuiltCorrespondence(r: seq<DeviceTile>, prior: seq<DeviceTile>, tiles: seq<Tile>, indexOf: map<Texture, int>, useLandCover: bool, drawOrder: int, i: nat)
    requires RebuiltFrom(r, prior, tiles, indexOf, useLandCover, drawOrder)
    requires i < |tiles|
    ensures |r| >= |tiles| && |r| >= |prior|
    ensures r[i].modelViewMatrix == tiles[i].modelViewMatrix && r[i].tileKey == tiles[i].keyValue && r[i].drawOrder == drawOrder
  {
    assert EntryMatches(r[i], Grown(prior, |tiles|)[i], tiles[i], indexOf, useLandCover, drawOrder);
  }

  /**
   * A resolved slot holds the arena index of its texture and its sampler's
   * matrix, so two slots (of the same tile or of two tiles) that resolve the
   * same texture hold the same index; an empty color, parent, elevation or
   * normal slot holds -1, and an empty slot's matrix is never written.
   */
  lemma RebuiltSlot(r: seq<DeviceTile>, prior: seq<DeviceTile>, tiles: seq<Tile>, indexOf: map<Texture, int>, useLandCover: bool, drawOrder: int, i: nat, slot: nat)
    requires RebuiltFrom(r, prior, tiles, indexOf, useLandCover, drawOrder)
    requires i < |tiles| && slot < SLOT_COUNT
    ensures Bound(tiles[i], useLandCover, slot).Some? ==>
      && Bound(tiles[i], useLandCover, slot).value in indexOf
      && SlotIndex(r[i], slot) == indexOf[Bound(tiles[i], useLandCover, slot).value]
      && SlotMatrix(r[i], slot) == SlotSampler(tiles[i], useLandCover, slot).value.matrix
    ensures Bound(tiles[i], useLandCover, slot).None? && slot <= NORMAL ==> SlotIndex(r[i], slot) == -1
    ensures Bound(tiles[i], useLandCover, slot).None? ==> SlotMatrix(r[i], slot) == SlotMatrix(Grown(prior, |tiles|)[i], slot)
  {
    assert EntryMatches(r[i], Grown(prior, |tiles|)[i], tiles[i], indexOf, useLandCover, drawOrder);
    assert SlotIs(r[i], Grown(prior, |tiles|)[i], tiles[i], indexOf, useLandCover, slot);
  }

  /**
   * With an arena whose indices are distinct, two resolved slots hold the
   * same index exactly when they resolve the same texture.
   */
  lemma SameIndexIffSameTexture(r: seq<DeviceTile>, prior: seq<DeviceTile>, tiles: seq<Tile>, indexOf: map<Texture, int>, useLandCover: bool, drawOrder: int, i: nat, si: nat, j: nat, sj: nat)
    requires RebuiltFrom(r, prior, tiles, indexOf, useLandCover, drawOrder)
    requires Injective(indexOf)
    requires i < |tiles| && j < |tiles| && si < SLOT_COUNT && sj < SLOT_COUNT
    requires Bound(tiles[i], useLandCover, si).Some? && Bound(tiles[j], useLandCover, sj).Some?
    ensures SlotIndex(r[i], si) == SlotIndex(r[j], sj) <==> Bound(tiles[i], useLandCover, si) == Bound(tiles[j], useLandCover, sj)
  {
    RebuiltSlot(r, prior, tiles, indexOf, useLandCover, drawOrder, i, si);
    RebuiltSlot(r, prior, tiles, indexOf, useLandCover, drawOrder, j, sj);
    var g := Grown(prior, |tiles|);
    assert SlotIs(r[i], g[i], tiles[i], indexOf, useLandCover, si);
    assert SlotIs(r[j], g[j], tiles[j], indexOf, useLandCover, sj);
  }

  /**
   * Land-cover and generic shared slots are not reset: when land cover is
   * off, or a shared slot is empty, the entry keeps what the array held
   * there before.
   */
  lemma RebuiltKeepsUnwritten(r: seq<DeviceTile>, prior: seq<DeviceTile>, tiles: seq<Tile>, indexOf: map<Texture, int>, useLandCover: bool, drawOrder: int, i: nat)
    requires RebuiltFrom(r, prior, tiles, indexOf, useLandCover, drawOrder)
    requires i < |tiles|
    ensures !useLandCover ==> r[i].landcoverIndex == Grown(prior, |tiles|)[i].landcoverIndex && r[i].landcoverMat == Grown(prior, |tiles|)[i].landcoverMat
    ensures forall k :: 0 <= k < MAX_NUM_SHARED_SAMPLERS && Bound(tiles[i], useLandCover, SHARED + k).None? ==>
      r[i].sharedIndex[k] == Grown(prior, |tiles|)[i].sharedIndex[k] && r[i].sharedMat[k] == Grown(prior, |tiles|)[i].sharedMat[k]
  {
    var g := Grown(prior, |tiles|);
    assert EntryMatches(r[i], g[i], tiles[i], indexOf, useLandCover, drawOrder);
    assert SlotIs(r[i], g[i], tiles[i], indexOf, useLandCover, LANDCOVER);
    forall k | 0 <= k < MAX_NUM_SHARED_SAMPLERS && Bound(tiles[i], useLandCover, SHARED + k).None?
      ensures r[i].sharedIndex[k] == g[i].sharedIndex[k] && r[i].sharedMat[k] == g[i].sharedMat[k]
    {
      assert SlotIs(r[i], g[i], tiles[i], indexOf, useLandCover, SHARED + k);
    }
  }

  /** The textures a rebuild resolves into the slots below `hi`. */
  function TexturesBelow(tile: Tile, useLandCover: bool, hi: nat): set<Texture>
  {
    set slot: nat | slot < hi && Bound(tile, useLandCover, slot).Some? :: Bound(tile, useLandCover, slot).value
  }

  /** The textures a rebuild resolves for one tile. */
  function TileTextures(tile: Tile, useLandCover: bool): set<Texture>
  {
    TexturesBelow(tile, useLandCover, SLOT_COUNT)
  }

  lemma {:induction false} TexturesBelowExact(tile: Tile, useLandCover: bool, hi: nat, t: Texture)
    ensures t in TexturesBelow(tile, useLandCover, hi) <==> exists slot: nat :: slot < hi && Bound(tile, useLandCover, slot) == Some(t)
    decreases hi
  {
    if hi > 0 {
      TexturesBelowExact(tile, useLandCover, hi - 1, t);
      if exists slot: nat :: slot < hi && Bound(tile, useLandCover, slot) == Some(t) {
        var slot: nat :| slot < hi && Bound(tile, useLandCover, slot) == Some(t);
        if slot == hi - 1 {
          assert t in TexturesBelow(tile, useLandCover, hi);
        }
      }
    }
  }

  /** A texture a slot resolves is among the tile's textures. */
  lemma BoundInTileTextures(tile: Tile, useLandCover: bool, slot: nat)
    requires slot < SLOT_COUNT && Bound(tile, useLandCover, slot).Some?
    ensures Bound(tile, useLandCover, slot).value in TileTextures(tile, useLandCover)
  {
    TexturesBelowExact(tile, useLandCover, SLOT_COUNT, Bound(tile, useLandCover, slot).value);
  }

  /** The textures a rebuild resolves for a tile list. */
  function ListTextures(tiles: seq<Tile>, useLandCover: bool): set<Texture>
    decreases |tiles|
  {
    if tiles == [] then {}
    else ListTextures(tiles[..|tiles| - 1], useLandCover) + TileTextures(tiles[|tiles| - 1], useLandCover)
  }

  /** Every tile's textures are among the list's. */
  lemma {:induction false} TileTexturesInList(tiles: seq<Tile>, useLandCover: bool, k: nat)
    requires k < |tiles|
    ensures TileTextures(tiles[k], useLandCover) <= ListTextures(tiles, useLandCover)
    decreases |tiles|
  {
    if k < |tiles| - 1 {
      TileTexturesInList(tiles[..|tiles| - 1], useLandCover, k);
    }
  }

  /** A texture is among the list's exactly when some slot of some tile resolves it. */
  lemma {:induction false} ListTexturesExact(tiles: seq<Tile>, useLandCover: bool, t: Texture)
    ensures t in ListTextures(tiles, useLandCover) <==>
      exists i: nat, slot: nat :: i < |tiles| && slot < SLOT_COUNT && Bound(tiles[i], useLandCover, slot) == Some(t)
    decreases |tiles|
  {
    if tiles != [] {
      var front := tiles[..|tiles| - 1];
      var last := tiles[|tiles| - 1];
      ListTexturesExact(front, useLandCover, t);
      TexturesBelowExact(last, useLandCover, SLOT_COUNT, t);
      if exists i: nat, slot: nat :: i < |tiles| && slot < SLOT_COUNT && Bound(tiles[i], useLandCover, slot) == Some(t) {
        var i: nat, slot: nat :| i < |tiles| && slot < SLOT_COUNT && Bound(tiles[i], useLandCover, slot) == Some(t);
        if i < |front| {
          assert Bound(front[i], useLandCover, slot) == Some(t);
        }
      }
      if t in ListTextures(front, useLandCover) {
        var i: nat, slot: nat :| i < |front| && slot < SLOT_COUNT && Bound(front[i], useLandCover, slot) == Some(t);
        assert tiles[i] == front[i];
      }
    }
  }

  /**
   * How far the writing of one entry has got: the slots below `done` hold
   * what the rebuild leaves there, the others still hold the prior entry's.
   */
  predicate Progress(e: DeviceTile, prior: DeviceTile, tile: Tile, indexOf: map<Texture, int>, useLandCover: bool, done: nat)
  {
    && (forall q: nat :: q < done && q < SLOT_COUNT ==> SlotIs(e, prior, tile, indexOf, useLandCover, q))
    && (forall q: nat {:trigger SlotIndex(e, q)} {:trigger SlotMatrix(e, q)} :: done <= q < SLOT_COUNT ==> SlotIndex(e, q) == SlotIndex(prior, q) && SlotMatrix(e, q) == SlotMatrix(prior, q))
  }

  /** Growing the arena's map keeps what has been written. */
  lemma ProgressExtends(e: DeviceTile, prior: DeviceTile, tile: Tile, m: map<Texture, int>, m': map<Texture, int>, useLandCover: bool, done: nat)
    requires Progress(e, prior, tile, m, useLandCover, done) && Extends(m', m)
    ensures Progress(e, prior, tile, m', useLandCover, done)
  {
    forall q: nat | q < done && q < SLOT_COUNT
      ensures SlotIs(e, prior, tile, m', useLandCover, q)
    {
      assert SlotIs(e, prior, tile, m, useLandCover, q);
    }
  }

  /** Writing slot `done` and nothing else advances the progress by one slot. */
  lemma ProgressStep(e: DeviceTile, e': DeviceTile, prior: DeviceTile, tile: Tile, m: map<Texture, int>, m': map<Texture, int>, useLandCover: bool, done: nat)
    requires done < SLOT_COUNT && Progress(e, prior, tile, m, useLandCover, done) && Extends(m', m)
    requires forall q: nat :: q < SLOT_COUNT && q != done ==> SlotIndex(e', q) == SlotIndex(e, q) && SlotMatrix(e', q) == SlotMatrix(e, q)
    requires SlotIs(e', prior, tile, m', useLandCover, done)
    ensures Progress(e', prior, tile, m', useLandCover, done + 1)
  {
    ProgressExtends(e, prior, tile, m, m', useLandCover, done);
    forall q: nat | q < done
      ensures SlotIs(e', prior, tile, m', useLandCover, q)
    {
      assert SlotIs(e, prior, tile, m', useLandCover, q);
    }
  }

  /** Slots left empty and never reset already hold what the rebuild leaves there. */
  lemma ProgressFinish(e: DeviceTile, prior: DeviceTile, tile: Tile, m: map<Texture, int>, useLandCover: bool, done: nat)
    requires ELEVATION <= done <= SLOT_COUNT && Progress(e, prior, tile, m, useLandCover, done)
    requires forall q: nat :: done <= q < SLOT_COUNT ==> Bound(tile, useLandCover, q).None? && !ResetsWhenEmpty(useLandCover, q)
    ensures Progress(e, prior, tile, m, useLandCover, SLOT_COUNT)
  {
    forall q: nat | q < SLOT_COUNT
      ensures SlotIs(e, prior, tile, m, useLandCover, q)
    {
      if q >= done {
        assert Bound(tile, useLandCover, q).None?;
      }
    }
  }

  /** An entry written in full matches the tile. */
  lemma ProgressComplete(e: DeviceTile, prior: DeviceTile, tile: Tile, m: map<Texture, int>, useLandCover: bool, drawOrder: int)
    requires Progress(e, prior, tile, m, useLandCover, SLOT_COUNT)
    requires e.modelViewMatrix == tile.modelViewMatrix && e.tileKey == tile.keyValue && e.drawOrder == drawOrder
    ensures EntryMatches(e, prior, tile, m, useLandCover, drawOrder)
  {
  }

  /** Growing the arena's map keeps an entry matching its tile. */
  lemma EntryMatchesExtends(e: DeviceTile, prior: DeviceTile, tile: Tile, m: map<Texture, int>, m': map<Texture, int>, useLandCover: bool, drawOrder: int)
    requires EntryMatches(e, prior, tile, m, useLandCover, drawOrder) && Extends(m', m)
    ensures EntryMatches(e, prior, tile, m', useLandCover, drawOrder)
  {
    ProgressExtends(e, prior, tile, m, m', useLandCover, SLOT_COUNT);
  }

  /**
   * The entry array part-way through a rebuild over `grown`: the first `k`
   * entries written for their tiles, the rest as they were.
   */
  predicate RebuiltUpTo(r: seq<DeviceTile>, grown: seq<DeviceTile>, tiles: seq<Tile>, indexOf: map<Texture, int>, useLandCover: bool, drawOrder: int, k: nat)
  {
    && k <= |tiles| && |tiles| <= |grown| && |r| == |grown|
    && (forall i :: k <= i < |grown| ==> r[i] == grown[i])
    && (forall i :: 0 <= i < k ==> EntryMatches(r[i], grown[i], tiles[i], indexOf, useLandCover, drawOrder))
  }

  /** Writing the entry of tile `k`, while the arena only grows, rebuilds one more entry. */
  lemma RebuiltUpToStep(r: seq<DeviceTile>, grown: seq<DeviceTile>, tiles: seq<Tile>, m: map<Texture, int>, m': map<Texture, int>, useLandCover: bool, drawOrder: int, k: nat, e: DeviceTile)
    requires RebuiltUpTo(r, grown, tiles, m, useLandCover, drawOrder, k) && k < |tiles|
    requires Extends(m', m) && EntryMatches(e, grown[k], tiles[k], m', useLandCover, drawOrder)
    ensures RebuiltUpTo(r[k := e], grown, tiles, m', useLandCover, drawOrder, k + 1)
  {
    forall i | 0 <= i < k
      ensures EntryMatches(r[i], grown[i], tiles[i], m', useLandCover, drawOrder)
    {
      EntryMatchesExtends(r[i], grown[i], tiles[i], m, m', useLandCover, drawOrder);
    }
  }

  /** A rebuild that has written every tile's entry over the grown array is complete. */
  lemma RebuiltUpToDone(r: seq<DeviceTile>, prior: seq<DeviceTile>, tiles: seq<Tile>, indexOf: map<Texture, int>, useLandCover: bool, drawOrder: int)
    requires RebuiltUpTo(r, Grown(prior, |tiles|), tiles, indexOf, useLandCover, drawOrder, |tiles|)
    ensures RebuiltFrom(r, prior, tiles, indexOf, useLandCover, drawOrder)
  {
    var g := Grown(prior, |tiles|);
    forall i | |tiles| <= i < |r|
      ensures r[i] == prior[i]
    {
      assert i < |prior|;
      assert g[..|prior|][i] == prior[i];
    }
  }

  /** The policy stamps one tile writes, slot by slot from the elevation slot on. */
  function SlotStamps(tile: Tile, useLandCover: bool, hi: nat): (log: StampLog)
    requires hi <= SLOT_COUNT
    decreases hi
  {
    if hi <= ELEVATION then [] else SlotStamps(tile, useLandCover, hi - 1) + SlotStamp(tile, useLandCover, hi - 1)
  }

  /** The stamp one slot writes: its texture under the slot's role, if it resolves one. */
  function SlotStamp(tile: Tile, useLandCover: bool, slot: nat): StampLog
    requires ELEVATION <= slot
  {
    match Bound(tile, useLandCover, slot)
    case None => []
    case Some(t) => [(t, RoleOf(slot))]
  }

  lemma SlotStampRoles(tile: Tile, useLandCover: bool, slot: nat, t: Texture)
    requires ELEVATION <= slot
    ensures RolesOf(SlotStamp(tile, useLandCover, slot), t) == if Bound(tile, useLandCover, slot) == Some(t) then [RoleOf(slot)] else []
  {
    var log := SlotStamp(tile, useLandCover, slot);
    if log != [] {
      assert log[..0] == [];
    }
  }

  /** One more slot adds that slot's texture, if any, to the resolved set and its stamp to the log. */
  lemma SlotStampsStep(tile: Tile, useLandCover: bool, slot: nat)
    requires ELEVATION <= slot < SLOT_COUNT
    ensures Bound(tile, useLandCover, slot).None? ==>
      SlotStamps(tile, useLandCover, slot + 1) == SlotStamps(tile, useLandCover, slot)
      && TexturesBelow(tile, useLandCover, slot + 1) == TexturesBelow(tile, useLandCover, slot)
    ensures Bound(tile, useLandCover, slot).Some? ==>
      SlotStamps(tile, useLandCover, slot + 1) == SlotStamps(tile, useLandCover, slot) + [(Bound(tile, useLandCover, slot).value, RoleOf(slot))]
      && TexturesBelow(tile, useLandCover, slot + 1) == TexturesBelow(tile, useLandCover, slot) + {Bound(tile, useLandCover, slot).value}
  {
    if Bound(tile, useLandCover, slot).None? {
      assert SlotStamps(tile, useLandCover, slot) + [] == SlotStamps(tile, useLandCover, slot);
    }
  }

  /** Adding one slot's texture, if any, to the arena keeps its textures equal to those of the slots so far. */
  lemma KeysStep(keys0: set<Texture>, tile: Tile, useLandCover: bool, slot: nat, keys: set<Texture>, keys': set<Texture>)
    requires keys == keys0 + TexturesBelow(tile, useLandCover, slot)
    requires Bound(tile, useLandCover, slot).None? ==> keys' == keys
    requires Bound(tile, useLandCover, slot).Some? ==> keys' == keys + {Bound(tile, useLandCover, slot).value}
    ensures keys' == keys0 + TexturesBelow(tile, useLandCover, slot + 1)
  {
    TexturesBelowStep(tile, useLandCover, slot);
  }

  /**
   * The bookkeeping of one slot's resolution: stamping the slot's texture,
   * if any, under the slot's role and adding it to the arena keeps the
   * policies equal to the stamps of the slots so far applied in order, and
   * the arena's textures equal to the textures of the slots so far.
   */
  lemma SlotBookkeepingStep(m: map<Texture, TexturePolicy>, keys0: set<Texture>, tile: Tile, useLandCover: bool, slot: nat,
                            policies: map<Texture, TexturePolicy>, policies': map<Texture, TexturePolicy>, keys: set<Texture>, keys': set<Texture>)
    requires ELEVATION <= slot < SLOT_COUNT
    requires policies == ApplyStamps(m, SlotStamps(tile, useLandCover, slot))
    requires keys == keys0 + TexturesBelow(tile, useLandCover, slot)
    requires Bound(tile, useLandCover, slot).None? ==> policies' == policies && keys' == keys
    requires Bound(tile, useLandCover, slot).Some? ==> var t := Bound(tile, useLandCover, slot).value;
      t in policies && policies' == policies[t := Stamp(policies[t], RoleOf(slot))] && keys' == keys + {t}
    ensures policies' == ApplyStamps(m, SlotStamps(tile, useLandCover, slot + 1))
    ensures keys' == keys0 + TexturesBelow(tile, useLandCover, slot + 1)
  {
    SlotStampsStep(tile, useLandCover, slot);
    if Bound(tile, useLandCover, slot).Some? {
      ApplyStampsSnoc(m, SlotStamps(tile, useLandCover, slot), Bound(tile, useLandCover, slot).value, RoleOf(slot));
    }
  }

  /** One more slot adds that slot's texture, if any, to the resolved set. */
  lemma TexturesBelowStep(tile: Tile, useLandCover: bool, slot: nat)
    ensures Bound(tile, useLandCover, slot).None? ==> TexturesBelow(tile, useLandCover, slot + 1) == TexturesBelow(tile, useLandCover, slot)
    ensures Bound(tile, useLandCover, slot).Some? ==>
      TexturesBelow(tile, useLandCover, slot + 1) == TexturesBelow(tile, useLandCover, slot) + {Bound(tile, useLandCover, slot).value}
  {
  }

  /** Writing the draw order touches no slot. */
  lemma ProgressWithDrawOrder(e: DeviceTile, prior: DeviceTile, tile: Tile, m: map<Texture, int>, useLandCover: bool, done: nat, drawOrder: int)
    requires Progress(e, prior, tile, m, useLandCover, done)
    ensures Progress(e.(drawOrder := drawOrder), prior, tile, m, useLandCover, done)
  {
    var e' := e.(drawOrder := drawOrder);
    forall q: nat | q < done && q < SLOT_COUNT
      ensures SlotIs(e', prior, tile, m, useLandCover, q)
    {
      assert SlotIs(e, prior, tile, m, useLandCover, q);
    }
    forall q: nat | done <= q < SLOT_COUNT
      ensures SlotIndex(e', q) == SlotIndex(prior, q) && SlotMatrix(e', q) == SlotMatrix(prior, q)
    {
      assert SlotIndex(e', q) == SlotIndex(e, q) && SlotMatrix(e', q) == SlotMatrix(e, q);
    }
  }

  /** A slot with nothing bound that keeps its prior index is passed over without any change. */
  lemma SkipSlot(e: DeviceTile, prior: DeviceTile, tile: Tile, m: map<Texture, int>, useLandCover: bool, slot: nat,
                 policies0: map<Texture, TexturePolicy>, keys0: set<Texture>, policies: map<Texture, TexturePolicy>, keys: set<Texture>)
    requires ELEVATION <= slot < SLOT_COUNT && Bound(tile, useLandCover, slot).None? && !ResetsWhenEmpty(useLandCover, slot)
    requires Progress(e, prior, tile, m, useLandCover, slot)
    requires policies == ApplyStamps(policies0, SlotStamps(tile, useLandCover, slot))
    requires keys == keys0 + TexturesBelow(tile, useLandCover, slot)
    ensures Progress(e, prior, tile, m, useLandCover, slot + 1)
    ensures policies == ApplyStamps(policies0, SlotStamps(tile, useLandCover, slot + 1))
    ensures keys == keys0 + TexturesBelow(tile, useLandCover, slot + 1)
  {
    SlotStampsStep(tile, useLandCover, slot);
    ProgressStep(e, e, prior, tile, m, m, useLandCover, slot);
  }

  /**
   * The arena's policies and index keys after the slots below `done` of a
   * rebuild of `tile`, starting from `policies0` and `keys0`.
   */
  predicate Bookkept(policies: map<Texture, TexturePolicy>, keys: set<Texture>, policies0: map<Texture, TexturePolicy>, keys0: set<Texture>, tile: Tile, useLandCover: bool, done: nat)
    requires done <= SLOT_COUNT
  {
    policies == ApplyStamps(policies0, SlotStamps(tile, useLandCover, done)) && keys == keys0 + TexturesBelow(tile, useLandCover, done)
  }

  /** Where the loop over the shared array stops writing: at its end, or at the entry's capacity. */
  function SharedEnd(tile: Tile): (done: nat)
    ensures SHARED <= done <= SLOT_COUNT
  {
    if tile.sharedSamplers.None? || |tile.sharedSamplers.value| <= SHARED then SHARED
    else if |tile.sharedSamplers.value| < SLOT_COUNT then |tile.sharedSamplers.value|
    else SLOT_COUNT
  }

  /** No slot from the end of the shared loop on resolves a texture or is reset. */
  lemma SharedEndUnbound(tile: Tile, useLandCover: bool)
    ensures forall q: nat :: SharedEnd(tile) <= q < SLOT_COUNT ==> Bound(tile, useLandCover, q).None? && !ResetsWhenEmpty(useLandCover, q)
  {
  }

  /**
   * The end of a tile's resolution: with every slot from `done` up empty
   * and not reset, writing the draw order completes the entry.
   */
  lemma FinishEntry(e: DeviceTile, prior: DeviceTile, tile: Tile, m: map<Texture, int>, useLandCover: bool, done: nat, drawOrder: int)
    requires ELEVATION <= done <= SLOT_COUNT && Progress(e, prior, tile, m, useLandCover, done)
    requires forall q: nat :: done <= q < SLOT_COUNT ==> Bound(tile, useLandCover, q).None? && !ResetsWhenEmpty(useLandCover, q)
    requires e.modelViewMatrix == tile.modelViewMatrix && e.tileKey == tile.keyValue
    ensures EntryMatches(e.(drawOrder := drawOrder), prior, tile, m, useLandCover, drawOrder)
    ensures SlotStamps(tile, useLandCover, SLOT_COUNT) == SlotStamps(tile, useLandCover, done)
    ensures TexturesBelow(tile, useLandCover, SLOT_COUNT) == TexturesBelow(tile, useLandCover, done)
  {
    ProgressFinish(e, prior, tile, m, useLandCover, done);
    NothingBoundAbove(tile, useLandCover, done, SLOT_COUNT);
    ProgressWithDrawOrder(e, prior, tile, m, useLandCover, SLOT_COUNT, drawOrder);
    ProgressComplete(e.(drawOrder := drawOrder), prior, tile, m, useLandCover, drawOrder);
  }

  /** The policy stamps one tile's rebuild writes. */
  function TileStamps(tile: Tile, useLandCover: bool): StampLog
  {
    SlotStamps(tile, useLandCover, SLOT_COUNT)
  }

  /** Slots that resolve nothing add neither stamps nor textures. */
  lemma {:induction false} NothingBoundAbove(tile: Tile, useLandCover: bool, done: nat, hi: nat)
    requires ELEVATION <= done <= hi <= SLOT_COUNT
    requires forall q: nat :: done <= q < hi ==> Bound(tile, useLandCover, q).None?
    ensures SlotStamps(tile, useLandCover, hi) == SlotStamps(tile, useLandCover, done)
    ensures TexturesBelow(tile, useLandCover, hi) == TexturesBelow(tile, useLandCover, done)
    decreases hi - done
  {
    if hi > done {
      NothingBoundAbove(tile, useLandCover, done, hi - 1);
      assert SlotStamp(tile, useLandCover, hi - 1) == [];
    }
  }

  /** The policy stamps a rebuild of a tile list writes, in order. */
  function ListStamps(tiles: seq<Tile>, useLandCover: bool): StampLog
    decreases |tiles|
  {
    if tiles == [] then []
    else ListStamps(tiles[..|tiles| - 1], useLandCover) + TileStamps(tiles[|tiles| - 1], useLandCover)
  }

  /** Every stamp one tile writes for `t` carries the role of a slot that resolves `t`, and every such slot stamps. */
  lemma SlotStampsRoles(tile: Tile, useLandCover: bool, hi: nat, t: Texture, role: Role)
    requires hi <= SLOT_COUNT
    ensures role in RolesOf(SlotStamps(tile, useLandCover, hi), t) <==>
      exists slot :: ELEVATION <= slot < hi && Bound(tile, useLandCover, slot) == Some(t) && RoleOf(slot) == role
  {
    SlotStampsRolesAre(tile, useLandCover, hi, t);
    if role in SlotRoles(tile, useLandCover, hi, t) {
      var slot := SlotRoleSource(tile, useLandCover, hi, t, role);
    }
    forall slot | ELEVATION <= slot < hi && Bound(tile, useLandCover, slot) == Some(t)
      ensures RoleOf(slot) in SlotRoles(tile, useLandCover, hi, t)
    {
      SlotRoleStamped(tile, useLandCover, hi, t, slot);
    }
  }

  /** The roles of the slots below `hi` that resolve `t`, in slot order. */
  function SlotRoles(tile: Tile, useLandCover: bool, hi: nat, t: Texture): seq<Role>
    decreases hi
  {
    if hi <= ELEVATION then []
    else SlotRoles(tile, useLandCover, hi - 1, t) + if Bound(tile, useLandCover, hi - 1) == Some(t) then [RoleOf(hi - 1)] else []
  }

  /** The roles a tile's stamps give `t` are the roles of the slots that resolve it. */
  lemma {:induction false} SlotStampsRolesAre(tile: Tile, useLandCover: bool, hi: nat, t: Texture)
    requires hi <= SLOT_COUNT
    ensures RolesOf(SlotStamps(tile, useLandCover, hi), t) == SlotRoles(tile, useLandCover, hi, t)
    decreases hi
  {
    if hi > ELEVATION {
      SlotStampsRolesAre(tile, useLandCover, hi - 1, t);
      RolesOfAppend(SlotStamps(tile, useLandCover, hi - 1), SlotStamp(tile, useLandCover, hi - 1), t);
      SlotStampRoles(tile, useLandCover, hi - 1, t);
    }
  }

  /** A role in the list is the role of a slot that resolves `t`: that slot. */
  lemma {:induction false} SlotRoleSource(tile: Tile, useLandCover: bool, hi: nat, t: Texture, role: Role) returns (slot: nat)
    requires role in SlotRoles(tile, useLandCover, hi, t)
    ensures ELEVATION <= slot < hi && Bound(tile, useLandCover, slot) == Some(t) && RoleOf(slot) == role
    decreases hi
  {
    if role in SlotRoles(tile, useLandCover, hi - 1, t) {
      slot := SlotRoleSource(tile, useLandCover, hi - 1, t, role);
    } else {
      slot := hi - 1;
    }
  }

  /** Every slot that resolves `t` contributes its role to the list. */
  lemma {:induction false} SlotRoleStamped(tile: Tile, useLandCover: bool, hi: nat, t: Texture, slot: nat)
    requires ELEVATION <= slot < hi && Bound(tile, useLandCover, slot) == Some(t)
    ensures RoleOf(slot) in SlotRoles(tile, useLandCover, hi, t)
    decreases hi
  {
    if slot < hi - 1 {
      SlotRoleStamped(tile, useLandCover, hi - 1, t, slot);
    }
  }

  lemma {:induction false} RolesOfAppend(a: StampLog, b: StampLog, t: Texture)
    ensures RolesOf(a + b, t) == RolesOf(a, t) + RolesOf(b, t)
    decreases |b|
  {
    if b == [] {
      assert a + b == a;
    } else {
      var front := b[..|b| - 1];
      assert (a + b)[..|a + b| - 1] == a + front;
      RolesOfAppend(a, front, t);
    }
  }

  /** The roles under which a rebuild stamps `t` are exactly the roles of the slots that resolve it. */
  lemma {:induction false} ListStampsRoles(tiles: seq<Tile>, useLandCover: bool, t: Texture, role: Role)
    ensures role in RolesOf(ListStamps(tiles, useLandCover), t) <==>
      exists i, slot :: 0 <= i < |tiles| && ELEVATION <= slot < SLOT_COUNT && Bound(tiles[i], useLandCover, slot) == Some(t) && RoleOf(slot) == role
    decreases |tiles|
  {
    if tiles != [] {
      var front := tiles[..|tiles| - 1];
      var last := tiles[|tiles| - 1];
      ListStampsRoles(front, useLandCover, t, role);
      SlotStampsRoles(last, useLandCover, SLOT_COUNT, t, role);
      RolesOfAppend(ListStamps(front, useLandCover), TileStamps(last, useLandCover), t);
      assert forall i :: 0 <= i < |front| ==> tiles[i] == front[i];
      if role in RolesOf(ListStamps(tiles, useLandCover), t) {
        if role !in RolesOf(ListStamps(front, useLandCover), t) {
          var slot :| ELEVATION <= slot < SLOT_COUNT && Bound(last, useLandCover, slot) == Some(t) && RoleOf(slot) == role;
          assert Bound(tiles[|tiles| - 1], useLandCover, slot) == Some(t);
        }
      } else {
        forall i, slot | 0 <= i < |tiles| && ELEVATION <= slot < SLOT_COUNT && Bound(tiles[i], useLandCover, slot) == Some(t)
          ensures RoleOf(slot) != role
        {
          if i < |front| {
            assert Bound(front[i], useLandCover, slot) == Some(t);
          }
        }
      }
    }
  }

  /**
   * The policy stamp a texture ends with: a texture that a rebuild resolves
   * only through slots of one role (elevation, normal, land cover or
   * shared), at least once, ends with exactly that role's stamp.
   */
  lemma StampedAs(m: map<Texture, TexturePolicy>, tiles: seq<Tile>, useLandCover: bool, t: Texture, role: Role, i: nat, slot: nat)
    requires t in m
    requires i < |tiles| && ELEVATION <= slot < SLOT_COUNT && Bound(tiles[i], useLandCover, slot) == Some(t) && RoleOf(slot) == role
    requires forall j, q :: 0 <= j < |tiles| && ELEVATION <= q < SLOT_COUNT && Bound(tiles[j], useLandCover, q) == Some(t) ==> RoleOf(q) == role
    ensures ApplyStamps(m, ListStamps(tiles, useLandCover))[t] == Stamp(m[t], role)
  {
    var roles := RolesOf(ListStamps(tiles, useLandCover), t);
    ListStampsRoles(tiles, useLandCover, t, role);
    forall k | 0 <= k < |roles|
      ensures roles[k] == role
    {
      ListStampsRoles(tiles, useLandCover, t, roles[k]);
    }
    StampedPolicy(m, ListStamps(tiles, useLandCover), t, role);
  }

  /** The number of populated shared samplers below `hi` that do not fit in the entry: one warning each. */
  function OverflowUpTo(samplers: seq<Sampler>, hi: nat): nat
    decreases hi
  {
    if hi <= SLOT_COUNT then 0
    else OverflowUpTo(samplers, hi - 1) + if hi - 1 < |samplers| && samplers[hi - 1].texture.Some? then 1 else 0
  }

  /** One more sampler counts when it is populated past the entry's capacity. */
  lemma OverflowStep(samplers: seq<Sampler>, i: nat)
    requires i < |samplers|
    ensures OverflowUpTo(samplers, i + 1) == OverflowUpTo(samplers, i) + if i >= SLOT_COUNT && samplers[i].texture.Some? then 1 else 0
  {
  }

  /** The warnings one tile's rebuild emits. */
  function TileOverflow(tile: Tile): nat
  {
    match tile.sharedSamplers
    case None => 0
    case Some(s) => OverflowUpTo(s, |s|)
  }

  function ListOverflow(tiles: seq<Tile>): nat
    decreases |tiles|
  {
    if tiles == [] then 0 else ListOverflow(tiles[..|tiles| - 1]) + TileOverflow(tiles[|tiles| - 1])
  }

  /** The list functions of one more tile. */
  lemma ListStep(tiles: seq<Tile>, useLandCover: bool, k: nat)
    requires k < |tiles|
    ensures ListTextures(tiles[..k + 1], useLandCover) == ListTextures(tiles[..k], useLandCover) + TileTextures(tiles[k], useLandCover)
    ensures ListStamps(tiles[..k + 1], useLandCover) == ListStamps(tiles[..k], useLandCover) + TileStamps(tiles[k], useLandCover)
    ensures ListOverflow(tiles[..k + 1]) == ListOverflow(tiles[..k]) + TileOverflow(tiles[k])
  {
    assert tiles[..k + 1][..k] == tiles[..k];
  }

  /** A tile's rebuild warns exactly when a populated shared sampler lies past the entry's capacity. */
  lemma {:induction false} OverflowIffDropped(samplers: seq<Sampler>, hi: nat)
    requires hi <= |samplers|
    ensures OverflowUpTo(samplers, hi) > 0 <==> exists i :: SLOT_COUNT <= i < hi && samplers[i].texture.Some?
    decreases hi
  {
    if hi > SLOT_COUNT {
      OverflowIffDropped(samplers, hi - 1);
    }
  }
}
