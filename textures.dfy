/**
 * Texture objects as the tile-buffer builder sees them: an identity, the
 * four policy fields it stamps on elevation, normal, land-cover and shared
 * textures, and the texture arena that hands out the integer index a shader
 * uses in place of a binding.
 */
module Textures {

  /** The identity of a texture object: samplers naming the same object share it. */
  datatype Texture = Texture(id: nat)

  /** The OpenGL internal-format enumerant `GL_R32F`. */
  const GL_R32F: int := 0x822E

  /** The fields `_compress`, `_mipmap`, `_internalFormat` and `_maxAnisotropy` of a texture object. */
  datatype TexturePolicy = TexturePolicy(compress: bool, mipmap: bool, internalFormat: int, maxAnisotropy: real)

  /** The sampler role under which a texture is stamped. */
  datatype Role = Elevation | Normal | LandCover | Shared {

    /** Whether the stamp for this role turns mip-mapping on. */
    predicate WantsMipmaps()
    {
      this == Normal || this == Shared
    }
  }

  /**
   * The policy stamp of each role: no compression for all four; elevation
   * without mip-maps, as single-channel 32-bit float, anisotropy 1;
   * normals with mip-maps, anisotropy 1; land cover without mip-maps,
   * anisotropy 1; shared textures with mip-maps, anisotropy untouched.
   */
  function Stamp(p: TexturePolicy, role: Role): (q: TexturePolicy)
    ensures !q.compress && q.mipmap == role.WantsMipmaps()
    ensures q.internalFormat == (if role == Elevation then GL_R32F else p.internalFormat)
    ensures q.maxAnisotropy == (if role == Shared then p.maxAnisotropy else 1.0)
  {
    match role
    case Elevation => p.(compress := false, mipmap := false, internalFormat := GL_R32F, maxAnisotropy := 1.0)
    case Normal => p.(compress := false, mipmap := true, maxAnisotropy := 1.0)
    case LandCover => p.(compress := false, mipmap := false, maxAnisotropy := 1.0)
    case Shared => p.(compress := false, mipmap := true)
  }

  /** The stamps of one rebuild, in the order they are written. */
  type StampLog = seq<(Texture, Role)>

  /** The policy fields after the stamps of `log`, applied in order, to the textures of `m`. */
  function ApplyStamps(m: map<Texture, TexturePolicy>, log: StampLog): (m': map<Texture, TexturePolicy>)
    ensures m'.Keys == m.Keys
    decreases |log|
  {
    if log == [] then m
    else
      var prev := ApplyStamps(m, log[..|log| - 1]);
      var t := log[|log| - 1].0;
      if t in prev then prev[t := Stamp(prev[t], log[|log| - 1].1)] else prev
  }

  /** `m2` agrees with `m1` on every texture `m1` knows. */
  predicate Extends<V(==)>(m2: map<Texture, V>, m1: map<Texture, V>)
  {
    forall t :: t in m1 ==> t in m2 && m2[t] == m1[t]
  }

  /** One more stamp at the end of a log is one more update of the map. */
  lemma ApplyStampsSnoc(m: map<Texture, TexturePolicy>, log: StampLog, t: Texture, role: Role)
    requires t in ApplyStamps(m, log)
    ensures ApplyStamps(m, log + [(t, role)]) == ApplyStamps(m, log)[t := Stamp(ApplyStamps(m, log)[t], role)]
  {
    assert (log + [(t, role)])[..|log|] == log;
  }

  /** The roles under which `t` is stamped somewhere in `log`, in order. */
  function RolesOf(log: StampLog, t: Texture): seq<Role>
    decreases |log|
  {
    if log == [] then []
    else RolesOf(log[..|log| - 1], t) + (if log[|log| - 1].0 == t then [log[|log| - 1].1] else [])
  }

  /**
   * One texture's policy after a sequence of stamps: the last stamp decides
   * mip-mapping, any stamp turns compression off, an elevation stamp fixes
   * the format, and any stamp but a shared one sets anisotropy to 1.
   */
  function StampAll(p: TexturePolicy, roles: seq<Role>): (q: TexturePolicy)
    ensures roles == [] ==> q == p
    ensures roles != [] ==> !q.compress && q.mipmap == roles[|roles| - 1].WantsMipmaps()
    ensures q.internalFormat == if Elevation in roles then GL_R32F else p.internalFormat
    ensures q.maxAnisotropy == if (exists k :: 0 <= k < |roles| && roles[k] != Shared) then 1.0 else p.maxAnisotropy
    decreases |roles|
  {
    if roles == [] then p
    else
      var front := roles[..|roles| - 1];
      assert roles == front + [roles[|roles| - 1]];
      assert forall k :: 0 <= k < |front| ==> front[k] == roles[k];
      Stamp(StampAll(p, front), roles[|roles| - 1])
  }

  /** What the stamps of a log do to one texture depends only on its own roles. */
  lemma {:induction false} ApplyStampsAt(m: map<Texture, TexturePolicy>, log: StampLog, t: Texture)
    requires t in m
    ensures ApplyStamps(m, log)[t] == StampAll(m[t], RolesOf(log, t))
    decreases |log|
  {
    if log != [] {
      var front := log[..|log| - 1];
      ApplyStampsAt(m, front, t);
      var roles := RolesOf(front, t);
      if log[|log| - 1].0 == t {
        assert (roles + [log[|log| - 1].1])[..|roles|] == roles;
      } else {
        assert roles + [] == roles;
      }
    }
  }

  /** Applying two logs one after the other is applying their concatenation. */
  lemma {:induction false} ApplyStampsAppend(m: map<Texture, TexturePolicy>, a: StampLog, b: StampLog)
    ensures ApplyStamps(m, a + b) == ApplyStamps(ApplyStamps(m, a), b)
    decreases |b|
  {
    if b == [] {
      assert a + b == a;
    } else {
      var front := b[..|b| - 1];
      assert (a + b)[..|a + b| - 1] == a + front;
      assert (a + b)[|a + b| - 1] == b[|b| - 1];
      ApplyStampsAppend(m, a, front);
    }
  }

  /**
   * Every stamped texture ends uncompressed, and one that is stamped under a
   * single role only ends with exactly that role's policy.
   */
  lemma StampedPolicy(m: map<Texture, TexturePolicy>, log: StampLog, t: Texture, role: Role)
    requires t in m && RolesOf(log, t) != []
    requires forall k :: 0 <= k < |RolesOf(log, t)| ==> RolesOf(log, t)[k] == role
    ensures !ApplyStamps(m, log)[t].compress
    ensures ApplyStamps(m, log)[t] == Stamp(m[t], role)
  {
    ApplyStampsAt(m, log, t);
    var roles := RolesOf(log, t);
    assert roles[0] == role;
    assert Elevation in roles <==> role == Elevation;
  }

  /** No two textures share an index. */
  predicate Injective(m: map<Texture, int>)
  {
    forall t, u :: t in m && u in m && m[t] == m[u] ==> t == u
  }

  /**
   * The texture arena, an external resource: it maps each texture it has
   * been given to an index. Its observable contract is that `Add` is
   * idempotent, that indices are non-negative and that distinct textures get
   * distinct indices. The arena also holds the policy fields of every
   * texture object in play, so that a stamp is an update of `policies`.
   */
  class TextureArena {
    /** The textures the arena holds, in the order they were added: a texture's index is its position here. */
    var textures: seq<Texture>
    /** The index of every texture the arena holds. */
    var indices: map<Texture, int>
    var policies: map<Texture, TexturePolicy>

    ghost predicate Valid()
      reads this
    {
      forall t :: t in indices ==> 0 <= indices[t] < |textures| && textures[indices[t]] == t
    }

    /** Distinct textures of a valid arena have distinct indices. */
    lemma ValidInjective()
      requires Valid()
      ensures Injective(indices)
    {
      forall t, u | t in indices && u in indices && indices[t] == indices[u]
        ensures t == u
      {
        assert textures[indices[t]] == t && textures[indices[u]] == u;
      }
    }

    constructor (textures: map<Texture, TexturePolicy>)
      ensures Valid() && this.textures == [] && indices == map[] && policies == textures
    {
      this.textures := [];
      indices := map[];
      policies := textures;
    }

    /** `TextureArena::add`: the texture's index, appending it to the arena the first time. */
    method Add(t: Texture) returns (index: int)
      requires Valid()
      modifies this`indices, this`textures
      ensures Valid()
      ensures index >= 0
      ensures indices == old(indices)[t := index]
      ensures t in old(indices) ==> index == old(indices)[t] && textures == old(textures)
      ensures t !in old(indices) ==> index == |old(textures)| && textures == old(textures) + [t]
      ensures t !in old(indices) ==> forall u :: u in old(indices) ==> old(indices)[u] != index
    {
      if t in indices {
        index := indices[t];
      } else {
        index := |textures|;
        indices := indices[t := index];
        textures := textures + [t];
      }
    }
  }
}
