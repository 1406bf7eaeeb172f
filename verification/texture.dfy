/**
 The texture registry: a sequential allocator of 16-bit texture ids for raw
 image data, and the lookup of loaded textures by id. Image decoding and GPU
 upload are outside the model; a loaded texture is an opaque handle.
 */
module Textures {
  import opened Wrappers

  /** Texture ids are `u16` in the source. */
  type TextureId = x: nat | x < 0x1_0000

  newtype byte = x: int | 0 <= x < 0x100

  /** Encoded image bytes registered by the application, keyed by id. */
  datatype TextureInfoManager = TextureInfoManager(lastId: TextureId, infos: map<TextureId, seq<byte>>)

  /** The `Default` manager: no texture registered, next id 0. */
  const DefaultInfoManager := TextureInfoManager(0, map[])

  /** The ids in use are exactly 0 .. lastId - 1. */
  ghost predicate Dense(m: TextureInfoManager)
  {
    forall k: TextureId :: k in m.infos <==> k < m.lastId
  }

  /**
   `add_texture_info`: registers data under the current lastId, returns that id
   and bumps lastId. The `u16` increment panics on overflow, so the caller must
   not register a 65536th texture.
   */
  function AddTextureInfo(m: TextureInfoManager, data: seq<byte>): (r: (TextureInfoManager, TextureId))
    requires m.lastId < 0xFFFF
    ensures r.1 == m.lastId
    ensures r.0.lastId == m.lastId + 1
    ensures r.1 in r.0.infos && r.0.infos[r.1] == data
    ensures r.0.infos.Keys == m.infos.Keys + {r.1}
    ensures forall k :: k in m.infos && k != r.1 ==> r.0.infos[k] == m.infos[k]
    ensures Dense(m) ==> Dense(r.0) && r.1 !in m.infos
  {
    var id := m.lastId;
    (TextureInfoManager(id + 1, m.infos[id := data]), id)
  }

  /** Registers each datum in turn, returning the ids in registration order. */
  function AddAll(m: TextureInfoManager, datas: seq<seq<byte>>): (r: (TextureInfoManager, seq<TextureId>))
    requires m.lastId + |datas| < 0x1_0000
    ensures r.0.lastId == m.lastId + |datas|
    ensures |r.1| == |datas|
    ensures forall i :: 0 <= i < |datas| ==> r.1[i] == m.lastId + i
    ensures forall i :: 0 <= i < |datas| ==> r.1[i] in r.0.infos && r.0.infos[r.1[i]] == datas[i]
    ensures forall k :: k in m.infos && k < m.lastId ==> k in r.0.infos && r.0.infos[k] == m.infos[k]
    ensures Dense(m) ==> Dense(r.0)
    decreases |datas|
  {
    if |datas| == 0 then (m, [])
    else
      var (m1, id) := AddTextureInfo(m, datas[0]);
      var (m2, ids) := AddAll(m1, datas[1..]);
      (m2, [id] + ids)
  }

  /**
   From the default manager, the k-th registration returns id k - 1: ids are
   distinct, dense from 0, and each holds the data registered with it.
   */
  lemma RegistrationFromDefault(datas: seq<seq<byte>>)
    requires |datas| < 0x1_0000
    ensures var (m, ids) := AddAll(DefaultInfoManager, datas);
      && Dense(m)
      && (forall i :: 0 <= i < |datas| ==> ids[i] == i && m.infos[i] == datas[i])
      && (forall i, j :: 0 <= i < j < |datas| ==> ids[i] != ids[j])
  {
    var (m, ids) := AddAll(DefaultInfoManager, datas);
    assert Dense(DefaultInfoManager);
  }

  /** A loaded texture: only its bind group handle matters to drawing. */
  datatype Texture = Texture(bindGroup: Option<nat>)

  datatype TextureManager = TextureManager(textures: map<TextureId, Texture>)

  /** `get_texture`: the loaded texture stored under id, or None. */
  function GetTexture(tm: TextureManager, id: TextureId): (r: Option<Texture>)
    ensures r.Some? <==> id in tm.textures
    ensures r.Some? ==> r.value == tm.textures[id]
  {
    if id in tm.textures then Some(tm.textures[id]) else None
  }

}
