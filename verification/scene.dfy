/**
 The scene graph store: layout specifications (Size, Anchor, Position), the
 six node kinds, and an append-only arena of nodes indexed by NodeId with an
 optional root.
 */
module SceneGraph {
  import opened Wrappers
  import opened Textures

  type NodeId = nat

  /**
   An abstract length. `Weight` is a proportional share that only Row and
   Column distribution interprets; the other variants are turned into pixels by
   the size resolver, which is a parameter of the visitor.
   */
  datatype Size =
    | Pixel(pixels: int)
    | ParentWidth(ratio: real)
    | ParentHeight(ratio: real)
    | ScreenWidth(ratio: real)
    | ScreenHeight(ratio: real)
    | Weight(weight: real)

  /** A one-axis placement rule of a Layer child relative to the Layer's rectangle. */
  datatype Anchor =
    | Start(pos: Size, size: Size)
    | End(pos: Size, size: Size)
    | Center(pos: Size, size: Size)
    | Stretch(start: Size, end: Size)

  /** A horizontal and a vertical anchor. */
  datatype Position = Position(horizontal: Anchor, vertical: Anchor)

  /** An RGBA colour, each channel nominally in [0, 1]; it is copied, never inspected. */
  datatype Color = Color(r: real, g: real, b: real, a: real)

  datatype Node =
    | Layer(layered: seq<(Position, NodeId)>)
    | Row(inner: seq<(Size, NodeId)>)
    | Column(inner: seq<(Size, NodeId)>)
    | Rect(color: Color)
    | Texture(textureId: TextureId)
    | Empty
  {
    /** The ids this node refers to as children, in declaration order. */
    function ChildIds(): seq<NodeId>
    {
      match this
      case Layer(inner) => EntryIds(inner)
      case Row(inner) => EntryIds(inner)
      case Column(inner) => EntryIds(inner)
      case _ => []
    }
  }

  /** The ids of a Layer's, Row's or Column's entries, in order. */
  function EntryIds<T>(inner: seq<(T, NodeId)>): (ids: seq<NodeId>)
    ensures |ids| == |inner| && forall i :: 0 <= i < |inner| ==> ids[i] == inner[i].1
  {
    if |inner| == 0 then [] else EntryIds(inner[..|inner| - 1]) + [inner[|inner| - 1].1]
  }

  /** The node table, the next id to hand out, and the optional root. */
  datatype Scene = Scene(nodes: map<NodeId, Node>, nextId: NodeId, root: Option<NodeId>)

  /** The scene a fresh application starts with. */
  const EmptyScene := Scene(map[], 0, None)

  /**
   Traversal terminates: every child id of the node stored at k is either
   smaller than k or absent from the table (a dangling reference).
   */
  ghost predicate Acyclic(scene: Scene)
  {
    forall k, c :: k in scene.nodes && c in scene.nodes[k].ChildIds() ==> c < k || c !in scene.nodes
  }

  /**
   The invariant the builder keeps: every stored id is below nextId and every
   child id is below its parent's id. It implies Acyclic.
   */
  ghost predicate Valid(scene: Scene)
  {
    && (forall k :: k in scene.nodes ==> k < scene.nextId)
    && (forall k, c :: k in scene.nodes && c in scene.nodes[k].ChildIds() ==> c < k)
  }

  /** The termination measure of traversal: absent ids rank lowest. */
  function Rank(scene: Scene, id: NodeId): nat
  {
    if id in scene.nodes then id + 1 else 0
  }

  /** In an Acyclic scene every child of a stored node ranks below it. */
  lemma ChildrenRankBelow(scene: Scene, k: NodeId)
    requires Acyclic(scene) && k in scene.nodes
    ensures forall i :: 0 <= i < |scene.nodes[k].ChildIds()| ==> Rank(scene, scene.nodes[k].ChildIds()[i]) < Rank(scene, k)
  {
    var ids := scene.nodes[k].ChildIds();
    forall i | 0 <= i < |ids|
      ensures Rank(scene, ids[i]) < Rank(scene, k)
    {
      assert ids[i] in ids;
    }
  }

  /** Looks a node up by id; an absent id yields None. */
  function GetNode(scene: Scene, id: NodeId): (r: Option<Node>)
    ensures r.Some? <==> id in scene.nodes
    ensures r.Some? ==> r.value == scene.nodes[id]
  {
    if id in scene.nodes then Some(scene.nodes[id]) else None
  }

  /**
   Stores a node under a fresh id. Ids are handed out densely in increasing
   order starting at 0, and the root is left alone.
   */
  function InsertNode(scene: Scene, node: Node): (r: (Scene, NodeId))
    ensures r.1 == scene.nextId && r.0.nextId == scene.nextId + 1
    ensures Valid(scene) ==> r.1 !in scene.nodes
    ensures r.1 in r.0.nodes && r.0.nodes[r.1] == node
    ensures r.0.nodes.Keys == scene.nodes.Keys + {r.1}
    ensures forall k :: k in scene.nodes && k != r.1 ==> r.0.nodes[k] == scene.nodes[k]
    ensures r.0.root == scene.root
  {
    var id := scene.nextId;
    (scene.(nodes := scene.nodes[id := node], nextId := id + 1), id)
  }

  /**
   A node whose children were all handed out before it keeps the scene Valid:
   a scene built only through InsertNode can always be traversed.
   */
  lemma InsertNodeKeepsValid(scene: Scene, node: Node)
    requires Valid(scene)
    requires forall c :: c in node.ChildIds() ==> c < scene.nextId
    ensures Valid(InsertNode(scene, node).0)
    ensures Acyclic(InsertNode(scene, node).0)
  {
    var s' := InsertNode(scene, node).0;
    forall k, c | k in s'.nodes && c in s'.nodes[k].ChildIds()
      ensures c < k
    {
      if k != scene.nextId {
        assert s'.nodes[k] == scene.nodes[k];
      }
    }
  }

  /** `set_root`: designates the root and changes nothing else. */
  function SetRoot(scene: Scene, root: NodeId): (r: Scene)
    ensures r.root == Some(root)
    ensures r.nodes == scene.nodes && r.nextId == scene.nextId
  {
    scene.(root := Some(root))
  }

}
