/**
 The application object: a scene under construction plus the registered
 texture data. Every `*_node` call stores one node under a fresh id and
 returns that id; `set_root` picks the node drawn over the whole screen;
 `add_texture` registers image bytes and returns their texture id.
 */
module Builder {
  import opened Wrappers
  import opened Types
  import opened SceneGraph
  import opened Textures
  import opened Renderer
  import opened Visitor

  datatype Guiug = Guiug(scene: Scene, textureInfos: TextureInfoManager)

  /** `Guiug::default()`: an empty scene with no root and no textures. */
  const DefaultGuiug := Guiug(EmptyScene, DefaultInfoManager)

  /** What the builder keeps: a Valid scene and densely numbered textures. */
  ghost predicate WellBuilt(g: Guiug)
  {
    Valid(g.scene) && Dense(g.textureInfos)
  }

  /**
   r is g with node stored under the returned id: that id was nextId and was
   free, nextId moved past it, every other node, the root and the textures
   are untouched.
   */
  ghost predicate Added(g: Guiug, r: Guiug, id: NodeId, node: Node)
  {
    && id == g.scene.nextId && r.scene.nextId == id + 1
    && (Valid(g.scene) ==> id !in g.scene.nodes)
    && id in r.scene.nodes && r.scene.nodes[id] == node
    && r.scene.nodes.Keys == g.scene.nodes.Keys + {id}
    && (forall k :: k in g.scene.nodes && k != id ==> r.scene.nodes[k] == g.scene.nodes[k])
    && r.scene.root == g.scene.root
    && r.textureInfos == g.textureInfos
  }

  /** Every `*_node` method: `self.scene.insert_node(node)`. */
  function AddNode(g: Guiug, node: Node): (r: (Guiug, NodeId))
    ensures Added(g, r.0, r.1, node)
  {
    var (scene, id) := InsertNode(g.scene, node);
    (g.(scene := scene), id)
  }

  /** `add_texture`: registers the bytes and returns their id; the scene is untouched. */
  function AddTexture(g: Guiug, data: seq<byte>): (r: (Guiug, TextureId))
    requires g.textureInfos.lastId < 0xFFFF
    ensures r.0.scene == g.scene
    ensures r.1 == g.textureInfos.lastId && r.0.textureInfos.lastId == r.1 + 1
    ensures r.1 in r.0.textureInfos.infos && r.0.textureInfos.infos[r.1] == data
    ensures WellBuilt(g) ==> WellBuilt(r.0) && r.1 !in g.textureInfos.infos
  {
    var (infos, id) := AddTextureInfo(g.textureInfos, data);
    (g.(textureInfos := infos), id)
  }

  /** `set_root`: the root becomes the given node; nodes and textures are untouched. */
  function SetRootNode(g: Guiug, root: NodeId): (r: Guiug)
    ensures r.scene.root == Some(root)
    ensures r.scene.nodes == g.scene.nodes && r.scene.nextId == g.scene.nextId
    ensures r.textureInfos == g.textureInfos
    ensures WellBuilt(g) ==> WellBuilt(r)
  {
    g.(scene := SetRoot(g.scene, root))
  }

  function LayerNode(g: Guiug, inner: seq<(Position, NodeId)>): (r: (Guiug, NodeId))
    ensures Added(g, r.0, r.1, Layer(inner))
  {
    AddNode(g, Layer(inner))
  }

  function RectNode(g: Guiug, color: Color): (r: (Guiug, NodeId))
    ensures Added(g, r.0, r.1, Node.Rect(color))
  {
    AddNode(g, Node.Rect(color))
  }

  function TextureNode(g: Guiug, textureId: TextureId): (r: (Guiug, NodeId))
    ensures Added(g, r.0, r.1, Node.Texture(textureId))
  {
    AddNode(g, Node.Texture(textureId))
  }

  function RowNode(g: Guiug, inner: seq<(Size, NodeId)>): (r: (Guiug, NodeId))
    ensures Added(g, r.0, r.1, Row(inner))
  {
    AddNode(g, Row(inner))
  }

  function ColumnNode(g: Guiug, inner: seq<(Size, NodeId)>): (r: (Guiug, NodeId))
    ensures Added(g, r.0, r.1, Column(inner))
  {
    AddNode(g, Column(inner))
  }

  function EmptyNode(g: Guiug): (r: (Guiug, NodeId))
    ensures Added(g, r.0, r.1, Empty)
  {
    AddNode(g, Empty)
  }

  /**
   Building bottom-up keeps the application well built, and so traversable:
   when every child a new node names was returned by an earlier builder call,
   the scene stays Valid and Acyclic.
   */
  lemma AddNodeKeepsWellBuilt(g: Guiug, node: Node)
    requires WellBuilt(g)
    requires forall c :: c in node.ChildIds() ==> c < g.scene.nextId
    ensures WellBuilt(AddNode(g, node).0)
    ensures Acyclic(AddNode(g, node).0.scene)
  {
    InsertNodeKeepsValid(g.scene, node);
  }

  /**
   The usage example of the library: a root Layer with no children, set as
   root, gets id 0 and draws nothing, leaving the counter at 0.
   */
  lemma EmptyLayerExample(screen: Dimension, geo: Geometry)
    ensures var (g1, root) := LayerNode(DefaultGuiug, []);
      var g2 := SetRootNode(g1, root);
      && root == 0 && WellBuilt(g2) && Acyclic(g2.scene)
      && var out := Visit(screen, g2.scene, geo);
      out.rectInstances == [] && out.textureInstances == [] && out.zIndex == 0
  {
    var (g1, root) := LayerNode(DefaultGuiug, []);
    AddNodeKeepsWellBuilt(DefaultGuiug, Layer([]));
    var g2 := SetRootNode(g1, root);
    assert g2.scene.nodes[0] == Layer([]);
    VisitCounts(g2.scene, geo, root, ScreenRect(screen), Initial(screen));
  }

  /**
   A Rect inside a root Layer: exactly one flat instance is drawn, at z 0,
   over the rectangle the Layer's position gives it on the screen, and the
   counter ends at 1.
   */
  lemma RectInLayerExample(screen: Dimension, geo: Geometry, color: Color, pos: Position)
    ensures var (g1, leaf) := RectNode(DefaultGuiug, color);
      var (g2, root) := LayerNode(g1, [(pos, leaf)]);
      var g3 := SetRootNode(g2, root);
      var rect := geo.apply(pos, ScreenRect(screen), screen);
      && leaf == 0 && root == 1 && WellBuilt(g3) && Acyclic(g3.scene)
      && var out := Visit(screen, g3.scene, geo);
      && out.rectInstances == [FlatInstance(IVec3(rect.x, rect.y, 0), IVec2(rect.w, rect.h), color)]
      && out.textureInstances == [] && out.zIndex == 1
  {
    var (g1, leaf) := RectNode(DefaultGuiug, color);
    AddNodeKeepsWellBuilt(DefaultGuiug, Node.Rect(color));
    var (g2, root) := LayerNode(g1, [(pos, leaf)]);
    assert Layer([(pos, leaf)]).ChildIds() == [leaf];
    AddNodeKeepsWellBuilt(g1, Layer([(pos, leaf)]));
    var g3 := SetRootNode(g2, root);
    RectInLayerVisit(g3.scene, geo, screen, color, pos, leaf, root);
  }

  /** The visit half of the example above, for any scene holding that Layer and Rect. */
  lemma RectInLayerVisit(s: Scene, geo: Geometry, screen: Dimension, color: Color, pos: Position, leaf: NodeId, root: NodeId)
    requires Acyclic(s) && root in s.nodes && leaf in s.nodes
    requires s.nodes[root] == Layer([(pos, leaf)]) && s.nodes[leaf] == Node.Rect(color)
    ensures var rect := geo.apply(pos, ScreenRect(screen), screen);
      DoVisit(s, geo, root, ScreenRect(screen), Initial(screen))
        == Visitor(screen, [FlatInstance(IVec3(rect.x, rect.y, 0), IVec2(rect.w, rect.h), color)], [], 1)
  {
    var v0 := Initial(screen);
    LayerChildVisit(s, geo, root, ScreenRect(screen), v0, 0);
    var slots := LayerSlots([(pos, leaf)], ScreenRect(screen), screen, geo);
    assert slots[..0] == [] && slots[..1] == slots;
    SlotsStep(s, geo, slots, true, v0, Rank(s, root), 0);
    assert VisitSlots(s, geo, slots[..0], true, v0, Rank(s, root)) == v0;
    LeafEmission(s, geo, leaf, slots[0].1, v0);
  }
}
