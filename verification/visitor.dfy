/**
 The layout/paint traversal (`NodeVisitor`). Starting from the root with the
 screen rectangle, it resolves a rectangle for every node, emits one instance
 per Rect or Texture leaf tagged with the shared z-index counter, and bumps the
 counter once after each Layer child. Visiting an id absent from the scene
 does nothing.
 */
module Visitor {
  import opened Wrappers
  import opened Types
  import opened SceneGraph
  import opened Layout
  import opened Renderer

  /**
   The two resolvers whose bodies live outside this model:
   `Size::resolve(parent, screen)` and `Position::apply(rect, screen)`.
   */
  datatype Geometry = Geometry(resolve: Resolver, apply: (Position, Rect, Dimension) -> Rect)

  /** The visitor's state: the screen size and the output lists and counter threaded through the walk. */
  datatype Visitor = Visitor(
    screenSize: Dimension,
    rectInstances: seq<FlatInstance>,
    textureInstances: seq<TextureInstance>,
    zIndex: int)

  /** A child to visit together with the rectangle it was given. */
  type Slot = (NodeId, Rect)

  /** Emission order and z agree: both lists non-decreasing in z, none above the counter. */
  ghost predicate Ordered(v: Visitor)
  {
    && (forall i, j :: 0 <= i < j < |v.rectInstances| ==> v.rectInstances[i].position.z <= v.rectInstances[j].position.z)
    && (forall i, j :: 0 <= i < j < |v.textureInstances| ==> v.textureInstances[i].position.z <= v.textureInstances[j].position.z)
    && (forall i :: 0 <= i < |v.rectInstances| ==> v.rectInstances[i].position.z <= v.zIndex)
    && (forall i :: 0 <= i < |v.textureInstances| ==> v.textureInstances[i].position.z <= v.zIndex)
  }

  /**
   What visiting v to get r added: the old lists are prefixes of the new ones,
   and every instance added lies between the old and the new counter.
   */
  ghost predicate Extends(v: Visitor, r: Visitor)
  {
    && r.screenSize == v.screenSize
    && v.zIndex <= r.zIndex
    && v.rectInstances <= r.rectInstances
    && v.textureInstances <= r.textureInstances
    && (forall i :: |v.rectInstances| <= i < |r.rectInstances| ==> v.zIndex <= r.rectInstances[i].position.z <= r.zIndex)
    && (forall i :: |v.textureInstances| <= i < |r.textureInstances| ==> v.zIndex <= r.textureInstances[i].position.z <= r.zIndex)
  }

  /** Counts over a subtree: Layer child slots, Rect leaves and Texture leaves reached. */
  datatype Tally = Tally(slots: nat, flats: nat, textures: nat)
  {
    function Plus(o: Tally): Tally
    {
      Tally(slots + o.slots, flats + o.flats, textures + o.textures)
    }
  }

  /**
   A reference count of what a visit of id produces: the Layer child slots
   traversed (each one bump of the counter) and the leaves that emit.
   */
  function NodeTally(scene: Scene, id: NodeId): Tally
    requires Acyclic(scene)
    decreases Rank(scene, id), 1
  {
    if id !in scene.nodes then Tally(0, 0, 0)
    else
      var node := scene.nodes[id];
      ChildrenRankBelow(scene, id);
      match node
      case Layer(inner) =>
        var t := ChildrenTally(scene, node.ChildIds(), Rank(scene, id));
        t.(slots := t.slots + |inner|)
      case Row(_) => ChildrenTally(scene, node.ChildIds(), Rank(scene, id))
      case Column(_) => ChildrenTally(scene, node.ChildIds(), Rank(scene, id))
      case Rect(_) => Tally(0, 1, 0)
      case Texture(_) => Tally(0, 0, 1)
      case Empty => Tally(0, 0, 0)
  }

  function ChildrenTally(scene: Scene, ids: seq<NodeId>, bound: nat): Tally
    requires Acyclic(scene)
    requires forall k :: 0 <= k < |ids| ==> Rank(scene, ids[k]) < bound
    decreases bound, 0, |ids|
  {
    if |ids| == 0 then Tally(0, 0, 0)
    else ChildrenTally(scene, ids[..|ids| - 1], bound).Plus(NodeTally(scene, ids[|ids| - 1]))
  }

  function SlotIds(slots: seq<Slot>): (ids: seq<NodeId>)
    ensures |ids| == |slots| && forall i :: 0 <= i < |slots| ==> ids[i] == slots[i].0
  {
    if |slots| == 0 then [] else SlotIds(slots[..|slots| - 1]) + [slots[|slots| - 1].0]
  }

  /** Layer: every child's rectangle is its position applied to the Layer's own rectangle. */
  function LayerSlots(inner: seq<(Position, NodeId)>, rect: Rect, screen: Dimension, geo: Geometry): (slots: seq<Slot>)
    ensures |slots| == |inner|
    ensures forall i :: 0 <= i < |inner| ==> slots[i] == (inner[i].1, geo.apply(inner[i].0, rect, screen))
    ensures SlotIds(slots) == EntryIds(inner)
  {
    if |inner| == 0 then []
    else
      var n := |inner| - 1;
      var front := LayerSlots(inner[..n], rect, screen, geo);
      var slots := front + [(inner[n].1, geo.apply(inner[n].0, rect, screen))];
      assert slots[..n] == front;
      slots
  }

  /** Pairs each child id of a Row or Column with the rectangle the distribution gave it. */
  function LineSlots(inner: seq<(Size, NodeId)>, rects: seq<Rect>): (slots: seq<Slot>)
    requires |rects| == |inner|
    ensures |slots| == |inner|
    ensures forall i :: 0 <= i < |inner| ==> slots[i] == (inner[i].1, rects[i])
    ensures SlotIds(slots) == EntryIds(inner)
  {
    if |inner| == 0 then []
    else
      var n := |inner| - 1;
      var front := LineSlots(inner[..n], rects[..n]);
      var slots := front + [(inner[n].1, rects[n])];
      assert slots[..n] == front;
      slots
  }

  /** The sizes of a Row's or Column's entries, in order. */
  function LineSizes(inner: seq<(Size, NodeId)>): (sizes: seq<Size>)
    ensures |sizes| == |inner| && forall i :: 0 <= i < |inner| ==> sizes[i] == inner[i].0
  {
    seq(|inner|, i requires 0 <= i < |inner| => inner[i].0)
  }

  /** Row (Vertical) and Column (Horizontal): children get the rectangles of the distribution. */
  function DistributedSlots(inner: seq<(Size, NodeId)>, rect: Rect, axis: Axis, screen: Dimension, geo: Geometry): (slots: seq<Slot>)
    ensures |slots| == |inner|
    ensures forall i :: 0 <= i < |inner| ==> slots[i] == (inner[i].1, SplitRect(rect, axis, LineSizes(inner), screen, geo.resolve)[i])
    ensures SlotIds(slots) == EntryIds(inner)
  {
    LineSlots(inner, SplitRect(rect, axis, LineSizes(inner), screen, geo.resolve))
  }

  /** The slots a node's children are visited with; a leaf has none. */
  function ChildSlots(node: Node, rect: Rect, screen: Dimension, geo: Geometry): seq<Slot>
  {
    match node
    case Layer(inner) => LayerSlots(inner, rect, screen, geo)
    case Row(inner) => DistributedSlots(inner, rect, Vertical, screen, geo)
    case Column(inner) => DistributedSlots(inner, rect, Horizontal, screen, geo)
    case _ => []
  }

  lemma ChildSlotIds(node: Node, rect: Rect, screen: Dimension, geo: Geometry)
    ensures SlotIds(ChildSlots(node, rect, screen, geo)) == node.ChildIds()
  {
    match node
    case Layer(inner) =>
    case Row(inner) =>
    case Column(inner) =>
    case _ => assert SlotIds([]) == [];
  }

  /** A node with children: Layer, Row or Column. */
  predicate IsContainer(node: Node)
  {
    node.Layer? || node.Row? || node.Column?
  }

  /**
   What a leaf adds at the current counter: a Rect one flat instance, a
   Texture one textured instance, anything else nothing.
   */
  function Emit(node: Node, rect: Rect, v: Visitor): (r: Visitor)
    ensures r.screenSize == v.screenSize && r.zIndex == v.zIndex
    ensures v.rectInstances <= r.rectInstances && |r.rectInstances| == |v.rectInstances| + (if node.Rect? then 1 else 0)
    ensures v.textureInstances <= r.textureInstances && |r.textureInstances| == |v.textureInstances| + (if node.Texture? then 1 else 0)
    ensures node.Rect? ==> r.rectInstances[|v.rectInstances|] == FlatInstance(IVec3(rect.x, rect.y, v.zIndex), IVec2(rect.w, rect.h), node.color)
    ensures node.Texture? ==> r.textureInstances[|v.textureInstances|] == TextureInstance(IVec3(rect.x, rect.y, v.zIndex), IVec2(rect.w, rect.h), node.textureId)
  {
    match node
    case Rect(color) =>
      v.(rectInstances := v.rectInstances + [FlatInstance(IVec3(rect.x, rect.y, v.zIndex), IVec2(rect.w, rect.h), color)])
    case Texture(textureId) =>
      v.(textureInstances := v.textureInstances + [TextureInstance(IVec3(rect.x, rect.y, v.zIndex), IVec2(rect.w, rect.h), textureId)])
    case _ => v
  }

  /**
   `do_visit`: visits id with the given rectangle. An id absent from the
   scene changes nothing; a Layer visits its children bumping the counter
   after each, a Row or Column visits them without bumping, a leaf emits.
   The counting, prefix and ordering facts are the lemmas below.
   */
  function DoVisit(scene: Scene, geo: Geometry, id: NodeId, rect: Rect, v: Visitor): (r: Visitor)
    requires Acyclic(scene)
    decreases Rank(scene, id), 1
    ensures id !in scene.nodes ==> r == v
    ensures r.screenSize == v.screenSize
  {
    match GetNode(scene, id)
    case None => v
    case Some(node) =>
      if IsContainer(node) then
        ChildrenRankBelow(scene, id);
        ChildSlotIds(node, rect, v.screenSize, geo);
        VisitSlots(scene, geo, ChildSlots(node, rect, v.screenSize, geo), node.Layer?, v, Rank(scene, id))
      else Emit(node, rect, v)
  }

  /**
   Visits the slots in order; with bump (a Layer) the counter grows by one
   after each child, without it (a Row or Column) it does not.
   */
  function VisitSlots(scene: Scene, geo: Geometry, slots: seq<Slot>, bump: bool, v: Visitor, bound: nat): (r: Visitor)
    requires Acyclic(scene)
    requires forall k :: 0 <= k < |slots| ==> Rank(scene, slots[k].0) < bound
    decreases bound, 0, |slots|
    ensures r.screenSize == v.screenSize
  {
    if |slots| == 0 then v
    else
      var n := |slots| - 1;
      var u := DoVisit(scene, geo, slots[n].0, slots[n].1, VisitSlots(scene, geo, slots[..n], bump, v, bound));
      if bump then Bumped(u) else u
  }

  /** The counter after a Layer child: one more than after visiting it. */
  function Bumped(u: Visitor): (r: Visitor)
    ensures r.zIndex == u.zIndex + 1
    ensures r.screenSize == u.screenSize && r.rectInstances == u.rectInstances && r.textureInstances == u.textureInstances
    ensures Ordered(u) ==> Ordered(r)
  {
    u.(zIndex := u.zIndex + 1)
  }

  /**
   Counting: a visit moves the counter by exactly the number of Layer child
   slots it traverses, whatever else the subtrees hold, and appends one
   instance per Rect or Texture leaf it reaches.
   */
  lemma {:induction false} VisitCounts(scene: Scene, geo: Geometry, id: NodeId, rect: Rect, v: Visitor)
    requires Acyclic(scene)
    decreases Rank(scene, id), 1
    ensures var r := DoVisit(scene, geo, id, rect, v);
      && r.zIndex == v.zIndex + NodeTally(scene, id).slots
      && |r.rectInstances| == |v.rectInstances| + NodeTally(scene, id).flats
      && |r.textureInstances| == |v.textureInstances| + NodeTally(scene, id).textures
  {
    if id in scene.nodes {
      var node := scene.nodes[id];
      if IsContainer(node) {
        ChildrenRankBelow(scene, id);
        ChildSlotIds(node, rect, v.screenSize, geo);
        SlotsCounts(scene, geo, ChildSlots(node, rect, v.screenSize, geo), node.Layer?, v, Rank(scene, id));
      }
    }
  }

  lemma {:induction false} SlotsCounts(scene: Scene, geo: Geometry, slots: seq<Slot>, bump: bool, v: Visitor, bound: nat)
    requires Acyclic(scene)
    requires forall k :: 0 <= k < |slots| ==> Rank(scene, slots[k].0) < bound
    decreases bound, 0, |slots|
    ensures var r := VisitSlots(scene, geo, slots, bump, v, bound);
      var t := ChildrenTally(scene, SlotIds(slots), bound);
      && r.zIndex == v.zIndex + t.slots + (if bump then |slots| else 0)
      && |r.rectInstances| == |v.rectInstances| + t.flats
      && |r.textureInstances| == |v.textureInstances| + t.textures
  {
    if |slots| > 0 {
      var n := |slots| - 1;
      assert SlotIds(slots[..n]) == SlotIds(slots)[..n];
      SlotsCounts(scene, geo, slots[..n], bump, v, bound);
      VisitCounts(scene, geo, slots[n].0, slots[n].1, VisitSlots(scene, geo, slots[..n], bump, v, bound));
    }
  }

  /**
   A visit only appends: the lists before it are prefixes of the lists after
   it, the counter does not go back, and every appended instance carries a z
   between the counter before and the counter after.
   */
  lemma {:induction false} VisitExtends(scene: Scene, geo: Geometry, id: NodeId, rect: Rect, v: Visitor)
    requires Acyclic(scene)
    decreases Rank(scene, id), 1
    ensures Extends(v, DoVisit(scene, geo, id, rect, v))
  {
    if id in scene.nodes {
      var node := scene.nodes[id];
      if IsContainer(node) {
        ChildrenRankBelow(scene, id);
        ChildSlotIds(node, rect, v.screenSize, geo);
        SlotsExtend(scene, geo, ChildSlots(node, rect, v.screenSize, geo), node.Layer?, v, Rank(scene, id));
      }
    }
  }

  lemma {:induction false} SlotsExtend(scene: Scene, geo: Geometry, slots: seq<Slot>, bump: bool, v: Visitor, bound: nat)
    requires Acyclic(scene)
    requires forall k :: 0 <= k < |slots| ==> Rank(scene, slots[k].0) < bound
    decreases bound, 0, |slots|
    ensures Extends(v, VisitSlots(scene, geo, slots, bump, v, bound))
  {
    if |slots| > 0 {
      var n := |slots| - 1;
      SlotsExtend(scene, geo, slots[..n], bump, v, bound);
      var w := VisitSlots(scene, geo, slots[..n], bump, v, bound);
      VisitExtends(scene, geo, slots[n].0, slots[n].1, w);
      ExtendsTransitive(v, w, DoVisit(scene, geo, slots[n].0, slots[n].1, w));
    }
  }

  lemma ExtendsTransitive(a: Visitor, b: Visitor, c: Visitor)
    requires Extends(a, b) && Extends(b, c)
    ensures Extends(a, c) && Extends(a, Bumped(c))
  {
  }

  /** A leaf emits at the current counter, so order is kept. */
  lemma EmitOrdered(node: Node, rect: Rect, v: Visitor)
    requires Ordered(v)
    ensures Ordered(Emit(node, rect, v))
  {
  }

  /** A visit keeps the output lists ordered by z with nothing above the counter. */
  lemma {:induction false} VisitOrdered(scene: Scene, geo: Geometry, id: NodeId, rect: Rect, v: Visitor)
    requires Acyclic(scene) && Ordered(v)
    decreases Rank(scene, id), 1
    ensures Ordered(DoVisit(scene, geo, id, rect, v))
  {
    if id in scene.nodes {
      var node := scene.nodes[id];
      if IsContainer(node) {
        ChildrenRankBelow(scene, id);
        ChildSlotIds(node, rect, v.screenSize, geo);
        SlotsOrdered(scene, geo, ChildSlots(node, rect, v.screenSize, geo), node.Layer?, v, Rank(scene, id));
      } else {
        EmitOrdered(node, rect, v);
      }
    }
  }

  lemma {:induction false} SlotsOrdered(scene: Scene, geo: Geometry, slots: seq<Slot>, bump: bool, v: Visitor, bound: nat)
    requires Acyclic(scene) && Ordered(v)
    requires forall k :: 0 <= k < |slots| ==> Rank(scene, slots[k].0) < bound
    decreases bound, 0, |slots|
    ensures Ordered(VisitSlots(scene, geo, slots, bump, v, bound))
  {
    if |slots| > 0 {
      var n := |slots| - 1;
      SlotsOrdered(scene, geo, slots[..n], bump, v, bound);
      var w := VisitSlots(scene, geo, slots[..n], bump, v, bound);
      VisitOrdered(scene, geo, slots[n].0, slots[n].1, w);
      var u := DoVisit(scene, geo, slots[n].0, slots[n].1, w);
      assert Ordered(Bumped(u));
    }
  }

  /** The visitor a frame starts with: empty lists, counter 0. */
  function Initial(screenSize: Dimension): (r: Visitor)
    ensures r.screenSize == screenSize && r.zIndex == 0
    ensures r.rectInstances == [] && r.textureInstances == []
    ensures Ordered(r)
  {
    Visitor(screenSize, [], [], 0)
  }

  /** The screen rectangle the root is visited with. */
  function ScreenRect(screenSize: Dimension): (r: Rect)
    ensures r.x == 0 && r.y == 0 && r.Dimension() == screenSize
  {
    NewRect(0, 0, screenSize.width, screenSize.height)
  }

  /**
   `NodeVisitor::visit`: with no root nothing is emitted and the counter stays
   0; otherwise the root is visited with the full screen rectangle. Either
   way both lists come out ordered by z, and the counter ends at the number of
   Layer child slots traversed.
   */
  function Visit(screenSize: Dimension, scene: Scene, geo: Geometry): (r: Visitor)
    requires Acyclic(scene)
    ensures r.screenSize == screenSize
    ensures scene.root.None? ==> r.rectInstances == [] && r.textureInstances == [] && r.zIndex == 0
    ensures scene.root.Some? ==> r == DoVisit(scene, geo, scene.root.value, ScreenRect(screenSize), Initial(screenSize))
    ensures scene.root.Some? ==> r.zIndex == NodeTally(scene, scene.root.value).slots
    ensures Ordered(r)
  {
    match scene.root
    case None => Initial(screenSize)
    case Some(root) =>
      VisitExtends(scene, geo, root, ScreenRect(screenSize), Initial(screenSize));
      VisitCounts(scene, geo, root, ScreenRect(screenSize), Initial(screenSize));
      VisitOrdered(scene, geo, root, ScreenRect(screenSize), Initial(screenSize));
      DoVisit(scene, geo, root, ScreenRect(screenSize), Initial(screenSize))
  }


  /**
   Leaves: a Rect emits exactly one flat instance at (x, y, counter) carrying
   the rectangle's unclamped extent and its colour; a Texture emits one
   textured instance carrying its id; Empty emits nothing. None of them moves
   the counter.
   */
  lemma LeafEmission(scene: Scene, geo: Geometry, id: NodeId, rect: Rect, v: Visitor)
    requires Acyclic(scene) && id in scene.nodes
    ensures var r := DoVisit(scene, geo, id, rect, v);
      var node := scene.nodes[id];
      && (node.Rect? ==> r == v.(rectInstances := v.rectInstances + [FlatInstance(IVec3(rect.x, rect.y, v.zIndex), IVec2(rect.w, rect.h), node.color)]))
      && (node.Texture? ==> r == v.(textureInstances := v.textureInstances + [TextureInstance(IVec3(rect.x, rect.y, v.zIndex), IVec2(rect.w, rect.h), node.textureId)]))
      && (node.Empty? ==> r == v)
  {
  }

  /**
   Visiting slots one after another: the state after the first i + 1 slots is
   the state after the first i with slot i visited on top (and, for a Layer,
   the counter bumped).
   */
  lemma SlotsStep(scene: Scene, geo: Geometry, slots: seq<Slot>, bump: bool, v: Visitor, bound: nat, i: nat)
    requires Acyclic(scene)
    requires forall k :: 0 <= k < |slots| ==> Rank(scene, slots[k].0) < bound
    requires i < |slots|
    ensures var u := DoVisit(scene, geo, slots[i].0, slots[i].1, VisitSlots(scene, geo, slots[..i], bump, v, bound));
      VisitSlots(scene, geo, slots[..i + 1], bump, v, bound) == if bump then Bumped(u) else u
  {
    var pre := slots[..i + 1];
    assert pre[..i] == slots[..i];
    assert pre[i] == slots[i];
  }

  /** A container is visited through its child slots, bumping exactly when it is a Layer. */
  lemma ContainerVisit(scene: Scene, geo: Geometry, id: NodeId, rect: Rect, v: Visitor)
    requires Acyclic(scene) && id in scene.nodes && IsContainer(scene.nodes[id])
    ensures var slots := ChildSlots(scene.nodes[id], rect, v.screenSize, geo);
      && (forall k :: 0 <= k < |slots| ==> Rank(scene, slots[k].0) < Rank(scene, id))
      && DoVisit(scene, geo, id, rect, v) == VisitSlots(scene, geo, slots, scene.nodes[id].Layer?, v, Rank(scene, id))
  {
    ChildrenRankBelow(scene, id);
    ChildSlotIds(scene.nodes[id], rect, v.screenSize, geo);
  }

  /**
   A Layer visits its children through its slots: child i gets its position
   applied to the Layer's own rectangle, whatever its siblings are, and the
   counter is bumped after every child.
   */
  lemma LayerChildVisit(scene: Scene, geo: Geometry, id: NodeId, rect: Rect, v: Visitor, i: nat)
    requires Acyclic(scene) && id in scene.nodes && scene.nodes[id].Layer?
    requires i < |scene.nodes[id].layered|
    ensures var inner := scene.nodes[id].layered;
      var slots := LayerSlots(inner, rect, v.screenSize, geo);
      && (forall k :: 0 <= k < |slots| ==> Rank(scene, slots[k].0) < Rank(scene, id))
      && DoVisit(scene, geo, id, rect, v) == VisitSlots(scene, geo, slots, true, v, Rank(scene, id))
      && slots[i] == (inner[i].1, geo.apply(inner[i].0, rect, v.screenSize))
  {
    ContainerVisit(scene, geo, id, rect, v);
  }

  /**
   A Row (axis Vertical) or Column (axis Horizontal) visits its children
   through its slots: child i gets the i-th rectangle of the distribution of
   the node's own rectangle, and the counter is not bumped.
   */
  lemma LineChildVisit(scene: Scene, geo: Geometry, id: NodeId, inner: seq<(Size, NodeId)>, axis: Axis, rect: Rect, v: Visitor, i: nat)
    requires Acyclic(scene) && id in scene.nodes
    requires scene.nodes[id] == (if axis.Vertical? then Row(inner) else Column(inner))
    requires i < |inner|
    ensures var slots := DistributedSlots(inner, rect, axis, v.screenSize, geo);
      && (forall k :: 0 <= k < |slots| ==> Rank(scene, slots[k].0) < Rank(scene, id))
      && DoVisit(scene, geo, id, rect, v) == VisitSlots(scene, geo, slots, false, v, Rank(scene, id))
      && slots[i] == (inner[i].1, SplitRect(rect, axis, LineSizes(inner), v.screenSize, geo.resolve)[i])
  {
    ContainerVisit(scene, geo, id, rect, v);
    assert ChildSlots(scene.nodes[id], rect, v.screenSize, geo) == DistributedSlots(inner, rect, axis, v.screenSize, geo);
  }

  /** Along a Layer's slots the counter never goes back. */
  lemma {:induction false} PrefixCounterGrows(scene: Scene, geo: Geometry, slots: seq<Slot>, v: Visitor, bound: nat, i: nat, j: nat)
    requires Acyclic(scene)
    requires forall k :: 0 <= k < |slots| ==> Rank(scene, slots[k].0) < bound
    requires i <= j <= |slots|
    ensures VisitSlots(scene, geo, slots[..i], true, v, bound).zIndex <= VisitSlots(scene, geo, slots[..j], true, v, bound).zIndex
    decreases j - i
  {
    if i < j {
      PrefixCounterGrows(scene, geo, slots, v, bound, i, j - 1);
      SlotsStep(scene, geo, slots, true, v, bound, j - 1);
      VisitExtends(scene, geo, slots[j - 1].0, slots[j - 1].1, VisitSlots(scene, geo, slots[..j - 1], true, v, bound));
    }
  }

  /**
   Everything emitted under an earlier Layer child has a strictly smaller z
   than everything emitted under a later sibling: the counter value sj at
   which child j starts separates the two.
   */
  lemma LayerSiblingsOrdered(scene: Scene, geo: Geometry, id: NodeId, rect: Rect, v: Visitor, i: nat, j: nat)
    requires Acyclic(scene) && id in scene.nodes && scene.nodes[id].Layer?
    requires i < j < |scene.nodes[id].layered|
    ensures var slots := LayerSlots(scene.nodes[id].layered, rect, v.screenSize, geo);
      var bound := Rank(scene, id);
      && (forall k :: 0 <= k < |slots| ==> Rank(scene, slots[k].0) < bound)
      && var si := VisitSlots(scene, geo, slots[..i], true, v, bound);
         var ei := DoVisit(scene, geo, slots[i].0, slots[i].1, si);
         var sj := VisitSlots(scene, geo, slots[..j], true, v, bound);
         var ej := DoVisit(scene, geo, slots[j].0, slots[j].1, sj);
         && (forall a :: |si.rectInstances| <= a < |ei.rectInstances| ==> ei.rectInstances[a].position.z < sj.zIndex)
         && (forall a :: |si.textureInstances| <= a < |ei.textureInstances| ==> ei.textureInstances[a].position.z < sj.zIndex)
         && (forall b :: |sj.rectInstances| <= b < |ej.rectInstances| ==> sj.zIndex <= ej.rectInstances[b].position.z)
         && (forall b :: |sj.textureInstances| <= b < |ej.textureInstances| ==> sj.zIndex <= ej.textureInstances[b].position.z)
  {
    ChildrenRankBelow(scene, id);
    var slots := LayerSlots(scene.nodes[id].layered, rect, v.screenSize, geo);
    var bound := Rank(scene, id);
    var si := VisitSlots(scene, geo, slots[..i], true, v, bound);
    var sj := VisitSlots(scene, geo, slots[..j], true, v, bound);
    SlotsStep(scene, geo, slots, true, v, bound, i);
    PrefixCounterGrows(scene, geo, slots, v, bound, i + 1, j);
    VisitExtends(scene, geo, slots[i].0, slots[i].1, si);
    VisitExtends(scene, geo, slots[j].0, slots[j].1, sj);
  }

  /**
   A Layer whose only child is a dangling id emits nothing and still advances
   the counter by one.
   */
  lemma DanglingLayerChild(scene: Scene, geo: Geometry, id: NodeId, p: Position, c: NodeId, rect: Rect, v: Visitor)
    requires Acyclic(scene) && id in scene.nodes && scene.nodes[id] == Layer([(p, c)]) && c !in scene.nodes
    ensures DoVisit(scene, geo, id, rect, v) == v.(zIndex := v.zIndex + 1)
  {
    LayerChildVisit(scene, geo, id, rect, v, 0);
    var slots := LayerSlots([(p, c)], rect, v.screenSize, geo);
    SlotsStep(scene, geo, slots, true, v, Rank(scene, id), 0);
    assert slots[..1] == slots;
    assert slots[..0] == [];
    assert slots[0].0 == c;
    assert VisitSlots(scene, geo, [], true, v, Rank(scene, id)) == v;
    assert DoVisit(scene, geo, c, slots[0].1, v) == v;
  }

}
