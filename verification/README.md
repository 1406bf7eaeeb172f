# guiug core, modelled in Dafny

guiug is a declarative GUI library. An application builds a scene of nodes
(Layer, Row, Column, Rect, Texture, Empty) through the `Guiug` builder, picks
a root, and registers image bytes as textures. Every frame, `NodeVisitor`
walks the scene from the root with the screen rectangle:

- a Layer gives each child the rectangle its position resolves to;
- a Row shares its height among its children and a Column shares its width;
- a Rect or Texture leaf emits one draw instance tagged with a shared z-index
  counter;
- the counter is bumped once after each Layer child.

The flat renderer then draws all flat instances in one call. The texture
renderer sorts its instances by texture id and draws each run of equal ids
with that texture's bind group.

This project models that core:

| file | module | models |
|---|---|---|
| `wrappers.dfy` | `Wrappers` | `Option` |
| `types.dfy` | `Types` | `Rect`, `Dimension` |
| `scene.dfy` | `SceneGraph` | the node table, the node kinds, `insert_node`, `get_node` |
| `texture.dfy` | `Textures` | the texture id allocator and the texture lookup |
| `layout.dfy` | `Layout` | the Row/Column distribution arithmetic |
| `visitor.dfy` | `Visitor` | the traversal itself |
| `renderer.dfy` | `Renderer` | the instance records and the two renderers' draw logic |
| `builder.dfy` | `Builder` | the `Guiug` builder methods |

Modelling choices:

- The visitor is a pure function. It threads an immutable state (screen size,
  the two instance lists, the counter) through a mutual recursion over a node
  and over a node's child slots.
- Termination: the traversal measure is the node id. A scene is `Acyclic`
  when every child id is below its parent's id or absent from the table.
  The builder keeps this invariant for scenes built bottom-up.
- GPU work is abstracted away. A draw is the instance range it covers,
  together with the texture whose bind group was set for it.

## Model

| member | source | states |
|---|---|---|
| Types.NewRect | src/types.rs:10-12 | `Rect::new` stores exactly the four given coordinates |
| Types.NewDimension | src/types.rs:29-31 | `Dimension::new` stores exactly the given width and height |
| Types.Rect.Dimension | src/types.rs:14-19 | a rectangle's dimension is its width and height, whatever its origin |
| SceneGraph.GetNode | src/lib.rs:351 | the lookup yields the stored node exactly when the id is in the table, else nothing |
| SceneGraph.InsertNode | src/lib.rs:48 | insertion returns the old next id, which was free in a valid scene; it stores the node there, grows the key set by exactly that id, leaves every other node and the root alone, and advances the next id |
| SceneGraph.InsertNodeKeepsValid | src/lib.rs:46-80 | inserting a node whose children all have earlier ids keeps the scene valid (every id below the next id, every child below its parent), and therefore acyclic |
| SceneGraph.ChildrenRankBelow | src/lib.rs:350-419 | in an acyclic scene every child of a stored node ranks strictly below it, so the recursive walk terminates |
| SceneGraph.SetRoot | src/lib.rs:40-42 | the root becomes the given node; the node table and the next id are unchanged |
| SceneGraph.EntryIds | src/lib.rs:352-372 | the children a Layer, Row or Column visits are the ids of its entries, one per entry, in order |
| Textures.AddTextureInfo | src/texture.rs:14-21 | `add_texture_info` returns the previous `last_id` and increments it by one; it stores the data under the returned id and changes no other entry; a dense table stays dense and the returned id was unused |
| Textures.AddAll | src/texture.rs:14-21 | successive registrations return consecutive ids starting at `last_id`; each id maps to its data, older entries survive, and density is kept |
| Textures.RegistrationFromDefault | src/texture.rs:7-21 | from the default manager the k-th registration returns id k - 1, so ids are distinct, dense from 0, and each holds its own data |
| Textures.GetTexture | src/texture.rs:76-78 | `get_texture` yields the stored texture exactly when the id is present, else nothing |
| Layout.SumResolved | src/lib.rs:363-365 | the first pass's total of resolved lengths is non-negative when every resolved length is |
| Layout.TotalWeight | src/lib.rs:365-367 | the first pass's total weight is non-negative when every Weight entry's weight is |
| Layout.WeightShare | src/lib.rs:372-373 | a zero total weight gives 0; for a non-negative remainder and weight and a positive total, the share is a natural number at most the exact share and less than one below it |
| Layout.ChildLength | src/lib.rs:372-377 | a non-Weight entry gets its resolved length clamped at 0; a Weight entry gets 0 under a zero total, and otherwise its exact share truncated (for non-negative remainder and weight) |
| Layout.Place | src/lib.rs:378 | a child rectangle starts at the cursor with the given length along the axis and copies the parent across it |
| Layout.TruncTowardZero | src/lib.rs:373 | the `as i32` cast yields the integer next to the value in the direction of zero |
| Layout.Lengths | src/lib.rs:371-377 | the second pass gives every entry, independently, the length its kind calls for, given the remainder and total weight of the first pass |
| Layout.Distribute | src/lib.rs:360-377 | a Weight child gets its truncated share of (extent minus every entry's resolved length), any other child its resolved length; both are clamped at 0 |
| Layout.SumPrefixStep | src/lib.rs:379 | helper of LineRects: the cursor after one more child is the cursor before it plus that child's length |
| Layout.LineRects | src/lib.rs:370-379 | child i starts at the cursor's start plus the lengths of the children before it, has its own length along the axis, and spans the parent across it |
| Layout.LineRectsContiguous | src/lib.rs:378-379 | each child starts where the previous one ends, and the last ends at the start plus the sum of the lengths |
| Layout.PrefixPlacedContiguous | src/lib.rs:378-379 | rectangles placed at the running sums of their lengths follow one another without gap or overlap, and the last ends at the start plus the total |
| Layout.SplitRect | src/lib.rs:360-380 | a Row or Column gives one rectangle per entry, each with a non-negative length along the axis |
| Layout.SplitRectContiguous | src/lib.rs:360-403 | a Row (Column) tiles its rectangle vertically (horizontally) from the parent's origin: children are contiguous, have non-negative lengths equal to the distributed ones, and share the parent's x and w (y and h) |
| Layout.PlacedFromOrigin | src/lib.rs:370-379 | any non-negative lengths laid out from the parent's origin give contiguous children of those lengths that span the parent across the axis |
| Layout.ShareSplit | src/lib.rs:373 | helper of ShareSumIsProportional: a share of the remainder splits over a sum of weights |
| Layout.ShareSumIsProportional | src/lib.rs:360-376 | the exact shares of all Weight entries add up to the remainder times (total weight / total weight) |
| Layout.LengthsBounds | src/lib.rs:360-377 | given a non-negative remainder, a positive total weight, non-negative weights, `resolve` giving every Weight entry 0 and every other entry a non-negative length, the lengths add up to at most the exact sum, and lose less than one pixel per Weight entry to truncation |
| Layout.EntryBounds | src/lib.rs:372-377 | one Weight entry's length is its exact share truncated, at most that share and less than one below it; any other entry gets exactly its resolved length |
| Layout.DistributeConserves | src/lib.rs:360-381 | given non-negative weights with a positive total, `resolve` giving every Weight entry 0, and non-negative fixed lengths whose sum fits in the extent, the children's lengths add up to at most the parent's extent, and fall short of it by less than the number of Weight entries |
| Layout.WeightCountPositive | src/lib.rs:365-367 | helper of DistributeConserves: a non-zero total weight implies at least one Weight entry |
| Layout.EqualSplitExample | src/lib.rs:382-403 | given that `resolve` gives `Weight(1.0)` length 0, a Column of width 100 with two `Weight(1.0)` children gives both width 50, at x and at x + 50 |
| Visitor.SlotIds | src/lib.rs:354-356 | the ids of the slots are visited in order |
| Visitor.LayerSlots | src/lib.rs:354-356 | a Layer child gets its position applied to the Layer's rectangle and the screen size |
| Visitor.LineSlots | src/lib.rs:371-379 | each Row or Column child id is paired with the rectangle the distribution gave it |
| Visitor.LineSizes | src/lib.rs:363-364 | the sizes of a Row or Column, in order |
| Visitor.DistributedSlots | src/lib.rs:360-403 | child i of a Row (Column) gets the i-th rectangle of the vertical (horizontal) distribution of the node's rectangle |
| Visitor.DoVisit | src/lib.rs:350-419 | visiting an id absent from the scene changes nothing, and no visit changes the screen size |
| Visitor.VisitSlots | src/lib.rs:353-380 | visiting a node's child slots in order keeps the screen size; its counting, appending and ordering laws are SlotsCounts, SlotsExtend and SlotsOrdered |
| Visitor.Emit | src/lib.rs:404-416 | a Rect appends exactly one flat instance at (x, y, counter) with the rectangle's size and its colour, a Texture exactly one textured instance with its id, anything else nothing; the counter, the screen size and the earlier instances are kept |
| Visitor.Bumped | src/lib.rs:357 | the counter grows by one and nothing else changes, so sorted lists stay sorted |
| Visitor.Initial | src/lib.rs:336-341 | the visit starts from empty lists and counter 0 with the given screen size, a state that is trivially ordered |
| Visitor.ContainerVisit | src/lib.rs:351-402 | a Layer, Row or Column is visited through its child slots, whose ids rank below it, bumping the counter exactly for a Layer |
| Visitor.VisitCounts | src/lib.rs:350-419 | a visit moves the counter by exactly the number of Layer child slots in the subtree, and appends one flat (textured) instance per Rect (Texture) leaf reached, matching an independent tally |
| Visitor.SlotsCounts | src/lib.rs:354-357 | visiting a node's slots moves the counter by the tally of those children, plus one per slot for a Layer |
| Visitor.VisitExtends | src/lib.rs:350-419 | a visit only appends: the old lists are prefixes of the new ones, the counter does not decrease, and every appended instance has a z between the old and the new counter |
| Visitor.SlotsExtend | src/lib.rs:354-357 | the same append-only property over a sequence of child slots |
| Visitor.ExtendsTransitive | src/lib.rs:354-357 | two appending steps in a row, with or without a counter bump after them, append |
| Visitor.VisitOrdered | src/lib.rs:350-419 | both instance lists stay sorted by z, with no z above the counter |
| Visitor.SlotsOrdered | src/lib.rs:354-357 | the same ordering property over a sequence of child slots |
| Visitor.ScreenRect | src/lib.rs:342 | the root's rectangle is the screen: origin 0,0 with the screen's dimension |
| Visitor.Visit | src/lib.rs:335-347 | with no root nothing is emitted and the counter stays 0; otherwise the root is visited with the screen rectangle; the lists come out sorted by z and the counter ends at the number of Layer child slots traversed |
| Visitor.LeafEmission | src/lib.rs:404-416 | a Rect appends one flat instance at (x, y, counter) with the rectangle's unclamped w and h and its colour; a Texture appends one textured instance with its id; Empty emits nothing; none moves the counter |
| Visitor.SlotsStep | src/lib.rs:354-357 | the state after i + 1 children is child i visited on the state after i children, then bumped for a Layer |
| Visitor.LayerChildVisit | src/lib.rs:353-358 | a Layer visits its children in order, bumping the counter after each one, and child i's rectangle depends only on its own position |
| Visitor.LineChildVisit | src/lib.rs:360-403 | a Row or Column visits its children in order without bumping, and child i gets the i-th distributed rectangle |
| Visitor.PrefixCounterGrows | src/lib.rs:354-357 | along a Layer's children the counter never goes back |
| Visitor.LayerSiblingsOrdered | src/lib.rs:353-358 | everything an earlier Layer child emits has a strictly smaller z than anything a later sibling emits |
| Visitor.DanglingLayerChild | src/lib.rs:351-358 | a Layer whose only child id is missing from the scene emits nothing, but still bumps the counter once |
| Renderer.TextureInstance.Raw | src/renderer.rs:204-209 | `raw()` keeps position and scale and drops only the texture id |
| Renderer.FlatDraw | src/renderer.rs:62-78 | no instances, no draw; otherwise exactly one draw, covering the range `0..len` |
| Renderer.Insert | src/renderer.rs:154 | inserting one instance adds one element |
| Renderer.InsertPermutes | src/renderer.rs:154 | inserting an instance adds exactly it to the multiset |
| Renderer.InsertAbove | src/renderer.rs:154 | inserting keeps any lower bound that the new instance and every present instance respect |
| Renderer.InsertSorted | src/renderer.rs:154 | inserting into an id-sorted sequence keeps it sorted |
| Renderer.InsertStable | src/renderer.rs:154 | among instances of one id, the inserted one comes first and the others keep their order |
| Renderer.SortByKey | src/renderer.rs:154 | `sort_by_key` yields a permutation of the input, with texture ids non-decreasing |
| Renderer.SortByKeyStable | src/renderer.rs:154 | the sort is stable: the instances of each id keep their input order |
| Renderer.Keys | src/renderer.rs:171 | the texture ids compared by the loop, in order |
| Renderer.Runs | src/renderer.rs:167-192 | a run sequence is empty exactly when there are no ids; the last run ends at the last position and carries the last id |
| Renderer.AppendNextRun | src/renderer.rs:171-183 | when the id changes, closing the run and starting a new one at `num` keeps the tiling |
| Renderer.GrowRunTiles | src/renderer.rs:170-171 | when the id is unchanged, extending the current run keeps the tiling |
| Renderer.RunsTile | src/renderer.rs:167-192 | the runs tile `0..n`: they are non-empty and uniform in id, contiguous from 0 to n, and adjacent runs have different ids |
| Renderer.TilesOrdered | src/renderer.rs:181 | a later run starts no earlier than an earlier run ends |
| Renderer.RunUniform | src/renderer.rs:171 | every position in a run carries the run's id |
| Renderer.RunOf | src/renderer.rs:167-192 | every instance position lies in some run |
| Renderer.SortedRunsDistinct | src/renderer.rs:154-192 | because the instances are sorted, run ids strictly increase, so each texture id has at most one run |
| Renderer.DrawOf | src/renderer.rs:172-191 | a run is drawn with its texture when `get_texture` finds it, and skipped otherwise |
| Renderer.DrawnSources | src/renderer.rs:167-192 | the draws are exactly the runs whose texture is loaded, in run order; every such run has its draw |
| Renderer.RunsSplit | src/renderer.rs:170-183 | one more instance either grows the current run or closes it and opens a new one at `num` |
| Renderer.WalkGrow | src/renderer.rs:170-171 | an instance with the open run's id extends that run, and the draws of the closed runs stay |
| Renderer.WalkClose | src/renderer.rs:171-183 | an instance with another id closes the open run, adding its draw when its texture is loaded, and opens a run at `num` |
| Renderer.WalkEnd | src/renderer.rs:185-191 | after the loop, closing the open run gives the draws of all runs |
| Renderer.WalkStep | src/renderer.rs:170-183 | one iteration of the loop keeps the walk's state: open run `(last_texture_id, instance_start, num)` and the draws of the closed runs |
| Renderer.DrawRuns | src/renderer.rs:167-192 | the loop and the final draw, over the sorted ids, issue exactly the draws of the reference runs |
| Renderer.DrawTextured | src/renderer.rs:143-192 | no instances, no upload and no draw; otherwise the uploaded records are the sorted instances' `raw()` in order, and the draws are those of the reference runs of the sorted ids |
| Renderer.DrawsWithinRuns | src/renderer.rs:167-192 | each draw covers instances of its own id only, with that id's loaded texture |
| Renderer.DrawsOrdered | src/renderer.rs:167-192 | the draws are in order and disjoint; on sorted ids, their ids strictly increase |
| Renderer.DrawnAt | src/renderer.rs:172-192 | one instance is drawn exactly when its texture is loaded |
| Renderer.DrawnIffLoaded | src/renderer.rs:172-192 | an instance is drawn exactly when its texture is loaded: a missing texture's run is skipped, and the next draw still starts past it |
| Renderer.TexturedDrawsCover | src/renderer.rs:143-192 | no instances, no draw; over the texture ids of the sorted instances, draws use their id's loaded texture, are disjoint and ordered, one per id, and cover exactly the instances whose texture is loaded |
| Renderer.SortedDrawsCover | src/renderer.rs:167-192 | the same cover for any non-decreasing sequence of ids |
| Builder.AddNode | src/lib.rs:46-80 | every `*_node` stores its node under the old next id, which was free; it leaves other nodes, the root and the textures untouched |
| Builder.AddTexture | src/lib.rs:35-37 | `add_texture` returns the next texture id and stores the data under it; the scene is untouched; a well-built application stays well built |
| Builder.SetRootNode | src/lib.rs:40-42 | `set_root` makes the given node the root, changes nothing else, and keeps the application well built |
| Builder.LayerNode | src/lib.rs:46-49 | stores a Layer with the given entries under a fresh id |
| Builder.RectNode | src/lib.rs:52-55 | stores a Rect of the given colour under a fresh id |
| Builder.TextureNode | src/lib.rs:59-62 | stores a Texture node of the given texture id under a fresh id |
| Builder.RowNode | src/lib.rs:65-68 | stores a Row with the given entries under a fresh id |
| Builder.ColumnNode | src/lib.rs:71-74 | stores a Column with the given entries under a fresh id |
| Builder.EmptyNode | src/lib.rs:77-80 | stores an Empty node under a fresh id |
| Builder.AddNodeKeepsWellBuilt | src/lib.rs:46-80 | building bottom-up (children from earlier calls) keeps the scene valid and acyclic |
| Builder.EmptyLayerExample | src/lib.rs:21-26 | the usage example: an empty root Layer gets id 0 and draws nothing, leaving the counter at 0 |
| Builder.RectInLayerExample | src/lib.rs:335-408 | a Rect in a root Layer gives exactly one flat instance at z 0 over the rectangle its position resolves to; the counter ends at 1 |
| Builder.RectInLayerVisit | src/lib.rs:351-416 | in any scene holding a Layer whose one entry is a Rect, visiting the Layer from the initial state emits that Rect at z 0 over its positioned rectangle and ends with the counter at 1 |

## Left out

- The window and event loop (`run`, the winit handler, `State::new/render/resize/update`), because they are I/O.
- GPU setup and buffer uploads (`create_render_pipeline`, `VertexBuffer`, the `desc` layouts, the renderers' `new`), because they are foreign calls. A draw is modelled as its instance range plus, for textures, the texture whose bind group is set.
- `Texture::from_bytes`, `TextureManager::new/load` and `create_depth_texture`, because they do image decoding and GPU uploads. The texture manager is a map given as a parameter.
- `Size::resolve`, `Position::apply`, `Scene::insert_node` and `Scene::get_node`: their bodies are not in src/scene.rs, which is an older version of the scene module.
  - `resolve` and `apply` are function-valued parameters (`Visitor.Geometry`). The distribution laws (`Layout.LengthsBounds`, `Layout.DistributeConserves`, `Layout.EqualSplitExample`) assume that `resolve` gives a Weight entry length 0, as the first pass needs for the remainder to be the extent minus the fixed lengths only.
  - `insert_node` stores the node under a counter that it then advances.
  - `get_node` is a map lookup.
  - The `Size` variants and the `Anchor` kinds are inferred from their uses in src/main.rs:17-110 (`Anchor::start/end/center/stretch`, `Size::Pixel/ParentWidth/ParentHeight/ScreenWidth/Weight`). `ScreenHeight` does not appear there and is included as the counterpart of `ScreenWidth`. Their formulas (anchor placement, the `Parent*`/`Screen*` ratios) are not modelled.
- Layout.TruncTowardZero: f32 arithmetic is modelled with exact reals. Rounding in `total_size as f32 * (weight / total_weight)` is not modelled, nor the saturation of the `as i32` cast for values out of range.
- Layout.WeightShare: a zero total weight gives length 0. This matches the source when every weight is 0 (NaN casts to 0). It does not model mixed-sign weights that sum to 0.
- Visitor.Visit: coordinates, sizes and the counter are unbounded integers. The `i32` overflow of `pos += size` and `z_index += 1` is not modelled.
- Textures.AddTextureInfo: it requires `last_id < 65535`. The source's `u16` increment would overflow at that point (a panic in debug builds, wrap-around in release builds), and that path is not modelled.
- The visitor emits `IVec3`/`IVec2` while the renderer's records hold `UVec3`/`UVec2`. Instances are modelled with plain integers, so the signed-to-unsigned reinterpretation of negative coordinates is not modelled.
- The screen uniform (`visitor.z_index as u32` with the screen size) and the shader's mapping of z to depth are GPU-side and not modelled.
- Renderer.FlatDraw: the instance buffer holds 1024 `FlatInstance`s (src/renderer.rs:48). With more instances `write_buffer` (src/renderer.rs:72) writes past its end, which wgpu reports as a validation error (a panic under the default handler). That failure is not modelled: any number of instances is drawn.
- Renderer.DrawTextured: the instance buffer holds 1024 * 32 bytes (src/renderer.rs:130), that is 1638 raw records of 20 bytes. With more instances `write_buffer` (src/renderer.rs:158-162) writes past its end, with the same validation error. That failure is not modelled either.
- SceneGraph.Acyclic: the visit is defined only on scenes where every child id is below its parent's id or absent. This excludes cyclic scenes, on which `do_visit` recurses until the stack overflows (src/lib.rs:356, 378, 400). It also excludes acyclic scenes in which a child id is stored but not below its parent, which the source visits normally. Both arise only from ids that the same builder did not issue before the parent, for example ids taken from another `Guiug`.
- Renderer.SortByKey: `sort_by_key` is modelled as a stable insertion sort. Both give the same result, since a stable sort by key is unique.
- Renderer.DrawRuns: the loop starts at the second instance. At index 0 the source compares the first id with itself and does nothing.
