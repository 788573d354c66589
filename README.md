# NEA-Project tile map, navigation and draw order in Dafny

This project models the logic core of a small 2D top-down game written in
Rust on SDL2. It covers these parts:

- **Tile graph and level.** A level keeps its tiles in four sparse grids: big,
  medium and small tiles, plus a navigation layer. Each grid (`TileGraph`)
  maps tile-space coordinates to tiles and to adjacency lists. It supports:
  - appending a tile, which is refused when the tile's size class is not the
    graph's;
  - looking up the tile under a world-space point;
  - building north/east/south/west edges to floor neighbours;
  - finding a route with a shortest-path search.
- **Draw order.** Scenery and moving entities are tagged as `(layer, index,
  y)` entries. The list is sorted by `y` with a first-element-pivot quicksort
  that partitions in place.
- **Tiles.** Tile types and tile size classes, with their parse, print and
  index tables, and the constructors of normal, "none" and navigation tiles.
- **Resource locations.** A `namespace:path` name, its printer and its parser.
- **Widgets.** Alignment parsing and the screen-space layout arithmetic of a
  widget. Also the enum selector widget: a button that cycles through the
  values of an enumeration, here `TileSize`.

The modules follow the source files:

| module | file | source |
|---|---|---|
| `Primitives` | primitives.dfy | Rust integer casts and truncating division, ASCII lower-casing, `Option`/`Result` |
| `ResourceLocations` | resource_location.dfy | src/resource_location.rs |
| `Render` | render.dfy | the SDL `Rect` and the `AssetData` record (data only) |
| `Tiles` | tile.dfy | src/tile.rs |
| `Widgets` | widget.dfy | src/widget.rs |
| `EnumWidgets` | enum_widget.dfy | src/widgets/enum_widget.rs |
| `Walks` | walks.dfy | walks in a weighted adjacency map, and the triangle bound behind the search |
| `TileGraphs` | tile_graph.dfy | `TileGraph` in src/level.rs |
| `Levels` | level.dfy | `Level` in src/level.rs |
| `DrawOrder` | draw_order.dfy | `order_sort` and `sort` in src/utils.rs |

`TileGraph`, `Level` and `EnumWidget` are classes whose map and value fields
their methods update. `path_to` is a method with the search loop, the
relaxation loop and the walk-back loop of the source. The quicksort works on
an `array` with the two cursor loops of the source.

Each `path_to` run gives one of three results:
- `Ok(path)`;
- `Err(MissingStart)`, where the source unwraps a missing start key;
- `Err(Overflow)`, where the source's `u32` addition `cost + g` overflows.
  This happens when the cheapest way to some node, plus the cost of one of
  its edges, passes `u32::MAX`. For graphs built by `build_connections`, where
  every edge costs 1, that means an unreachable node (distance `u32::MAX`)
  still has an edge to an unvisited node. With costs supplied through
  `append`, a reachable node can overflow too, and a zero-cost edge out of an
  unreachable node does not.

`Relax` and `Search` keep an invariant. Every node already removed from the
working copy has:
- a final distance no larger than that of any node still in it;
- all its outgoing edges relaxed;
- unless it is the start or still at distance `u32::MAX` (never reached), a
  predecessor link along a listed edge whose cost adds up exactly.

The start never has a predecessor link. Every link points to an earlier
removed node.

From this, `PathTo` proves three things:
- the returned tiles form a walk from the start;
- that walk ends at the goal whenever the goal is reached;
- its cost is no larger than that of any other walk to the goal.

### Notes on the code as written

The model follows the code, including where it departs from its own comments:

- `TileGraph::get_tile` shifts a negative coordinate by a whole tile side before
  dividing (src/level.rs:133-134). The result is `-1 - (-x)/sf`, which is floor
  division except at exact negative multiples of the side: world x = -64 on the
  big grid reads tile -2 instead of -1 (`TileGraphs.NegativeTileOriginMisread`,
  `TileGraphs.TileKeyAgainstFloor`).
- `path_to` and `append_from_wolrd_space` use plain truncating division. For a
  negative coordinate that is not a multiple of the side, they therefore pick
  the tile one to the right of the one `get_tile` reads
  (`TileGraphs.ToTileDisagreesWithTileKey`).
- `path_to` is documented as A*, but its `f` always equals `g`: it runs
  Dijkstra's algorithm. The model keeps both maps and proves `f == g`.
- `ResourceLocation::eq` compares `self.path` with `other.path` and with
  `other.namespace`. It is not reflexive: `game:tiles/nav` is not equal to
  itself (`ResourceLocations.NavLocationNotEqualToItself`), while
  `none:none` is (`ResourceLocations.EmptyEqualsItself`).
- `EnumWidget::create` starts at index 0 whatever value it is given. Index 0
  is SMALL, so value and index agree from creation only for SMALL (the value
  the room editor passes). For other values they agree only after the first
  click.
- The partition loops of `sort` (src/utils.rs:57-67) move a cursor only when
  `<=` or `>=` holds. When the pivot key is NaN, or a NaN is met when the two
  cursors are equal, neither comparison holds, neither cursor moves and the
  loop never ends. The model's keys are reals, which are totally ordered, so
  its loops always end. `DrawOrder.Sort` therefore says nothing about lists
  with NaN keys.

## Model

| member | source | states |
|---|---|---|
| Primitives.U32AsI32 | src/widget.rs:41 | a `u32 as i32` cast lies in the `i32` range, agrees with its input modulo 2^32, and is the identity below 2^31 |
| Primitives.TruncDiv | src/level.rs:225-226 | Rust's integer `/` for a positive divisor is Euclidean division for non-negative or exact dividends, and one more for a negative inexact dividend |
| Primitives.ToLower | src/tile.rs:66 | `to_lowercase` keeps the length and lower-cases each ASCII capital, leaving every other character alone |
| Primitives.ToLowerIdempotent | src/widget.rs:129 | lower-casing twice is the same as lower-casing once |
| ResourceLocations.ResourceLocation.SetNamespace | src/resource_location.rs:36-38 | only the namespace changes, to the given one |
| ResourceLocations.ResourceLocation.SetPath | src/resource_location.rs:41-43 | only the path changes, to the given one |
| ResourceLocations.ResourceLocation.ToString | src/resource_location.rs:46-48 | the text is the namespace, a colon, then the path |
| ResourceLocations.New | src/resource_location.rs:20-25 | both arguments are stored verbatim |
| ResourceLocations.Empty | src/resource_location.rs:28-33 | namespace and path are both `none` |
| ResourceLocations.Eq | src/resource_location.rs:9-11 | when `a` equals `b`, `b`'s namespace equals its own path, and `a` is the very same location as `b` exactly when `a`'s namespace equals its path |
| ResourceLocations.Split | src/resource_location.rs:52 | `split(":")` yields at least one piece and no piece contains the separator |
| ResourceLocations.JoinSplit | src/resource_location.rs:52 | joining the pieces of a split with the separator gives back the input |
| ResourceLocations.SplitSingle | src/resource_location.rs:52 | a split yields a single piece exactly when the separator is absent |
| ResourceLocations.SplitHead | src/resource_location.rs:52-53 | the first piece is the text before the first colon, or the whole text without one |
| ResourceLocations.Parse | src/resource_location.rs:51-54 | parsing fails (the source's unwrap of the second piece) exactly when the input has no colon |
| ResourceLocations.ParseToString | src/resource_location.rs:46-54 | parsing the printed form of a location without colons in its parts gives it back |
| ResourceLocations.ParseIsPrefix | src/resource_location.rs:51-54 | on input with a colon, the parsed location's printed form is a prefix of the input ending at a colon or at the end: everything after the second piece is dropped |
| ResourceLocations.EqReflexiveIff | src/resource_location.rs:9-11 | a location equals itself under `eq` exactly when its namespace equals its path |
| ResourceLocations.EmptyEqualsItself | src/resource_location.rs:9-11 | the empty location is equal to itself |
| ResourceLocations.NavLocationNotEqualToItself | src/resource_location.rs:9-11 | `game:tiles/nav` is not equal to itself under `eq` |
| Tiles.ParseTileType | src/tile.rs:19-24 | the type is WALL exactly for the string `wall`, case-sensitively; anything else is FLOOR |
| Tiles.TileTypeAsInt | src/tile.rs:27-32 | WALL maps to 0 and FLOOR to 1 |
| Tiles.TileTypeEq | src/tile.rs:49-53 | comparing tile types through `as_int` holds exactly when the variants are equal |
| Tiles.TileSize.Get | src/tile.rs:80-86 | BIG is 64 by 64, MEDIUM 32 by 32, SMALL 16 by 16; the two components are always equal |
| Tiles.TileSize.GetAsString | src/tile.rs:93-99 | parsing the printed name of a size gives the same size |
| Tiles.TileSize.Count | src/tile.rs:109-111 | there are three sizes |
| Tiles.TileSize.Name | src/tile.rs:113-115 | the enumeration's name is one non-empty path segment, with no `/` and no `:` |
| Tiles.ParseTileSize | src/tile.rs:65-77 | after lower-casing, `small` gives SMALL and `medium` gives MEDIUM; everything else gives BIG |
| Tiles.ParseTileSizeIgnoresCase | src/tile.rs:65-77 | parsing ignores letter case |
| Tiles.GetFromIndex | src/tile.rs:101-107 | index 1 is MEDIUM, index 2 is BIG, and every other index, 0 included, is SMALL |
| Tiles.GetFromIndexCoversAll | src/tile.rs:101-111 | every size is reached by some index below `count` |
| Tiles.TileSizeEq | src/tile.rs:145-149 | comparing sizes by side length holds exactly when the variants are equal |
| Tiles.CreateTile | src/tile.rs:153-183 | the tile keeps the given name, location, type, size, origin and collision data; its sprite rectangle starts at the given UV and has the size class's width and height |
| Tiles.CreateNone | src/tile.rs:185-206 | the none tile is named `None` and is a WALL of the requested size, without collision, at `game:tiles/none`, with a full-size sprite at the origin |
| Tiles.CreateNav | src/tile.rs:208-228 | the nav tile is named `nav`, has resource location `game:tiles/nav`, and is a SMALL FLOOR tile without collision at the origin, drawn from a 16 by 16 sprite of `game:tiles/nav.png` |
| Tiles.NavSpriteMatchesSize | src/tile.rs:208-228 | the nav tile's sprite is exactly its size class's dimensions |
| Widgets.ParseAlignment | src/widget.rs:128-150 | after lower-casing, each of left, right, top, bottom and centre gives its variant, and nothing else does |
| Widgets.ParseAlignmentIgnoresCase | src/widget.rs:128-150 | parsing ignores letter case |
| Widgets.CorrectCoords | src/widget.rs:35-63 | NONE keeps the coordinates; LEFT, RIGHT, TOP, BOTTOM and CENTRE anchor them to the left edge, right edge, top, bottom or middle of the screen as the source's arithmetic does |
| Widgets.CorrectCoordsShift | src/widget.rs:35-63 | moving the widget by (dx, dy) moves its screen position by dx across and by dy or -dy down, depending on whether the alignment flips the y axis |
| Widgets.CentredOriginIsScreenMiddle | src/widget.rs:51-54 | a centred widget at (0, 0) sits at the middle of the screen |
| Widgets.DebugAssetData | src/widget.rs:70-75 | the debug sprite keeps the width, height and origin, starts at UV (0, 0) and comes from `game:gui/widgets/debug_background.png` |
| EnumWidgets.NextIndex | src/widgets/enum_widget.rs:55-60 | below `count`, the next index is the successor modulo `count` |
| EnumWidgets.AfterClicksIsModular | src/widgets/enum_widget.rs:54-62 | n clicks from index i land on (i + n) mod count |
| EnumWidgets.FullCycle | src/widgets/enum_widget.rs:54-62 | `count` clicks bring the index back to where it started |
| EnumWidgets.EnumTexture | src/widgets/enum_widget.rs:82 | the texture is `game:gui/widgets/enum/{name}/{value}.png` |
| EnumWidgets.EnumTextureInjective | src/widgets/enum_widget.rs:82 | distinct sizes get distinct textures |
| EnumWidgets.EnumWidget.Create | src/widgets/enum_widget.rs:27-48 | the widget starts at index 0, unselected, with the given alignment, coordinates and value, and with 20 by 20 sprites at UV rows 0 and 20 |
| EnumWidgets.EnumWidget.OnClick | src/widgets/enum_widget.rs:54-62 | the index moves to its successor modulo `count`, stays below `count`, and the value becomes `get_from_index` of the new index |
| EnumWidgets.EnumWidget.SetSelected | src/widgets/enum_widget.rs:64-70 | `get_selected` then returns the value set |
| EnumWidgets.EnumWidget.SetScreenCoordinates | src/widgets/enum_widget.rs:72-78 | `get_screen_coordinates` then returns the coordinates set |
| EnumWidgets.EnumWidget.SetAllignment | src/widgets/enum_widget.rs:102-108 | `get_allignment` then returns the alignment set |
| EnumWidgets.EnumWidget.SetAssetData | src/widgets/enum_widget.rs:94-96 | the unselected asset data becomes the given one |
| EnumWidgets.EnumWidget.GetAssetData | src/widgets/enum_widget.rs:79-92 | both asset records get the value's texture, then the selected record is returned exactly when the widget is selected |
| EnumWidgets.EnumWidget.GetDebugAssetData | src/widget.rs:70-75 | after the same texture update as `get_asset_data`, the debug sprite is derived from the record it returns; only that record's sprite rectangle must be present |
| EnumWidgets.EnumWidget.GetResourceLocation | src/widgets/enum_widget.rs:98-100 | the location is `game:widgets/enum/tile_size` |
| EnumWidgets.EnumWidget.CorrectedCoords | src/widget.rs:35-63 | the widget's screen position is where its alignment puts (0, 0), moved across by its x and down by its y, or up by its y for alignments that flip the y axis |
| EnumWidgets.EnumWidget.ReturnEnumInt | src/widgets/enum_widget.rs:114-116 | always `Some` of the current index |
| Walks.UnitCostSum | src/level.rs:186-205 | on a graph whose edges all cost 1, a walk costs its number of steps |
| Walks.TriangleBound | src/level.rs:260-267 | once every edge is relaxed and the start has distance 0, no walk from the start is cheaper than the recorded distance of its end |
| Walks.LeastOpenIsLowerBound | src/level.rs:250-267 | a walk from the start to the least unvisited node costs at least that node's recorded distance |
| Walks.ToWorld | src/level.rs:274-278 | each tile of the path becomes its coordinates times the tile side |
| TileGraphs.TileKey | src/level.rs:130-134 | a non-negative coordinate maps to `x / sf`; a negative one to `-1 - (-x) / sf` |
| TileGraphs.TileKeyCovers | src/level.rs:130-134 | the key of x is k exactly when x lies in the half-open cell that the source's rounding assigns to k |
| TileGraphs.TileKeyAgainstFloor | src/level.rs:133-134 | the key is floor division except at exact negative multiples of the side, where it is one less |
| TileGraphs.NegativeTileOriginMisread | src/level.rs:133-134 | the world origin of a negative tile c reads as tile c - 1 |
| TileGraphs.ToTile | src/level.rs:225-226 | start and goal keys use truncating division on each axis |
| TileGraphs.ToTileDisagreesWithTileKey | src/level.rs:124 | for a negative coordinate that is not a multiple of the side, the truncated key is one more than `get_tile`'s |
| TileGraphs.DirectionIsManhattanOne | src/level.rs:174-181 | a coordinate is one of the four neighbours exactly when it is at Manhattan distance 1 |
| TileGraphs.NeighboursSpec | src/level.rs:183-205 | a node's list has at most four edges, each to a FLOOR node at distance 1 with cost 1, in north, east, south, west order, and every FLOOR neighbour is listed |
| TileGraphs.Built | src/level.rs:172-210 | the built adjacency map has exactly the graph's nodes as keys |
| TileGraphs.BuiltIsUnitCost | src/level.rs:189-204 | every built edge costs 1 |
| TileGraphs.BuiltIsSymmetric | src/level.rs:186-205 | between FLOOR tiles, an edge from a to b implies one from b to a |
| TileGraphs.BuiltWalkAvoidsWalls | src/level.rs:186-205 | every step of a walk in the built graph moves to an adjacent FLOOR node |
| TileGraphs.BuiltWalkAtLeastManhattan | src/level.rs:186-205 | a walk in the built graph takes at least as many steps as the Manhattan distance it covers |
| TileGraphs.FloorEdges | src/level.rs:174-206 | the list built for one node is that node's neighbour list |
| TileGraphs.PickShortest | src/level.rs:247-257 | the chosen node is in the working copy and has the least distance there |
| TileGraphs.Relax | src/level.rs:260-268 | relaxing the least node's edges and removing it keeps the search invariant; the only failure is a `u32` overflow of `cost + g` |
| TileGraphs.OverflowIsBeyondU32 | src/level.rs:262-263 | an overflow means some node with an edge into the graph has a recorded distance that, with that edge, passes `u32::MAX` |
| TileGraphs.Search | src/level.rs:235-270 | either the search ends with every edge relaxed, the start at 0 and predecessor links along real edges, or an overflow was reached |
| TileGraphs.WalkBack | src/level.rs:272-279 | the path starts at the start tile and is a walk whose cost is the goal's distance; it is just the start exactly when the goal is the start or has no predecessor, and otherwise ends at the goal |
| TileGraphs.ChainWalk | src/level.rs:260-279 | following predecessor links from the start yields a walk whose cost is the recorded distance of its end |
| TileGraphs.RouteIsCheapest | src/level.rs:214-281 | if any walk to the goal is cheaper than `u32::MAX`, the returned route reaches the goal and costs no more than it |
| TileGraphs.Telescope | src/level.rs:263-265 | costs that are differences of distances along a path sum to the last distance minus the first |
| TileGraphs.FewestTiles | src/level.rs:186-205 | with unit costs, a cheapest route also has the fewest tiles |
| TileGraphs.TileGraph.Create | src/level.rs:163-169 | a new graph is empty and has the given size class |
| TileGraphs.TileGraph.Append | src/level.rs:108-120 | a tile of the wrong size leaves the graph unchanged; otherwise the tile and its list are stored under the key, overwriting it, and nothing else changes |
| TileGraphs.TileGraph.AppendFromWorldSpace | src/level.rs:123-125 | the same as `append` at the truncated tile key of the world coordinate |
| TileGraphs.TileGraph.GetTile | src/level.rs:128-148 | the stored tile at the key of the point, or the graph size's none tile (a WALL) when there is none |
| TileGraphs.TileGraph.GetTileInCell | src/level.rs:128-148 | every point in a stored tile's cell reads that tile |
| TileGraphs.TileGraph.BuildConnections | src/level.rs:172-211 | the adjacency map becomes the neighbour list of every node, and the nodes are untouched |
| TileGraphs.TileGraph.PathTo | src/level.rs:214-281 | fails exactly when the start tile is missing, and otherwise only on a `u32` overflow; an `Ok` path is the world coordinates of a walk from the start tile, just the start when the goal is the start or unreachable, otherwise ending at the goal with the least cost of any walk there |
| Levels.FillRow | src/level.rs:69-71 | appending a tile along a row fills exactly that row when the size matches, and leaves the graph as it was otherwise |
| Levels.FillRect | src/level.rs:74-78 | appending a tile over a rectangle fills exactly that rectangle when the size matches, and leaves the graph as it was otherwise |
| Levels.GridEdgeCount | src/level.rs:81-88 | in an all-FLOOR w by h grid, a tile has one edge per in-grid neighbour: corners 2, borders 3, interior tiles 4 |
| Levels.Toward | src/level.rs:186-205 | the step from a toward b is a neighbour of a that is one closer to b |
| Levels.GridWalk | src/level.rs:186-205 | in a linked grid, every two tiles are joined by a walk of Manhattan-distance length |
| Levels.GridDistance | src/level.rs:81-88 | in an all-FLOOR grid, the cheapest walk between two tiles costs exactly their Manhattan distance |
| Levels.Level.GetTile | src/level.rs:36-51 | the lookup goes to the graph of the requested size and returns its tile or that size's none tile |
| Levels.Level.CreateDemoLevel | src/level.rs:54-92 | a wall row of four big tiles at y = -1 and an 8 by 3 block of medium floor tiles (each only when the loaded tile has that size class), no small tiles, and a 16 by 6 nav grid whose edges are built |
| Levels.Level.DemoSmallIsWall | src/level.rs:54-92 | every small-tile lookup in the demo level yields the none tile, a WALL |
| Levels.Level.DemoWallRow | src/level.rs:69-71 | every point of the strip 0 <= x < 256, -64 < y < 0 reads the wall tile |
| Levels.Level.DemoNavGrid | src/level.rs:81-88 | in the demo nav layer each tile's degree is its in-grid neighbour count, and the cheapest walk between two tiles costs their Manhattan distance |
| DrawOrder.Tagged | src/utils.rs:30-43 | one entry per static then one per mobile |
| DrawOrder.TaggedEntries | src/utils.rs:34-42 | an entry is listed exactly when it is a static at layer 0 or a mobile at layer 1, with its own index and y |
| DrawOrder.TaggedDistinct | src/utils.rs:34-42 | no two entries share a layer and index |
| DrawOrder.Partition | src/utils.rs:54-68 | the pivot ends at the returned position, keys before it are no larger and keys after it no smaller, the cursors stay natural numbers, and the entries are permuted |
| DrawOrder.Swap | src/utils.rs:64-68 | two positions trade entries and the rest stay |
| DrawOrder.Sort | src/utils.rs:52-80 | the array ends sorted by key and is a permutation of its input; arrays of length 0 or 1 are unchanged |
| DrawOrder.SortedPieces | src/utils.rs:70-78 | a sorted left part, the pivot and a sorted right part make a sorted permutation of the partitioned list |
| DrawOrder.OrderSort | src/utils.rs:30-49 | the result is sorted by key and holds exactly the tagged entries |
| DrawOrder.SortedKeysUnique | src/utils.rs:52-80 | any two sorted permutations of the same entries have the same key sequence, so the draw order of keys does not depend on how ties are broken |

## Left out

- Rendering: `Level::render`, `TileGraph::render`, `Tile::render` and the SDL canvas are not modelled. `Render.Rect` and `Render.AssetData` are plain records; `Rect::new`'s clamping of its size is not modelled.
- Tile getters (`get_name`, `get_resource_location`, `get_size`, `get_type`) and the `Clone` implementations, `Alignment::clone` included, are field reads and copies of datatype values in the model.
- `EnumWidget::get_selected`, `get_screen_coordinates` and `get_allignment` are field reads. `get_game` returns nothing and is not modelled. `EnumWidget` is modelled for `TileSize` only.
- `ResourceLocation::set_namespace` and `set_path` update a value the caller owns; they are modelled as functions returning the updated value, since a `ResourceLocation` is never shared.
- Screen dimensions are a parameter of `Widgets.CorrectCoords` instead of the global render state.
- Levels.Level.GetTile: takes integer coordinates; the source's `f32 as i32` cast (truncation and saturation) is not modelled.
- DrawOrder.OrderSort: takes the y coordinates of statics and mobiles as two sequences of reals. The `f32` key is not modelled, nor are the mutex locks around entities. With a NaN key the source's partition loop does not end (see the notes above); the model does not capture this non-termination.
- Coordinates are unbounded integers: `i32` overflow of coordinates and of `x * sf` is not modelled. The `u32` overflow of `cost + g` in `path_to` is modelled, as `Err(Overflow)`.
- TileGraphs.TileGraph.PathTo: a missing start tile is `Err(MissingStart)` instead of a panic. A `u32` overflow is `Err(Overflow)` instead of a debug-build panic or release-build wrap-around.
- `HashMap` iteration order is not modelled. `PickShortest` may choose any node of least distance, and the proofs hold for every such choice. `BuildConnections` may visit nodes in any order, since each node's list depends on `nodes` alone.
- Widgets.DebugAssetData: requires the sprite rectangle, where the source unwraps it and panics on None; EnumWidgets.EnumWidget.GetDebugAssetData likewise requires it of the record it returns.
- Levels.Level.CreateDemoLevel: requires the wall and floor keys in the tile map, where the source unwraps them.
- The `warn!` calls in `TileGraph::append` and `Alignment::parse`, and logging in general, are not modelled.
- Lower-casing covers ASCII letters only; Unicode case mapping is not modelled.
- Levels.FillRow, Levels.FillRect, Levels.FillColumn, TileGraphs.PushIfFloor, DrawOrder.CopyRange and DrawOrder.Overwrite are helper methods. They hold loops and statements that the source writes inline.
- Entities, physics, screens, sound and the vector helpers `mul_vec` and `normalise_vec` are outside this model.
