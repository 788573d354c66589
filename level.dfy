/** A level: four tile graphs, one per size class plus the navigation
    grid, and the demo level the game starts with. */
module Levels {
  import opened Primitives
  import opened Tiles
  import opened Walks
  import opened TileGraphs

  /** The tile-map keys `create_demo_level` reads. */
  const WallKey: string := "game:tiles/wall.json"
  const FloorKey: string := "game:tiles/floor.json"

  /** `c` lies in the half-open rectangle [x0, x1) x [y0, y1). */
  predicate InRect(c: Coord, x0: int, x1: int, y0: int, y1: int)
  {
    x0 <= c.0 < x1 && y0 <= c.1 < y1
  }

  /** `c` lies in the columns [x0, x) over rows [y0, y1), or in column `x`
      over rows [y0, y): the keys a column-by-column fill has reached. */
  predicate Reached(c: Coord, x0: int, x: int, y0: int, y1: int, y: int)
  {
    InRect(c, x0, x, y0, y1) || InRect(c, x, x + 1, y0, y)
  }

  /** `m` is `m0` with `v` stored at every reached key when `fits` holds,
      and `m0` itself otherwise. */
  ghost predicate Filled<T>(m0: map<Coord, T>, m: map<Coord, T>, v: T, fits: bool,
                            x0: int, x: int, y0: int, y1: int, y: int)
  {
    forall c :: (c in m <==> c in m0 || (fits && Reached(c, x0, x, y0, y1, y)))
      && (c in m ==> m[c] == if fits && Reached(c, x0, x, y0, y1, y) then v else m0[c])
  }

  /** Storing `v` at (x, y) reaches one more row of column `x`. */
  lemma FillStep<T>(m0: map<Coord, T>, m: map<Coord, T>, v: T, fits: bool,
                    x0: int, x: int, y0: int, y1: int, y: int)
    requires Filled(m0, m, v, fits, x0, x, y0, y1, y) && y0 <= y
    ensures Filled(m0, if fits then m[(x, y) := v] else m, v, fits, x0, x, y0, y1, y + 1)
  {
    var m' := if fits then m[(x, y) := v] else m;
    forall c
      ensures (c in m' <==> c in m0 || (fits && Reached(c, x0, x, y0, y1, y + 1)))
        && (c in m' ==> m'[c] == if fits && Reached(c, x0, x, y0, y1, y + 1) then v else m0[c])
    {
      assert Reached(c, x0, x, y0, y1, y + 1) <==> Reached(c, x0, x, y0, y1, y) || c == (x, y);
    }
  }

  /** A finished column is one more finished column and an empty next one. */
  lemma FillColumnDone<T>(m0: map<Coord, T>, m: map<Coord, T>, v: T, fits: bool,
                          x0: int, x: int, y0: int, y1: int)
    requires Filled(m0, m, v, fits, x0, x, y0, y1, y1) && x0 <= x
    ensures Filled(m0, m, v, fits, x0, x + 1, y0, y1, y0)
  {
    forall c
      ensures Reached(c, x0, x + 1, y0, y1, y0) <==> Reached(c, x0, x, y0, y1, y1)
    {
    }
  }

  /** The `for x in x0..x1` loop of `create_demo_level` that appends `tile`
      with an empty edge list along the row `y`. */
  method FillRow(graph: TileGraph, tile: Tile, x0: int, x1: int, y: int)
    requires graph.Valid() && x0 <= x1
    modifies graph
    ensures graph.Valid()
    ensures Filled(old(graph.nodes), graph.nodes, tile, tile.size == graph.tileSize, x0, x1, y, y + 1, y)
    ensures Filled(old(graph.connections), graph.connections, [], tile.size == graph.tileSize, x0, x1, y, y + 1, y)
  {
    ghost var fits := tile.size == graph.tileSize;
    var x := x0;
    while x < x1
      invariant x0 <= x <= x1
      invariant graph.Valid()
      invariant Filled(old(graph.nodes), graph.nodes, tile, fits, x0, x, y, y + 1, y)
      invariant Filled(old(graph.connections), graph.connections, [], fits, x0, x, y, y + 1, y)
    {
      ghost var nodes, conns := graph.nodes, graph.connections;
      graph.Append(tile, (x, y), []);
      FillStep(old(graph.nodes), nodes, tile, fits, x0, x, y, y + 1, y);
      FillStep(old(graph.connections), conns, [], fits, x0, x, y, y + 1, y);
      FillColumnDone(old(graph.nodes), graph.nodes, tile, fits, x0, x, y, y + 1);
      FillColumnDone(old(graph.connections), graph.connections, [], fits, x0, x, y, y + 1);
      x := x + 1;
    }
  }

  /** The nested `for x in x0..x1 { for y in y0..y1 }` loops of
      `create_demo_level` that append `tile` with an empty edge list at
      every key of a rectangle. */
  method FillRect(graph: TileGraph, tile: Tile, x0: int, x1: int, y0: int, y1: int)
    requires graph.Valid() && x0 <= x1 && y0 <= y1
    modifies graph
    ensures graph.Valid()
    ensures Filled(old(graph.nodes), graph.nodes, tile, tile.size == graph.tileSize, x0, x1, y0, y1, y0)
    ensures Filled(old(graph.connections), graph.connections, [], tile.size == graph.tileSize, x0, x1, y0, y1, y0)
  {
    ghost var fits := tile.size == graph.tileSize;
    var x := x0;
    while x < x1
      invariant x0 <= x <= x1
      invariant graph.Valid()
      invariant Filled(old(graph.nodes), graph.nodes, tile, fits, x0, x, y0, y1, y0)
      invariant Filled(old(graph.connections), graph.connections, [], fits, x0, x, y0, y1, y0)
    {
      FillColumn(graph, tile, old(graph.nodes), old(graph.connections), x0, x, y0, y1);
      x := x + 1;
    }
  }

  /** The inner `for y in y0..y1` loop of `FillRect`: appends `tile` down
      column `x`, which completes that column of the rectangle. */
  method FillColumn(graph: TileGraph, tile: Tile, ghost nodes0: map<Coord, Tile>, ghost conns0: Connections,
                    x0: int, x: int, y0: int, y1: int)
    requires graph.Valid() && x0 <= x && y0 <= y1
    requires Filled(nodes0, graph.nodes, tile, tile.size == graph.tileSize, x0, x, y0, y1, y0)
    requires Filled(conns0, graph.connections, [], tile.size == graph.tileSize, x0, x, y0, y1, y0)
    modifies graph
    ensures graph.Valid()
    ensures Filled(nodes0, graph.nodes, tile, tile.size == graph.tileSize, x0, x + 1, y0, y1, y0)
    ensures Filled(conns0, graph.connections, [], tile.size == graph.tileSize, x0, x + 1, y0, y1, y0)
  {
    ghost var fits := tile.size == graph.tileSize;
    var y := y0;
    while y < y1
      invariant y0 <= y <= y1
      invariant graph.Valid()
      invariant Filled(nodes0, graph.nodes, tile, fits, x0, x, y0, y1, y)
      invariant Filled(conns0, graph.connections, [], fits, x0, x, y0, y1, y)
    {
      ghost var nodes, conns := graph.nodes, graph.connections;
      graph.Append(tile, (x, y), []);
      FillStep(nodes0, nodes, tile, fits, x0, x, y0, y1, y);
      FillStep(conns0, conns, [], fits, x0, x, y0, y1, y);
      y := y + 1;
    }
    FillColumnDone(nodes0, graph.nodes, tile, fits, x0, x, y0, y1);
    FillColumnDone(conns0, graph.connections, [], fits, x0, x, y0, y1);
  }

  /** The number of neighbours of `c` inside the grid [0, w) x [0, h). */
  function GridDegree(c: Coord, w: int, h: int): nat
  {
    (if c.1 + 1 < h then 1 else 0) + (if c.0 + 1 < w then 1 else 0)
      + (if c.1 > 0 then 1 else 0) + (if c.0 > 0 then 1 else 0)
  }

  /** `nodes` is a full w x h grid of floor tiles. */
  ghost predicate FloorGrid(nodes: map<Coord, Tile>, w: int, h: int)
  {
    && (forall d :: d in nodes <==> InRect(d, 0, w, 0, h))
    && (forall d :: d in nodes ==> nodes[d].tileType == Floor)
  }

  /** In a full floor grid every tile is connected to each of its in-grid
      neighbours: 2 at a corner, 3 along a side, 4 inside. */
  lemma GridEdgeCount(nodes: map<Coord, Tile>, w: int, h: int, c: Coord)
    requires FloorGrid(nodes, w, h) && c in nodes
    ensures |Built(nodes)[c]| == GridDegree(c, w, h)
  {
    GridLink(nodes, w, h, (c.0, c.1 + 1));
    GridLink(nodes, w, h, (c.0 + 1, c.1));
    GridLink(nodes, w, h, (c.0, c.1 - 1));
    GridLink(nodes, w, h, (c.0 - 1, c.1));
  }

  /** In a full floor grid there is an edge towards `d` exactly when `d`
      lies inside the grid. */
  lemma GridLink(nodes: map<Coord, Tile>, w: int, h: int, d: Coord)
    requires FloorGrid(nodes, w, h)
    ensures |Link(nodes, d)| == if InRect(d, 0, w, 0, h) then 1 else 0
  {
  }

  /** One step from `a` towards `b` in a floor grid: along x first, then
      along y. */
  function Toward(a: Coord, b: Coord): (n: Coord)
    requires a != b
    ensures Manhattan(a, n) == 1 && Manhattan(n, b) + 1 == Manhattan(a, b)
  {
    if a.0 < b.0 then (a.0 + 1, a.1)
    else if a.0 > b.0 then (a.0 - 1, a.1)
    else if a.1 < b.1 then (a.0, a.1 + 1)
    else (a.0, a.1 - 1)
  }

  /** A step towards a tile of a rectangle from another stays inside. */
  lemma TowardStaysInside(a: Coord, b: Coord, w: int, h: int)
    requires a != b && InRect(a, 0, w, 0, h) && InRect(b, 0, w, 0, h)
    ensures InRect(Toward(a, b), 0, w, 0, h)
  {
  }

  /** `conn` covers the w x h grid and links every tile to each of its
      neighbours inside it at cost 1. */
  ghost predicate GridLinked(conn: Connections, w: int, h: int)
  {
    && (forall c :: c in conn <==> InRect(c, 0, w, 0, h))
    && (forall a, n :: a in conn && n in conn && Manhattan(a, n) == 1 ==> (n, 1) in conn[a])
  }

  /** Building the edges of a full floor grid links it. */
  lemma FloorGridLinked(nodes: map<Coord, Tile>, w: int, h: int)
    requires FloorGrid(nodes, w, h)
    ensures GridLinked(Built(nodes), w, h)
  {
    forall a, n | a in nodes && n in nodes && Manhattan(a, n) == 1
      ensures (n, 1) in Built(nodes)[a]
    {
      GridStep(nodes, w, h, a, n);
    }
  }

  /** In a linked grid any two tiles are joined by a walk of exactly their
      Manhattan distance, moving along x first and then along y. */
  lemma {:induction false} GridWalk(conn: Connections, w: int, h: int, a: Coord, b: Coord)
    returns (p: seq<Coord>, cs: seq<u32>)
    requires GridLinked(conn, w, h) && a in conn && b in conn
    ensures IsWalkBetween(conn, p, cs, a, b)
    ensures |p| == Manhattan(a, b) + 1
    decreases Manhattan(a, b)
  {
    if a == b {
      p, cs := [a], [];
    } else {
      var n := Toward(a, b);
      TowardStaysInside(a, b, w, h);
      var rest, restCosts := GridWalk(conn, w, h, n, b);
      WalkCons(conn, a, 1, rest, restCosts);
      p, cs := [a] + rest, [1] + restCosts;
    }
  }

  /** In a full floor grid a tile is linked to each neighbour inside it. */
  lemma GridStep(nodes: map<Coord, Tile>, w: int, h: int, a: Coord, n: Coord)
    requires FloorGrid(nodes, w, h) && a in nodes && n in nodes && Manhattan(a, n) == 1
    ensures (n, 1) in Built(nodes)[a]
  {
    NeighboursSpec(nodes, a);
  }

  /** In a full floor grid the cheapest walk between two tiles costs their
      Manhattan distance: there is a walk of that cost and none cheaper. */
  lemma GridDistance(nodes: map<Coord, Tile>, w: int, h: int, a: Coord, b: Coord)
    requires FloorGrid(nodes, w, h) && a in nodes && b in nodes
    ensures exists p, cs :: IsWalkBetween(Built(nodes), p, cs, a, b) && Sum(cs) == Manhattan(a, b)
    ensures forall p, cs :: IsWalkBetween(Built(nodes), p, cs, a, b) ==> Sum(cs) >= Manhattan(a, b)
  {
    BuiltIsUnitCost(nodes);
    FloorGridLinked(nodes, w, h);
    var p, cs := GridWalk(Built(nodes), w, h, a, b);
    UnitCostSum(Built(nodes), p, cs);
    forall q, qs | IsWalkBetween(Built(nodes), q, qs, a, b)
      ensures Sum(qs) >= Manhattan(a, b)
    {
      UnitCostSum(Built(nodes), q, qs);
      BuiltWalkAtLeastManhattan(nodes, q, qs);
    }
  }

  /** `Level`: the big, medium and small tile graphs that are drawn, and the
      navigation graph that entities path-find on. */
  class Level {
    var tileBig: TileGraph
    var tileMedium: TileGraph
    var tileSmall: TileGraph
    var tileNav: TileGraph

    /** Every graph is well formed and holds the size class it is named for;
        the navigation grid holds small tiles. */
    ghost predicate Valid()
      reads this, tileBig, tileMedium, tileSmall, tileNav
    {
      && tileBig.Valid() && tileBig.tileSize == Big
      && tileMedium.Valid() && tileMedium.tileSize == Medium
      && tileSmall.Valid() && tileSmall.tileSize == Small
      && tileNav.Valid() && tileNav.tileSize == Small
    }

    /** The graph `get_tile` consults for a size class. */
    function GraphFor(size: TileSize): (g: TileGraph)
      reads this
      ensures g in {tileBig, tileMedium, tileSmall}
    {
      match size
      case Big => tileBig
      case Medium => tileMedium
      case Small => tileSmall
    }

    /** `Level::get_tile`: the tile of the requested size class at a world
        coordinate. It is always of that size class: the stored tile whose
        cell holds the point, or the wall `create_none` returns. The
        navigation grid is never consulted. */
    function GetTile(size: TileSize, x: int, y: int): (t: Tile)
      reads this, tileBig, tileMedium, tileSmall
      ensures Valid() ==> t.size == size
      ensures var key := (TileKey(x, size.Side()), TileKey(y, size.Side()));
        Valid() ==>
          && (key in GraphFor(size).nodes ==> t == GraphFor(size).nodes[key])
          && (key !in GraphFor(size).nodes ==> t == CreateNone(size))
    {
      match size
      case Big => tileBig.GetTile(x, y)
      case Medium => tileMedium.GetTile(x, y)
      case Small => tileSmall.GetTile(x, y)
    }

    /** The state `create_demo_level` leaves: a row of big walls at tile row
        -1 from column 0 to 3, an 8 x 3 block of medium floor, no small
        tiles, and a 16 x 6 navigation grid of floor with its edges built.
        A wall or floor tile of the wrong size class is not stored. */
    ghost predicate IsDemo(wall: Tile, floor: Tile)
      reads this, tileBig, tileMedium, tileSmall, tileNav
    {
      && Valid()
      && (forall c :: c in tileBig.nodes <==> wall.size == Big && InRect(c, 0, 4, -1, 0))
      && (forall c :: c in tileBig.nodes ==> tileBig.nodes[c] == wall && tileBig.connections[c] == [])
      && (forall c :: c in tileMedium.nodes <==> floor.size == Medium && InRect(c, 0, 8, 0, 3))
      && (forall c :: c in tileMedium.nodes ==> tileMedium.nodes[c] == floor && tileMedium.connections[c] == [])
      && tileSmall.nodes == map[] && tileSmall.connections == map[]
      && (forall c :: c in tileNav.nodes <==> InRect(c, 0, 16, 0, 6))
      && (forall c :: c in tileNav.nodes ==> tileNav.nodes[c] == CreateNav())
      && tileNav.connections == Built(tileNav.nodes)
    }

    /** `create_demo_level`. The source unwraps the wall and floor entries
        of the tile map, so both must be present. */
    constructor CreateDemoLevel(tiles: map<string, Tile>)
      requires WallKey in tiles && FloorKey in tiles
      ensures IsDemo(tiles[WallKey], tiles[FloorKey])
      ensures fresh(tileBig) && fresh(tileMedium) && fresh(tileSmall) && fresh(tileNav)
    {
      var wall := tiles[WallKey];
      var floor := tiles[FloorKey];
      var big := new TileGraph.Create(Big);
      var medium := new TileGraph.Create(Medium);
      var small := new TileGraph.Create(Small);
      var nav := new TileGraph.Create(Small);
      FillRow(big, wall, 0, 4, -1);
      FillRect(medium, floor, 0, 8, 0, 3);
      FillRect(nav, CreateNav(), 0, 16, 0, 6);
      nav.BuildConnections();
      tileBig := big;
      tileMedium := medium;
      tileSmall := small;
      tileNav := nav;
    }

    /** In the demo level every small-size lookup finds no tile and
        answers with a wall, because no small tiles are stored. */
    lemma DemoSmallIsWall(wall: Tile, floor: Tile, x: int, y: int)
      requires IsDemo(wall, floor)
      ensures GetTile(Small, x, y) == CreateNone(Small) && GetTile(Small, x, y).tileType == Wall
    {
    }

    /** In the demo level, with a big wall tile, a point strictly inside
        the wall row (0 <= x < 4 * 64, -64 < y < 0) finds the wall. */
    lemma DemoWallRow(wall: Tile, floor: Tile, x: int, y: int)
      requires IsDemo(wall, floor) && wall.size == Big
      requires 0 <= x < 4 * 64 && -64 < y < 0
      ensures GetTile(Big, x, y) == wall
    {
      assert Big.Side() == 64;
      TileKeyCovers(x, 64, x / 64);
      TileKeyCovers(y, 64, -1);
      assert InRect((x / 64, -1), 0, 4, -1, 0);
    }

    /** The demo navigation grid: every tile has 2, 3 or 4 edges as it
        sits at a corner, on a side or inside, and the cheapest walk
        between any two of its tiles costs their Manhattan distance. */
    lemma DemoNavGrid(wall: Tile, floor: Tile, a: Coord, b: Coord)
      requires IsDemo(wall, floor) && a in tileNav.nodes && b in tileNav.nodes
      ensures |tileNav.connections[a]| == GridDegree(a, 16, 6)
      ensures exists p, cs :: IsWalkBetween(tileNav.connections, p, cs, a, b) && Sum(cs) == Manhattan(a, b)
      ensures forall p, cs :: IsWalkBetween(tileNav.connections, p, cs, a, b) ==> Sum(cs) >= Manhattan(a, b)
    {
      assert FloorGrid(tileNav.nodes, 16, 6);
      GridEdgeCount(tileNav.nodes, 16, 6, a);
      GridDistance(tileNav.nodes, 16, 6, a, b);
    }
  }
}
