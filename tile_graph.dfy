/** `TileGraph`: the tiles of one size class keyed by tile-space coordinate,
    the edges between them, and the shortest-path search over those edges. */
module TileGraphs {
  import opened Primitives
  import opened Tiles
  import opened Walks

  /** Why `path_to` has no answer: the start tile is not a key of the
      connection map (the source unwraps it), or a distance overflowed
      `u32` (the source's `u32` addition panics). */
  datatype PathError = MissingStart | Overflow

  // ----- tile keys -----------------------------------------------------------

  /** The key `get_tile` computes for one world coordinate: negative values
      are shifted down by a whole side length before the truncating division. */
  function TileKey(x: int, sf: int): (k: int)
    requires sf > 0
    ensures x >= 0 ==> k == x / sf
    ensures x < 0 ==> k == -1 - (-x) / sf
  {
    var shifted := if x < 0 then x - sf else x;
    if x < 0 then
      ShiftedQuotient(x, sf);
      TruncDiv(shifted, sf)
    else
      TruncDiv(shifted, sf)
  }

  lemma ShiftedQuotient(x: int, sf: int)
    requires sf > 0 && x < 0
    ensures TruncDiv(x - sf, sf) == -1 - (-x) / sf
  {
    var m := -x;
    var q, r := m / sf, m % sf;
    assert m == q * sf + r;
    assert m + sf == (q + 1) * sf + r;
    DivModUnique(m + sf, sf, q + 1, r);
  }

  /** The world coordinates that tile `k` covers under `TileKey`: the
      half-open cell `[k*sf, k*sf + sf)` on the non-negative side, but
      `(k*sf, k*sf + sf]` on the negative side. */
  ghost predicate Covers(k: int, x: int, sf: int)
  {
    if x >= 0 then k * sf <= x < k * sf + sf else k * sf < x <= k * sf + sf
  }

  /** `TileKey` picks exactly the tile whose cell covers the coordinate. */
  lemma TileKeyCovers(x: int, sf: int, k: int)
    requires sf > 0
    ensures TileKey(x, sf) == k <==> Covers(k, x, sf)
  {
    var t := TileKey(x, sf);
    if x >= 0 {
      var q, r := x / sf, x % sf;
      assert x == q * sf + r;
      if Covers(k, x, sf) {
        DivModUnique(x, sf, k, x - k * sf);
      }
    } else {
      var m := -x;
      var q, r := m / sf, m % sf;
      assert m == q * sf + r;
      assert t == -1 - q;
      assert t * sf == -q * sf - sf;
      if Covers(k, x, sf) {
        assert (-1 - k) * sf == -k * sf - sf;
        DivModUnique(m, sf, -1 - k, m - (-1 - k) * sf);
      }
    }
  }

  /** Compared with floor division, `TileKey` is one tile too far left on
      the negative exact multiples of the side length, and agrees elsewhere. */
  lemma TileKeyAgainstFloor(x: int, sf: int)
    requires sf > 0
    ensures x >= 0 || x % sf != 0 ==> TileKey(x, sf) == x / sf
    ensures x < 0 && x % sf == 0 ==> TileKey(x, sf) == x / sf - 1
  {
    if x < 0 {
      NegDiv(-x, sf);
    }
  }

  /** The origin of a negative tile is read as the tile to its left. */
  lemma NegativeTileOriginMisread(c: int, sf: int)
    requires sf > 0 && c < 0
    ensures TileKey(c * sf, sf) == c - 1
  {
    DivOfMultiple(c, sf);
    TileKeyAgainstFloor(c * sf, sf);
  }

  /** The tile-space key `path_to` and `append_from_wolrd_space` use:
      truncating division of each coordinate. */
  function ToTile(x: int, y: int, sf: int): (c: Coord)
    requires sf > 0
    ensures x >= 0 ==> c.0 == x / sf
    ensures y >= 0 ==> c.1 == y / sf
    ensures c.0 == TruncDiv(x, sf) && c.1 == TruncDiv(y, sf)
  {
    (TruncDiv(x, sf), TruncDiv(y, sf))
  }

  /** For a negative coordinate inside a tile, the truncating key of
      `path_to` is one more than the key `get_tile` uses. */
  lemma ToTileDisagreesWithTileKey(x: int, sf: int)
    requires sf > 0 && x < 0 && x % sf != 0
    ensures TruncDiv(x, sf) == TileKey(x, sf) + 1
  {
    TileKeyAgainstFloor(x, sf);
  }

  // ----- edges ---------------------------------------------------------------

  /** The i-th neighbour of `c` in the order the source visits them:
      north (y + 1), east (x + 1), south (y - 1), west (x - 1). */
  function Step(c: Coord, i: nat): Coord
    requires i < 4
  {
    match i
    case 0 => (c.0, c.1 + 1)
    case 1 => (c.0 + 1, c.1)
    case 2 => (c.0, c.1 - 1)
    case _ => (c.0 - 1, c.1)
  }

  /** Which neighbour of `c` the tile `d` is, 4 if it is none of them. */
  function Direction(c: Coord, d: Coord): (i: nat)
    ensures i <= 4
    ensures i < 4 ==> Step(c, i) == d
  {
    if d == (c.0, c.1 + 1) then 0
    else if d == (c.0 + 1, c.1) then 1
    else if d == (c.0, c.1 - 1) then 2
    else if d == (c.0 - 1, c.1) then 3
    else 4
  }

  /** The four neighbours are distinct: `Direction` inverts `Step`. */
  lemma DirectionOfStep(c: Coord, i: nat)
    requires i < 4
    ensures Direction(c, Step(c, i)) == i
  {
  }

  function Abs(a: int): nat
  {
    if a < 0 then -a else a
  }

  function Manhattan(a: Coord, b: Coord): nat
  {
    Abs(a.0 - b.0) + Abs(a.1 - b.1)
  }

  /** The four neighbours are exactly the tiles at Manhattan distance 1. */
  lemma DirectionIsManhattanOne(c: Coord, d: Coord)
    ensures Direction(c, d) < 4 <==> Manhattan(c, d) == 1
  {
  }

  /** The edge to `d` that `build_connections` records when `d` is a floor
      tile of the graph, compared through `TileType`'s `PartialEq`. */
  function Link(nodes: map<Coord, Tile>, d: Coord): seq<Edge>
  {
    if d in nodes && TileTypeEq(nodes[d].tileType, Floor) then [(d, 1)] else []
  }

  /** The edges to the floor neighbours of `c`, from the i-th direction on. */
  function LinksFrom(nodes: map<Coord, Tile>, c: Coord, i: nat): seq<Edge>
    requires i <= 4
    decreases 4 - i
  {
    if i == 4 then [] else Link(nodes, Step(c, i)) + LinksFrom(nodes, c, i + 1)
  }

  /** The edge list `build_connections` stores for the tile at `c`. */
  function Neighbours(nodes: map<Coord, Tile>, c: Coord): seq<Edge>
  {
    Link(nodes, (c.0, c.1 + 1)) + Link(nodes, (c.0 + 1, c.1)) + Link(nodes, (c.0, c.1 - 1)) + Link(nodes, (c.0 - 1, c.1))
  }

  /** The edges from the i-th direction on: at most one per remaining
      direction, each of cost 1 to a floor tile, in direction order. */
  lemma {:induction false} LinksFromSpec(nodes: map<Coord, Tile>, c: Coord, i: nat)
    requires i <= 4
    ensures var es := LinksFrom(nodes, c, i);
      && |es| <= 4 - i
      && (forall k :: 0 <= k < |es| ==>
            && es[k].0 in nodes && nodes[es[k].0].tileType == Floor
            && es[k].1 == 1 && i <= Direction(c, es[k].0) < 4)
      && (forall k, l :: 0 <= k < l < |es| ==> Direction(c, es[k].0) < Direction(c, es[l].0))
    decreases 4 - i
  {
    if i < 4 {
      LinksFromSpec(nodes, c, i + 1);
      DirectionOfStep(c, i);
      var head := Link(nodes, Step(c, i));
      var rest := LinksFrom(nodes, c, i + 1);
      assert LinksFrom(nodes, c, i) == head + rest;
      if head != [] {
        assert forall k :: 0 < k < |head + rest| ==> (head + rest)[k] == rest[k - 1];
      }
    }
  }

  /** The edges from the i-th direction on are present for exactly the
      floor neighbours in those directions. */
  lemma {:induction false} LinksFromComplete(nodes: map<Coord, Tile>, c: Coord, i: nat)
    requires i <= 4
    ensures var es := LinksFrom(nodes, c, i);
      forall j :: i <= j < 4 ==>
        ((Step(c, j), 1) in es <==> Step(c, j) in nodes && nodes[Step(c, j)].tileType == Floor)
    decreases 4 - i
  {
    if i < 4 {
      LinksFromComplete(nodes, c, i + 1);
      LinksFromSpec(nodes, c, i + 1);
      var d := Step(c, i);
      DirectionOfStep(c, i);
      var head := Link(nodes, d);
      var rest := LinksFrom(nodes, c, i + 1);
      assert LinksFrom(nodes, c, i) == head + rest;
      forall j | i < j < 4
        ensures (Step(c, j), 1) !in head
      {
        DirectionOfStep(c, j);
      }
      assert (d, 1) !in rest;
    }
  }

  /** `Neighbours` is the walk over all four directions. */
  lemma NeighboursAreLinksFromNorth(nodes: map<Coord, Tile>, c: Coord)
    ensures Neighbours(nodes, c) == LinksFrom(nodes, c, 0)
  {
    assert LinksFrom(nodes, c, 3) == Link(nodes, (c.0 - 1, c.1));
  }

  /** What `build_connections` records for one tile: at most four edges, each
      of cost 1 to a floor tile at Manhattan distance 1, in N, E, S, W order,
      and an edge to every floor neighbour. */
  lemma NeighboursSpec(nodes: map<Coord, Tile>, c: Coord)
    ensures var es := Neighbours(nodes, c);
      && |es| <= 4
      && (forall k :: 0 <= k < |es| ==>
            && es[k].0 in nodes && nodes[es[k].0].tileType == Floor
            && es[k].1 == 1 && Manhattan(c, es[k].0) == 1)
      && (forall k, l :: 0 <= k < l < |es| ==> Direction(c, es[k].0) < Direction(c, es[l].0))
      && (forall d :: Manhattan(c, d) == 1 ==> ((d, 1) in es <==> d in nodes && nodes[d].tileType == Floor))
  {
    LinksFromSpec(nodes, c, 0);
    LinksFromComplete(nodes, c, 0);
    NeighboursAreLinksFromNorth(nodes, c);
    forall d
      ensures Direction(c, d) < 4 <==> Manhattan(c, d) == 1
    {
      DirectionIsManhattanOne(c, d);
    }
  }


  /** The connection map `build_connections` leaves behind. */
  function Built(nodes: map<Coord, Tile>): (conn: Connections)
    ensures conn.Keys == nodes.Keys
  {
    map k | k in nodes :: Neighbours(nodes, k)
  }

  /** A map with the same keys that agrees with `Neighbours` everywhere is
      the built map. */
  lemma BuiltPointwise(nodes: map<Coord, Tile>, conn: Connections)
    requires conn.Keys == nodes.Keys
    requires forall k :: k in nodes ==> conn[k] == Neighbours(nodes, k)
    ensures conn == Built(nodes)
  {
  }

  /** Every built edge costs 1. */
  lemma BuiltIsUnitCost(nodes: map<Coord, Tile>)
    ensures UnitCosts(Built(nodes))
  {
    var conn: Connections := Built(nodes);
    forall k: Coord, i: int | k in conn && 0 <= i < |conn[k]|
      ensures conn[k][i].1 == 1
    {
      NeighboursSpec(nodes, k);
    }
  }

  /** Between two floor tiles the built edges go both ways. */
  lemma BuiltIsSymmetric(nodes: map<Coord, Tile>, a: Coord, b: Coord)
    requires a in nodes && nodes[a].tileType == Floor
    requires b in nodes && (b, 1) in Built(nodes)[a]
    ensures (a, 1) in Built(nodes)[b]
  {
    NeighboursSpec(nodes, a);
    NeighboursSpec(nodes, b);
    var k :| 0 <= k < |Built(nodes)[a]| && Built(nodes)[a][k] == (b, 1);
    assert Manhattan(a, b) == 1;
    assert Manhattan(b, a) == 1;
  }

  /** A walk along built edges moves one tile at a time and enters floor
      tiles only: only its first tile may be a wall. */
  lemma BuiltWalkAvoidsWalls(nodes: map<Coord, Tile>, p: seq<Coord>, cs: seq<u32>)
    requires IsWalk(Built(nodes), p, cs)
    ensures forall i :: 1 <= i < |p| ==> nodes[p[i]].tileType == Floor && Manhattan(p[i - 1], p[i]) == 1
  {
    var conn: Connections := Built(nodes);
    forall i | 1 <= i < |p|
      ensures nodes[p[i]].tileType == Floor && Manhattan(p[i - 1], p[i]) == 1
    {
      assert (p[i], cs[i - 1]) in conn[p[i - 1]];
      NeighboursSpec(nodes, p[i - 1]);
      var k :| 0 <= k < |conn[p[i - 1]]| && conn[p[i - 1]][k] == (p[i], cs[i - 1]);
    }
  }

  /** A walk along built edges takes at least as many steps as the Manhattan
      distance between its ends. */
  lemma {:induction false} BuiltWalkAtLeastManhattan(nodes: map<Coord, Tile>, p: seq<Coord>, cs: seq<u32>)
    requires IsWalk(Built(nodes), p, cs)
    ensures Manhattan(p[0], p[|p| - 1]) <= |p| - 1
    decreases |p|
  {
    if |p| > 1 {
      var n := |p| - 1;
      BuiltWalkAvoidsWalls(nodes, p, cs);
      assert IsWalk(Built(nodes), p[..n], cs[..n - 1]);
      BuiltWalkAtLeastManhattan(nodes, p[..n], cs[..n - 1]);
      assert Manhattan(p[n - 1], p[n]) == 1;
    }
  }

  /** One of the four checks of `build_connections`: push an edge of cost
      1 to `d` when `d` is a tile of the graph and its type is floor. */
  method PushIfFloor(nodes: map<Coord, Tile>, list: seq<Edge>, d: Coord) returns (list': seq<Edge>)
    ensures list' == list + Link(nodes, d)
  {
    list' := list;
    if d in nodes {
      if TileTypeEq(nodes[d].tileType, Floor) {
        list' := list' + [(d, 1)];
      }
    }
  }

  /** The edge list the loop body of `build_connections` assembles for
      tile `t`: the floor neighbours, checked north, east, south, west. */
  method FloorEdges(nodes: map<Coord, Tile>, t: Coord) returns (list: seq<Edge>)
    ensures list == Neighbours(nodes, t)
  {
    var n := (t.0, t.1 + 1);
    var e := (t.0 + 1, t.1);
    var s := (t.0, t.1 - 1);
    var w := (t.0 - 1, t.1);
    list := [];
    list := PushIfFloor(nodes, list, n);
    list := PushIfFloor(nodes, list, e);
    list := PushIfFloor(nodes, list, s);
    list := PushIfFloor(nodes, list, w);
  }

  // ----- the search loop ------------------------------------------------------

  /** The predecessor link of `v` follows a listed edge from an already
      removed node whose distance is no larger, and was removed earlier than
      `v` if `v` has been removed too. */
  ghost predicate PrevLink(conn: Connections, g: map<Coord, u32>, prev: map<Coord, Coord>,
                           rank: map<Coord, nat>, v: Coord)
  {
    && v in prev && v in conn && v in g
    && var p := prev[v];
    && p in rank && p in g && p in conn
    && g[p] <= g[v] < U32_MAX
    && (v, g[v] - g[p]) in conn[p]
    && (v in rank ==> rank[p] < rank[v])
  }

  /** What holds at the head of each round of `path_to`'s outer loop.
      `graph` is the shrinking clone, `rank` numbers the removed nodes in
      removal order. */
  ghost predicate SearchState(conn: Connections, start: Coord, graph: Connections, g: map<Coord, u32>,
                              prev: map<Coord, Coord>, rank: map<Coord, nat>, step: nat)
  {
    && graph.Keys <= conn.Keys
    && (forall k :: k in graph ==> graph[k] == conn[k])
    && g.Keys == conn.Keys
    && start in conn && g[start] == 0
    && rank.Keys == conn.Keys - graph.Keys
    && (forall k :: k in rank ==> rank[k] < step)
    && (forall v :: v in prev ==> PrevLink(conn, g, prev, rank, v))
    && start !in prev
    && (forall w :: w in g && g[w] < U32_MAX ==> w == start || w in prev)
    && (forall a, b :: a in rank && b in graph ==> g[a] <= g[b])
    && (forall w :: w in rank ==> Relaxed(conn, g, w))
  }

  /** The selection loop of `path_to`: some node of `graph` with the least
      cost. Ties go to whichever node the map's iteration order offers first;
      any choice satisfies this contract. */
  method PickShortest(graph: Connections, f: map<Coord, u32>) returns (u: Coord)
    requires |graph| > 0 && graph.Keys <= f.Keys
    ensures u in graph && forall v :: v in graph ==> f[u] <= f[v]
  {
    var shortest: Option<Coord> := None;
    var todo := graph.Keys;
    while todo != {}
      invariant todo <= graph.Keys
      invariant shortest.None? ==> todo == graph.Keys
      invariant shortest.Some? ==> shortest.value in graph
      invariant shortest.Some? ==> forall v :: v in graph && v !in todo ==> f[shortest.value] <= f[v]
      decreases todo
    {
      var vert :| vert in todo;
      if shortest.None? {
        shortest := Some(vert);
      } else if f[vert] < f[shortest.value] {
        shortest := Some(vert);
      }
      todo := todo - {vert};
    }
    assert |graph.Keys| == |graph|;
    u := shortest.value;
  }

  /** Numbering one more removed node keeps every predecessor link. */
  lemma PrevLinkExtendRank(conn: Connections, g: map<Coord, u32>, prev: map<Coord, Coord>,
                           rank: map<Coord, nat>, u: Coord, step: nat, v: Coord)
    requires PrevLink(conn, g, prev, rank, v) && u !in rank
    requires forall k :: k in rank ==> rank[k] < step
    ensures PrevLink(conn, g, prev, rank[u := step], v)
  {
  }

  /** Lowering the distance of a node that has not been removed, and making
      it point at `u`, keeps the predecessor links of every other node. */
  lemma PrevLinkAfterUpdate(conn: Connections, g: map<Coord, u32>, prev: map<Coord, Coord>,
                            rank: map<Coord, nat>, u: Coord, nb: Coord, d: u32, v: Coord)
    requires PrevLink(conn, g, prev, rank, v) && v != nb && nb !in rank
    ensures PrevLink(conn, g[nb := d], prev[nb := u], rank, v)
  {
  }

  /** Reaching `nb` from the removed node `u` along one of its edges gives
      `nb` a valid predecessor link. */
  lemma NewPrevLink(conn: Connections, g: map<Coord, u32>, prev: map<Coord, Coord>,
                    rank: map<Coord, nat>, u: Coord, nb: Coord, d: u32, c: u32)
    requires u in rank && u in conn && u in g && nb in conn && nb in g && nb !in rank
    requires d as int == c as int + g[u] as int && d < U32_MAX && (nb, c) in conn[u]
    ensures PrevLink(conn, g[nb := d], prev[nb := u], rank, nb)
  {
    assert nb != u;
    assert d - g[u] == c;
  }

  /** Lowering the distance of a node other than `w` keeps `w` relaxed. */
  lemma RelaxedAfterLowering(conn: Connections, g: map<Coord, u32>, nb: Coord, d: u32, w: Coord)
    requires Relaxed(conn, g, w) && w != nb && nb in g && d <= g[nb]
    ensures Relaxed(conn, g[nb := d], w)
  {
  }

  /** The distance facts that hold after the first `i` edges of the chosen
      node `u` have been relaxed: `g` is the table of the round's start,
      `g'` the current one. */
  ghost predicate RelaxDist(conn: Connections, start: Coord, graph: Connections, u: Coord,
                            g: map<Coord, u32>, rank: map<Coord, nat>, g': map<Coord, u32>, i: nat)
  {
    && graph.Keys <= conn.Keys && rank.Keys == conn.Keys - graph.Keys && g.Keys == conn.Keys
    && u in graph && start in conn && i <= |conn[u]|
    && g'.Keys == conn.Keys && g'[u] == g[u] && g'[start] == 0
    && (forall k :: k in g ==> g'[k] <= g[k])
    && (forall k :: k in g && k !in graph ==> g'[k] == g[k])
    && (forall b :: b in graph ==> g[u] <= g'[b])
    && (forall j :: 0 <= j < i && conn[u][j].0 in graph ==>
          g'[conn[u][j].0] as int <= g[u] as int + conn[u][j].1 as int)
    && (forall w :: w in rank ==> Relaxed(conn, g', w))
  }

  /** The predecessor facts that hold during the relaxation of `u`, which
      counts as removed with number `step`. */
  ghost predicate RelaxLinks(conn: Connections, start: Coord, u: Coord, rank: map<Coord, nat>, step: nat,
                             g': map<Coord, u32>, prev': map<Coord, Coord>)
  {
    && start !in prev'
    && (forall v :: v in prev' ==> PrevLink(conn, g', prev', rank[u := step], v))
    && (forall w :: w in g' && g'[w] < U32_MAX ==> w == start || w in prev')
  }

  /** Before any edge is relaxed. */
  lemma RelaxBegin(conn: Connections, start: Coord, graph: Connections, u: Coord,
                   g: map<Coord, u32>, prev: map<Coord, Coord>, rank: map<Coord, nat>, step: nat)
    requires SearchState(conn, start, graph, g, prev, rank, step)
    requires u in graph && forall v :: v in graph ==> g[u] <= g[v]
    ensures RelaxDist(conn, start, graph, u, g, rank, g, 0)
    ensures RelaxLinks(conn, start, u, rank, step, g, prev)
  {
    forall v | v in prev
      ensures PrevLink(conn, g, prev, rank[u := step], v)
    {
      PrevLinkExtendRank(conn, g, prev, rank, u, step, v);
    }
  }

  /** An edge that does not improve a distance changes nothing. */
  lemma RelaxSkip(conn: Connections, start: Coord, graph: Connections, u: Coord,
                  g: map<Coord, u32>, rank: map<Coord, nat>, g': map<Coord, u32>, i: nat)
    requires RelaxDist(conn, start, graph, u, g, rank, g', i)
    requires i < |conn[u]|
    requires conn[u][i].0 in graph ==> g'[conn[u][i].0] as int <= conn[u][i].1 as int + g'[u] as int
    ensures RelaxDist(conn, start, graph, u, g, rank, g', i + 1)
  {
  }

  /** An edge that improves the distance of `nb`: the distance facts
      survive lowering it. */
  lemma DistImprove(conn: Connections, start: Coord, graph: Connections, u: Coord,
                    g: map<Coord, u32>, rank: map<Coord, nat>, g': map<Coord, u32>, i: nat, nb: Coord, d: u32)
    requires RelaxDist(conn, start, graph, u, g, rank, g', i)
    requires i < |conn[u]| && nb == conn[u][i].0 && nb in graph
    requires d as int == conn[u][i].1 as int + g'[u] as int && d < g'[nb]
    ensures RelaxDist(conn, start, graph, u, g, rank, g'[nb := d], i + 1)
  {
    var g2 := g'[nb := d];
    assert nb != u && nb != start && nb !in rank;
    forall w | w in rank
      ensures Relaxed(conn, g2, w)
    {
      RelaxedAfterLowering(conn, g', nb, d, w);
    }
    forall j | 0 <= j < i + 1 && conn[u][j].0 in graph
      ensures g2[conn[u][j].0] as int <= g[u] as int + conn[u][j].1 as int
    {
    }
  }

  /** An edge that improves the distance of `nb`: the predecessor facts
      survive lowering it and making `u` its predecessor. */
  lemma LinksImprove(conn: Connections, start: Coord, graph: Connections, u: Coord,
                     g: map<Coord, u32>, rank: map<Coord, nat>, step: nat,
                     g': map<Coord, u32>, prev': map<Coord, Coord>, i: nat, nb: Coord, d: u32)
    requires RelaxLinks(conn, start, u, rank, step, g', prev')
    requires graph.Keys <= conn.Keys && rank.Keys == conn.Keys - graph.Keys
    requires u in graph && start in conn && g'.Keys == conn.Keys && g'[start] == 0
    requires i < |conn[u]| && nb == conn[u][i].0 && nb in graph
    requires d as int == conn[u][i].1 as int + g'[u] as int && d < g'[nb]
    ensures RelaxLinks(conn, start, u, rank, step, g'[nb := d], prev'[nb := u])
  {
    var rank' := rank[u := step];
    var g2, p2 := g'[nb := d], prev'[nb := u];
    assert nb != u && nb != start && nb !in rank';
    forall v | v in p2
      ensures PrevLink(conn, g2, p2, rank', v)
    {
      if v == nb {
        NewPrevLink(conn, g', prev', rank', u, nb, d, conn[u][i].1);
      } else {
        PrevLinkAfterUpdate(conn, g', prev', rank', u, nb, d, v);
      }
    }
  }

  /** Once every edge of `u` has been relaxed, removing `u` restores the
      search state. */
  lemma RelaxDone(conn: Connections, start: Coord, graph: Connections, u: Coord,
                  g: map<Coord, u32>, prev: map<Coord, Coord>, rank: map<Coord, nat>, step: nat,
                  g': map<Coord, u32>, prev': map<Coord, Coord>)
    requires SearchState(conn, start, graph, g, prev, rank, step)
    requires u in graph && forall v :: v in graph ==> g[u] <= g[v]
    requires RelaxDist(conn, start, graph, u, g, rank, g', |conn[u]|)
    requires RelaxLinks(conn, start, u, rank, step, g', prev')
    ensures SearchState(conn, start, graph - {u}, g', prev', rank[u := step], step + 1)
  {
    assert Relaxed(conn, g', u) by {
      forall j | 0 <= j < |conn[u]| && conn[u][j].0 in conn && conn[u][j].0 in g'
        ensures g'[conn[u][j].0] as int <= g'[u] as int + conn[u][j].1 as int
      {
        var v := conn[u][j].0;
        if v !in graph {
          assert v in rank;
        }
      }
    }
  }

  /** The relaxation loop of `path_to` for the chosen node `u`, followed by
      its removal. On success the search state holds again with `u` removed;
      on failure some edge of `u` overflowed `u32`. */
  method Relax(ghost conn: Connections, ghost start: Coord, graph: Connections, u: Coord,
               g: map<Coord, u32>, f: map<Coord, u32>, prev: map<Coord, Coord>,
               ghost rank: map<Coord, nat>, ghost step: nat)
    returns (ok: bool, g': map<Coord, u32>, f': map<Coord, u32>, prev': map<Coord, Coord>)
    requires SearchState(conn, start, graph, g, prev, rank, step) && f == g
    requires u in graph && forall v :: v in graph ==> g[u] <= g[v]
    ensures ok ==> f' == g' && SearchState(conn, start, graph - {u}, g', prev', rank[u := step], step + 1)
    ensures !ok ==> exists i :: 0 <= i < |conn[u]| && conn[u][i].0 in conn && conn[u][i].1 as int + g[u] as int > U32_MAX
  {
    RelaxBegin(conn, start, graph, u, g, prev, rank, step);
    g', f', prev' := g, f, prev;
    var edges := graph[u];
    var i := 0;
    while i < |edges|
      invariant edges == conn[u] && f' == g'
      invariant RelaxDist(conn, start, graph, u, g, rank, g', i)
      invariant RelaxLinks(conn, start, u, rank, step, g', prev')
    {
      var (neighbour, cost) := edges[i];
      if neighbour in graph {
        if cost as int + g'[u] as int > U32_MAX {
          return false, g', f', prev';
        }
        if cost + g'[u] < f'[neighbour] {
          var d := cost + g'[u];
          DistImprove(conn, start, graph, u, g, rank, g', i, neighbour, d);
          LinksImprove(conn, start, graph, u, g, rank, step, g', prev', i, neighbour, d);
          g' := g'[neighbour := d];
          f' := f'[neighbour := d];
          prev' := prev'[neighbour := u];
        } else {
          RelaxSkip(conn, start, graph, u, g, rank, g', i);
        }
      } else {
        RelaxSkip(conn, start, graph, u, g, rank, g', i);
      }
      i := i + 1;
    }
    RelaxDone(conn, start, graph, u, g, prev, rank, step, g', prev');
    ok := true;
  }

  /** What the search loop leaves behind once every node is removed:
      distances that no edge can improve, and predecessor links along listed
      edges back to the start. */
  ghost predicate Finished(conn: Connections, start: Coord, g: map<Coord, u32>,
                           prev: map<Coord, Coord>, rank: map<Coord, nat>)
  {
    && g.Keys == conn.Keys && rank.Keys == conn.Keys
    && start in conn && g[start] == 0 && start !in prev
    && (forall v :: v in prev ==> PrevLink(conn, g, prev, rank, v))
    && (forall w :: w in g && g[w] < U32_MAX ==> w == start || w in prev)
    && (forall w :: w in conn ==> Relaxed(conn, g, w))
  }

  /** Some edge, from `u` to another key, cannot be taken by any walk from
      `start`, because reaching `u` and then taking it costs more than `u32`
      can hold. */
  ghost predicate EdgeBeyondU32(conn: Connections, start: Coord)
  {
    exists u, i ::
      && u in conn && 0 <= i < |conn[u]| && conn[u][i].0 in conn
      && forall p, cs :: IsWalkBetween(conn, p, cs, start, u) ==> Sum(cs) + conn[u][i].1 as int > U32_MAX
  }

  /** The initial tables: every key at "infinity" (`u32::MAX`), the start at 0. */
  lemma SearchBegins(conn: Connections, start: Coord, g: map<Coord, u32>)
    requires start in conn && g == (map k | k in conn :: U32_MAX)[start := 0]
    ensures SearchState(conn, start, conn, g, map[], map[], 0)
  {
  }

  /** The outer loop has run out of nodes. */
  lemma SearchEnds(conn: Connections, start: Coord, graph: Connections, g: map<Coord, u32>,
                   prev: map<Coord, Coord>, rank: map<Coord, nat>, step: nat)
    requires SearchState(conn, start, graph, g, prev, rank, step) && |graph| == 0
    ensures Finished(conn, start, g, prev, rank)
  {
    assert |graph.Keys| == |graph|;
  }

  /** An overflow while relaxing the cheapest open node is an edge beyond
      `u32`: no walk reaches that node more cheaply than its distance. */
  lemma OverflowIsBeyondU32(conn: Connections, start: Coord, graph: Connections, g: map<Coord, u32>,
                            prev: map<Coord, Coord>, rank: map<Coord, nat>, step: nat, u: Coord, i: int)
    requires SearchState(conn, start, graph, g, prev, rank, step)
    requires u in graph && forall v :: v in graph ==> g[u] <= g[v]
    requires 0 <= i < |conn[u]| && conn[u][i].0 in conn && conn[u][i].1 as int + g[u] as int > U32_MAX
    ensures EdgeBeyondU32(conn, start)
  {
    forall p, cs | IsWalkBetween(conn, p, cs, start, u)
      ensures Sum(cs) + conn[u][i].1 as int > U32_MAX
    {
      LeastOpenIsLowerBound(conn, g, graph.Keys, u, p, cs);
    }
  }

  /** Lines 216-270 of `path_to`: the distance tables start at "infinity"
      except for the start, and the cheapest node of the shrinking clone is
      relaxed and removed until none is left. */
  method Search(conn: Connections, start: Coord)
    returns (ok: bool, g: map<Coord, u32>, prevVert: map<Coord, Coord>, ghost rank: map<Coord, nat>)
    requires start in conn
    ensures ok ==> Finished(conn, start, g, prevVert, rank)
    ensures !ok ==> EdgeBeyondU32(conn, start)
  {
    var graph := conn;
    g := map k | k in graph :: U32_MAX;
    var f: map<Coord, u32> := map k | k in graph :: U32_MAX;
    g := g[start := 0];
    f := f[start := 0];
    prevVert := map[];
    rank := map[];
    ghost var step: nat := 0;
    SearchBegins(conn, start, g);
    while |graph| > 0
      invariant SearchState(conn, start, graph, g, prevVert, rank, step) && f == g
      decreases graph.Keys
    {
      var u := PickShortest(graph, f);
      var ok', g', f', prev' := Relax(conn, start, graph, u, g, f, prevVert, rank, step);
      if !ok' {
        var i :| 0 <= i < |conn[u]| && conn[u][i].0 in conn && conn[u][i].1 as int + g[u] as int > U32_MAX;
        OverflowIsBeyondU32(conn, start, graph, g, prevVert, rank, step, u, i);
        return false, g, prevVert, rank;
      }
      g, f, prevVert := g', f', prev';
      rank := rank[u := step];
      step := step + 1;
      graph := graph - {u};
    }
    SearchEnds(conn, start, graph, g, prevVert, rank, step);
    ok := true;
  }

  /** Lines 272-279 of `path_to`: follows predecessor links back from the
      goal until the start, or a node without a predecessor, and puts the
      start in front. `tiles` is the route in tile space, `costs` its edge
      costs; the route is a walk from the start whose cost is the goal's
      distance, and it is the start alone exactly when the goal is the start
      or has no predecessor. */
  method WalkBack(prevVert: map<Coord, Coord>, start: Coord, goal: Coord, sf: int,
                  ghost conn: Connections, ghost g: map<Coord, u32>, ghost rank: map<Coord, nat>)
    returns (path: seq<(int, int)>, ghost tiles: seq<Coord>, ghost costs: seq<u32>)
    requires Finished(conn, start, g, prevVert, rank)
    ensures |tiles| >= 1 && path == ToWorld(tiles, sf) && tiles[0] == start
    ensures IsWalk(conn, tiles, costs) && Sum(costs) == g[tiles[|tiles| - 1]] as int
    ensures tiles == [start] <==> goal == start || goal !in prevVert
    ensures tiles != [start] ==> tiles[|tiles| - 1] == goal
  {
    var vertex := goal;
    path := [];
    ghost var chain: seq<Coord> := [];
    while vertex != start && vertex in prevVert
      invariant path == ToWorld(chain, sf)
      invariant chain == [] ==> vertex == goal
      invariant chain != [] ==> chain[|chain| - 1] == goal && chain[0] in prevVert && prevVert[chain[0]] == vertex
      invariant Linked(prevVert, chain)
      decreases if vertex in rank then rank[vertex] + 1 else 0
    {
      assert PrevLink(conn, g, prevVert, rank, vertex);
      LinkedCons(prevVert, vertex, chain);
      path := [(vertex.0 * sf, vertex.1 * sf)] + path;
      chain := [vertex] + chain;
      vertex := prevVert[vertex];
    }
    if chain != [] {
      assert PrevLink(conn, g, prevVert, rank, chain[0]);
    }
    path := [(start.0 * sf, start.1 * sf)] + path;
    LinkedCons(prevVert, start, chain);
    tiles := [start] + chain;
    costs := ChainWalk(conn, g, prevVert, rank, tiles);
  }

  /** Each node of `s` after the first points back at the one before it. */
  ghost predicate Linked(prev: map<Coord, Coord>, s: seq<Coord>)
  {
    forall j :: 0 < j < |s| ==> s[j] in prev && prev[s[j]] == s[j - 1]
  }

  lemma LinkedCons(prev: map<Coord, Coord>, v: Coord, s: seq<Coord>)
    requires Linked(prev, s)
    requires s != [] ==> s[0] in prev && prev[s[0]] == v
    ensures Linked(prev, [v] + s)
  {
    var t := [v] + s;
    forall j | 0 < j < |t|
      ensures t[j] in prev && prev[t[j]] == t[j - 1]
    {
      assert t[j] == s[j - 1];
    }
  }

  /** A chain of predecessor links from the start is a walk whose cost is
      the distance of its last node. */
  lemma ChainWalk(conn: Connections, g: map<Coord, u32>, prev: map<Coord, Coord>,
                  rank: map<Coord, nat>, tiles: seq<Coord>) returns (costs: seq<u32>)
    requires conn.Keys <= g.Keys && |tiles| >= 1 && tiles[0] in conn && g[tiles[0]] == 0
    requires forall v :: v in prev ==> PrevLink(conn, g, prev, rank, v)
    requires Linked(prev, tiles)
    ensures IsWalk(conn, tiles, costs) && Sum(costs) == g[tiles[|tiles| - 1]] as int
  {
    forall j | 0 < j < |tiles|
      ensures tiles[j] in conn && g[tiles[j - 1]] <= g[tiles[j]]
      ensures (tiles[j], g[tiles[j]] - g[tiles[j - 1]]) in conn[tiles[j - 1]]
    {
      assert PrevLink(conn, g, prev, rank, tiles[j]);
    }
    costs := seq(|tiles| - 1, j requires 0 <= j < |tiles| - 1 => g[tiles[j + 1]] - g[tiles[j]]);
    forall j | 0 <= j < |costs|
      ensures (tiles[j + 1], costs[j]) in conn[tiles[j]]
    {
      assert costs[j] == g[tiles[j + 1]] - g[tiles[j]];
    }
    Telescope(g, tiles, costs);
  }

  /** The route `path_to` rebuilds is a cheapest walk: if any walk from the
      start reaches the goal within `u32`, the route ends at the goal and
      costs no more. */
  lemma RouteIsCheapest(conn: Connections, start: Coord, goal: Coord, g: map<Coord, u32>,
                        prev: map<Coord, Coord>, rank: map<Coord, nat>, tiles: seq<Coord>, costs: seq<u32>)
    requires Finished(conn, start, g, prev, rank)
    requires IsWalk(conn, tiles, costs) && tiles[0] == start && Sum(costs) == g[tiles[|tiles| - 1]] as int
    requires tiles == [start] <==> goal == start || goal !in prev
    requires tiles != [start] ==> tiles[|tiles| - 1] == goal
    ensures forall p, cs :: IsWalkBetween(conn, p, cs, start, goal) && Sum(cs) < U32_MAX ==>
      tiles[|tiles| - 1] == goal && Sum(costs) <= Sum(cs)
  {
    forall p, cs | IsWalkBetween(conn, p, cs, start, goal) && Sum(cs) < U32_MAX
      ensures tiles[|tiles| - 1] == goal && Sum(costs) <= Sum(cs)
    {
      TriangleBound(conn, g, p, cs);
    }
  }

  // ----- the graph ------------------------------------------------------------

  class TileGraph {
    var nodes: map<Coord, Tile>
    var connections: Connections
    const tileSize: TileSize

    /** Every tile has an edge list, and every tile has the graph's size. */
    ghost predicate Valid()
      reads this
    {
      && nodes.Keys == connections.Keys
      && forall k :: k in nodes ==> nodes[k].size == tileSize
    }

    /** `TileGraph::create`: an empty graph for one size class. */
    constructor Create(tileSize: TileSize)
      ensures Valid()
      ensures nodes == map[] && connections == map[] && this.tileSize == tileSize
    {
      nodes := map[];
      connections := map[];
      this.tileSize := tileSize;
    }

    /** `append`: stores the tile and its edge list under key `value`,
      replacing any previous entry, unless the tile has another size class,
      in which case nothing changes. */
    method Append(tile: Tile, value: Coord, conns: seq<Edge>)
      requires Valid()
      modifies this
      ensures Valid()
      ensures tile.size == tileSize ==> nodes == old(nodes)[value := tile] && connections == old(connections)[value := conns]
      ensures tile.size != tileSize ==> nodes == old(nodes) && connections == old(connections)
    {
      if !TileSizeEq(tile.size, tileSize) {
      } else {
        nodes := nodes[value := tile];
        connections := connections[value := conns];
      }
    }

    /** `append_from_wolrd_space`: `append` at the truncated tile key of a
      world coordinate. */
    method AppendFromWorldSpace(tile: Tile, value: (int, int), conns: seq<Edge>)
      requires Valid()
      modifies this
      ensures Valid()
      ensures var key := ToTile(value.0, value.1, tileSize.Side());
        tile.size == tileSize ==> nodes == old(nodes)[key := tile] && connections == old(connections)[key := conns]
      ensures tile.size != tileSize ==> nodes == old(nodes) && connections == old(connections)
    {
      var sf := tileSize.Get().0;
      Append(tile, (TruncDiv(value.0, sf), TruncDiv(value.1, sf)), conns);
    }

    /** `get_tile`: the tile stored under the `TileKey` of a world
      coordinate, or the wall `create_none` returns when there is none. */
    function GetTile(x: int, y: int): (t: Tile)
      reads this
      ensures var key := (TileKey(x, tileSize.Side()), TileKey(y, tileSize.Side()));
        && (key in nodes ==> t == nodes[key])
        && (key !in nodes ==> t == CreateNone(tileSize) && t.tileType == Wall)
    {
      var sf := tileSize.Get().0;
      var key := (TileKey(x, sf), TileKey(y, sf));
      if key in nodes then nodes[key] else CreateNone(tileSize)
    }

    /** A point inside the cell of a stored tile finds that tile. */
    lemma GetTileInCell(c: Coord, x: int, y: int)
      requires c in nodes
      requires Covers(c.0, x, tileSize.Side()) && Covers(c.1, y, tileSize.Side())
      ensures GetTile(x, y) == nodes[c]
    {
      TileKeyCovers(x, tileSize.Side(), c.0);
      TileKeyCovers(y, tileSize.Side(), c.1);
    }

    /** `build_connections`: every tile gets the edges to its floor
      neighbours in N, E, S, W order, each of cost 1; the tiles stay as
      they are. */
    method BuildConnections()
      requires Valid()
      modifies this`connections
      ensures Valid()
      ensures connections == Built(nodes)
    {
      var todo := nodes.Keys;
      while todo != {}
        invariant todo <= nodes.Keys
        invariant connections.Keys == nodes.Keys
        invariant forall k :: k in nodes && k !in todo ==> connections[k] == Neighbours(nodes, k)
        decreases todo
      {
        var t :| t in todo;
        var list := FloorEdges(nodes, t);
        connections := connections[t := list];
        todo := todo - {t};
      }
      BuiltPointwise(nodes, connections);
    }

    /** `path_to`: the least-cost route between the tiles of two world
      coordinates, as world coordinates of the tiles it passes. `tiles`
      and `costs` are the route in tile space and its edge costs.
      The route starts at the start tile and follows listed edges. It ends
      at the goal tile and costs no more than any other walk to the goal
      that stays within `u32`; when there is no such walk, or the goal is
      the start, it is the start tile alone. */
    method PathTo(x: int, y: int, tx: int, ty: int)
      returns (r: Result<seq<(int, int)>, PathError>, ghost tiles: seq<Coord>, ghost costs: seq<u32>)
      ensures r == Err(MissingStart) <==> ToTile(x, y, tileSize.Side()) !in connections
      ensures r.Ok? ==> r.value == ToWorld(tiles, tileSize.Side())
      ensures r.Ok? ==> IsWalk(connections, tiles, costs) && tiles[0] == ToTile(x, y, tileSize.Side())
      ensures r.Ok? ==> tiles == [ToTile(x, y, tileSize.Side())] || tiles[|tiles| - 1] == ToTile(tx, ty, tileSize.Side())
      ensures r.Ok? ==> Sum(costs) < U32_MAX
      ensures r.Ok? && ToTile(tx, ty, tileSize.Side()) == ToTile(x, y, tileSize.Side()) ==> tiles == [ToTile(x, y, tileSize.Side())]
      ensures r.Ok? ==> forall p, cs ::
        IsWalkBetween(connections, p, cs, ToTile(x, y, tileSize.Side()), ToTile(tx, ty, tileSize.Side())) && Sum(cs) < U32_MAX ==>
          tiles[|tiles| - 1] == ToTile(tx, ty, tileSize.Side()) && Sum(costs) <= Sum(cs)
      ensures r == Err(Overflow) ==> EdgeBeyondU32(connections, ToTile(x, y, tileSize.Side()))
    {
      var sf := tileSize.Get().0;
      var start := (TruncDiv(x, sf), TruncDiv(y, sf));
      if start !in connections {
        return Err(MissingStart), [], [];
      }
      var ok, g, prevVert, rank := Search(connections, start);
      if !ok {
        return Err(Overflow), [], [];
      }
      var goal := (TruncDiv(tx, sf), TruncDiv(ty, sf));
      var optimalPath;
      optimalPath, tiles, costs := WalkBack(prevVert, start, goal, sf, connections, g, rank);
      RouteIsCheapest(connections, start, goal, g, prevVert, rank, tiles, costs);
      r := Ok(optimalPath);
    }
  }

  /** The costs along a predecessor chain add up to the difference of the
      distances at its ends. */
  lemma {:induction false} Telescope(g: map<Coord, u32>, tiles: seq<Coord>, costs: seq<u32>)
    requires |tiles| >= 1 && |costs| == |tiles| - 1
    requires forall j :: 0 <= j < |tiles| ==> tiles[j] in g
    requires forall j :: 0 <= j < |costs| ==> costs[j] as int == g[tiles[j + 1]] as int - g[tiles[j]] as int
    ensures Sum(costs) == g[tiles[|tiles| - 1]] as int - g[tiles[0]] as int
    decreases |costs|
  {
    if costs != [] {
      Telescope(g, tiles[..|tiles| - 1], costs[..|costs| - 1]);
    }
  }

  /** On a unit-cost map, such as one `build_connections` produced, a
      cheapest route is also one with the fewest tiles. */
  lemma FewestTiles(conn: Connections, tiles: seq<Coord>, costs: seq<u32>, p: seq<Coord>, cs: seq<u32>)
    requires UnitCosts(conn) && IsWalk(conn, tiles, costs) && IsWalk(conn, p, cs)
    requires Sum(costs) <= Sum(cs)
    ensures |tiles| <= |p|
  {
    UnitCostSum(conn, tiles, costs);
    UnitCostSum(conn, p, cs);
  }
}
