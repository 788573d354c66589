/** Walks through a tile graph's connection map, their costs, and the bound
    that a distance table satisfying the triangle inequality puts on them.
    These are the specification vocabulary of the path finder. */
module Walks {
  import opened Primitives

  /** A tile-space coordinate. */
  type Coord = (int, int)

  /** A directed edge: the neighbour and the cost of moving there. */
  type Edge = (Coord, u32)

  /** The connection map of a tile graph. */
  type Connections = map<Coord, seq<Edge>>

  /** `p` visits keys of `conn` only, and each step from `p[i]` to `p[i + 1]`
      is an edge listed for `p[i]` with cost `cs[i]`. */
  ghost predicate IsWalk(conn: Connections, p: seq<Coord>, cs: seq<u32>)
  {
    && |p| >= 1 && |cs| == |p| - 1
    && (forall i :: 0 <= i < |p| ==> p[i] in conn)
    && (forall i :: 0 <= i < |cs| ==> (p[i + 1], cs[i]) in conn[p[i]])
  }

  /** A walk from `a` to `b`. */
  ghost predicate IsWalkBetween(conn: Connections, p: seq<Coord>, cs: seq<u32>, a: Coord, b: Coord)
  {
    IsWalk(conn, p, cs) && p[0] == a && p[|p| - 1] == b
  }

  /** Prefixing a walk with an edge into its first tile gives a walk. */
  lemma WalkCons(conn: Connections, a: Coord, c: u32, p: seq<Coord>, cs: seq<u32>)
    requires IsWalk(conn, p, cs) && a in conn && (p[0], c) in conn[a]
    ensures IsWalk(conn, [a] + p, [c] + cs)
    ensures ([a] + p)[0] == a && ([a] + p)[|p|] == p[|p| - 1]
  {
    var p', cs' := [a] + p, [c] + cs;
    forall i | 1 <= i < |cs'|
      ensures (p'[i + 1], cs'[i]) in conn[p'[i]]
    {
      assert p'[i] == p[i - 1] && p'[i + 1] == p[i] && cs'[i] == cs[i - 1];
    }
  }

  /** The total cost of a walk. */
  function Sum(cs: seq<u32>): (total: int)
    ensures total >= 0
  {
    if cs == [] then 0 else Sum(cs[..|cs| - 1]) + cs[|cs| - 1]
  }

  /** Every edge in the map costs 1, as `build_connections` makes them. */
  ghost predicate UnitCosts(conn: Connections)
  {
    forall k, i :: k in conn && 0 <= i < |conn[k]| ==> conn[k][i].1 == 1
  }

  /** In a unit-cost map a walk costs its number of steps. */
  lemma {:induction false} UnitCostSum(conn: Connections, p: seq<Coord>, cs: seq<u32>)
    requires UnitCosts(conn) && IsWalk(conn, p, cs)
    ensures Sum(cs) == |p| - 1
    decreases |cs|
  {
    if cs != [] {
      var n := |cs| - 1;
      var i :| 0 <= i < |conn[p[n]]| && conn[p[n]][i] == (p[n + 1], cs[n]);
      assert cs[n] == 1;
      UnitCostSum(conn, p[..|p| - 1], cs[..n]);
    }
  }

  /** The distance table `g` has already relaxed every edge leaving `w`:
      no neighbour of `w` is further than `w` plus the edge's cost. */
  ghost predicate Relaxed(conn: Connections, g: map<Coord, u32>, w: Coord)
  {
    && w in conn && w in g
    && forall i :: 0 <= i < |conn[w]| && conn[w][i].0 in conn && conn[w][i].0 in g ==>
         g[conn[w][i].0] as int <= g[w] as int + conn[w][i].1 as int
  }

  /** If the source of a walk has distance 0 and the first k nodes of the
      walk are relaxed, the k-th node is no further than the cost of the
      first k steps. */
  lemma {:induction false} PrefixBound(conn: Connections, g: map<Coord, u32>, p: seq<Coord>, cs: seq<u32>, k: nat)
    requires IsWalk(conn, p, cs) && conn.Keys <= g.Keys && g[p[0]] == 0
    requires k < |p|
    requires forall j :: 0 <= j < k ==> Relaxed(conn, g, p[j])
    ensures g[p[k]] <= Sum(cs[..k])
  {
    if k > 0 {
      PrefixBound(conn, g, p, cs, k - 1);
      var w := p[k - 1];
      var i :| 0 <= i < |conn[w]| && conn[w][i] == (p[k], cs[k - 1]);
      assert Relaxed(conn, g, w);
      assert cs[..k][..k - 1] == cs[..k - 1];
    }
  }

  /** A prefix of a walk costs no more than the whole walk. */
  lemma {:induction false} SumPrefix(cs: seq<u32>, k: nat)
    requires k <= |cs|
    ensures Sum(cs[..k]) <= Sum(cs)
    decreases |cs|
  {
    if k < |cs| {
      assert cs[..|cs| - 1][..k] == cs[..k];
      SumPrefix(cs[..|cs| - 1], k);
    } else {
      assert cs[..k] == cs;
    }
  }

  /** When every node is relaxed and the source has distance 0, the table is
      a lower bound on the cost of every walk from the source. */
  lemma TriangleBound(conn: Connections, g: map<Coord, u32>, p: seq<Coord>, cs: seq<u32>)
    requires IsWalk(conn, p, cs) && conn.Keys <= g.Keys && g[p[0]] == 0
    requires forall w :: w in conn ==> Relaxed(conn, g, w)
    ensures g[p[|p| - 1]] <= Sum(cs)
  {
    PrefixBound(conn, g, p, cs, |p| - 1);
    assert cs[..|p| - 1] == cs;
  }

  /** The Dijkstra step: if every node outside `open` is relaxed, the source
      has distance 0, and `u` has the least distance among the nodes in
      `open`, then no walk from the source reaches `u` more cheaply. */
  lemma {:induction false} LeastOpenIsLowerBound(conn: Connections, g: map<Coord, u32>, open: set<Coord>,
                                                 u: Coord, p: seq<Coord>, cs: seq<u32>)
    requires IsWalk(conn, p, cs) && conn.Keys <= g.Keys && g[p[0]] == 0
    requires open <= conn.Keys && u in open && p[|p| - 1] == u
    requires forall v :: v in open ==> g[u] <= g[v]
    requires forall w :: w in conn && w !in open ==> Relaxed(conn, g, w)
    ensures g[u] <= Sum(cs)
  {
    var k := FirstIn(p, open);
    PrefixBound(conn, g, p, cs, k);
    SumPrefix(cs, k);
  }

  /** The first position of `p` whose node is in `open`. */
  lemma FirstIn(p: seq<Coord>, open: set<Coord>) returns (k: nat)
    requires |p| >= 1 && p[|p| - 1] in open
    ensures k < |p| && p[k] in open
    ensures forall j :: 0 <= j < k ==> p[j] !in open
  {
    k := 0;
    while p[k] !in open
      invariant k < |p|
      invariant forall j :: 0 <= j < k ==> p[j] !in open
      decreases |p| - k
    {
      k := k + 1;
    }
  }

  /** The world-space coordinates of a sequence of tiles. */
  function ToWorld(tiles: seq<Coord>, sf: int): (world: seq<(int, int)>)
    ensures |world| == |tiles|
    ensures forall i :: 0 <= i < |tiles| ==> world[i] == (tiles[i].0 * sf, tiles[i].1 * sf)
  {
    if tiles == [] then [] else [(tiles[0].0 * sf, tiles[0].1 * sf)] + ToWorld(tiles[1..], sf)
  }
}
