/** The crystal-lattice picture of the annealing explanation: grid nodes,
    undirected edges stored once as an ordered pair, and per-node shifts that
    move a node away from its grid position. */
module Crystals {
  /** A grid node (x, y). */
  type Node = (int, int)

  /** `_Crystal` without its plotting styles. Nodes are distinct, edges are
      ordered pairs of nodes, shifts are the accumulated displacement of a node. */
  datatype Crystal = Crystal(nodes: set<Node>, edges: set<(Node, Node)>, shifts: map<Node, (real, real)>)

  function Empty(): Crystal { Crystal({}, {}, map[]) }

  /** Python's tuple comparison `a < b`: lexicographic. */
  predicate NodeLess(a: Node, b: Node)
  {
    a.0 < b.0 || (a.0 == b.0 && a.1 < b.1)
  }

  /** The stored form of the edge between a and b: the smaller node first. */
  function Canonical(a: Node, b: Node): (r: (Node, Node))
    ensures r == (a, b) || r == (b, a)
    ensures a != b ==> NodeLess(r.0, r.1)
  {
    if NodeLess(a, b) then (a, b) else (b, a)
  }

  /** The stored form does not depend on the order of the endpoints. */
  lemma CanonicalSymmetric(a: Node, b: Node)
    ensures Canonical(a, b) == Canonical(b, a)
  {
  }

  /** `add_node`. */
  function AddNode(c: Crystal, n: Node): (r: Crystal)
    ensures r.nodes == c.nodes + {n} && r.edges == c.edges && r.shifts == c.shifts
  {
    c.(nodes := c.nodes + {n})
  }

  /** `add_edge(a, b)`: both endpoints must be nodes (`_check_node`). */
  function AddEdge(c: Crystal, a: Node, b: Node): (r: Crystal)
    requires a in c.nodes && b in c.nodes
    ensures r.nodes == c.nodes && r.shifts == c.shifts
    ensures r.edges == c.edges + {Canonical(a, b)}
  {
    c.(edges := c.edges + {if NodeLess(a, b) then (a, b) else (b, a)})
  }

  /** Adding an edge either way round gives the same crystal, and adding it
      twice is the same as adding it once. */
  lemma AddEdgeSymmetricIdempotent(c: Crystal, a: Node, b: Node)
    requires a in c.nodes && b in c.nodes
    ensures AddEdge(c, a, b) == AddEdge(c, b, a)
    ensures AddEdge(AddEdge(c, a, b), a, b) == AddEdge(c, a, b)
  {
    CanonicalSymmetric(a, b);
  }

  /** `remove_edge(a, b)`: both endpoints must be nodes and the edge must be
      present (`set.remove` raises otherwise), in either order. */
  function RemoveEdge(c: Crystal, a: Node, b: Node): (r: Crystal)
    requires a in c.nodes && b in c.nodes && Canonical(a, b) in c.edges
    ensures r.nodes == c.nodes && r.shifts == c.shifts
    ensures r.edges == c.edges - {Canonical(a, b)}
  {
    c.(edges := c.edges - {if NodeLess(a, b) then (a, b) else (b, a)})
  }

  /** Removing undoes adding a new edge, and adding undoes removing one,
      whichever order the endpoints are given in. */
  lemma RemoveUndoesAdd(c: Crystal, a: Node, b: Node)
    requires a in c.nodes && b in c.nodes
    ensures Canonical(a, b) !in c.edges ==> RemoveEdge(AddEdge(c, a, b), b, a) == c
    ensures Canonical(a, b) in c.edges ==> AddEdge(RemoveEdge(c, a, b), b, a) == c
  {
    CanonicalSymmetric(a, b);
  }

  /** `shifts.get(node, (0, 0))`: the shift accumulated so far, zero for a
      node that was never shifted. */
  function ShiftOf(c: Crystal, n: Node): (r: (real, real))
    ensures n !in c.shifts ==> r == (0.0, 0.0)
    ensures n in c.shifts ==> r == c.shifts[n]
  {
    if n in c.shifts then c.shifts[n] else (0.0, 0.0)
  }

  /** `add_shift(node, shift)`: the node must exist; the shift adds to its accumulated one. */
  function AddShift(c: Crystal, n: Node, s: (real, real)): (r: Crystal)
    requires n in c.nodes
    ensures r.nodes == c.nodes && r.edges == c.edges
    ensures ShiftOf(r, n) == (ShiftOf(c, n).0 + s.0, ShiftOf(c, n).1 + s.1)
    ensures forall k :: k != n ==> ShiftOf(r, k) == ShiftOf(c, k)
  {
    var cur := ShiftOf(c, n);
    c.(shifts := c.shifts[n := (cur.0 + s.0, cur.1 + s.1)])
  }

  /** Shifts accumulate independently of their order. */
  lemma ShiftsCommute(c: Crystal, n: Node, k: Node, s: (real, real), t: (real, real))
    requires n in c.nodes && k in c.nodes
    ensures AddShift(AddShift(c, n, s), k, t) == AddShift(AddShift(c, k, t), n, s)
  {
    var l := AddShift(AddShift(c, n, s), k, t);
    var r := AddShift(AddShift(c, k, t), n, s);
    assert l.shifts.Keys == r.shifts.Keys == c.shifts.Keys + {n, k};
    forall j | j in l.shifts.Keys
      ensures l.shifts[j] == r.shifts[j]
    {
      assert l.shifts[j] == ShiftOf(l, j) && r.shifts[j] == ShiftOf(r, j);
    }
  }

  /** `try_add_shift(node, shift)`: `add_shift` for a node of the crystal, nothing otherwise. */
  function TryAddShift(c: Crystal, n: Node, s: (real, real)): (r: Crystal)
    ensures n !in c.nodes ==> r == c
    ensures n in c.nodes ==> r == AddShift(c, n, s)
  {
    if n in c.nodes then AddShift(c, n, s) else c
  }

  /** `_get_node_pos`: the grid position moved by the accumulated shift. A
      node never shifted is drawn at its grid position. */
  function NodePos(c: Crystal, n: Node): (r: (real, real))
    ensures (r.0 - n.0 as real, r.1 - n.1 as real) == ShiftOf(c, n)
    ensures n !in c.shifts ==> r == (n.0 as real, n.1 as real)
  {
    (n.0 as real + ShiftOf(c, n).0, n.1 as real + ShiftOf(c, n).1)
  }

  /** A shift moves its node's drawn position by exactly the shift and no other node. */
  lemma AddShiftMovesNode(c: Crystal, n: Node, s: (real, real))
    requires n in c.nodes
    ensures NodePos(AddShift(c, n, s), n) == (NodePos(c, n).0 + s.0, NodePos(c, n).1 + s.1)
    ensures forall k :: k != n ==> NodePos(AddShift(c, n, s), k) == NodePos(c, k)
  {
  }

  predicate InGrid(p: Node, sx: int, sy: int)
  {
    0 <= p.0 < sx && 0 <= p.1 < sy
  }

  /** Grid neighbours: nodes at Manhattan distance 1. */
  predicate Adjacent(a: Node, b: Node)
  {
    (a.0 == b.0 && (a.1 - b.1 == 1 || b.1 - a.1 == 1)) || (a.1 == b.1 && (a.0 - b.0 == 1 || b.0 - a.0 == 1))
  }

  /** The four axis neighbours, left, right, down, up. */
  function Candidates(x: int, y: int): seq<Node>
  {
    [(x - 1, y), (x + 1, y), (x, y - 1), (x, y + 1)]
  }

  /** The candidates inside the grid, in their order. */
  function KeepInGrid(ps: seq<Node>, sx: int, sy: int): (r: seq<Node>)
    ensures |r| <= |ps|
    ensures forall p :: p in r <==> p in ps && InGrid(p, sx, sy)
    decreases |ps|
  {
    if |ps| == 0 then []
    else if InGrid(ps[0], sx, sy) then [ps[0]] + KeepInGrid(ps[1..], sx, sy)
    else KeepInGrid(ps[1..], sx, sy)
  }

  /** `_get_all_neighbours(x, y, size_x, size_y)`. */
  function AllNeighbours(x: int, y: int, sx: int, sy: int): (r: seq<Node>)
    ensures |r| <= 4
    ensures forall p :: p in r <==> InGrid(p, sx, sy) && Adjacent(p, (x, y))
  {
    KeepInGrid(Candidates(x, y), sx, sy)
  }

  /** `itertools.product(range(sx), range(sy))`: x outermost. */
  function GridNodes(sx: nat, sy: nat): (r: seq<Node>)
    ensures forall p :: p in r <==> InGrid(p, sx, sy)
  {
    if sx == 0 then []
    else
      var row := seq(sy, j => (sx - 1, j));
      assert forall p: Node :: p in row <==> p.0 == sx - 1 && 0 <= p.1 < sy by {
        forall p: Node | p.0 == sx - 1 && 0 <= p.1 < sy
          ensures p in row
        {
          assert row[p.1] == p;
        }
      }
      GridNodes(sx - 1, sy) + row
  }

  /** `_get_regular_crystal` for an sx by sy grid (the pictures use 23 by 12):
      every grid node, and an edge between every two adjacent ones. */
  method RegularCrystal(sx: nat, sy: nat) returns (c: Crystal)
    ensures c.nodes == set p | p in GridNodes(sx, sy)
    ensures forall e :: e in c.edges ==> GridEdge(e, sx, sy)
    ensures forall a, b :: InGrid(a, sx, sy) && InGrid(b, sx, sy) && Adjacent(a, b) ==> Canonical(a, b) in c.edges
    ensures c.shifts == map[]
  {
    var all := GridNodes(sx, sy);
    c := AddNodes(Empty(), all);
    for k := 0 to |all|
      invariant c.nodes == set p | p in all
      invariant c.shifts == map[]
      invariant forall e :: e in c.edges ==> GridEdge(e, sx, sy)
      invariant forall j, b :: 0 <= j < k && b in AllNeighbours(all[j].0, all[j].1, sx, sy) ==> Canonical(b, all[j]) in c.edges
    {
      c := AddNeighbourEdges(c, all[k], sx, sy);
    }
    forall a, b | InGrid(a, sx, sy) && InGrid(b, sx, sy) && Adjacent(a, b)
      ensures Canonical(a, b) in c.edges
    {
      var j :| 0 <= j < |all| && all[j] == b;
      assert a in AllNeighbours(b.0, b.1, sx, sy);
    }
  }

  /** An edge of the regular crystal: two adjacent grid nodes, smaller first. */
  predicate GridEdge(e: (Node, Node), sx: int, sy: int)
  {
    InGrid(e.0, sx, sy) && InGrid(e.1, sx, sy) && Adjacent(e.0, e.1) && NodeLess(e.0, e.1)
  }

  /** `add_node` for each node of the list, in order. */
  method AddNodes(c: Crystal, ns: seq<Node>) returns (r: Crystal)
    ensures r.nodes == c.nodes + set p | p in ns
    ensures r.edges == c.edges && r.shifts == c.shifts
  {
    r := c;
    for k := 0 to |ns|
      invariant r.nodes == c.nodes + set p | p in ns[..k]
      invariant r.edges == c.edges && r.shifts == c.shifts
    {
      assert ns[..k + 1] == ns[..k] + [ns[k]];
      r := AddNode(r, ns[k]);
    }
    assert ns[..|ns|] == ns;
  }

  /** The inner loop: `add_edge(neighbour, node)` for every grid neighbour of
      the node, which must be a node of the crystal, as must its neighbours. */
  method AddNeighbourEdges(c: Crystal, cur: Node, sx: nat, sy: nat) returns (r: Crystal)
    requires InGrid(cur, sx, sy) && forall p :: InGrid(p, sx, sy) ==> p in c.nodes
    ensures r.nodes == c.nodes && r.shifts == c.shifts
    ensures r.edges == c.edges + set b | b in AllNeighbours(cur.0, cur.1, sx, sy) :: Canonical(b, cur)
  {
    var nbs := AllNeighbours(cur.0, cur.1, sx, sy);
    r := c;
    for i := 0 to |nbs|
      invariant r.nodes == c.nodes && r.shifts == c.shifts
      invariant r.edges == c.edges + set b | b in nbs[..i] :: Canonical(b, cur)
    {
      assert nbs[..i + 1] == nbs[..i] + [nbs[i]];
      r := AddEdge(r, nbs[i], cur);
    }
    assert nbs[..|nbs|] == nbs;
  }
}
