// A community ("collection") of graph nodes with its cached boundary and
// objective state, the canonical undirected edge, and the two per-community
// formulas: density and the modularity contribution. Floating-point values of
// the source are exact reals here.

module Collections {
  import opened Graphs

  /** An undirected edge, stored with its smaller end first. */
  datatype Edge = Edge(to: nat, from: nat)

  /** getEdge: the canonical edge between two distinct nodes. On a loop the
      source calls check with a nil error, which does nothing, so the zero
      Edge{0, 0} comes back instead of an abort. */
  function GetEdge(a: nat, b: nat): (e: Edge)
    ensures a != b ==> e.to < e.from && {e.to, e.from} == {a, b}
    ensures a == b ==> e == Edge(0, 0)
  {
    if a > b then Edge(b, a) else if a < b then Edge(a, b) else Edge(0, 0)
  }

  /** Both orientations give the same edge, a loop included. */
  lemma GetEdgeSymmetric(a: nat, b: nat)
    ensures GetEdge(a, b) == GetEdge(b, a)
  {
  }

  /** Two proper edges are equal exactly when they join the same two nodes. */
  lemma GetEdgeSameEnds(u: nat, v: nat, x: nat, y: nat)
    requires u != v && x != y
    ensures GetEdge(u, v) == GetEdge(x, y) <==> {u, v} == {x, y}
  {
    if {u, v} == {x, y} {
      assert u == x || u == y;
    }
  }

  /** The number of distinct edges between n nodes, n(n-1)/2. */
  function PossibleEdges(n: nat): real
  {
    0.5 * n as real * (n as real - 1.0)
  }

  /** calcDensity: the fraction of the possible internal edges that are
      present; a single node counts as fully dense. */
  function CalcDensity(numNodes: nat, numIntEdges: nat): (d: real)
    requires numNodes >= 1
    ensures numNodes == 1 ==> d == 1.0
    ensures numNodes > 1 ==> d * PossibleEdges(numNodes) == numIntEdges as real
    ensures d >= 0.0
  {
    if numNodes == 1 then 1.0
    else
      assert PossibleEdges(numNodes) > 0.0 by { PossibleEdgesPositive(numNodes); }
      numIntEdges as real / PossibleEdges(numNodes)
  }

  lemma PossibleEdgesPositive(n: nat)
    requires n > 1
    ensures PossibleEdges(n) > 0.0
  {
    var r := n as real;
    assert r - 1.0 > 0.0;
    assert r * (r - 1.0) > 0.0;
  }

  /** A complete community has density 1 and one without internal edges has
      density 0 (for more than one node; a singleton has density 1). */
  lemma DensityBounds(n: nat, k: nat)
    requires n > 1
    ensures k as real == PossibleEdges(n) ==> CalcDensity(n, k) == 1.0
    ensures k == 0 ==> CalcDensity(n, k) == 0.0
    ensures k as real <= PossibleEdges(n) ==> CalcDensity(n, k) <= 1.0
  {
    PossibleEdgesPositive(n);
    var d := CalcDensity(n, k);
    var p := PossibleEdges(n);
    assert d * p == k as real;
  }

  function Square(x: real): real { x * x }

  /** calcMod: the community's term of the modularity decomposition, with
      i internal edges, i + t the community's degree sum and M the graph's
      edge count (math.Pow(x, 2) is x * x). */
  function CalcMod(intEdges: nat, totEdges: nat, graphTotalEdges: nat): (m: real)
    requires graphTotalEdges > 0
    ensures m == intEdges as real / graphTotalEdges as real
                 - Square((intEdges + totEdges) as real / (2 * graphTotalEdges) as real)
    ensures m <= intEdges as real / graphTotalEdges as real
  {
    var modularity := intEdges as real / graphTotalEdges as real;
    var ratio := (intEdges + totEdges) as real / graphTotalEdges as real;
    assert Square(ratio / 2.0) == 0.25 * Square(ratio);
    modularity - 0.25 * Square(ratio)
  }

  /** The cached state of one community, as a value. */
  datatype CollectionView = CollectionView(
    nodes: seq<nat>,
    intEdges: nat,
    outNodes: set<nat>,
    outEdges: set<Edge>,
    totEdges: nat,
    density: real,
    modularity: real)

  /** The bookkeeping every community keeps: it is not empty, totEdges
      counts outEdges, and the cached density and modularity are those of
      the current counts. */
  predicate Consistent(c: CollectionView, graphTotalEdges: nat)
  {
    && |c.nodes| >= 1
    && graphTotalEdges > 0
    && c.totEdges == |c.outEdges|
    && c.density == CalcDensity(|c.nodes|, c.intEdges)
    && c.modularity == CalcMod(c.intEdges, c.totEdges, graphTotalEdges)
  }

  /** The edges from id to each of its neighbours. */
  function IncidentOf(id: nat, adj: Adjacency): set<Edge>
  {
    set to | to in Nbrs(adj, id) :: GetEdge(to, id)
  }

  /** What initialize(id) builds. */
  function Singleton(id: nat, adj: Adjacency, graphTotalEdges: nat): (c: CollectionView)
    requires graphTotalEdges > 0
  {
    var outEdges := IncidentOf(id, adj);
    CollectionView([id], 0, Nbrs(adj, id), outEdges, |outEdges|,
                   CalcDensity(1, 0), CalcMod(0, |outEdges|, graphTotalEdges))
  }

  /** Distinct neighbours give distinct edges, so a fresh singleton's edge
      count is the degree of its node (a loop, as Edge{0, 0}, too). */
  lemma {:induction false} IncidentCount(id: nat, nb: set<nat>)
    ensures |set to | to in nb :: GetEdge(to, id)| == |nb|
    decreases nb
  {
    if nb != {} {
      var x :| x in nb;
      var rest := set to | to in nb - {x} :: GetEdge(to, id);
      IncidentCount(id, nb - {x});
      assert (set to | to in nb :: GetEdge(to, id)) == rest + {GetEdge(x, id)};
      forall y | y in nb - {x} ensures GetEdge(y, id) != GetEdge(x, id) {
        if x != id && y != id { GetEdgeSameEnds(x, id, y, id); }
      }
    }
  }

  /** A singleton is consistent, has density 1, and its edge count is the
      degree of its node. */
  lemma SingletonFacts(id: nat, adj: Adjacency, graphTotalEdges: nat)
    requires graphTotalEdges > 0
    ensures var c := Singleton(id, adj, graphTotalEdges);
      && Consistent(c, graphTotalEdges)
      && c.density == 1.0
      && c.totEdges == |Nbrs(adj, id)|
      && c.modularity == -Square(|Nbrs(adj, id)| as real / (2 * graphTotalEdges) as real)
  {
    IncidentCount(id, Nbrs(adj, id));
  }

  class Collection {
    var nodes: seq<nat>
    var intEdges: nat
    var outNodes: set<nat>
    var outEdges: set<Edge>
    var totEdges: nat
    var density: real
    var modularity: real

    function View(): CollectionView
      reads this
    {
      CollectionView(nodes, intEdges, outNodes, outEdges, totEdges, density, modularity)
    }

    /** new(Collection): every field at its zero value. */
    constructor ()
      ensures View() == CollectionView([], 0, {}, {}, 0, 0.0, 0.0)
    {
      nodes := [];
      intEdges := 0;
      outNodes := {};
      outEdges := {};
      totEdges := 0;
      density := 0.0;
      modularity := 0.0;
    }

    /** initialize(id): one node, its neighbours as boundary, the edges to
        them as boundary edges. */
    method Initialize(id: nat, g: Graph)
      requires g.totEdges > 0
      modifies this
      ensures View() == Singleton(id, g.list, g.totEdges)
    {
      nodes := [id];
      intEdges := 0;
      outEdges := {};
      outNodes := {};
      AddNeighbours(id, Nbrs(g.list, id));
      totEdges := |outEdges|;
      density := CalcDensity(1, 0);
      modularity := CalcMod(0, totEdges, g.totEdges);
    }

    /** The loop of initialize: each neighbour joins the boundary, and so
        does the edge to it. */
    method AddNeighbours(id: nat, nb: set<nat>)
      requires outNodes == {} && outEdges == {}
      modifies this
      ensures outNodes == nb && outEdges == set to | to in nb :: GetEdge(to, id)
      ensures nodes == old(nodes) && intEdges == old(intEdges)
    {
      var rest := nb;
      while rest != {}
        invariant nodes == old(nodes) && intEdges == old(intEdges)
        invariant rest <= nb
        invariant outNodes == nb - rest
        invariant outEdges == set to | to in nb - rest :: GetEdge(to, id)
        decreases rest
      {
        var to :| to in rest;
        outEdges := outEdges + {GetEdge(to, id)};
        outNodes := outNodes + {to};
        rest := rest - {to};
      }
      assert nb - rest == nb;
    }
  }

  /** The guard of calcComEdge: some node of the second community lies on
      the first one's boundary. */
  predicate Touches(nodes2: seq<nat>, outNodes1: set<nat>)
  {
    exists k :: 0 <= k < |nodes2| && nodes2[k] in outNodes1
  }

  /** calcComEdge as a value: the boundary edges the two communities share,
      or 0 when they do not touch. */
  function ComEdge(nodes2: seq<nat>, outNodes1: set<nat>, outEdges1: set<Edge>, outEdges2: set<Edge>): (r: nat)
    ensures r <= |outEdges2| && r <= |outEdges1|
    ensures !Touches(nodes2, outNodes1) ==> r == 0
  {
    if Touches(nodes2, outNodes1) then
      SubsetCard(outEdges2 * outEdges1, outEdges2);
      SubsetCard(outEdges2 * outEdges1, outEdges1);
      |outEdges2 * outEdges1|
    else 0
  }

  lemma SubsetCard<T>(a: set<T>, b: set<T>)
    requires a <= b
    ensures |a| <= |b|
  {
    assert b == a + (b - a);
  }

  /** Moving one element x from rest to the visited part adds one to the
      visited elements shared with other exactly when x is in other. */
  lemma SharedStep<T>(all: set<T>, rest: set<T>, other: set<T>, x: T)
    requires rest <= all && x in rest
    ensures |(all - (rest - {x})) * other| == |(all - rest) * other| + (if x in other then 1 else 0)
  {
    var before := (all - rest) * other;
    if x in other {
      assert (all - (rest - {x})) * other == before + {x};
    } else {
      assert (all - (rest - {x})) * other == before;
    }
  }

  /** calcComEdge: look for a touching node, then count the edges of the
      second boundary that are also on the first. */
  method CalcComEdge(nodes2: seq<nat>, outNodes1: set<nat>, outEdges1: set<Edge>, outEdges2: set<Edge>)
    returns (comEdge: nat)
    ensures Touches(nodes2, outNodes1) ==> comEdge == |outEdges2 * outEdges1|
    ensures !Touches(nodes2, outNodes1) ==> comEdge == 0
  {
    var found := false;
    var k := 0;
    while k < |nodes2|
      invariant k <= |nodes2|
      invariant forall j :: 0 <= j < k ==> nodes2[j] !in outNodes1
    {
      if nodes2[k] in outNodes1 {
        found := true;
        break;
      }
      k := k + 1;
    }
    if !found {
      return 0;
    }
    comEdge := 0;
    var rest := outEdges2;
    while rest != {}
      invariant rest <= outEdges2
      invariant comEdge == |(outEdges2 - rest) * outEdges1|
      decreases rest
    {
      var edge :| edge in rest;
      SharedStep(outEdges2, rest, outEdges1, edge);
      if edge in outEdges1 {
        comEdge := comEdge + 1;
      }
      rest := rest - {edge};
    }
    assert outEdges2 - rest == outEdges2;
  }
}
