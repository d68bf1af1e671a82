// Joining two communities, and the two "what if" scorers that predict the
// modularity and regularisation after such a join without performing it.

module Merging {
  import opened Graphs
  import opened Collections

  /** The ids of a node list, as a set. */
  function Elems(s: seq<nat>): set<nat>
  {
    set x | x in s
  }

  /** The bookkeeping merge relies on: totEdges counts outEdges. */
  predicate Counted(c: CollectionView)
  {
    c.totEdges == |c.outEdges|
  }

  /** The boundary edges the two communities have in common. */
  function Shared(a: CollectionView, b: CollectionView): (s: nat)
    ensures s <= |b.outEdges| && s <= |a.outEdges|
  {
    SubsetCard(b.outEdges * a.outEdges, b.outEdges);
    SubsetCard(b.outEdges * a.outEdges, a.outEdges);
    |b.outEdges * a.outEdges|
  }

  /** merge(c1, c2) as a value: the community c1 becomes. The common
      boundary edges stay in outEdges and are counted as internal. */
  function Merged(a: CollectionView, b: CollectionView, graphTotalEdges: nat): CollectionView
    requires |a.nodes| >= 1 && graphTotalEdges > 0 && Counted(b)
  {
    var s := Shared(a, b);
    var intEdges := a.intEdges + b.intEdges + s;
    var totEdges := a.totEdges + b.totEdges - s;
    CollectionView(
      a.nodes + b.nodes,
      intEdges,
      (a.outNodes - Elems(b.nodes)) + (b.outNodes - Elems(a.nodes)),
      a.outEdges + b.outEdges,
      totEdges,
      CalcDensity(|a.nodes| + |b.nodes|, intEdges),
      CalcMod(intEdges, totEdges, graphTotalEdges))
  }

  lemma UnionCard<T>(x: set<T>, y: set<T>)
    ensures |x + y| + |x * y| == |x| + |y|
  {
    assert x + y == x + (y - x);
    assert y == (y - x) + (x * y);
  }

  /** A merge keeps the bookkeeping consistent, adds up the node lists, and
      conserves intEdges + totEdges, the community's degree sum. */
  lemma MergedConsistent(a: CollectionView, b: CollectionView, graphTotalEdges: nat)
    requires Consistent(a, graphTotalEdges) && Consistent(b, graphTotalEdges)
    ensures var r := Merged(a, b, graphTotalEdges);
      && Consistent(r, graphTotalEdges)
      && r.nodes == a.nodes + b.nodes
      && multiset(r.nodes) == multiset(a.nodes) + multiset(b.nodes)
      && r.intEdges + r.totEdges == a.intEdges + a.totEdges + b.intEdges + b.totEdges
      && r.outEdges == a.outEdges + b.outEdges
  {
    UnionCard(a.outEdges, b.outEdges);
    assert b.outEdges * a.outEdges == a.outEdges * b.outEdges;
  }

  /** One delete loop of merge: every id of nodes leaves c's boundary. */
  method DropOutNodes(c: Collection, nodes: seq<nat>)
    modifies c
    ensures c.View() == old(c.View()).(outNodes := old(c.outNodes) - Elems(nodes))
  {
    ghost var a := c.View();
    var k := 0;
    while k < |nodes|
      invariant k <= |nodes|
      invariant c.View() == a.(outNodes := a.outNodes - Elems(nodes[..k]))
    {
      assert Elems(nodes[..k + 1]) == Elems(nodes[..k]) + {nodes[k]} by {
        assert nodes[..k + 1] == nodes[..k] + [nodes[k]];
      }
      c.outNodes := c.outNodes - {nodes[k]};
      k := k + 1;
    }
    assert nodes[..k] == nodes;
  }

  /** The append loop of merge. */
  method AppendNodes(c: Collection, nodes: seq<nat>)
    modifies c
    ensures c.View() == old(c.View()).(nodes := old(c.nodes) + nodes)
  {
    ghost var a := c.View();
    var k := 0;
    while k < |nodes|
      invariant k <= |nodes|
      invariant c.View() == a.(nodes := a.nodes + nodes[..k])
    {
      assert nodes[..k + 1] == nodes[..k] + [nodes[k]];
      c.nodes := c.nodes + [nodes[k]];
      k := k + 1;
    }
    assert nodes[..k] == nodes;
  }

  /** The insert loop of merge over the second boundary. */
  method AddOutNodes(c: Collection, outNodes: set<nat>)
    modifies c
    ensures c.View() == old(c.View()).(outNodes := old(c.outNodes) + outNodes)
  {
    ghost var a := c.View();
    var rest := outNodes;
    while rest != {}
      invariant rest <= outNodes
      invariant c.View() == a.(outNodes := a.outNodes + (outNodes - rest))
      decreases rest
    {
      var node :| node in rest;
      c.outNodes := c.outNodes + {node};
      rest := rest - {node};
    }
    assert outNodes - rest == outNodes;
  }

  /** The boundary-edge loop of merge: an edge already on c's boundary is
      counted as common, any other is added. */
  method AddOutEdges(c: Collection, outEdges: set<Edge>) returns (commOutEdge: nat)
    modifies c
    ensures commOutEdge == |outEdges * old(c.outEdges)|
    ensures c.View() == old(c.View()).(outEdges := old(c.outEdges) + outEdges)
  {
    ghost var a := c.View();
    commOutEdge := 0;
    var rest := outEdges;
    while rest != {}
      invariant rest <= outEdges
      invariant commOutEdge == |(outEdges - rest) * a.outEdges|
      invariant c.outEdges == a.outEdges + (outEdges - rest)
      invariant c.nodes == a.nodes && c.intEdges == a.intEdges && c.outNodes == a.outNodes
      invariant c.totEdges == a.totEdges && c.density == a.density && c.modularity == a.modularity
      decreases rest
    {
      var edge :| edge in rest;
      SharedStep(outEdges, rest, a.outEdges, edge);
      if edge in c.outEdges {
        assert edge in a.outEdges;
        commOutEdge := commOutEdge + 1;
      } else {
        c.outEdges := c.outEdges + {edge};
      }
      rest := rest - {edge};
    }
    assert outEdges - rest == outEdges;
  }

  /** merge(c1, c2): c1 absorbs c2. The only change to c2 is that its
      boundary loses c1's old nodes. */
  method Merge(c1: Collection, c2: Collection, totalEdges: nat)
    requires c1 != c2
    requires |c1.nodes| >= 1 && totalEdges > 0 && c2.totEdges == |c2.outEdges|
    modifies c1, c2
    ensures c1.View() == Merged(old(c1.View()), old(c2.View()), totalEdges)
    ensures c2.View() == old(c2.View()).(outNodes := old(c2.outNodes) - Elems(old(c1.nodes)))
  {
    DropOutNodes(c1, c2.nodes);
    DropOutNodes(c2, c1.nodes);
    AppendNodes(c1, c2.nodes);
    AddOutNodes(c1, c2.outNodes);
    ghost var before := c1.outEdges;
    var commOutEdge := AddOutEdges(c1, c2.outEdges);
    SubsetCard(c2.outEdges * before, c2.outEdges);
    c1.intEdges := c1.intEdges + c2.intEdges + commOutEdge;
    c1.totEdges := c1.totEdges + c2.totEdges - commOutEdge;
    c1.density := CalcDensity(|c1.nodes|, c1.intEdges);
    c1.modularity := CalcMod(c1.intEdges, c1.totEdges, totalEdges);
  }

  /** costNewMod: the modularity term the join would have, with the common
      edges counted by calcComEdge. It is the merged community's own term
      whenever the two touch; otherwise no edge is moved inside. */
  function CostNewMod(a: CollectionView, b: CollectionView, graphTotalEdges: nat): (m: real)
    requires graphTotalEdges > 0 && |a.nodes| >= 1 && Counted(b)
    ensures Touches(b.nodes, a.outNodes) ==> m == Merged(a, b, graphTotalEdges).modularity
    ensures !Touches(b.nodes, a.outNodes) ==>
      m == CalcMod(a.intEdges + b.intEdges, a.totEdges + b.totEdges, graphTotalEdges)
  {
    var numCom := ComEdge(b.nodes, a.outNodes, a.outEdges, b.outEdges);
    CalcMod(a.intEdges + b.intEdges + numCom, a.totEdges + b.totEdges - numCom, graphTotalEdges)
  }

  /** costNewMod is the merged community's term whenever calcComEdge counts
      the common edges. */
  lemma CostNewModTracks(a: CollectionView, b: CollectionView, graphTotalEdges: nat)
    requires graphTotalEdges > 0 && |a.nodes| >= 1 && Counted(b)
    requires ComEdge(b.nodes, a.outNodes, a.outEdges, b.outEdges) == Shared(a, b)
    ensures CostNewMod(a, b, graphTotalEdges) == Merged(a, b, graphTotalEdges).modularity
  {
  }

  /** Moving s boundary edges inside keeps the degree sum and raises the
      internal count, so it never lowers the modularity term. */
  lemma CalcModShift(i: nat, t: nat, s: nat, graphTotalEdges: nat)
    requires graphTotalEdges > 0 && s <= t
    ensures CalcMod(i + s, t - s, graphTotalEdges) >= CalcMod(i, t, graphTotalEdges)
  {
    var m := graphTotalEdges as real;
    assert (i + s) + (t - s) == i + t;
    assert (i + s) as real / m == i as real / m + s as real / m;
    assert s as real / m >= 0.0;
  }

  /** The join never does worse than costNewMod predicts: when calcComEdge
      finds no touching node it counts no common edge, and moving the
      common edges inside only raises the term. */
  lemma MergedAtLeastPredicted(a: CollectionView, b: CollectionView, graphTotalEdges: nat)
    requires graphTotalEdges > 0 && |a.nodes| >= 1 && Counted(b)
    ensures Merged(a, b, graphTotalEdges).modularity >= CostNewMod(a, b, graphTotalEdges)
    ensures Touches(b.nodes, a.outNodes) ==> Merged(a, b, graphTotalEdges).modularity == CostNewMod(a, b, graphTotalEdges)
  {
    CalcModShift(a.intEdges + b.intEdges, a.totEdges + b.totEdges, Shared(a, b), graphTotalEdges);
  }

  /** The regularisation kept by the set: half of the mean density minus
      the fraction of communities among the nodes. */
  function Reg(densitySum: real, n: nat, totVertex: nat): real
    requires n > 0 && totVertex > 0
  {
    (densitySum * (1.0 / n as real) - n as real / totVertex as real) * 0.5
  }

  /** The density sum recovered from a regularisation value, as costNewReg
      and split compute it. */
  function InvertReg(r: real, n: nat, totVertex: nat): real
    requires totVertex > 0
  {
    (r * 2.0 + n as real / totVertex as real) * n as real
  }

  /** InvertReg undoes Reg, and Reg undoes InvertReg. */
  lemma RegRoundTrip(s: real, r: real, n: nat, totVertex: nat)
    requires n > 0 && totVertex > 0
    ensures InvertReg(Reg(s, n, totVertex), n, totVertex) == s
    ensures Reg(InvertReg(r, n, totVertex), n, totVertex) == r
  {
    var nr := n as real;
    var q := nr / totVertex as real;
    assert (s * (1.0 / nr) - q) * 0.5 * 2.0 + q == s * (1.0 / nr);
    assert s * (1.0 / nr) * nr == s;
    assert (r * 2.0 + q) * nr * (1.0 / nr) == r * 2.0 + q;
  }

  /** n communities of density 1 over n vertices regularise to 0. */
  lemma RegAllSingletons(n: nat)
    requires n > 0
    ensures Reg(n as real, n, n) == 0.0
  {
    var nr := n as real;
    assert nr * (1.0 / nr) == 1.0;
    assert nr / nr == 1.0;
  }

  /** costNewReg: undo the regularisation to the density sum of the n
      communities, replace the two densities by the joined one, and
      regularise again over n - 1 communities. */
  function CostNewReg(a: CollectionView, b: CollectionView, oldR: real, n: nat, totVertex: nat): (r: real)
    requires n >= 2 && totVertex > 0 && |a.nodes| >= 1
    ensures r == Reg(InvertReg(oldR, n, totVertex) - (a.density + b.density)
                     + CalcDensity(|a.nodes| + |b.nodes|,
                                   a.intEdges + b.intEdges + ComEdge(b.nodes, a.outNodes, a.outEdges, b.outEdges)),
                     n - 1, totVertex)
  {
    var densitySum := InvertReg(oldR, n, totVertex);
    var withoutPair := densitySum - (a.density + b.density);
    var numCom := ComEdge(b.nodes, a.outNodes, a.outEdges, b.outEdges);
    var newNodes := |a.nodes| + |b.nodes|;
    var newIntEdges := a.intEdges + b.intEdges + numCom;
    var newDensitySum := withoutPair + CalcDensity(newNodes, newIntEdges);
    (1.0 / (n - 1) as real * newDensitySum - (n - 1) as real / totVertex as real) * 0.5
  }

  /** When the running value is the regularisation of a density sum S over
      n communities and calcComEdge counts the common edges (as it does when
      the two touch), costNewReg is the regularisation over
      n - 1 communities of S with the two densities replaced by the merged
      community's. */
  lemma CostNewRegTracks(a: CollectionView, b: CollectionView, s: real, n: nat, totVertex: nat, graphTotalEdges: nat)
    requires n >= 2 && totVertex > 0 && |a.nodes| >= 1 && graphTotalEdges > 0 && Counted(b)
    requires ComEdge(b.nodes, a.outNodes, a.outEdges, b.outEdges) == Shared(a, b)
    ensures CostNewReg(a, b, Reg(s, n, totVertex), n, totVertex)
            == Reg(s - a.density - b.density + Merged(a, b, graphTotalEdges).density, n - 1, totVertex)
  {
    RegRoundTrip(s, 0.0, n, totVertex);
  }

  /** The increase of modularity plus regularisation coagulate scores for
      joining b into a. It never overstates what the join then does to the
      running modularity (by the merged term) and regularisation (to
      costNewReg), and is exact when the two touch. */
  function Gain(a: CollectionView, b: CollectionView, r: real, n: nat, totVertex: nat, graphTotalEdges: nat): (g: real)
    requires n >= 2 && totVertex > 0 && graphTotalEdges > 0 && |a.nodes| >= 1 && Counted(b)
    ensures g <= (Merged(a, b, graphTotalEdges).modularity - (a.modularity + b.modularity))
                 + (CostNewReg(a, b, r, n, totVertex) - r)
    ensures Touches(b.nodes, a.outNodes) ==>
      g == (Merged(a, b, graphTotalEdges).modularity - (a.modularity + b.modularity))
           + (CostNewReg(a, b, r, n, totVertex) - r)
  {
    MergedAtLeastPredicted(a, b, graphTotalEdges);
    (CostNewMod(a, b, graphTotalEdges) - (a.modularity + b.modularity))
    + (CostNewReg(a, b, r, n, totVertex) - r)
  }
}
