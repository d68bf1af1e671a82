// What a community's cached sets mean on a graph without self-loops:
// outNodes is the set of outside neighbours, outEdges every edge with an end
// in the community (internal ones included, since merge never removes them),
// and intEdges the number of edges with both ends inside. Singletons start
// out this way and merge keeps it, and then calcComEdge counts exactly the
// edges merge moves inside.

module Boundaries {
  import opened Graphs
  import opened Collections
  import opened Merging

  function Boundary(adj: Adjacency, ns: set<nat>): set<nat>
  {
    set v, w | v in ns && w in Nbrs(adj, v) && w !in ns :: w
  }

  function Incident(adj: Adjacency, ns: set<nat>): set<Edge>
  {
    set v, w | v in ns && w in Nbrs(adj, v) :: GetEdge(w, v)
  }

  function Internal(adj: Adjacency, ns: set<nat>): set<Edge>
  {
    set v, w | v in ns && w in Nbrs(adj, v) && w in ns :: GetEdge(w, v)
  }

  /** The cached sets of c describe its node set in adj. */
  predicate Tracks(c: CollectionView, adj: Adjacency)
  {
    var ns := Elems(c.nodes);
    && c.outNodes == Boundary(adj, ns)
    && c.outEdges == Incident(adj, ns)
    && c.intEdges == |Internal(adj, ns)|
  }

  lemma NoLoop(adj: Adjacency, v: nat, w: nat)
    requires LoopFree(adj) && w in Nbrs(adj, v)
    ensures w != v
  {
  }

  /** initialize(id) describes {id}. */
  lemma SingletonTracks(id: nat, adj: Adjacency, graphTotalEdges: nat)
    requires LoopFree(adj) && graphTotalEdges > 0
    ensures Tracks(Singleton(id, adj, graphTotalEdges), adj)
  {
    var c := Singleton(id, adj, graphTotalEdges);
    assert Elems(c.nodes) == {id};
    var ns := {id};
    forall w | w in Nbrs(adj, id) ensures w in Boundary(adj, ns) {
      NoLoop(adj, id, w);
      assert id in ns && w in Nbrs(adj, id) && w !in ns;
    }
    forall w | w in Nbrs(adj, id) ensures w != id { NoLoop(adj, id, w); }
    assert Internal(adj, ns) == {};
  }

  /** An edge on the boundary of two disjoint node sets joins them. */
  lemma CrossEdge(adj: Adjacency, ns1: set<nat>, ns2: set<nat>, e: Edge) returns (v1: nat, v2: nat)
    requires LoopFree(adj) && ns1 !! ns2
    requires e in Incident(adj, ns1) && e in Incident(adj, ns2)
    ensures v1 in ns1 && v2 in ns2 && v2 in Nbrs(adj, v1) && e == GetEdge(v2, v1)
  {
    var x1, w1 :| x1 in ns1 && w1 in Nbrs(adj, x1) && e == GetEdge(w1, x1);
    var x2, w2 :| x2 in ns2 && w2 in Nbrs(adj, x2) && e == GetEdge(w2, x2);
    NoLoop(adj, x1, w1);
    NoLoop(adj, x2, w2);
    GetEdgeSameEnds(w1, x1, w2, x2);
    assert x1 != x2;
    v1, v2 := x1, w1;
  }

  /** On disjoint, tracked communities calcComEdge finds every common
      boundary edge: when none of b's nodes is on a's boundary they share
      no edge, so the guard never hides one. */
  lemma ComEdgeAgrees(a: CollectionView, b: CollectionView, adj: Adjacency)
    requires LoopFree(adj) && Tracks(a, adj) && Tracks(b, adj)
    requires Elems(a.nodes) !! Elems(b.nodes)
    ensures ComEdge(b.nodes, a.outNodes, a.outEdges, b.outEdges) == Shared(a, b)
  {
    if e :| e in b.outEdges * a.outEdges {
      var v1, v2 := CrossEdge(adj, Elems(a.nodes), Elems(b.nodes), e);
      assert v2 in a.outNodes;
      var k :| 0 <= k < |b.nodes| && b.nodes[k] == v2;
      assert Touches(b.nodes, a.outNodes);
    } else {
      assert b.outEdges * a.outEdges == {};
    }
  }

  lemma BoundaryUnion(adj: Adjacency, ns1: set<nat>, ns2: set<nat>)
    ensures Boundary(adj, ns1 + ns2) == (Boundary(adj, ns1) - ns2) + (Boundary(adj, ns2) - ns1)
  {
    var whole, part1, part2 := Boundary(adj, ns1 + ns2), Boundary(adj, ns1), Boundary(adj, ns2);
    forall w | w in whole ensures w in (part1 - ns2) + (part2 - ns1) {
      var v :| v in ns1 + ns2 && w in Nbrs(adj, v) && w !in ns1 + ns2;
      if v in ns1 { assert w in part1; } else { assert w in part2; }
    }
    forall w | w in (part1 - ns2) + (part2 - ns1) ensures w in whole {
      if w in part1 - ns2 {
        var v :| v in ns1 && w in Nbrs(adj, v) && w !in ns1;
        assert v in ns1 + ns2 && w !in ns1 + ns2;
      } else {
        var v :| v in ns2 && w in Nbrs(adj, v) && w !in ns2;
        assert v in ns1 + ns2 && w !in ns1 + ns2;
      }
    }
  }

  lemma IncidentUnion(adj: Adjacency, ns1: set<nat>, ns2: set<nat>)
    ensures Incident(adj, ns1 + ns2) == Incident(adj, ns1) + Incident(adj, ns2)
  {
  }

  /** Every common boundary edge of two disjoint sets is internal to their union. */
  lemma CrossInternal(adj: Adjacency, ns1: set<nat>, ns2: set<nat>)
    requires LoopFree(adj) && ns1 !! ns2
    ensures Incident(adj, ns2) * Incident(adj, ns1) <= Internal(adj, ns1 + ns2)
  {
    forall e | e in Incident(adj, ns2) * Incident(adj, ns1) ensures e in Internal(adj, ns1 + ns2) {
      var v1, v2 := CrossEdge(adj, ns1, ns2, e);
      assert v1 in ns1 + ns2 && v2 in ns1 + ns2;
    }
  }

  /** An internal edge of the union is internal to a part or joins the parts. */
  lemma InternalSplit(adj: Adjacency, ns1: set<nat>, ns2: set<nat>)
    requires Symmetric(adj)
    ensures Internal(adj, ns1 + ns2)
         <= Internal(adj, ns1) + Internal(adj, ns2) + Incident(adj, ns2) * Incident(adj, ns1)
  {
    forall e | e in Internal(adj, ns1 + ns2)
      ensures e in Internal(adj, ns1) + Internal(adj, ns2) + Incident(adj, ns2) * Incident(adj, ns1)
    {
      var v, w :| v in ns1 + ns2 && w in Nbrs(adj, v) && w in ns1 + ns2 && e == GetEdge(w, v);
      GetEdgeSymmetric(w, v);
      assert v in Nbrs(adj, w);
      if v in ns1 && w in ns2 {
        assert e in Incident(adj, ns1);
        assert e in Incident(adj, ns2);
      } else if v in ns2 && w in ns1 {
        assert e in Incident(adj, ns2);
        assert e in Incident(adj, ns1);
      }
    }
  }

  /** An edge internal to one of two disjoint sets is not on the other's boundary. */
  lemma InternalApart(adj: Adjacency, ns1: set<nat>, ns2: set<nat>)
    requires LoopFree(adj) && ns1 !! ns2
    ensures Internal(adj, ns1) * Incident(adj, ns2) == {}
  {
    forall e | e in Internal(adj, ns1) ensures e !in Incident(adj, ns2) {
      var v, w :| v in ns1 && w in Nbrs(adj, v) && w in ns1 && e == GetEdge(w, v);
      NoLoop(adj, v, w);
      forall x, y | x in ns2 && y in Nbrs(adj, x) ensures GetEdge(y, x) != e {
        NoLoop(adj, x, y);
        GetEdgeSameEnds(w, v, y, x);
      }
    }
  }

  lemma InternalWithin(adj: Adjacency, ns: set<nat>)
    ensures Internal(adj, ns) <= Incident(adj, ns)
  {
  }

  lemma InternalMonotone(adj: Adjacency, ns1: set<nat>, ns2: set<nat>)
    ensures Internal(adj, ns1) <= Internal(adj, ns1 + ns2)
    ensures Internal(adj, ns2) <= Internal(adj, ns1 + ns2)
  {
  }

  /** The internal edges of a union of disjoint sets: those of each part,
      and the common boundary edges, three disjoint sets. */
  lemma InternalUnion(adj: Adjacency, ns1: set<nat>, ns2: set<nat>)
    requires LoopFree(adj) && Symmetric(adj) && ns1 !! ns2
    ensures |Internal(adj, ns1 + ns2)|
         == |Internal(adj, ns1)| + |Internal(adj, ns2)| + |Incident(adj, ns2) * Incident(adj, ns1)|
  {
    var in1, in2 := Internal(adj, ns1), Internal(adj, ns2);
    var cross := Incident(adj, ns2) * Incident(adj, ns1);
    CrossInternal(adj, ns1, ns2);
    InternalSplit(adj, ns1, ns2);
    InternalMonotone(adj, ns1, ns2);
    InternalApart(adj, ns1, ns2);
    InternalApart(adj, ns2, ns1);
    InternalWithin(adj, ns1);
    assert in1 * in2 == {};
    assert (in1 + in2) * cross == {};
    assert Internal(adj, ns1 + ns2) == in1 + in2 + cross;
    UnionCard(in1, in2);
    UnionCard(in1 + in2, cross);
  }

  /** merge keeps the meaning of the cached sets on a loop-free graph. */
  lemma MergedTracks(a: CollectionView, b: CollectionView, adj: Adjacency, graphTotalEdges: nat)
    requires LoopFree(adj) && Symmetric(adj)
    requires Consistent(a, graphTotalEdges) && Consistent(b, graphTotalEdges)
    requires Tracks(a, adj) && Tracks(b, adj) && Elems(a.nodes) !! Elems(b.nodes)
    ensures Tracks(Merged(a, b, graphTotalEdges), adj)
  {
    var ns1, ns2 := Elems(a.nodes), Elems(b.nodes);
    assert Elems(a.nodes + b.nodes) == ns1 + ns2;
    BoundaryUnion(adj, ns1, ns2);
    IncidentUnion(adj, ns1, ns2);
    InternalUnion(adj, ns1, ns2);
  }

  /** On tracked, disjoint communities costNewMod is the merged term. */
  lemma ModExact(a: CollectionView, b: CollectionView, adj: Adjacency, graphTotalEdges: nat)
    requires LoopFree(adj) && Tracks(a, adj) && Tracks(b, adj) && Elems(a.nodes) !! Elems(b.nodes)
    requires graphTotalEdges > 0 && |a.nodes| >= 1 && Counted(b)
    ensures CostNewMod(a, b, graphTotalEdges) == Merged(a, b, graphTotalEdges).modularity
  {
    ComEdgeAgrees(a, b, adj);
    CostNewModTracks(a, b, graphTotalEdges);
  }

  /** On tracked, disjoint communities costNewReg regularises the density
      sum with the merged density in place of the two. */
  lemma RegExact(a: CollectionView, b: CollectionView, adj: Adjacency, s: real, n: nat,
                 totVertex: nat, graphTotalEdges: nat)
    requires LoopFree(adj) && Tracks(a, adj) && Tracks(b, adj) && Elems(a.nodes) !! Elems(b.nodes)
    requires n >= 2 && totVertex > 0 && graphTotalEdges > 0 && |a.nodes| >= 1 && Counted(b)
    ensures CostNewReg(a, b, Reg(s, n, totVertex), n, totVertex)
            == Reg(s - a.density - b.density + Merged(a, b, graphTotalEdges).density, n - 1, totVertex)
  {
    ComEdgeAgrees(a, b, adj);
    CostNewRegTracks(a, b, s, n, totVertex, graphTotalEdges);
  }
}
