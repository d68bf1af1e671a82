// The set's communities as a sequence of values: the partition they form,
// their summed modularity and density, and what one coagulate or split step
// does to that sequence.

module Partitions {
  import opened Graphs
  import opened Collections
  import opened SeqSums
  import opened Merging
  import opened Boundaries

  function Mods(cs: seq<CollectionView>): (r: seq<real>)
    ensures |r| == |cs|
  {
    seq(|cs|, k requires 0 <= k < |cs| => cs[k].modularity)
  }

  function Densities(cs: seq<CollectionView>): (r: seq<real>)
    ensures |r| == |cs|
  {
    seq(|cs|, k requires 0 <= k < |cs| => cs[k].density)
  }

  function NodeLists(cs: seq<CollectionView>): (r: seq<seq<nat>>)
    ensures |r| == |cs|
  {
    seq(|cs|, k requires 0 <= k < |cs| => cs[k].nodes)
  }

  /** Every node of the graph is in exactly one community, once, and every
      community keeps its bookkeeping. */
  predicate Partition(cs: seq<CollectionView>, keys: set<nat>, graphTotalEdges: nat)
  {
    && (forall k :: 0 <= k < |cs| ==> Consistent(cs[k], graphTotalEdges))
    && multiset(Flatten(NodeLists(cs))) == multiset(keys)
  }

  /** On a loop-free graph: every community's cached sets describe it, and
      the regularisation is that of the communities' density sum. */
  predicate ExactComms(cs: seq<CollectionView>, adj: Adjacency, r: real, totVertex: nat)
  {
    && LoopFree(adj)
    && (forall k :: 0 <= k < |cs| ==> Tracks(cs[k], adj))
    && |cs| > 0 && totVertex > 0
    && r == Reg(Total(Densities(cs)), |cs|, totVertex)
  }

  lemma ProjectRemoveSwap(cs: seq<CollectionView>, j: nat)
    requires j < |cs|
    ensures Mods(RemoveSwap(cs, j)) == RemoveSwap(Mods(cs), j)
    ensures Densities(RemoveSwap(cs, j)) == RemoveSwap(Densities(cs), j)
    ensures NodeLists(RemoveSwap(cs, j)) == RemoveSwap(NodeLists(cs), j)
  {
  }

  lemma ProjectUpdate(cs: seq<CollectionView>, j: nat, c: CollectionView)
    requires j < |cs|
    ensures Mods(cs[j := c]) == Mods(cs)[j := c.modularity]
    ensures Densities(cs[j := c]) == Densities(cs)[j := c.density]
    ensures NodeLists(cs[j := c]) == NodeLists(cs)[j := c.nodes]
  {
  }

  lemma ProjectConcat(cs: seq<CollectionView>, ds: seq<CollectionView>)
    ensures Mods(cs + ds) == Mods(cs) + Mods(ds)
    ensures Densities(cs + ds) == Densities(cs) + Densities(ds)
    ensures NodeLists(cs + ds) == NodeLists(cs) + NodeLists(ds)
  {
  }

  /** Two different communities of a partition have no node in common. */
  lemma PartitionDisjoint(cs: seq<CollectionView>, keys: set<nat>, graphTotalEdges: nat, i: nat, j: nat)
    requires Partition(cs, keys, graphTotalEdges)
    requires i < |cs| && j < |cs| && i != j
    ensures Elems(cs[i].nodes) !! Elems(cs[j].nodes)
  {
    var ls := NodeLists(cs);
    forall x | x in cs[i].nodes ensures x !in cs[j].nodes {
      FlattenDisjoint(ls, keys, i, j, x);
    }
  }

  /** A partition has no more communities than the graph has nodes. */
  lemma PartitionCount(cs: seq<CollectionView>, keys: set<nat>, graphTotalEdges: nat)
    requires Partition(cs, keys, graphTotalEdges)
    ensures |cs| <= |keys|
  {
    FlattenLength(NodeLists(cs));
    assert |multiset(Flatten(NodeLists(cs)))| == |Flatten(NodeLists(cs))|;
  }

  /** The communities after coagulate joins slot j into slot i. */
  function Coagulated(cs: seq<CollectionView>, i: nat, j: nat, graphTotalEdges: nat): (r: seq<CollectionView>)
    requires i < |cs| && j < |cs| && graphTotalEdges > 0
    requires |cs[i].nodes| >= 1 && Counted(cs[j])
    ensures |r| == |cs| - 1
  {
    RemoveSwap(cs[i := Merged(cs[i], cs[j], graphTotalEdges)], j)
  }

  lemma CoagulatedNodes(cs: seq<CollectionView>, graphTotalEdges: nat, i: nat, j: nat)
    requires i < |cs| && j < |cs| && i != j
    requires Consistent(cs[i], graphTotalEdges) && Consistent(cs[j], graphTotalEdges)
    ensures multiset(Flatten(NodeLists(Coagulated(cs, i, j, graphTotalEdges)))) == multiset(Flatten(NodeLists(cs)))
  {
    var m := Merged(cs[i], cs[j], graphTotalEdges);
    var up := cs[i := m];
    ProjectUpdate(cs, i, m);
    ProjectRemoveSwap(up, j);
    FlattenJoin(NodeLists(cs), i, j);
  }

  lemma CoagulatedSums(cs: seq<CollectionView>, graphTotalEdges: nat, i: nat, j: nat)
    requires i < |cs| && j < |cs| && i != j
    requires Consistent(cs[i], graphTotalEdges) && Consistent(cs[j], graphTotalEdges)
    ensures var m := Merged(cs[i], cs[j], graphTotalEdges);
      var r := Coagulated(cs, i, j, graphTotalEdges);
      && Total(Mods(r)) == Total(Mods(cs)) - (cs[i].modularity + cs[j].modularity) + m.modularity
      && Total(Densities(r)) == Total(Densities(cs)) - cs[i].density - cs[j].density + m.density
  {
    var m := Merged(cs[i], cs[j], graphTotalEdges);
    var up := cs[i := m];
    ProjectUpdate(cs, i, m);
    ProjectRemoveSwap(up, j);
    TotalUpdate(Mods(cs), i, m.modularity);
    TotalRemoveSwap(Mods(up), j);
    TotalUpdate(Densities(cs), i, m.density);
    TotalRemoveSwap(Densities(up), j);
  }

  /** Coagulating keeps the partition and changes the sums by the two
      terms it removes and the one it adds. */
  lemma CoagulatedPartition(cs: seq<CollectionView>, keys: set<nat>, graphTotalEdges: nat, i: nat, j: nat)
    requires Partition(cs, keys, graphTotalEdges)
    requires i < |cs| && j < |cs| && i != j
    ensures var m := Merged(cs[i], cs[j], graphTotalEdges);
      var r := Coagulated(cs, i, j, graphTotalEdges);
      && Partition(r, keys, graphTotalEdges)
      && Total(Mods(r)) == Total(Mods(cs)) - (cs[i].modularity + cs[j].modularity) + m.modularity
      && Total(Densities(r)) == Total(Densities(cs)) - cs[i].density - cs[j].density + m.density
  {
    MergedConsistent(cs[i], cs[j], graphTotalEdges);
    CoagulatedNodes(cs, graphTotalEdges, i, j);
    CoagulatedSums(cs, graphTotalEdges, i, j);
  }

  /** On a loop-free graph coagulating keeps every community tracked, and
      the regularisation costNewReg predicts is that of the new sum. */
  lemma CoagulatedExact(cs: seq<CollectionView>, keys: set<nat>, adj: Adjacency, graphTotalEdges: nat,
                        r: real, totVertex: nat, i: nat, j: nat)
    requires Partition(cs, keys, graphTotalEdges) && Symmetric(adj)
    requires ExactComms(cs, adj, r, totVertex)
    requires i < |cs| && j < |cs| && i != j
    ensures ExactComms(Coagulated(cs, i, j, graphTotalEdges), adj,
                       CostNewReg(cs[i], cs[j], r, |cs|, totVertex), totVertex)
    ensures CostNewMod(cs[i], cs[j], graphTotalEdges) == Merged(cs[i], cs[j], graphTotalEdges).modularity
  {
    PartitionDisjoint(cs, keys, graphTotalEdges, i, j);
    CoagulatedTracks(cs, keys, adj, graphTotalEdges, i, j);
    CoagulatedPartition(cs, keys, graphTotalEdges, i, j);
    RegExact(cs[i], cs[j], adj, Total(Densities(cs)), |cs|, totVertex, graphTotalEdges);
    ModExact(cs[i], cs[j], adj, graphTotalEdges);
  }

  /** On a loop-free graph coagulating keeps every community tracked. */
  lemma CoagulatedTracks(cs: seq<CollectionView>, keys: set<nat>, adj: Adjacency, graphTotalEdges: nat, i: nat, j: nat)
    requires Partition(cs, keys, graphTotalEdges) && Symmetric(adj) && LoopFree(adj)
    requires forall k :: 0 <= k < |cs| ==> Tracks(cs[k], adj)
    requires i < |cs| && j < |cs| && i != j
    ensures var res := Coagulated(cs, i, j, graphTotalEdges);
      forall k :: 0 <= k < |res| ==> Tracks(res[k], adj)
  {
    var m := Merged(cs[i], cs[j], graphTotalEdges);
    var up := cs[i := m];
    var res := Coagulated(cs, i, j, graphTotalEdges);
    PartitionDisjoint(cs, keys, graphTotalEdges, i, j);
    MergedTracks(cs[i], cs[j], adj, graphTotalEdges);
    assert forall k :: 0 <= k < |res| ==> res[k] == up[k] || res[k] == up[|up| - 1];
  }

  /** The fresh singletons split makes of a community's nodes. */
  function Singletons(nodes: seq<nat>, adj: Adjacency, graphTotalEdges: nat): (r: seq<CollectionView>)
    requires graphTotalEdges > 0
    ensures |r| == |nodes|
  {
    seq(|nodes|, k requires 0 <= k < |nodes| => Singleton(nodes[k], adj, graphTotalEdges))
  }

  lemma {:induction false} SingletonsFacts(nodes: seq<nat>, adj: Adjacency, graphTotalEdges: nat)
    requires graphTotalEdges > 0
    ensures var ss := Singletons(nodes, adj, graphTotalEdges);
      && Flatten(NodeLists(ss)) == nodes
      && Total(Densities(ss)) == |nodes| as real
      && forall k :: 0 <= k < |ss| ==> Consistent(ss[k], graphTotalEdges)
  {
    var ss := Singletons(nodes, adj, graphTotalEdges);
    forall k | 0 <= k < |ss| ensures Consistent(ss[k], graphTotalEdges) {
      SingletonFacts(nodes[k], adj, graphTotalEdges);
    }
    if nodes != [] {
      SingletonsFacts(nodes[1..], adj, graphTotalEdges);
      assert NodeLists(ss)[1..] == NodeLists(Singletons(nodes[1..], adj, graphTotalEdges));
      assert Densities(ss)[1..] == Densities(Singletons(nodes[1..], adj, graphTotalEdges));
    }
  }

  /** One more node gives one more singleton, whose terms add to the sums. */
  lemma SingletonsSnoc(nodes: seq<nat>, x: nat, adj: Adjacency, graphTotalEdges: nat)
    requires graphTotalEdges > 0
    ensures var one := Singleton(x, adj, graphTotalEdges);
      && Singletons(nodes + [x], adj, graphTotalEdges) == Singletons(nodes, adj, graphTotalEdges) + [one]
      && Total(Mods(Singletons(nodes + [x], adj, graphTotalEdges)))
         == Total(Mods(Singletons(nodes, adj, graphTotalEdges))) + one.modularity
      && one.density == 1.0
  {
    var one := Singleton(x, adj, graphTotalEdges);
    var ss := Singletons(nodes, adj, graphTotalEdges);
    assert Singletons(nodes + [x], adj, graphTotalEdges) == ss + [one];
    ProjectConcat(ss, [one]);
    TotalConcat(Mods(ss), Mods([one]));
  }

  /** The communities after split(i). */
  function AfterSplit(cs: seq<CollectionView>, i: nat, adj: Adjacency, graphTotalEdges: nat): (r: seq<CollectionView>)
    requires i < |cs| && graphTotalEdges > 0
    ensures |r| == |cs| - 1 + |cs[i].nodes|
  {
    RemoveSwap(cs, i) + Singletons(cs[i].nodes, adj, graphTotalEdges)
  }

  /** Splitting keeps the partition; the sums lose the community's terms and
      gain the singletons' (each singleton has density 1). */
  lemma SplitPartition(cs: seq<CollectionView>, keys: set<nat>, adj: Adjacency, graphTotalEdges: nat, i: nat)
    requires Partition(cs, keys, graphTotalEdges) && i < |cs|
    ensures var ss := Singletons(cs[i].nodes, adj, graphTotalEdges);
      var r := AfterSplit(cs, i, adj, graphTotalEdges);
      && Partition(r, keys, graphTotalEdges)
      && |r| <= |keys|
      && Total(Mods(r)) == Total(Mods(cs)) - cs[i].modularity + Total(Mods(ss))
      && Total(Densities(r)) == Total(Densities(cs)) - cs[i].density + |cs[i].nodes| as real
  {
    SplitNodes(cs, keys, adj, graphTotalEdges, i);
    SplitTotals(cs, adj, graphTotalEdges, i);
    PartitionCount(AfterSplit(cs, i, adj, graphTotalEdges), keys, graphTotalEdges);
  }

  /** After a split every node is still in exactly one community, and every
      community keeps its bookkeeping. */
  lemma SplitNodes(cs: seq<CollectionView>, keys: set<nat>, adj: Adjacency, graphTotalEdges: nat, i: nat)
    requires Partition(cs, keys, graphTotalEdges) && i < |cs|
    ensures Partition(AfterSplit(cs, i, adj, graphTotalEdges), keys, graphTotalEdges)
  {
    var ss := Singletons(cs[i].nodes, adj, graphTotalEdges);
    var rest := RemoveSwap(cs, i);
    var r := AfterSplit(cs, i, adj, graphTotalEdges);
    SingletonsFacts(cs[i].nodes, adj, graphTotalEdges);
    assert forall k :: 0 <= k < |rest| ==> rest[k] == cs[k] || rest[k] == cs[|cs| - 1];
    assert forall k :: 0 <= k < |r| ==> (k < |rest| && r[k] == rest[k]) || (k >= |rest| && r[k] == ss[k - |rest|]);
    SplitElements(cs, adj, graphTotalEdges, i);
  }

  /** A split keeps the nodes of the communities, as a multiset. */
  lemma SplitElements(cs: seq<CollectionView>, adj: Adjacency, graphTotalEdges: nat, i: nat)
    requires i < |cs| && graphTotalEdges > 0
    ensures multiset(Flatten(NodeLists(AfterSplit(cs, i, adj, graphTotalEdges)))) == multiset(Flatten(NodeLists(cs)))
  {
    var ss := Singletons(cs[i].nodes, adj, graphTotalEdges);
    var rest := RemoveSwap(cs, i);
    SingletonsFacts(cs[i].nodes, adj, graphTotalEdges);
    ProjectRemoveSwap(cs, i);
    ProjectConcat(rest, ss);
    FlattenRemoveSwap(NodeLists(cs), i);
    FlattenConcat(NodeLists(rest), NodeLists(ss));
    assert NodeLists(cs)[i] == cs[i].nodes;
  }

  /** A split replaces community i's modularity and density by those of its
      singletons; each singleton has density 1. */
  lemma SplitTotals(cs: seq<CollectionView>, adj: Adjacency, graphTotalEdges: nat, i: nat)
    requires i < |cs| && graphTotalEdges > 0
    ensures var ss := Singletons(cs[i].nodes, adj, graphTotalEdges);
      var r := AfterSplit(cs, i, adj, graphTotalEdges);
      && Total(Mods(r)) == Total(Mods(cs)) - cs[i].modularity + Total(Mods(ss))
      && Total(Densities(r)) == Total(Densities(cs)) - cs[i].density + |cs[i].nodes| as real
  {
    var ss := Singletons(cs[i].nodes, adj, graphTotalEdges);
    var rest := RemoveSwap(cs, i);
    SingletonsFacts(cs[i].nodes, adj, graphTotalEdges);
    ProjectRemoveSwap(cs, i);
    ProjectConcat(rest, ss);
    TotalRemoveSwap(Mods(cs), i);
    TotalConcat(Mods(rest), Mods(ss));
    TotalRemoveSwap(Densities(cs), i);
    TotalConcat(Densities(rest), Densities(ss));
  }

  /** On a loop-free graph splitting keeps every community tracked, and the
      regularisation split computes is that of the new density sum. */
  lemma SplitExact(cs: seq<CollectionView>, keys: set<nat>, adj: Adjacency, graphTotalEdges: nat,
                   r: real, totVertex: nat, i: nat)
    requires Partition(cs, keys, graphTotalEdges) && i < |cs|
    requires ExactComms(cs, adj, r, totVertex)
    ensures var res := AfterSplit(cs, i, adj, graphTotalEdges);
      ExactComms(res, adj,
                 Reg(InvertReg(r, |cs|, totVertex) - cs[i].density + |cs[i].nodes| as real, |res|, totVertex),
                 totVertex)
  {
    SplitPartition(cs, keys, adj, graphTotalEdges, i);
    RegRoundTrip(Total(Densities(cs)), r, |cs|, totVertex);
    SplitTracks(cs, adj, graphTotalEdges, i);
  }

  /** On a loop-free graph the communities after a split are all tracked. */
  lemma SplitTracks(cs: seq<CollectionView>, adj: Adjacency, graphTotalEdges: nat, i: nat)
    requires i < |cs| && graphTotalEdges > 0 && LoopFree(adj)
    requires forall k :: 0 <= k < |cs| ==> Tracks(cs[k], adj)
    ensures var res := AfterSplit(cs, i, adj, graphTotalEdges);
      forall k :: 0 <= k < |res| ==> Tracks(res[k], adj)
  {
    var ss := Singletons(cs[i].nodes, adj, graphTotalEdges);
    var rest := RemoveSwap(cs, i);
    var res := AfterSplit(cs, i, adj, graphTotalEdges);
    forall k | 0 <= k < |ss| ensures Tracks(ss[k], adj) {
      SingletonTracks(cs[i].nodes[k], adj, graphTotalEdges);
    }
    assert forall k :: 0 <= k < |rest| ==> rest[k] == cs[k] || rest[k] == cs[|cs| - 1];
    assert forall k :: 0 <= k < |res| ==> (k < |rest| && res[k] == rest[k]) || (k >= |rest| && res[k] == ss[k - |rest|]);
  }
}
