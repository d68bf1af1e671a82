// The partition the optimiser improves: a slot array of communities, the
// number of live slots, and the running modularity and regularisation.
// Comms is the live slots' state as values; every operation is specified by
// what it does to Comms, and the value-level lemmas carry the invariants.

module Sets {
  import opened Text
  import opened Graphs
  import opened Collections
  import opened SeqSums
  import opened Merging
  import opened Boundaries
  import opened Partitions
  import opened Output

  /** The increase coagulate(i) scores for joining slot j into slot i. It
      never overstates the change the join makes to modularity plus
      regularisation. */
  function Score(cs: seq<CollectionView>, i: nat, j: nat, r: real, totVertex: nat, graphTotalEdges: nat): (s: real)
    requires i < |cs| && j < |cs| && i != j && totVertex > 0
    requires Consistent(cs[i], graphTotalEdges) && Consistent(cs[j], graphTotalEdges)
    ensures s <= (Merged(cs[i], cs[j], graphTotalEdges).modularity - (cs[i].modularity + cs[j].modularity))
                 + (CostNewReg(cs[i], cs[j], r, |cs|, totVertex) - r)
  {
    Gain(cs[i], cs[j], r, |cs|, totVertex, graphTotalEdges)
  }

  /** Slot j is a best partner for slot i, with a strictly positive score. */
  predicate IsBest(cs: seq<CollectionView>, i: nat, j: nat, r: real, totVertex: nat, graphTotalEdges: nat)
    requires i < |cs| && totVertex > 0
    requires forall k :: 0 <= k < |cs| ==> Consistent(cs[k], graphTotalEdges)
  {
    && j < |cs| && j != i
    && Score(cs, i, j, r, totVertex, graphTotalEdges) > 0.0
    && forall l :: 0 <= l < |cs| && l != i ==>
         Score(cs, i, l, r, totVertex, graphTotalEdges) <= Score(cs, i, j, r, totVertex, graphTotalEdges)
  }

  /** Whenever some partner of slot i scores above 0, a best one exists:
      the maximum coagulate looks for is well defined. */
  lemma BestExists(cs: seq<CollectionView>, i: nat, l: nat, r: real, totVertex: nat, graphTotalEdges: nat)
    requires i < |cs| && totVertex > 0
    requires forall k :: 0 <= k < |cs| ==> Consistent(cs[k], graphTotalEdges)
    requires l < |cs| && l != i && Score(cs, i, l, r, totVertex, graphTotalEdges) > 0.0
    ensures exists j :: IsBest(cs, i, j, r, totVertex, graphTotalEdges)
  {
    var j: nat, k: nat := l, 0;
    while k < |cs|
      invariant k <= |cs| && j < |cs| && j != i
      invariant Score(cs, i, j, r, totVertex, graphTotalEdges) > 0.0
      invariant forall m: nat :: m < k && m != i ==>
        Score(cs, i, m, r, totVertex, graphTotalEdges) <= Score(cs, i, j, r, totVertex, graphTotalEdges)
    {
      if k != i && Score(cs, i, k, r, totVertex, graphTotalEdges) > Score(cs, i, j, r, totVertex, graphTotalEdges) {
        j := k;
      }
      k := k + 1;
    }
    assert IsBest(cs, i, j, r, totVertex, graphTotalEdges);
  }

  lemma MultisetAddOne(s: set<nat>, x: nat)
    requires x !in s
    ensures multiset(s + {x}) == multiset(s) + multiset{x}
  {
  }

  lemma PlaceNode(order: seq<nat>, keys: set<nat>, rest: set<nat>, node: nat)
    requires multiset(order) == multiset(keys - rest) && node in rest && rest <= keys
    ensures multiset(order + [node]) == multiset(keys - (rest - {node}))
  {
    assert keys - (rest - {node}) == (keys - rest) + {node};
    MultisetAddOne(keys - rest, node);
  }

  /** Once every key is placed the singletons partition the graph, and on a
      loop-free graph their cached sets describe them. */
  lemma PlacedAll(order: seq<nat>, keys: set<nat>, adj: Adjacency, graphTotalEdges: nat)
    requires multiset(order) == multiset(keys) && |order| > 0 && graphTotalEdges > 0
    ensures var comms := Singletons(order, adj, graphTotalEdges);
      && Partition(comms, keys, graphTotalEdges)
      && Total(Densities(comms)) == |order| as real
      && Reg(Total(Densities(comms)), |order|, |order|) == 0.0
      && (LoopFree(adj) ==> ExactComms(comms, adj, 0.0, |order|))
  {
    var comms := Singletons(order, adj, graphTotalEdges);
    SingletonsFacts(order, adj, graphTotalEdges);
    RegAllSingletons(|order|);
    if LoopFree(adj) {
      forall k | 0 <= k < |comms| ensures Tracks(comms[k], adj) {
        SingletonTracks(order[k], adj, graphTotalEdges);
      }
    }
  }

  /** The value-level invariant of a set: at least one community, the
      communities partition the graph's nodes, and the modularity is the
      sum of their terms. */
  ghost predicate Sound(cs: seq<CollectionView>, keys: set<nat>, graphTotalEdges: nat, modularity: real)
  {
    |cs| > 0 && Partition(cs, keys, graphTotalEdges) && modularity == Total(Mods(cs))
  }

  /** coagulate keeps the invariant, with the modularity update it makes;
      on a loop-free graph it keeps the cached sets exact, and modularity
      plus regularisation then grows by exactly the partner's score. */
  lemma CoagulatedKeeps(cs: seq<CollectionView>, keys: set<nat>, adj: Adjacency, graphTotalEdges: nat,
                        totVertex: nat, modularity: real, r: real, i: nat, j: nat)
    requires Sound(cs, keys, graphTotalEdges, modularity) && i < |cs| && j < |cs| && i != j && totVertex > 0
    ensures var m := modularity - (cs[i].modularity + cs[j].modularity) + Merged(cs[i], cs[j], graphTotalEdges).modularity;
      && Sound(Coagulated(cs, i, j, graphTotalEdges), keys, graphTotalEdges, m)
      && (ExactComms(cs, adj, r, totVertex) && Symmetric(adj) ==>
            && ExactComms(Coagulated(cs, i, j, graphTotalEdges), adj, CostNewReg(cs[i], cs[j], r, |cs|, totVertex), totVertex)
            && m + CostNewReg(cs[i], cs[j], r, |cs|, totVertex) == modularity + r + Score(cs, i, j, r, totVertex, graphTotalEdges))
  {
    CoagulatedPartition(cs, keys, graphTotalEdges, i, j);
    if ExactComms(cs, adj, r, totVertex) && Symmetric(adj) {
      CoagulatedExact(cs, keys, adj, graphTotalEdges, r, totVertex, i, j);
    }
  }

  /** split keeps the invariant, with the modularity update it makes
      (n communities before, m after); on a loop-free graph it keeps the
      cached sets exact with the regularisation split computes. */
  lemma SplitKeeps(cs: seq<CollectionView>, keys: set<nat>, adj: Adjacency, graphTotalEdges: nat,
                   totVertex: nat, modularity: real, r: real, i: nat, n: nat, m: nat, newMod: real, newReg: real)
    requires Sound(cs, keys, graphTotalEdges, modularity) && i < |cs| && totVertex > 0
    requires n == |cs| && m == n - 1 + |cs[i].nodes|
    requires newMod == modularity - cs[i].modularity + Total(Mods(Singletons(cs[i].nodes, adj, graphTotalEdges)))
    requires newReg == Reg(InvertReg(r, n, totVertex) - cs[i].density + |cs[i].nodes| as real, m, totVertex)
    ensures Sound(AfterSplit(cs, i, adj, graphTotalEdges), keys, graphTotalEdges, newMod)
    ensures ExactComms(cs, adj, r, totVertex) ==> ExactComms(AfterSplit(cs, i, adj, graphTotalEdges), adj, newReg, totVertex)
  {
    SplitPartition(cs, keys, adj, graphTotalEdges, i);
    if ExactComms(cs, adj, r, totVertex) {
      SplitExact(cs, keys, adj, graphTotalEdges, r, totVertex, i);
    }
  }

  /** new(Collection) followed by initialize(node). */
  method NewSingleton(node: nat, g: Graph) returns (c: Collection)
    requires g.totEdges > 0
    ensures fresh(c) && c.View() == Singleton(node, g.list, g.totEdges)
  {
    c := new Collection();
    c.Initialize(node, g);
  }

  /** The first count slots hold distinct communities of members, whose
      states are views. */
  ghost predicate Stores(slots: array<Collection?>, count: nat, views: seq<CollectionView>, members: set<Collection>)
    reads slots, members
  {
    && count == |views| <= slots.Length
    && (forall k :: 0 <= k < count ==> slots[k] != null && slots[k] in members)
    && (forall k, l :: 0 <= k < l < count ==> slots[k] != slots[l])
    && (forall k :: 0 <= k < count ==> slots[k].View() == views[k])
  }

  /** Store a new community in the next free slot. */
  method Store(slots: array<Collection?>, count: nat, c: Collection,
               ghost views: seq<CollectionView>, ghost members: set<Collection>)
    requires Stores(slots, count, views, members) && count < slots.Length && c !in members
    modifies slots
    ensures Stores(slots, count + 1, views + [c.View()], members + {c})
    ensures slots[count + 1..] == old(slots[count + 1..])
  {
    slots[count] := c;
  }

  /** merge(slots[i], slots[j]): slot i holds the joined community, slot j
      its partner with i's nodes dropped from its boundary. */
  method MergeSlots(slots: array<Collection?>, n: nat, i: nat, j: nat, graphTotalEdges: nat,
                    ghost views: seq<CollectionView>, ghost members: set<Collection>)
    requires Stores(slots, n, views, members) && i < n && j < n && i != j
    requires graphTotalEdges > 0 && |views[i].nodes| >= 1 && Counted(views[j])
    modifies slots[i], slots[j]
    ensures Stores(slots, n, views[i := Merged(views[i], views[j], graphTotalEdges)][j := slots[j].View()], members)
    ensures slots[i].View() == Merged(views[i], views[j], graphTotalEdges)
    ensures slots[j].View() == views[j].(outNodes := views[j].outNodes - Elems(views[i].nodes))
  {
    Merge(slots[i], slots[j], graphTotalEdges);
  }

  /** A fresh singleton of node, stored in the next free slot. */
  method StoreSingleton(slots: array<Collection?>, count: nat, node: nat, g: Graph,
                        ghost views: seq<CollectionView>, ghost members: set<Collection>)
    returns (c: Collection)
    requires Stores(slots, count, views, members) && count < slots.Length && g.totEdges > 0
    modifies slots
    ensures fresh(c) && c.View() == Singleton(node, g.list, g.totEdges)
    ensures Stores(slots, count + 1, views + [c.View()], members + {c})
    ensures slots[count + 1..] == old(slots[count + 1..])
  {
    c := NewSingleton(node, g);
    Store(slots, count, c, views, members);
  }

  /** Drop slot j: the last live slot moves into it and its old place is
      cleared. */
  method RemoveSlot(slots: array<Collection?>, n: nat, j: nat,
                    ghost views: seq<CollectionView>, ghost members: set<Collection>)
    requires Stores(slots, n, views, members) && j < n
    requires forall k :: n <= k < slots.Length ==> slots[k] == null
    modifies slots
    ensures Stores(slots, n - 1, RemoveSwap(views, j), members)
    ensures forall k :: n - 1 <= k < slots.Length ==> slots[k] == null
    ensures slots[..n - 1] == RemoveSwap(old(slots[..n]), j)
  {
    ghost var before := slots[..n];
    slots[j] := slots[n - 1];
    slots[n - 1] := null;
    assert slots[..n - 1] == RemoveSwap(before, j);
  }

  /** The loop of split: a fresh singleton for each node, stored in the
      next free slot, its modularity and density added to the running sums. */
  method AppendSingletons(slots: array<Collection?>, count: nat, nodes: seq<nat>, g: Graph,
                          modIn: real, regIn: real,
                          ghost views: seq<CollectionView>, ghost members: set<Collection>)
    returns (newCount: nat, mod: real, reg: real,
             ghost newViews: seq<CollectionView>, ghost newMembers: set<Collection>)
    requires Stores(slots, count, views, members)
    requires forall k :: count <= k < slots.Length ==> slots[k] == null
    requires count + |nodes| <= slots.Length && g.totEdges > 0
    modifies slots
    ensures newCount == count + |nodes|
    ensures newViews == views + Singletons(nodes, g.list, g.totEdges)
    ensures Stores(slots, newCount, newViews, newMembers)
    ensures forall k :: newCount <= k < slots.Length ==> slots[k] == null
    ensures members <= newMembers && fresh(newMembers - members)
    ensures mod == modIn + Total(Mods(Singletons(nodes, g.list, g.totEdges)))
    ensures reg == regIn + |nodes| as real
  {
    ghost var adj, edges := g.list, g.totEdges;
    newCount, mod, reg := count, modIn, regIn;
    newViews, newMembers := views, members;
    var k := 0;
    while k < |nodes|
      invariant k <= |nodes| && newCount == count + k
      invariant newViews == views + Singletons(nodes[..k], adj, edges)
      invariant Stores(slots, newCount, newViews, newMembers)
      invariant forall l :: newCount <= l < slots.Length ==> slots[l] == null
      invariant members <= newMembers && fresh(newMembers - members)
      invariant mod == modIn + Total(Mods(Singletons(nodes[..k], adj, edges)))
      invariant reg == regIn + k as real
    {
      var s := StoreSingleton(slots, newCount, nodes[k], g, newViews, newMembers);
      assert nodes[..k + 1] == nodes[..k] + [nodes[k]];
      SingletonsSnoc(nodes[..k], nodes[k], adj, edges);
      mod := mod + s.modularity;
      reg := reg + s.density;
      newViews := newViews + [s.View()];
      newMembers := newMembers + {s};
      newCount := newCount + 1;
      k := k + 1;
    }
    assert nodes[..k] == nodes;
  }

  /** The loop of initialize: a fresh singleton for every key, stored in
      the slots in turn, with their modularity and density totals. */
  method PlaceSingletons(g: Graph)
    returns (slots: array<Collection?>, mod: real, reg: real,
             ghost order: seq<nat>, ghost views: seq<CollectionView>, ghost members: set<Collection>)
    requires g.totEdges > 0 && g.totVertex == |g.list.Keys|
    ensures fresh(slots) && fresh(members)
    ensures slots.Length == g.totVertex == |order|
    ensures multiset(order) == multiset(g.list.Keys)
    ensures Stores(slots, |order|, views, members)
    ensures views == Singletons(order, g.list, g.totEdges)
    ensures mod == Total(Mods(views)) && reg == |order| as real
  {
    var n := g.totVertex;
    ghost var keys, adj, edges := g.list.Keys, g.list, g.totEdges;
    slots := new Collection?[n](_ => null);
    var count := 0;
    mod, reg := 0.0, 0.0;
    order, views, members := [], [], {};
    var rest := g.list.Keys;
    while rest != {}
      invariant rest <= keys
      invariant count == |order| && count + |rest| == n == slots.Length
      invariant multiset(order) == multiset(keys - rest)
      invariant Stores(slots, count, views, members)
      invariant views == Singletons(order, adj, edges)
      invariant mod == Total(Mods(views)) && reg == count as real
      invariant fresh(members)
      decreases rest
    {
      var node :| node in rest;
      var c := StoreSingleton(slots, count, node, g, views, members);
      PlaceNode(order, keys, rest, node);
      SingletonsSnoc(order, node, adj, edges);
      mod := mod + c.modularity;
      reg := reg + c.density;
      order := order + [node];
      views := views + [c.View()];
      members := members + {c};
      count := count + 1;
      rest := rest - {node};
    }
    assert keys - rest == keys;
  }

  /** The inner loop of writeRes: print each id of a community not printed
      before, followed by a space, and mark it printed. */
  method WriteIds(ids: seq<nat>, printed: set<nat>, out: string) returns (text: string, done: set<nat>)
    ensures text == out + FormatIds(Unprinted(ids, printed))
    ensures done == printed + Elems(ids)
  {
    text, done := out, printed;
    var k := 0;
    while k < |ids|
      invariant k <= |ids|
      invariant text == out + FormatIds(Unprinted(ids[..k], printed))
      invariant done == printed + Elems(ids[..k])
    {
      var node := ids[k];
      WriteIdStep(ids, k, printed, done);
      if node !in done {
        AppendAssoc(out, FormatIds(Unprinted(ids[..k], printed)), Decimal(node) + " ");
        text := text + (Decimal(node) + " ");
      }
      done := done + {node};
      k := k + 1;
    }
    assert ids[..k] == ids;
  }

  /** The last loop of writeRes: every graph node not printed yet, in the
      map's iteration order (tail), on one unterminated line. */
  method WriteRest(keys: set<nat>, printed: set<nat>, out: string) returns (text: string, tail: seq<nat>)
    ensures text == out + FormatIds(tail)
    ensures NoDup(tail) && Elems(tail) == keys - printed
  {
    text, tail := out, [];
    var done := printed;
    var rest := keys;
    while rest != {}
      invariant rest <= keys
      invariant done == printed + (keys - rest)
      invariant text == out + FormatIds(tail)
      invariant NoDup(tail) && Elems(tail) == (keys - rest) - printed
      decreases rest
    {
      var node :| node in rest;
      WriteRestStep(keys, rest, printed, done, tail, node);
      if node !in done {
        AppendAssoc(out, FormatIds(tail), Decimal(node) + " ");
        text := text + (Decimal(node) + " ");
        tail := tail + [node];
      }
      done := done + {node};
      rest := rest - {node};
    }
  }

  class Set {
    var collections: array<Collection?>
    var numCollections: nat
    var regularization: real
    var modularity: real
    ghost var Comms: seq<CollectionView>
    ghost var Members: set<Collection>

    /** The live slots hold distinct communities whose state is Comms; the
        slots past them are nil. */
    ghost predicate Slots()
      reads this, collections, Members
    {
      && Stores(collections, numCollections, Comms, Members)
      && (forall k :: numCollections <= k < collections.Length ==> collections[k] == null)
    }

    /** The communities partition the graph's nodes, and modularity is the
        sum of their terms. */
    ghost predicate Valid(g: Graph)
      reads this, collections, Members, g
    {
      && Slots()
      && g.Valid()
      && collections.Length == g.totVertex
      && g.totEdges > 0
      && Sound(Comms, g.list.Keys, g.totEdges, modularity)
    }

    /** On a loop-free graph: the cached sets describe the communities and
        regularisation is that of their density sum. */
    ghost predicate Exact(g: Graph)
      reads this, collections, Members, g
    {
      Valid(g) && ExactComms(Comms, g.list, regularization, g.totVertex)
    }

    /** initialize: one singleton per graph node, in the map's iteration
        order; regularisation comes out exactly 0. */
    constructor Initialize(g: Graph)
      requires g.Valid() && g.totVertex > 0
      ensures Valid(g) && fresh(collections) && fresh(Members)
      ensures numCollections == g.totVertex && regularization == 0.0
      ensures forall k :: 0 <= k < |Comms| ==> Comms[k] == Singleton(Comms[k].nodes[0], g.list, g.totEdges)
      ensures LoopFree(g.list) ==> Exact(g)
    {
      var slots, mod, reg, order, views, members := PlaceSingletons(g);
      PlacedAll(order, g.list.Keys, g.list, g.totEdges);
      collections, numCollections, modularity, regularization := slots, g.totVertex, mod, reg;
      Comms, Members := views, members;
      new;
      Regularize(g.totVertex);
    }

    /** The scan of coagulate(i): a largest positive increase over every
        other slot, with its slot, or 0 when no join increases the
        objective. */
    method BestPartner(i: nat, g: Graph) returns (maxv: real, index: nat)
      requires Valid(g) && i < numCollections
      ensures maxv >= 0.0
      ensures maxv > 0.0 ==>
        IsBest(Comms, i, index, regularization, g.totVertex, g.totEdges)
        && Score(Comms, i, index, regularization, g.totVertex, g.totEdges) == maxv
      ensures maxv == 0.0 ==>
        forall l :: 0 <= l < |Comms| && l != i ==> Score(Comms, i, l, regularization, g.totVertex, g.totEdges) <= 0.0
    {
      var n := numCollections;
      maxv, index := 0.0, 0;
      var j := 0;
      while j < n
        invariant j <= n && maxv >= 0.0
        invariant maxv > 0.0 ==>
          index < j && index != i && Score(Comms, i, index, regularization, g.totVertex, g.totEdges) == maxv
        invariant forall l :: 0 <= l < j && l != i ==>
          Score(Comms, i, l, regularization, g.totVertex, g.totEdges) <= maxv
      {
        if i != j {
          var a, b := collections[i].View(), collections[j].View();
          var newMod := CostNewMod(a, b, g.totEdges);
          var newReg := CostNewReg(a, b, regularization, n, g.totVertex);
          var increase := (newMod - (a.modularity + b.modularity)) + (newReg - regularization);
          assert increase == Score(Comms, i, j, regularization, g.totVertex, g.totEdges);
          if increase > maxv {
            index := j;
            maxv := increase;
          }
        }
        j := j + 1;
      }
    }

    /** The slot work of a join: merge slot j into slot i and add the
        joined term to modularity, then move the last live slot into
        slot j. */
    method JoinSlots(i: nat, j: nat, graphTotalEdges: nat)
      requires Slots() && i < numCollections && j < numCollections && i != j
      requires graphTotalEdges > 0 && |Comms[i].nodes| >= 1 && Counted(Comms[j])
      modifies this, collections, Members
      ensures Slots() && Members == old(Members) && collections == old(collections)
      ensures Comms == Coagulated(old(Comms), i, j, graphTotalEdges)
      ensures numCollections == old(numCollections) - 1
      ensures regularization == old(regularization)
      ensures modularity == old(modularity) + Merged(old(Comms)[i], old(Comms)[j], graphTotalEdges).modularity
    {
      ghost var cs := Comms;
      ghost var joined := cs[i := Merged(cs[i], cs[j], graphTotalEdges)];
      var c2 := collections[j];
      MergeAt(i, j, graphTotalEdges);
      RemoveSwapUpdate(joined, j, c2.View());
      DropSlot(j);
    }

    /** merge(slots[i], slots[j]) with Comms following the two communities,
        then the joined community's term added to modularity. */
    method MergeAt(i: nat, j: nat, graphTotalEdges: nat)
      requires Slots() && i < numCollections && j < numCollections && i != j
      requires graphTotalEdges > 0 && |Comms[i].nodes| >= 1 && Counted(Comms[j])
      modifies this, collections[i], collections[j]
      ensures Slots() && Members == old(Members) && collections == old(collections)
      ensures numCollections == old(numCollections)
      ensures Comms == old(Comms)[i := Merged(old(Comms)[i], old(Comms)[j], graphTotalEdges)][j := collections[j].View()]
      ensures regularization == old(regularization)
      ensures modularity == old(modularity) + Merged(old(Comms)[i], old(Comms)[j], graphTotalEdges).modularity
      ensures collections[i].View() == Merged(old(Comms)[i], old(Comms)[j], graphTotalEdges)
      ensures collections[j].View() == old(Comms)[j].(outNodes := old(Comms)[j].outNodes - Elems(old(Comms)[i].nodes))
    {
      MergeSlots(collections, numCollections, i, j, graphTotalEdges, Comms, Members);
      Comms := Comms[i := Merged(Comms[i], Comms[j], graphTotalEdges)][j := collections[j].View()];
      modularity := modularity + collections[i].modularity;
    }

    /** The join of coagulate(i) with partner j: update regularisation and
        modularity around merging slot j into slot i and dropping slot j. */
    method Join(i: nat, j: nat, g: Graph)
      requires Slots() && i < numCollections && j < numCollections && i != j
      requires g.totEdges > 0 && g.totVertex > 0
      requires Consistent(Comms[i], g.totEdges) && Consistent(Comms[j], g.totEdges)
      modifies this, collections, Members
      ensures Slots() && Members == old(Members) && collections == old(collections)
      ensures Comms == Coagulated(old(Comms), i, j, g.totEdges)
      ensures numCollections == old(numCollections) - 1
      ensures regularization == CostNewReg(old(Comms)[i], old(Comms)[j], old(regularization), old(numCollections), g.totVertex)
      ensures modularity == old(modularity) - (old(Comms)[i].modularity + old(Comms)[j].modularity)
                            + Merged(old(Comms)[i], old(Comms)[j], g.totEdges).modularity
    {
      var c1, c2 := collections[i], collections[j];
      regularization := CostNewReg(c1.View(), c2.View(), regularization, numCollections, g.totVertex);
      modularity := modularity - (c1.modularity + c2.modularity);
      JoinSlots(i, j, g.totEdges);
    }

    /** coagulate(i): join slot i with its best partner when that increases
        modularity plus regularisation; report whether it did, and (as a
        ghost) with which slot. */
    method Coagulate(i: nat, g: Graph) returns (merged: bool, ghost partner: nat)
      requires Valid(g) && i < numCollections
      modifies this, collections, Members
      ensures Valid(g) && Members == old(Members) && collections == old(collections)
      ensures merged <==>
        exists l :: 0 <= l < |old(Comms)| && l != i
                    && Score(old(Comms), i, l, old(regularization), g.totVertex, g.totEdges) > 0.0
      ensures !merged ==>
        Comms == old(Comms) && numCollections == old(numCollections)
        && regularization == old(regularization) && modularity == old(modularity)
      ensures merged ==> IsBest(old(Comms), i, partner, old(regularization), g.totVertex, g.totEdges)
      ensures merged ==> Comms == Coagulated(old(Comms), i, partner, g.totEdges)
      ensures merged ==> numCollections == old(numCollections) - 1
      ensures merged ==>
        regularization == CostNewReg(old(Comms)[i], old(Comms)[partner], old(regularization), old(numCollections), g.totVertex)
      ensures merged ==>
        modularity == old(modularity) - (old(Comms)[i].modularity + old(Comms)[partner].modularity)
                      + Merged(old(Comms)[i], old(Comms)[partner], g.totEdges).modularity
      ensures old(Exact(g)) ==> Exact(g)
      ensures merged ==> modularity + regularization > old(modularity + regularization)
      ensures old(Exact(g)) && merged ==>
        modularity + regularization
        == old(modularity + regularization) + Score(old(Comms), i, partner, old(regularization), g.totVertex, g.totEdges)
    {
      var maxv, index := BestPartner(i, g);
      partner := index;
      if maxv > 0.0 {
        ghost var cs, r, mod := Comms, regularization, modularity;
        ghost var wasExact := Exact(g);
        assert IsBest(cs, i, index, r, g.totVertex, g.totEdges);
        Join(i, index, g);
        CoagulatedKeeps(cs, g.list.Keys, g.list, g.totEdges, g.totVertex, mod, r, i, index);
        assert modularity + regularization >= mod + r + maxv;
        if wasExact {
          assert modularity + regularization == mod + r + maxv;
        }
        merged := true;
      } else {
        merged := false;
      }
    }

    /** split(i) on a valid set: the partition and its bookkeeping are kept,
        and so is exactness. */
    method Split(i: nat, g: Graph)
      requires Valid(g) && i < numCollections
      modifies this, collections
      ensures Valid(g) && collections == old(collections)
      ensures old(Members) <= Members
      ensures Comms == AfterSplit(old(Comms), i, g.list, g.totEdges)
      ensures numCollections == old(numCollections) - 1 + |old(Comms)[i].nodes|
      ensures modularity == old(modularity) - old(Comms)[i].modularity
                            + Total(Mods(Singletons(old(Comms)[i].nodes, g.list, g.totEdges)))
      ensures regularization == Reg(InvertReg(old(regularization), old(numCollections), g.totVertex)
                                    - old(Comms)[i].density + |old(Comms)[i].nodes| as real,
                                    numCollections, g.totVertex)
      ensures old(Exact(g)) ==> Exact(g)
    {
      ghost var cs, r, mod, n := Comms, regularization, modularity, numCollections;
      SplitPartition(cs, g.list.Keys, g.list, g.totEdges, i);
      SplitSums(i, g);
      SplitKeeps(cs, g.list.Keys, g.list, g.totEdges, g.totVertex, mod, r, i, n, numCollections, modularity, regularization);
    }

    /** split(i): take community i out of the sums, drop its slot, add a
        singleton community for each of its nodes, and regularise over the
        new count. */
    method SplitSums(i: nat, g: Graph)
      requires Slots() && i < numCollections && g.totEdges > 0 && g.totVertex > 0
      requires 1 <= |Comms[i].nodes| && numCollections - 1 + |Comms[i].nodes| <= collections.Length
      modifies this, collections
      ensures Slots() && collections == old(collections)
      ensures old(Members) <= Members
      ensures Comms == AfterSplit(old(Comms), i, g.list, g.totEdges)
      ensures numCollections == old(numCollections) - 1 + |old(Comms)[i].nodes|
      ensures modularity == old(modularity) - old(Comms)[i].modularity
                            + Total(Mods(Singletons(old(Comms)[i].nodes, g.list, g.totEdges)))
      ensures regularization == Reg(InvertReg(old(regularization), old(numCollections), g.totVertex)
                                    - old(Comms)[i].density + |old(Comms)[i].nodes| as real,
                                    numCollections, g.totVertex)
    {
      ghost var cs, r := Comms, regularization;
      ghost var sum := InvertReg(r, numCollections, g.totVertex) - cs[i].density + |cs[i].nodes| as real;
      var c := collections[i];
      modularity := modularity - c.modularity;
      Unregularize(c.density, g.totVertex);
      SplitSlots(i, g);
      assert regularization == sum;
      Regularize(g.totVertex);
    }

    /** The slot work of split(i): drop slot i by moving the last community
        into it, then append a singleton for each of its nodes, adding their
        modularity and density to the running sums. */
    method SplitSlots(i: nat, g: Graph)
      requires Slots() && i < numCollections && g.totEdges > 0
      requires 1 <= |Comms[i].nodes| && numCollections - 1 + |Comms[i].nodes| <= collections.Length
      modifies this, collections
      ensures Slots() && collections == old(collections)
      ensures old(Members) <= Members && fresh(Members - old(Members))
      ensures Comms == AfterSplit(old(Comms), i, g.list, g.totEdges)
      ensures numCollections == old(numCollections) - 1 + |old(Comms)[i].nodes|
      ensures modularity == old(modularity) + Total(Mods(Singletons(old(Comms)[i].nodes, g.list, g.totEdges)))
      ensures regularization == old(regularization) + |old(Comms)[i].nodes| as real
    {
      var nodes := collections[i].nodes;
      DropSlot(i);
      AddSingletons(nodes, g);
    }

    /** Drop slot i: the last live community moves into it. */
    method DropSlot(i: nat)
      requires Slots() && i < numCollections
      modifies this, collections
      ensures Slots() && collections == old(collections) && Members == old(Members)
      ensures Comms == RemoveSwap(old(Comms), i) && numCollections == old(numCollections) - 1
      ensures modularity == old(modularity) && regularization == old(regularization)
    {
      RemoveSlot(collections, numCollections, i, Comms, Members);
      numCollections, Comms := numCollections - 1, RemoveSwap(Comms, i);
    }

    /** Append a fresh singleton for each node in the free slots, adding
        their modularity and density to the running sums. */
    method AddSingletons(nodes: seq<nat>, g: Graph)
      requires Slots() && numCollections + |nodes| <= collections.Length && g.totEdges > 0
      modifies this, collections
      ensures Slots() && collections == old(collections)
      ensures old(Members) <= Members && fresh(Members - old(Members))
      ensures Comms == old(Comms) + Singletons(nodes, g.list, g.totEdges)
      ensures numCollections == old(numCollections) + |nodes|
      ensures modularity == old(modularity) + Total(Mods(Singletons(nodes, g.list, g.totEdges)))
      ensures regularization == old(regularization) + |nodes| as real
    {
      var count, mod, reg, views, members :=
        AppendSingletons(collections, numCollections, nodes, g, modularity, regularization, Comms, Members);
      numCollections, modularity, regularization, Comms, Members := count, mod, reg, views, members;
    }

    /** writeRes, as the text it writes: one line per live community with
        its ids not printed before, then the graph's remaining nodes (tail)
        on a last line without newline. Every graph node and community
        member is printed exactly once; on a valid set nothing remains for
        the last line, and reading the lines back gives the communities. */
    method WriteRes(g: Graph) returns (out: string, tail: seq<nat>)
      requires Slots()
      ensures out == FormatLines(Firsts(NodeLists(Comms))) + FormatIds(tail)
      ensures NoDup(tail) && Elems(tail) == g.list.Keys - Elems(Flatten(NodeLists(Comms)))
      ensures NoDup(Flatten(Firsts(NodeLists(Comms))) + tail)
      ensures Elems(Flatten(Firsts(NodeLists(Comms))) + tail) == g.list.Keys + Elems(Flatten(NodeLists(Comms)))
      ensures Valid(g) ==>
        tail == [] && out == FormatLines(NodeLists(Comms))
        && ParseLines(ScanLines(out)) == Some(NodeLists(Comms))
    {
      ghost var lists := NodeLists(Comms);
      var printed: set<nat> := {};
      var lines := "";
      var i := 0;
      while i < numCollections
        invariant i <= numCollections
        invariant lines == FormatLines(Firsts(lists[..i]))
        invariant printed == Elems(Flatten(lists[..i]))
      {
        FirstsStep(lists, i);
        FormatLinesSnoc(Firsts(lists[..i]), Unprinted(lists[i], printed));
        lines, printed := WriteIds(collections[i].nodes, printed, lines);
        lines := lines + "\n";
        i := i + 1;
      }
      assert lists[..i] == lists;
      out, tail := WriteRest(g.list.Keys, printed, lines);
      PrintedOnce(lists, tail, g.list.Keys);
      if Valid(g) {
        PrintedPartition(lists, tail, g.list.Keys);
        ReadFormattedLines(lists);
      }
    }

    /** The first four steps of split: the regularization of the current
        count turned back into its density sum, less the given density. */
    method Unregularize(density: real, totVertex: nat)
      requires totVertex > 0
      modifies this
      ensures regularization == InvertReg(old(regularization), numCollections, totVertex) - density
      ensures numCollections == old(numCollections) && modularity == old(modularity)
      ensures collections == old(collections) && Comms == old(Comms) && Members == old(Members)
    {
      regularization := regularization * 2.0;
      regularization := regularization + numCollections as real / totVertex as real;
      regularization := regularization * numCollections as real;
      regularization := regularization - density;
    }

    /** The last three steps of initialize and split: the density sum
        becomes the regularization of the current community count. */
    method Regularize(totVertex: nat)
      requires numCollections > 0 && totVertex > 0
      modifies this
      ensures numCollections == old(numCollections) && modularity == old(modularity)
      ensures collections == old(collections) && Comms == old(Comms) && Members == old(Members)
      ensures regularization == Reg(old(regularization), numCollections, totVertex)
    {
      regularization := regularization * (1.0 / numCollections as real);
      regularization := regularization - numCollections as real / totVertex as real;
      regularization := regularization * 0.5;
    }
  }
}
