// The adjacency structure the optimiser reads: graph.list maps each node id to
// the set of its neighbours (the source's map[uint32]map[uint32]bool, whose
// values are only ever true), totEdges counts the pairs read and totVertex the
// distinct ids among them.

module Graphs {
  import opened Text

  type Adjacency = map<nat, set<nat>>

  /** graph.list[v] as a set; a missing key reads as Go's nil map, i.e. empty. */
  function Nbrs(adj: Adjacency, v: nat): set<nat>
  {
    if v in adj then adj[v] else {}
  }

  /** The adjacency after addEdge(to, from): from joins the neighbours of to. */
  function WithEdge(adj: Adjacency, to: nat, from: nat): Adjacency
  {
    adj[to := Nbrs(adj, to) + {from}]
  }

  /** addEdge puts from among the neighbours of to, leaves every other
      node's neighbours as they were, and a second identical call changes
      nothing. */
  lemma WithEdgeFacts(adj: Adjacency, to: nat, from: nat)
    ensures var r := WithEdge(adj, to, from);
      && Nbrs(r, to) == Nbrs(adj, to) + {from}
      && r.Keys == adj.Keys + {to}
      && (forall v :: v != to ==> Nbrs(r, v) == Nbrs(adj, v))
      && WithEdge(r, to, from) == r
  {
    var r := WithEdge(adj, to, from);
    assert Nbrs(r, to) + {from} == Nbrs(r, to);
  }

  /** Each pair (from, to) read is inserted in both directions, as
      addEdge(to, from) followed by addEdge(from, to). */
  function InsertPair(adj: Adjacency, p: (nat, nat)): Adjacency
  {
    WithEdge(WithEdge(adj, p.1, p.0), p.0, p.1)
  }

  /** The adjacency built from a sequence of pairs, in reading order. */
  function AdjacencyOf(ps: seq<(nat, nat)>): Adjacency
  {
    if ps == [] then map[] else InsertPair(AdjacencyOf(ps[..|ps| - 1]), ps[|ps| - 1])
  }

  /** The complete pairs of a token stream: a trailing odd token forms none. */
  function Pairs(ids: seq<nat>): seq<(nat, nat)>
  {
    if |ids| < 2 then []
    else if |ids| % 2 == 1 then Pairs(ids[..|ids| - 1])
    else Pairs(ids[..|ids| - 2]) + [(ids[|ids| - 2], ids[|ids| - 1])]
  }

  /** Every token parsed as strconv.ParseUint(tok, 10, 32); None at the first failure. */
  function ParseAll(tokens: seq<string>): (r: Option<seq<nat>>)
    ensures r.Some? ==> |r.value| == |tokens| && forall id :: id in r.value ==> id < U32Limit
  {
    if tokens == [] then Some([])
    else match (ParseAll(tokens[..|tokens| - 1]), ParseU32(tokens[|tokens| - 1]))
      case (Some(ids), Some(id)) => Some(ids + [id])
      case _ => None
  }

  lemma {:induction false} ParseAllSucceeds(tokens: seq<string>)
    ensures ParseAll(tokens).Some? <==> forall k :: 0 <= k < |tokens| ==> ParseU32(tokens[k]).Some?
    ensures ParseAll(tokens).Some? ==>
      forall k :: 0 <= k < |tokens| ==> ParseU32(tokens[k]) == Some(ParseAll(tokens).value[k])
  {
    if tokens != [] {
      var init := tokens[..|tokens| - 1];
      ParseAllSucceeds(init);
      assert forall k :: 0 <= k < |init| ==> init[k] == tokens[k];
    }
  }

  predicate Linked(ps: seq<(nat, nat)>, x: nat, y: nat)
  {
    exists k :: 0 <= k < |ps| && (ps[k] == (x, y) || ps[k] == (y, x))
  }

  function Endpoints(ps: seq<(nat, nat)>): set<nat>
  {
    (set p | p in ps :: p.0) + (set p | p in ps :: p.1)
  }

  /** y is a neighbour of x exactly when some pair read joined them, in
      either order; so the adjacency is symmetric and self-loops are kept. */
  lemma {:induction false} AdjacencyOfLinks(ps: seq<(nat, nat)>, x: nat, y: nat)
    ensures y in Nbrs(AdjacencyOf(ps), x) <==> Linked(ps, x, y)
  {
    if ps != [] {
      var init := ps[..|ps| - 1];
      AdjacencyOfLinks(init, x, y);
      if Linked(init, x, y) {
        var k :| 0 <= k < |init| && (init[k] == (x, y) || init[k] == (y, x));
        assert ps[k] == init[k];
      }
      forall k | 0 <= k < |init| ensures init[k] == ps[k] { }
    }
  }

  /** The nodes of the graph are exactly the ids that occur in complete pairs. */
  lemma {:induction false} AdjacencyOfKeys(ps: seq<(nat, nat)>)
    ensures AdjacencyOf(ps).Keys == Endpoints(ps)
  {
    if ps != [] {
      var init := ps[..|ps| - 1];
      AdjacencyOfKeys(init);
      assert ps == init + [ps[|ps| - 1]];
      assert Endpoints(ps) == Endpoints(init) + {ps[|ps| - 1].0, ps[|ps| - 1].1};
    }
  }

  lemma PairsExtend(ids: seq<nat>, half: nat, a: nat, b: nat)
    requires |ids| == 2 * half
    ensures Pairs(ids + [a, b]) == Pairs(ids) + [(a, b)]
  {
    var ext := ids + [a, b];
    var n := |ext|;
    assert n == 2 * (half + 1);
    assert n % 2 == 0;
    assert ext[..n - 2] == ids;
    assert ext[n - 2] == a && ext[n - 1] == b;
  }

  lemma PairsOddTail(ids: seq<nat>, half: nat, a: nat)
    requires |ids| == 2 * half
    ensures Pairs(ids + [a]) == Pairs(ids)
  {
    var ext := ids + [a];
    var n := |ext|;
    assert n == 2 * half + 1;
    assert n % 2 == 1;
    assert ext[..n - 1] == ids;
  }

  lemma {:induction false} PairsCount(ids: seq<nat>, half: nat)
    requires |ids| == 2 * half || |ids| == 2 * half + 1
    ensures |Pairs(ids)| == half == |ids| / 2
  {
    if half > 0 {
      if |ids| % 2 == 1 {
        PairsCount(ids[..|ids| - 1], half);
      } else {
        PairsCount(ids[..|ids| - 2], half - 1);
      }
    }
  }

  predicate Symmetric(adj: Adjacency)
  {
    forall v, w :: v in adj && w in adj[v] ==> w in adj && v in adj[w]
  }

  predicate LoopFree(adj: Adjacency)
  {
    forall v :: v in adj ==> v !in adj[v]
  }

  /** The adjacency built from any pairs is symmetric. */
  lemma AdjacencyOfSymmetric(ps: seq<(nat, nat)>)
    ensures Symmetric(AdjacencyOf(ps))
  {
    var adj := AdjacencyOf(ps);
    forall v, w | v in adj && w in adj[v] ensures w in adj && v in adj[w] {
      AdjacencyOfLinks(ps, v, w);
      AdjacencyOfLinks(ps, w, v);
    }
  }

  class Graph {
    var list: Adjacency
    var totEdges: nat
    var totVertex: nat

    /** What ReadGraph establishes and the optimiser relies on. */
    ghost predicate Valid()
      reads this
    {
      && totVertex == |list.Keys|
      && (list.Keys != {} ==> totEdges > 0)
      && Symmetric(list)
      && (forall v :: v in list ==> v < U32Limit)
    }

    /** addEdge(to, from): insert from into the neighbour set of to,
        creating that set when to is new. */
    method AddEdge(to: nat, from: nat)
      modifies this
      ensures list == WithEdge(old(list), to, from)
      ensures from in Nbrs(list, to) && forall v :: v != to ==> Nbrs(list, v) == Nbrs(old(list), v)
      ensures totEdges == old(totEdges) && totVertex == old(totVertex)
    {
      if to in list {
        if from !in list[to] {
          list := list[to := list[to] + {from}];
        } else {
          assert list[to] + {from} == list[to];
          assert list == WithEdge(list, to, from);
        }
      } else {
        assert Nbrs(list, to) + {from} == {from};
        list := list[to := {from}];
      }
    }

    /** ReadGraph over an already tokenised input: read tokens two at a
        time as (from, to) and insert the edge both ways; a trailing unpaired
        token ends the input. Every token read must parse as a uint32, or the
        run aborts (ok is false and the graph is not used). */
    method ReadGraph(tokens: seq<string>) returns (ok: bool)
      modifies this
      ensures ok <==> ParseAll(tokens).Some?
      ensures ok ==> && list == AdjacencyOf(Pairs(ParseAll(tokens).value))
                     && totEdges == |tokens| / 2
                     && totVertex == |list.Keys|
      ensures ok ==> Valid() && totVertex == |Endpoints(Pairs(ParseAll(tokens).value))|
    {
      var total;
      ghost var ids;
      ok, total, ids := ReadPairs(tokens);
      if ok {
        Half(|tokens|, total);
        totEdges := total;
        totVertex := |list.Keys|;
        ReadGraphValid(ids, total, list);
      }
    }

    /** The scanning loop of ReadGraph: the adjacency of the pairs read, and
        their number. */
    method ReadPairs(tokens: seq<string>) returns (ok: bool, total: nat, ghost ids: seq<nat>)
      modifies this
      ensures ok <==> ParseAll(tokens).Some?
      ensures ok ==> && ParseAll(tokens) == Some(ids)
                     && (|tokens| == 2 * total || |tokens| == 2 * total + 1)
                     && list == AdjacencyOf(Pairs(ids))
    {
      list := map[];
      total := 0;
      var k := 0;
      ids := [];
      while k < |tokens|
        invariant k <= |tokens| && (k == 2 * total || k == 2 * total + 1)
        invariant k == 2 * total + 1 ==> k == |tokens|
        invariant ParseAll(tokens[..k]) == Some(ids)
        invariant list == AdjacencyOf(Pairs(ids))
      {
        var from := ParseU32(tokens[k]);
        ParseStep(tokens, k, ids);
        if from.None? {
          NoParsePrefix(tokens, k + 1);
          return false, total, ids;
        }
        if k + 1 == |tokens| {
          PairsOddTail(ids, total, from.value);
          ids := ids + [from.value];
          k := k + 1;
          break;
        }
        var to := ParseU32(tokens[k + 1]);
        ParseStep(tokens, k + 1, ids + [from.value]);
        if to.None? {
          NoParsePrefix(tokens, k + 2);
          return false, total, ids;
        }
        AddPair(from.value, to.value, ids, total);
        ids := ids + [from.value] + [to.value];
        total := total + 1;
        k := k + 2;
      }
      assert tokens[..k] == tokens;
      ok := true;
    }

    /** The two addEdge calls for one pair read: the adjacency of the pairs
        so far gains the new pair. */
    method AddPair(from: nat, to: nat, ghost ids: seq<nat>, ghost half: nat)
      requires |ids| == 2 * half && list == AdjacencyOf(Pairs(ids))
      modifies this
      ensures list == AdjacencyOf(Pairs(ids + [from] + [to]))
      ensures totEdges == old(totEdges) && totVertex == old(totVertex)
    {
      AddEdge(to, from);
      AddEdge(from, to);
      ReadPairStep(ids, half, from, to);
    }
  }

  lemma Half(n: nat, half: nat)
    requires n == 2 * half || n == 2 * half + 1
    ensures n / 2 == half
  {
  }

  lemma ParseStep(tokens: seq<string>, k: nat, ids: seq<nat>)
    requires k < |tokens| && ParseAll(tokens[..k]) == Some(ids)
    ensures ParseAll(tokens[..k + 1]) ==
      if ParseU32(tokens[k]).Some? then Some(ids + [ParseU32(tokens[k]).value]) else None
  {
    assert tokens[..k + 1][..k] == tokens[..k];
  }

  lemma ReadPairStep(ids: seq<nat>, half: nat, a: nat, b: nat)
    requires |ids| == 2 * half
    ensures AdjacencyOf(Pairs(ids + [a] + [b])) == InsertPair(AdjacencyOf(Pairs(ids)), (a, b))
  {
    assert ids + [a] + [b] == ids + [a, b];
    PairsExtend(ids, half, a, b);
    var ps := Pairs(ids) + [(a, b)];
    assert ps[..|ps| - 1] == Pairs(ids);
  }

  /** A token that does not parse makes every longer prefix fail too. */
  lemma {:induction false} NoParsePrefix(tokens: seq<string>, k: nat)
    requires 0 < k <= |tokens|
    requires ParseAll(tokens[..k]).None?
    ensures ParseAll(tokens).None?
    decreases |tokens| - k
  {
    if k < |tokens| {
      assert tokens[..k + 1][..k] == tokens[..k];
      NoParsePrefix(tokens, k + 1);
    } else {
      assert tokens[..k] == tokens;
    }
  }

  lemma {:induction false} PairsFromIds(ids: seq<nat>)
    ensures forall p :: p in Pairs(ids) ==> p.0 in ids && p.1 in ids
  {
    if |ids| >= 2 {
      var init := if |ids| % 2 == 1 then ids[..|ids| - 1] else ids[..|ids| - 2];
      PairsFromIds(init);
    }
  }

  /** What a successful ReadGraph leaves: a valid graph whose neighbour
      relation is exactly the pairs read and whose node count is the number
      of distinct ids in complete pairs. */
  lemma ReadGraphValid(ids: seq<nat>, total: nat, g: Adjacency)
    requires |ids| == 2 * total || |ids| == 2 * total + 1
    requires g == AdjacencyOf(Pairs(ids))
    requires forall id :: id in ids ==> id < U32Limit
    ensures Symmetric(g)
    ensures |g.Keys| == |Endpoints(Pairs(ids))|
    ensures forall v :: v in g ==> v < U32Limit
    ensures |ids| / 2 == |Pairs(ids)| == total
    ensures g.Keys != {} ==> total > 0
  {
    AdjacencyOfSymmetric(Pairs(ids));
    AdjacencyOfKeys(Pairs(ids));
    PairsFromIds(ids);
    PairsCount(ids, total);
  }
}
