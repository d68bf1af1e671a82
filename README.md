# GraphMiner core in Dafny

A model of the community-detection core of GraphMiner, a Louvain-style
optimiser over an undirected graph. The graph is an adjacency map built from
pairs of node ids. A *Set* holds an array of *Collections* (communities) with
their cached boundary (`outNodes`, `outEdges`), edge counters (`intEdges`,
`totEdges`), density and modularity term. It also keeps the running
modularity and regularisation. The modelled operations are:

- `initialize`: one singleton per graph node;
- `coagulate(i)`: join slot i with its best partner when that raises
  modularity plus regularisation;
- `split(i)`: replace a community by singletons of its nodes;
- `writeRes`: the text of the result file.

Modules, one per file:

- `Text` (text.dfy): `strconv.ParseUint(s, 10, 32)`, fmt's `%d`, and the
  line/field tokeniser of a result file.
- `Graphs` (graph.dfy): `Graph.addEdge` and the pair loop of `ReadGraph`,
  taken over an already tokenised input.
- `Collections` (collection.dfy): `getEdge`, `calcDensity`, `calcMod`,
  `Collection.initialize` and `calcComEdge`.
- `Merging` (merge.dfy): `merge` as four in-place loops on a `Collection`
  object, with `costNewMod` and `costNewReg`.
- `Boundaries` (boundaries.dfy): what the cached sets mean on a loop-free
  graph. Singletons start out exact and `merge` keeps them so. Then
  `calcComEdge` counts exactly the edges `merge` moves inside, so the two
  scorers predict the join.
- `Partitions` (partition.dfy): the live communities as a sequence of values.
  It covers the partition of the graph's nodes they form, their modularity
  and density sums, and what one coagulate or split does to all three.
- `Output` (output.dfy): the lines `writeRes` prints.
- `SeqSums` (seqsums.dfy): sums, flattening and swap-with-last removal on
  sequences.
- `Sets` (sets.dfy): the `Set` class over an `array<Collection?>`, with a
  ghost `Comms` that is the value of its live slots.

Every method of `Set` is specified by what it does to `Comms`, the counters
and the two running sums. The value lemmas carry the invariants:

- the communities partition the graph's nodes;
- `modularity` is the sum of their terms;
- on a loop-free graph, every cached boundary is exact and `regularization`
  is the regularisation of the density sum.

A successful `coagulate` always strictly raises modularity plus
regularisation, because the score never overstates the join's effect.
Where the boundaries are exact, the rise is exactly the chosen partner's
score.

`getEdge(a, a)` follows the code. Its error message suggests that a
self-loop aborts the run. But `check` is passed a nil error (collection.go:17-18)
and only panics on a non-nil one (error.go:5-9). So the zero `Edge{0, 0}` is
returned and the run goes on.

## Model

| member | source | states |
|---|---|---|
| Collections.GetEdge | collection.go:10-22 | for distinct ends, the edge has the smaller end first and joins exactly those two ends; for a loop it is the zero Edge{0, 0}, with no abort |
| Collections.GetEdgeSymmetric | collection.go:10-22 | both orientations give the same edge |
| Collections.GetEdgeSameEnds | collection.go:10-22 | two proper edges are equal exactly when they join the same two nodes |
| Collections.CalcDensity | collection.go:35-44 | a single node has density 1; otherwise density times n(n-1)/2 is the internal edge count, and it is never negative |
| Collections.DensityBounds | collection.go:35-44 | for more than one node: a complete community has density 1, one with no internal edge has density 0, and at most n(n-1)/2 edges give at most 1 |
| Collections.CalcMod | collection.go:46-53 | the term is i/M - ((i+t)/2M)^2, so it depends on t only through i+t, and it never exceeds i/M |
| Collections.IncidentCount | collection.go:64-69 | the edges to distinct neighbours are distinct, so there are as many as neighbours |
| Collections.SingletonFacts | collection.go:55-74 | a fresh singleton is consistent and has density 1; totEdges is its node's degree, and its modularity is -(degree/2M)^2 |
| Collections.Collection.constructor | set.go:27 | new(Collection) has every field at its zero value |
| Collections.Collection.Initialize | collection.go:55-74 | nodes is [id] and intEdges is 0; the boundary is id's neighbours with the edges to them; totEdges counts those edges; density and modularity are those of the counts |
| Collections.Collection.AddNeighbours | collection.go:64-67 | the loop makes the boundary exactly the neighbours, and the boundary edges exactly the edges to them |
| Collections.ComEdge | collection.go:76-99 | calcComEdge is 0 when no node of the second community is on the first one's boundary, and never exceeds either boundary's edge count |
| Collections.CalcComEdge | collection.go:76-99 | the found-flag scan and the counting loop return the shared boundary-edge count when the communities touch, and 0 otherwise |
| Collections.SharedStep | collection.go:92-96 | one more visited edge adds 1 to the shared count exactly when the other boundary holds it |
| Merging.Shared | set.go:129-137 | the common boundary edges are at most either boundary's edge count |
| Merging.MergedConsistent | set.go:112-145 | a merge keeps the bookkeeping consistent; it concatenates node lists, keeps both boundaries' edges, and conserves intEdges + totEdges |
| Merging.DropOutNodes | set.go:113-119 | a delete loop removes exactly the given ids from the boundary and changes nothing else |
| Merging.AppendNodes | set.go:121-123 | the append loop extends nodes by the other list, in order |
| Merging.AddOutNodes | set.go:125-127 | the insert loop adds the other boundary and changes nothing else |
| Merging.AddOutEdges | set.go:129-137 | the edge loop makes outEdges the union, and returns the number of edges already present |
| Merging.Merge | set.go:112-145 | c1 becomes the merged community; the only change to c2 is that its boundary loses c1's old nodes |
| Merging.CostNewMod | set.go:147-155 | when the communities touch, costNewMod is the merged community's modularity; otherwise it is calcMod with no shared edge |
| Merging.CostNewModTracks | set.go:147-155 | whenever calcComEdge counts the common edges, costNewMod is the merged modularity |
| Merging.RegRoundTrip | set.go:157-159 | turning a regularisation back into its density sum and regularising again are inverse, both ways |
| Merging.RegAllSingletons | set.go:34-36 | n singletons of density 1 over n vertices regularise to exactly 0 |
| Merging.CalcModShift | set.go:139-144 | moving shared boundary edges inside keeps the degree sum and never lowers the modularity term |
| Merging.MergedAtLeastPredicted | set.go:147-155 | the merged community's modularity is at least what costNewMod predicts, and equal to it when the two touch |
| Merging.CostNewReg | set.go:157-173 | costNewReg recovers the density sum of the n communities from the running value, swaps the two densities for the joined one, and regularises over n - 1 |
| Merging.Gain | set.go:53-62 | the increase coagulate scores never exceeds what the join then adds to modularity plus regularisation, and equals it when the two touch |
| Merging.CostNewRegTracks | set.go:157-173 | from the regularisation of a sum S over n communities, costNewReg gives that of S with the two densities replaced by the merged one, over n - 1 communities |
| Boundaries.SingletonTracks | collection.go:55-74 | on a loop-free graph a fresh singleton's cached sets describe its node |
| Boundaries.ComEdgeAgrees | collection.go:76-99 | on disjoint communities with exact boundaries, calcComEdge's guard never hides a shared edge, so it counts every one |
| Boundaries.BoundaryUnion | set.go:113-127 | the boundary of a union is each part's boundary less the other part, which is merge's outNodes update |
| Boundaries.CrossInternal | set.go:129-139 | every common boundary edge of two disjoint node sets is internal to their union |
| Boundaries.InternalSplit | set.go:139 | an internal edge of a union is internal to one part or joins the parts |
| Boundaries.MergedTracks | set.go:112-145 | merging two disjoint communities with exact boundaries gives one with exact boundaries |
| Boundaries.ModExact | set.go:147-155 | on such communities costNewMod is the merged modularity |
| Boundaries.RegExact | set.go:157-173 | on such communities costNewReg is the regularisation of the new density sum |
| Partitions.PartitionCount | set.go:22 | a partition has no more communities than the graph has nodes, so the slot array is large enough |
| Partitions.CoagulatedNodes | set.go:101-105 | joining slot j into slot i and swapping the last slot into j keeps the multiset of nodes |
| Partitions.CoagulatedSums | set.go:96-105 | the modularity sum loses the two terms and gains the merged one, and so does the density sum |
| Partitions.CoagulatedPartition | set.go:95-106 | a coagulate step keeps the partition, with both sums updated |
| Partitions.CoagulatedExact | set.go:95-106 | on a loop-free graph it keeps the boundaries exact, and costNewReg is the new regularisation |
| Partitions.CoagulatedTracks | set.go:101-105 | on a loop-free graph every community stays exact |
| Partitions.SingletonsFacts | set.go:340-347 | the singletons of a node list hold those nodes in order, are consistent, and have density sum equal to their number |
| Partitions.SingletonsSnoc | set.go:340-344 | one more node adds one singleton and its modularity term |
| Partitions.SplitPartition | set.go:328-351 | a split keeps the partition; the modularity sum trades the community's term for its singletons' terms, and the density sum trades its density for the node count |
| Partitions.SplitElements | set.go:336-347 | a split keeps the multiset of nodes |
| Partitions.SplitTotals | set.go:330-347 | the sums after a split, as above |
| Partitions.SplitExact | set.go:328-351 | on a loop-free graph a split keeps the boundaries exact and its regularisation is that of the new density sum |
| Partitions.SplitTracks | set.go:340-347 | the singletons of a split are exact and the other communities stay exact |
| SeqSums.RemoveSwap | set.go:103-105 | removing slot j moves the last element into j and shortens the sequence by one, leaving the rest in place |
| SeqSums.TotalRemoveSwap | set.go:103-105 | a swap-remove takes exactly the removed element off the sum |
| SeqSums.FlattenRemoveSwap | set.go:103-105 | a swap-remove takes exactly the removed list off the flattened multiset |
| Output.UnprintedFacts | set.go:186-191 | a community's printed ids are distinct, and are its ids not printed before |
| Output.FirstsFacts | set.go:185-193 | across all lines no id is printed twice, and every community member is printed |
| Output.FirstsAll | set.go:185-193 | when no id repeats across communities, every community is printed whole, in order |
| Output.PrintedOnce | set.go:183-200 | the whole output prints every graph node and every community member exactly once |
| Output.PrintedPartition | set.go:183-200 | when the communities partition the graph, each is printed whole, the last line is empty, and every id fits in 32 bits |
| Text.ParseU32 | graph.go:48 | ParseUint(s, 10, 32) succeeds exactly on a non-empty digit string whose value is below 2^32 |
| Text.Decimal | set.go:188 | %d prints a non-empty digit string without a leading zero, and "0" for zero |
| Text.FormatIds | set.go:186-190 | each id is followed by a space, no newline appears, and nothing is printed only for no ids |
| Text.SplitSpaces | set.go:220 | strings.Split on " " gives at least one piece, and no piece holds a space |
| Text.SplitSpacesJoin | set.go:220 | joining the pieces with single spaces gives the line back |
| Text.ParseFields | set.go:221-229 | the pieces are refused exactly when a non-empty one does not parse; otherwise every id fits in 32 bits and there are no more ids than pieces |
| Text.ParseLine | set.go:219-229 | every id read from a line fits in 32 bits |
| Text.ParseLineSingle | set.go:219-229 | a non-empty line without a space is read as the single id it parses to, or refused |
| Text.DecimalValueOfDecimal | set.go:188 | the digits %d prints denote the number |
| Text.ParseDecimal | set.go:224 | parsing what %d printed gives the id back |
| Text.ParseFormattedLine | set.go:220-229 | splitting a printed line on spaces and parsing the non-empty pieces gives its ids, in order |
| Text.ScanFormattedLines | set.go:212-219 | scanning the printed text line by line gives exactly the printed lines |
| Text.ReadFormattedLines | set.go:175-229 | reading the text of the community lines back gives the communities |
| Graphs.WithEdgeFacts | graph.go:17-26 | addEdge puts from among to's neighbours and leaves every other node's neighbours alone; repeating it changes nothing |
| Graphs.Graph.AddEdge | graph.go:17-26 | the map after addEdge(to, from) is the insertion, whether or not to was present |
| Graphs.ParseAllSucceeds | graph.go:48-56 | the tokens parse exactly when every one of them does, each to its own value |
| Graphs.NoParsePrefix | graph.go:48-56 | a token that fails aborts the whole read |
| Graphs.AdjacencyOfLinks | graph.go:58-59 | y is a neighbour of x exactly when a pair read joined them, in either order; self-loops are kept |
| Graphs.AdjacencyOfSymmetric | graph.go:58-59 | the adjacency built from any pairs is symmetric |
| Graphs.AdjacencyOfKeys | graph.go:66 | the graph's nodes are exactly the ids in complete pairs |
| Graphs.PairsCount | graph.go:42-63 | the number of complete pairs is half the token count, rounded down |
| Graphs.ReadGraphValid | graph.go:40-66 | a successful read gives a symmetric graph of 32-bit ids; totVertex is the number of distinct ids in pairs, and a graph with a node has an edge |
| Graphs.Graph.ReadPairs | graph.go:42-63 | the token loop succeeds exactly when every token parses, and then holds the adjacency of the pairs read and their count |
| Graphs.Graph.AddPair | graph.go:58-59 | the two addEdge calls add one pair in both directions |
| Graphs.Graph.ReadGraph | graph.go:29-67 | ok exactly when all tokens parse; totEdges counts complete pairs, duplicates and loops included; a trailing token adds nothing; the graph is valid |
| Sets.Score | set.go:53-62 | the increase scored for slot j never overstates what joining j into i does to modularity plus regularisation |
| Sets.BestExists | set.go:77-93 | whenever some partner scores above 0, a best one exists: positive and at least every other partner's score |
| Sets.PlacedAll | set.go:20-36 | once every node is placed, the singletons partition the graph; their density sum is the node count, regularisation is 0, and on a loop-free graph everything is exact |
| Sets.CoagulatedKeeps | set.go:95-106 | a coagulate step keeps the set invariant; on an exact set, modularity plus regularisation rises by exactly the partner's score |
| Sets.SplitKeeps | set.go:328-351 | a split keeps the set invariant and exactness, with the modularity and regularisation split computes |
| Sets.NewSingleton | set.go:27-28 | new(Collection) then initialize(node) is the singleton of node |
| Sets.Store | set.go:31 | storing a new community in the next free slot extends the live slots by it |
| Sets.StoreSingleton | set.go:341-345 | a fresh singleton stored in the next free slot |
| Sets.RemoveSlot | set.go:103-105 | the last live slot moves into j and its old place becomes nil |
| Sets.MergeSlots | set.go:101 | merge on two live slots: slot i holds the merged community, slot j only loses slot i's nodes from its boundary |
| Sets.AppendSingletons | set.go:340-347 | split's loop appends one singleton per node and adds their modularity and density to the sums |
| Sets.PlaceSingletons | set.go:24-33 | initialize's loop places one singleton per graph node, in map order, and sums their terms |
| Sets.WriteIds | set.go:186-191 | the inner loop prints a community's ids not printed before, each followed by a space, and marks them all printed |
| Sets.WriteRest | set.go:195-200 | the last loop prints every graph node not printed yet, once each |
| Sets.Set.Initialize | set.go:20-37 | one singleton per graph node, with modularity their sum and regularisation exactly 0; the set is valid, and exact on a loop-free graph |
| Sets.Set.BestPartner | set.go:53-93 | the scan returns a best positive score and its slot, or 0 when no join scores above 0 |
| Sets.Set.MergeAt | set.go:100-101 | slot i becomes the merged community and slot j loses slot i's nodes from its boundary, with the ghost state following both; modularity gains the merged term |
| Sets.Set.JoinSlots | set.go:100-104 | the merge, the merged term and the swap-remove of a join: the communities coagulate, modularity gains the merged term, and the count drops by one |
| Sets.Set.Join | set.go:95-104 | a join updates regularisation by costNewReg and modularity by the merged term |
| Sets.Set.Coagulate | set.go:47-110 | it merges exactly when some partner scores above 0, and then with a best one; otherwise nothing changes; the invariant is kept; after a merge modularity plus regularisation is strictly higher, and on an exact set higher by exactly the partner's score |
| Sets.Set.Split | set.go:328-351 | split keeps the invariant and exactness; it replaces the community by its singletons, with the new count, modularity and regularisation |
| Sets.Set.SplitSums | set.go:329-351 | split's statements in order: the community leaves the sums, its slot goes, its singletons are added, and the count is regularised |
| Sets.Set.SplitSlots | set.go:336-347 | slot i is dropped and a singleton for each of its nodes is appended |
| Sets.Set.DropSlot | set.go:336-338 | the last live community moves into slot i, and the count drops by one |
| Sets.Set.AddSingletons | set.go:340-347 | one singleton per node is appended, with their terms added to the sums |
| Sets.Set.WriteRes | set.go:175-201 | the text is the community lines plus the remaining nodes; every node is printed exactly once; on a valid set it is exactly one line per community and reads back as the communities |
| Sets.Set.Unregularize | set.go:331-334 | the four steps turn the regularisation back into the density sum, less the community's density |
| Sets.Set.Regularize | set.go:348-350 | the three steps give the regularisation of the density sum over the current count |

## Left out

- main.go is not part of this model. It holds the driver loop, signal handling and console output. It coagulates slot after slot, starting from a random slot after each periodic write. When the objective stalls, it splits the first community with the smallest modularity plus density.
- The goroutines and the busy-waiting channel drain of coagulate are not modelled. The scores are taken in a sequential loop. Which of several equal best partners wins depends on arrival order in the source, so Coagulate promises only some best partner, named by a ghost out-parameter.
- readRes and readPartial (set.go:203-326) are left out, and so is initialize's call to readPartial (set.go:38). They read files, skip tokens at random, and use node ids as slot indices. Only their line tokeniser is modelled (Text.ParseLine).
- File creation and opening, path/name joining and bufio's word scanner are left out. ReadGraph takes the token sequence, and WriteRes returns the text it would write.
- check's panic and its message are not modelled. A token that does not parse makes ReadGraph return false, and the graph is not used.
- Go map iteration order is not modelled. It is an arbitrary choice (`:|`). Where the output depends on it, the order is returned (WriteRes's `tail`).
- float64 arithmetic, round-off and math.Pow are modelled as exact reals, with x*x for the square.
- Node ids are below 2^32, because ParseU32 enforces it. The uint32 counters are unbounded nat. Their wrap-around after 2^32 pairs or nodes is not modelled.
- Collections.CalcMod: requires a graph with at least one edge. The source divides by zero there and gets NaN.
- Collections.CalcDensity: requires at least one node. An empty community never occurs in the source.
- Merging.CostNewReg: requires n >= 2. With n = 1 the source divides by zero, but then coagulate has no partner to score.
- Merging.Merge: requires that c2's totEdges counts its boundary edges. Every community keeps that count in the source; it is also why `c2.totEdges - commOutEdge` cannot wrap.
- Sets.Set.Initialize: requires a graph with at least one node. On an empty graph the source computes 0 * (1/0) and gets a NaN regularisation (set.go:34-36), which exact reals cannot represent.
- Sets.Set.Coagulate: requires the set invariant (Valid). Set.Initialize establishes it, and coagulate and split keep it.
- Sets.Set.Split: requires the set invariant as well, with a live slot index. main.go picks the slot by scanning the whole slot array (main.go:62-64), which dereferences the nil slots past numCollections once a join has happened. That scan is not modelled.
- Exact boundaries, and the regularisation and score identities that rest on them, are proved only for loop-free graphs. A self-loop gives every loop the same Edge{0, 0}, so unrelated communities appear to share a boundary edge.
- Several source loops are each modelled by a main method plus a helper method. The pairs are:
  - Collection.Initialize and AddNeighbours;
  - Set.Split, SplitSums, SplitSlots, DropSlot and AddSingletons;
  - Set.Coagulate, BestPartner, Join, JoinSlots and MergeAt.

  The statements run in the source's order. For coagulate, MergeAt holds both the merge and the `modularity +=` that follows it (set.go:100-101), before JoinSlots moves the last slot (set.go:102-104). The split is only for the proofs.
