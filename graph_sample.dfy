/**
 * The current `GraphSample::new` and the array-building part of its `to_npz`: the data edges
 * of the walk, then per node a Next/Previous pair and Overlap pairs (only when execution falls
 * through) and a JumpTo/JumpFrom pair, the whole list sorted by `(from, to)`.
 */
module GraphSamples {
  import opened Wrappers
  import opened Words
  import opened Superset
  import opened GraphCore
  import opened DataDep
  import opened Seqs
  import Vocab

  /** Node `i`'s Next/Previous pair, when it falls through to a node. */
  function NextTriples(entries: seq<Entry>, i: nat): seq<Triple>
    requires i < |entries| < U32_LIMIT
  {
    match FallThrough(entries, i)
    case None => []
    case Some(j) => [((i, j), Next), ((j, i), Previous)]
  }

  /** Node `i`'s Overlap pairs for the addresses `lo..hi`, in address order. */
  function OverlapTriples(entries: seq<Entry>, i: nat, lo: int, hi: int): seq<Triple>
    requires i < |entries| < U32_LIMIT
    decreases hi - lo
  {
    if hi <= lo then []
    else
      OverlapTriples(entries, i, lo, hi - 1)
      + match IndexOf(entries, hi - 1)
        case None => []
        case Some(o) => [((i, o), Overlap), ((o, i), Overlap)]
  }

  /** Node `i`'s JumpTo/JumpFrom pair, when its jump target is a node address. */
  function JumpTriples(entries: seq<Entry>, i: nat): seq<Triple>
    requires i < |entries| < U32_LIMIT
  {
    match JumpNode(entries, i)
    case None => []
    case Some(k) => [((i, k), JumpTo), ((k, i), JumpFrom)]
  }

  /** Everything added while visiting node `i`; a node that does not fall through gets no Overlap pairs. */
  function NodeTriples(entries: seq<Entry>, i: nat): seq<Triple>
    requires i < |entries| < U32_LIMIT
  {
    NextTriples(entries, i)
    + (if entries[i].feature.fallsThrough then OverlapTriples(entries, i, entries[i].addr, EndOf(entries[i])) else [])
    + JumpTriples(entries, i)
  }

  /** The edges the node loop adds for the first `n` nodes. */
  function NodeLoopTriples(entries: seq<Entry>, n: nat): seq<Triple>
    requires n <= |entries| < U32_LIMIT
  {
    if n == 0 then [] else NodeLoopTriples(entries, n - 1) + NodeTriples(entries, n - 1)
  }

  /** Node `i` falls through and a node sits at an address inside its instruction that resolves to `o`. */
  ghost predicate OverlapsInto(entries: seq<Entry>, i: nat, o: nat) {
    i < |entries| && entries[i].feature.fallsThrough && HitsIn(entries, entries[i].addr, EndOf(entries[i]), o)
  }

  /**
   * The control-flow and overlap edges, stated per edge: Next to the node execution falls
   * through to, Overlap both ways between a node that falls through and any node inside its
   * instruction, JumpTo to the node at the jump target, and each reversed.
   */
  ghost predicate FlowEdge(entries: seq<Entry>, e: Triple) {
    var from := e.0.0;
    var to := e.0.1;
    match e.1
    case Next => from < |entries| && FallThrough(entries, from) == Some(to)
    case Previous => to < |entries| && FallThrough(entries, to) == Some(from)
    case Overlap => OverlapsInto(entries, from, to) || OverlapsInto(entries, to, from)
    case JumpTo => from < |entries| && JumpNode(entries, from) == Some(to)
    case JumpFrom => to < |entries| && JumpNode(entries, to) == Some(from)
    case DataDependency => false
    case DataDependent => false
  }

  /** `e` is an edge node `i`'s visit prescribes. */
  ghost predicate VisitedAs(entries: seq<Entry>, i: nat, e: Triple)
    requires i < |entries|
  {
    var from := e.0.0;
    var to := e.0.1;
    match e.1
    case Next => from == i && FallThrough(entries, i) == Some(to)
    case Previous => to == i && FallThrough(entries, i) == Some(from)
    case Overlap => (from == i && OverlapsInto(entries, i, to)) || (to == i && OverlapsInto(entries, i, from))
    case JumpTo => from == i && JumpNode(entries, i) == Some(to)
    case JumpFrom => to == i && JumpNode(entries, i) == Some(from)
    case DataDependency => false
    case DataDependent => false
  }

  /** The Overlap pairs for `lo..hi` are the pairs with a node hit in that range. */
  lemma {:induction false} OverlapTriplesMembers(entries: seq<Entry>, i: nat, lo: int, hi: int, e: Triple)
    requires i < |entries| < U32_LIMIT
    ensures e in OverlapTriples(entries, i, lo, hi) <==>
              e.1 == Overlap && ((e.0.0 == i && HitsIn(entries, lo, hi, e.0.1)) || (e.0.1 == i && HitsIn(entries, lo, hi, e.0.0)))
    decreases hi - lo
  {
    if hi > lo {
      OverlapTriplesMembers(entries, i, lo, hi - 1, e);
      HitsInStep(entries, lo, hi, e.0.1);
      HitsInStep(entries, lo, hi, e.0.0);
    }
  }

  /** The edges of one node's visit are the prescribed ones that involve it as the visited node. */
  lemma NodeTriplesMembers(entries: seq<Entry>, i: nat, e: Triple)
    requires i < |entries| < U32_LIMIT
    ensures e in NodeTriples(entries, i) <==> VisitedAs(entries, i, e)
  {
    OverlapTriplesMembers(entries, i, entries[i].addr, EndOf(entries[i]), e);
  }

  /** The visit of one of the first `n` nodes adds `e`. */
  ghost predicate VisitedBefore(entries: seq<Entry>, n: nat, e: Triple)
    requires n <= |entries|
  {
    exists i :: 0 <= i < n && VisitedAs(entries, i, e)
  }

  /** The edges of each of the first `n` visits, node by node. */
  function VisitsOf(entries: seq<Entry>, n: nat): (r: seq<seq<Triple>>)
    requires n <= |entries| < U32_LIMIT
    ensures |r| == n && forall i :: 0 <= i < n ==> r[i] == NodeTriples(entries, i)
  {
    seq(n, i requires 0 <= i < n => NodeTriples(entries, i))
  }

  /** The node loop over the first `n` nodes is their visits' edges joined in order. */
  lemma {:induction false} NodeLoopFlatten(entries: seq<Entry>, n: nat)
    requires n <= |entries| < U32_LIMIT
    ensures NodeLoopTriples(entries, n) == Flatten(VisitsOf(entries, n))
  {
    if n > 0 {
      NodeLoopFlatten(entries, n - 1);
      assert VisitsOf(entries, n)[..n - 1] == VisitsOf(entries, n - 1);
    }
  }

  /** The node loop over the first `n` nodes adds exactly the edges their visits prescribe. */
  lemma NodeLoopMembers(entries: seq<Entry>, n: nat, e: Triple)
    requires n <= |entries| < U32_LIMIT
    ensures e in NodeLoopTriples(entries, n) <==> VisitedBefore(entries, n, e)
  {
    var visits := VisitsOf(entries, n);
    NodeLoopFlatten(entries, n);
    FlattenMembers(visits, e);
    if e in Flatten(visits) {
      var i :| 0 <= i < n && e in visits[i];
      NodeTriplesMembers(entries, i, e);
    }
    if VisitedBefore(entries, n, e) {
      var i :| 0 <= i < n && VisitedAs(entries, i, e);
      NodeTriplesMembers(entries, i, e);
      assert e in visits[i];
    }
  }

  /** An edge is prescribed exactly when the visit of one of its end nodes adds it. */
  lemma FlowByVisit(entries: seq<Entry>, e: Triple)
    ensures FlowEdge(entries, e) <==> VisitedBefore(entries, |entries|, e)
  {
    if FlowEdge(entries, e) {
      if e.1 == Overlap && !OverlapsInto(entries, e.0.0, e.0.1) {
        assert VisitedAs(entries, e.0.1, e);
      } else if e.1.Next? || e.1.Overlap? || e.1.JumpTo? {
        assert VisitedAs(entries, e.0.0, e);
      } else {
        assert VisitedAs(entries, e.0.1, e);
      }
    }
  }

  /**
   * The node loop adds exactly the flow edges: Next/Previous and Overlap pairs only from nodes
   * that fall through, the Overlap pairs including the node with itself, JumpTo/JumpFrom to
   * any jump target that is a node address.
   */
  lemma NodeLoopExactly(entries: seq<Entry>, e: Triple)
    requires |entries| < U32_LIMIT
    ensures e in NodeLoopTriples(entries, |entries|) <==> FlowEdge(entries, e)
  {
    NodeLoopMembers(entries, |entries|, e);
    FlowByVisit(entries, e);
  }

  /** The Next and JumpTo edges out of a node are its out-edges, the ones the walk follows. */
  lemma OutEdgesAreFlowEdges(entries: seq<Entry>, i: nat, k: u32)
    requires i < |entries| < U32_LIMIT
    ensures k in OutEdges(entries, i) <==> FlowEdge(entries, ((i, k), Next)) || FlowEdge(entries, ((i, k), JumpTo))
  {
  }

  /**
   * With distinct addresses, a node that falls through and has a non-empty instruction
   * overlaps itself: the range starts at its own address.
   */
  lemma SelfOverlap(entries: seq<Entry>, i: nat)
    requires DistinctAddrs(entries) && i < |entries| < U32_LIMIT
    requires entries[i].feature.fallsThrough && entries[i].feature.size > 0
    ensures FlowEdge(entries, ((i, i), Overlap))
  {
    IndexOfDistinct(entries, i);
    assert HitsIn(entries, entries[i].addr, EndOf(entries[i]), i);
  }

  /** `GraphSample`: the nodes without their addresses, the edge list, and where the sample came from. */
  datatype GraphSample = GraphSample(superset: seq<Node>, edges: seq<(u32, u32)>, edgeTypes: seq<RelationType>,
                                     source: Option<string>)

  /** Each edge with its type. */
  function Zip(edges: seq<(u32, u32)>, types: seq<RelationType>): (r: seq<Triple>)
    requires |edges| == |types|
    ensures |r| == |edges| && forall k :: 0 <= k < |r| ==> r[k] == (edges[k], types[k])
  {
    if edges == [] then [] else Zip(edges[..|edges| - 1], types[..|types| - 1]) + [(edges[|edges| - 1], types[|types| - 1])]
  }

  /** The edges of a sample with their types, as `sort` keeps them together. */
  function SampleTriples(s: GraphSample): (r: seq<Triple>)
    requires |s.edges| == |s.edgeTypes|
  {
    Zip(s.edges, s.edgeTypes)
  }

  /**
   * `GraphSample::new`: at most `i32::MAX - 1` nodes; the walk adds the data edges, the node
   * loop the flow edges, and the list is sorted. An instruction ending past the address space
   * overflows while computing the out-edges.
   */
  method New(entries: seq<Entry>, source: Option<string>) returns (r: Result<GraphSample>)
    ensures !r.Err?
    ensures r.Panic? <==> |entries| >= I32_MAX || !NoOverflow(entries)
    ensures r.Ok? ==> r.value.superset == StripAddrs(entries) && r.value.source == source
    ensures r.Ok? ==> |r.value.edges| == |r.value.edgeTypes| && SortedTriples(SampleTriples(r.value))
    ensures r.Ok? ==> forall e :: e in SampleTriples(r.value) <==> DataEdge(entries, e) || FlowEdge(entries, e)
    ensures r.Ok? ==> forall e ::
      multiset(SampleTriples(r.value))[e] == DataEdgeCount(entries, e) + multiset(NodeLoopTriples(entries, |entries|))[e]
  {
    if |entries| >= I32_MAX {
      return Panic("assertion failed: superset.superset.len() < i32::MAX as usize");
    }
    for k := 0 to |entries|
      invariant forall j :: 0 <= j < k ==> EndOf(entries[j]) < U32_LIMIT
    {
      if entries[k].addr + entries[k].feature.size >= U32_LIMIT {
        return Panic("attempt to add with overflow");
      }
    }
    var graph := BuildEdges(entries);
    r := Ok(GraphSample(StripAddrs(entries), graph.edges, graph.edgeTypes, source));
    assert SampleTriples(r.value) == graph.Triples();
  }

  /** The edge list of `new`: the walk's data edges, the node loop's flow edges, sorted. */
  method BuildEdges(entries: seq<Entry>) returns (graph: Graph)
    requires |entries| < I32_MAX && NoOverflow(entries)
    ensures fresh(graph) && graph.Valid() && SortedTriples(graph.Triples())
    ensures forall e :: e in graph.Triples() <==> DataEdge(entries, e) || FlowEdge(entries, e)
    ensures forall e :: multiset(graph.Triples())[e] == DataEdgeCount(entries, e) + multiset(NodeLoopTriples(entries, |entries|))[e]
  {
    graph := new Graph();
    var index := BuildIndex(entries);
    WalkDataDep(graph, entries);
    ghost var data := graph.Triples();
    assert data == data[0..];
    assert forall e :: multiset(data)[e] == DataEdgeCount(entries, e);
    NodeLoop(graph, entries, index);
    ghost var unsorted := graph.Triples();
    graph.Sort();
    SortedMembers(entries, data, unsorted, graph.Triples());
  }

  /** The loop of `new` over the nodes, in superset order. */
  method NodeLoop(graph: Graph, entries: seq<Entry>, index: map<int, nat>)
    requires graph.Valid() && |entries| < I32_MAX && NoOverflow(entries)
    requires forall a :: Lookup(index, a) == IndexOf(entries, a)
    modifies graph
    ensures graph.Valid() && graph.Triples() == old(graph.Triples()) + NodeLoopTriples(entries, |entries|)
  {
    ghost var start := graph.Triples();
    for i := 0 to |entries|
      invariant graph.Valid() && graph.Triples() == start + NodeLoopTriples(entries, i)
    {
      VisitNode(graph, entries, index, i);
      NodeLoopAppend(start, entries, i);
    }
  }

  lemma NodeLoopAppend(start: seq<Triple>, entries: seq<Entry>, i: nat)
    requires i < |entries| < U32_LIMIT
    ensures start + NodeLoopTriples(entries, i) + NodeTriples(entries, i) == start + NodeLoopTriples(entries, i + 1)
  {
  }

  lemma SortedMembers(entries: seq<Entry>, data: seq<Triple>, unsorted: seq<Triple>, sorted: seq<Triple>)
    requires |entries| < U32_LIMIT && unsorted == data + NodeLoopTriples(entries, |entries|)
    requires forall e :: e in data <==> DataEdge(entries, e)
    requires multiset(sorted) == multiset(unsorted)
    ensures forall e :: e in sorted <==> DataEdge(entries, e) || FlowEdge(entries, e)
  {
    forall e
      ensures e in sorted <==> DataEdge(entries, e) || FlowEdge(entries, e)
    {
      assert e in sorted <==> e in multiset(unsorted);
      NodeLoopExactly(entries, e);
    }
  }

  /** One pass of the node loop: the pairs of a node that falls through, then its jump pair. */
  method VisitNode(graph: Graph, entries: seq<Entry>, index: map<int, nat>, i: nat)
    requires graph.Valid() && i < |entries| < I32_MAX && EndOf(entries[i]) < U32_LIMIT
    requires forall a :: Lookup(index, a) == IndexOf(entries, a)
    modifies graph
    ensures graph.Valid() && graph.Triples() == old(graph.Triples()) + NodeTriples(entries, i)
  {
    ghost var start := graph.Triples();
    ghost var overlaps: seq<Triple> := [];
    if entries[i].feature.fallsThrough {
      PushNext(graph, entries, index, i);
      overlaps := OverlapTriples(entries, i, entries[i].addr, EndOf(entries[i]));
      PushOverlaps(graph, entries, index, i, entries[i].addr, EndOf(entries[i]));
    }
    ghost var nexts := NextTriples(entries, i);
    ghost var flows := graph.Triples();
    assert flows == start + nexts + overlaps;
    PushJump(graph, entries, index, i);
    assert NodeTriples(entries, i) == nexts + overlaps + JumpTriples(entries, i);
    TriplesAssoc(start, nexts, overlaps, JumpTriples(entries, i));
  }

  lemma TriplesAssoc(a: seq<Triple>, b: seq<Triple>, c: seq<Triple>, d: seq<Triple>)
    ensures a + b + c + d == a + (b + c + d)
  {
  }

  /** The Next/Previous pair of a node that falls through, if a node sits right after it. */
  method PushNext(graph: Graph, entries: seq<Entry>, index: map<int, nat>, i: nat)
    requires graph.Valid() && i < |entries| < I32_MAX && EndOf(entries[i]) < U32_LIMIT
    requires entries[i].feature.fallsThrough
    requires forall a :: Lookup(index, a) == IndexOf(entries, a)
    modifies graph
    ensures graph.Valid() && graph.Triples() == old(graph.Triples()) + NextTriples(entries, i)
  {
    var nextAddr := entries[i].addr + entries[i].feature.size;
    assert Lookup(index, nextAddr) == FallThrough(entries, i);
    match Lookup(index, nextAddr) {
      case Some(next) =>
        graph.AddEdge(i, next, Next);
        graph.AddEdge(next, i, Previous);
      case None =>
    }
  }

  /** The JumpTo/JumpFrom pair, if the node has a direct jump target that is a node address. */
  method PushJump(graph: Graph, entries: seq<Entry>, index: map<int, nat>, i: nat)
    requires graph.Valid() && i < |entries| < I32_MAX
    requires forall a :: Lookup(index, a) == IndexOf(entries, a)
    modifies graph
    ensures graph.Valid() && graph.Triples() == old(graph.Triples()) + JumpTriples(entries, i)
  {
    match entries[i].feature.jumpTarget {
      case Some(target) =>
        assert Lookup(index, target) == JumpNode(entries, i);
        match Lookup(index, target) {
          case Some(jump) =>
            graph.AddEdge(i, jump, JumpTo);
            graph.AddEdge(jump, i, JumpFrom);
          case None =>
        }
      case None =>
    }
  }

  /** The overlap loop: an Overlap pair for each node address in `lo..hi`. */
  method PushOverlaps(graph: Graph, entries: seq<Entry>, index: map<int, nat>, i: nat, lo: int, hi: int)
    requires graph.Valid() && i < |entries| < I32_MAX
    requires forall a :: Lookup(index, a) == IndexOf(entries, a)
    modifies graph
    ensures graph.Valid() && graph.Triples() == old(graph.Triples()) + OverlapTriples(entries, i, lo, hi)
  {
    if hi <= lo {
      return;
    }
    ghost var start := graph.Triples();
    for j := lo to hi
      invariant graph.Valid() && graph.Triples() == start + OverlapTriples(entries, i, lo, j)
    {
      match Lookup(index, j) {
        case Some(overlap) =>
          graph.AddEdge(i, overlap, Overlap);
          graph.AddEdge(overlap, i, Overlap);
        case None =>
      }
    }
  }

  /**
   * The arrays `to_npz` stores: each size as a class index (`size - 1`), codes through the
   * vocabulary, labels only when every node has one, a type byte per edge and the edges' node
   * indices as `i32`, row after row.
   */
  datatype Arrays = Arrays(sizes: seq<u8>, codes: seq<i32>, labels: Option<seq<u8>>,
                           relationTypes: seq<u8>, relations: seq<i32>)

  /** No instruction has size 0, for which `size - 1` on a `u8` underflows. */
  predicate SizesPositive(nodes: seq<Node>) {
    forall k :: 0 <= k < |nodes| ==> nodes[k].feature.size > 0
  }

  /** The type byte of each edge. */
  function TypeBytes(types: seq<RelationType>): (r: seq<u8>)
    ensures |r| == |types|
  {
    if types == [] then [] else TypeBytes(types[..|types| - 1]) + [TypeCode(types[|types| - 1])]
  }

  /** The edges' node indices cast to `i32`, row after row. */
  function Rows(edges: seq<(u32, u32)>): (r: seq<i32>)
    ensures |r| == 2 * |edges|
  {
    if edges == [] then []
    else Rows(edges[..|edges| - 1]) + [AsI32(edges[|edges| - 1].0), AsI32(edges[|edges| - 1].1)]
  }

  /**
   * The array-building part of `to_npz`. A node of size 0 underflows `size - 1`; otherwise every
   * array has one entry per node or per edge, and the labels are there exactly when every node
   * is labelled.
   */
  function ToArrays(sample: GraphSample, vocab: Vocab.CodeVocab): (r: Result<Arrays>)
    requires |sample.edges| == |sample.edgeTypes|
    ensures !r.Err? && (r.Panic? <==> !SizesPositive(sample.superset))
    ensures r.Ok? ==> |r.value.sizes| == |r.value.codes| == |sample.superset|
    ensures r.Ok? ==> (r.value.labels.Some? <==> AllLabelled(sample.superset))
    ensures r.Ok? && r.value.labels.Some? ==> |r.value.labels.value| == |sample.superset|
    ensures r.Ok? ==> |r.value.relationTypes| == |sample.edges| && |r.value.relations| == 2 * |sample.edges|
  {
    var nodes := sample.superset;
    if !SizesPositive(nodes) then Panic("attempt to subtract with overflow")
    else
      Ok(Arrays(
        seq(|nodes|, k requires 0 <= k < |nodes| && SizesPositive(nodes) => nodes[k].feature.size - 1),
        seq(|nodes|, k requires 0 <= k < |nodes| => AsI32(Vocab.IdOf(vocab, nodes[k].feature.code))),
        if AllLabelled(nodes) then Some(seq(|nodes|, k requires 0 <= k < |nodes| && AllLabelled(nodes) => LabelByte(nodes[k].truth.value)))
        else None,
        TypeBytes(sample.edgeTypes),
        Rows(sample.edges)))
  }

  /** A `u32` cast to `i32` and back to `u32` is unchanged; below `i32::MAX` the cast itself changes nothing. */
  lemma AsI32OfU32(x: u32)
    ensures AsI32(x) % U32_LIMIT == x
    ensures x <= I32_MAX ==> AsI32(x) == x
  {
    if x > I32_MAX {
      assert AsI32(x) == x - U32_LIMIT;
    }
  }

  /** The edges read back from the type bytes and rows; `None` if a type byte is unknown. */
  function ReadTriples(types: seq<u8>, rows: seq<i32>): Option<seq<Triple>>
    requires |rows| == 2 * |types|
  {
    if types == [] then Some([])
    else
      var n := |types| - 1;
      var init := ReadTriples(types[..n], rows[..2 * n]);
      var t := TypeOfCode(types[n]);
      if init.Some? && t.Some? then Some(init.value + [((rows[2 * n] % U32_LIMIT, rows[2 * n + 1] % U32_LIMIT), t.value)])
      else None
  }

  /** Reading the stored relations back gives every edge with its type, in order. */
  lemma {:induction false} RelationsRoundTrip(edges: seq<(u32, u32)>, types: seq<RelationType>)
    requires |edges| == |types|
    ensures ReadTriples(TypeBytes(types), Rows(edges)) == Some(Zip(edges, types))
  {
    if edges != [] {
      var n := |edges| - 1;
      var ts, rs := TypeBytes(types), Rows(edges);
      RelationsRoundTrip(edges[..n], types[..n]);
      assert ts[..n] == TypeBytes(types[..n]);
      assert rs[..2 * n] == Rows(edges[..n]);
      assert ts[n] == TypeCode(types[n]);
      assert rs[2 * n] == AsI32(edges[n].0) && rs[2 * n + 1] == AsI32(edges[n].1);
      TypeCodeRoundTrip(types[n]);
      AsI32OfU32(edges[n].0);
      AsI32OfU32(edges[n].1);
    }
  }

  /** Each stored size is one less than the instruction's, and each stored label reads back. */
  lemma NodesRoundTrip(sample: GraphSample, vocab: Vocab.CodeVocab, k: nat)
    requires |sample.edges| == |sample.edgeTypes| && SizesPositive(sample.superset) && k < |sample.superset|
    ensures ToArrays(sample, vocab).value.sizes[k] + 1 == sample.superset[k].feature.size
    ensures AllLabelled(sample.superset) ==>
              LabelOfByte(ToArrays(sample, vocab).value.labels.value[k]) == sample.superset[k].truth.value
  {
    if AllLabelled(sample.superset) {
      LabelByteRoundTrip(sample.superset[k].truth.value);
    }
  }
}
