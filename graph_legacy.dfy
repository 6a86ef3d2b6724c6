/**
 * The older superset graph builder: an unsorted list of typed edges between superset nodes,
 * pushed node by node (Next/Previous to the node right after the instruction, Overlap both ways
 * for every node inside it, JumpTo/JumpFrom to a direct jump target), and the arrays the graph
 * is stored as.
 */
module LegacyGraph {
  import opened Wrappers
  import opened Words
  import opened Superset
  import Vocab

  datatype RelationType = Next | Previous | Overlap | JumpTo | JumpFrom

  /** The `u8` each relation type is stored as. */
  function TypeCode(t: RelationType): (r: u8)
    ensures r < 5
  {
    match t
    case Next => 0
    case Previous => 1
    case Overlap => 2
    case JumpTo => 3
    case JumpFrom => 4
  }

  /** The relation type a stored `u8` stands for. */
  function TypeOfCode(b: u8): Option<RelationType> {
    if b == 0 then Some(Next)
    else if b == 1 then Some(Previous)
    else if b == 2 then Some(Overlap)
    else if b == 3 then Some(JumpTo)
    else if b == 4 then Some(JumpFrom)
    else None
  }

  /** Every relation type is stored as a distinct code that reads back as that type. */
  lemma TypeCodeRoundTrip(t: RelationType)
    ensures TypeOfCode(TypeCode(t)) == Some(t)
  {
  }

  /** An edge `(from, to, type)` between node indices. */
  datatype Edge = Edge(from: nat, to: nat, kind: RelationType)

  /** The edge pushed right after `e`: the same two nodes the other way round. */
  function Reverse(e: Edge): Edge {
    Edge(e.to, e.from, match e.kind
      case Next => Previous
      case Previous => Next
      case Overlap => Overlap
      case JumpTo => JumpFrom
      case JumpFrom => JumpTo)
  }

  /** The Next/Previous pair of node `i`, if a node sits right after its instruction. */
  function NextEdges(entries: seq<Entry>, i: nat): seq<Edge>
    requires i < |entries|
  {
    match IndexOf(entries, EndOf(entries[i]))
    case None => []
    case Some(j) => [Edge(i, j, Next), Edge(j, i, Previous)]
  }

  /** The Overlap pairs of node `i` for the addresses `lo..hi`, in address order. */
  function OverlapEdges(entries: seq<Entry>, i: nat, lo: int, hi: int): seq<Edge>
    decreases hi - lo
  {
    if hi <= lo then []
    else
      OverlapEdges(entries, i, lo, hi - 1)
      + match IndexOf(entries, hi - 1)
        case None => []
        case Some(o) => [Edge(i, o, Overlap), Edge(o, i, Overlap)]
  }

  /** The JumpTo/JumpFrom pair of node `i`, if its jump target is a node address. */
  function JumpEdges(entries: seq<Entry>, i: nat): seq<Edge>
    requires i < |entries|
  {
    match entries[i].feature.jumpTarget
    case None => []
    case Some(target) =>
      match IndexOf(entries, target)
      case None => []
      case Some(k) => [Edge(i, k, JumpTo), Edge(k, i, JumpFrom)]
  }

  /** Everything pushed while visiting node `i`. */
  function NodeEdges(entries: seq<Entry>, i: nat): seq<Edge>
    requires i < |entries|
  {
    NextEdges(entries, i) + OverlapEdges(entries, i, entries[i].addr, EndOf(entries[i])) + JumpEdges(entries, i)
  }

  /** The graph after visiting the first `n` nodes. */
  function Edges(entries: seq<Entry>, n: nat): seq<Edge>
    requires n <= |entries|
  {
    if n == 0 then [] else Edges(entries, n - 1) + NodeEdges(entries, n - 1)
  }

  /**
   * Which edges the graph of the first `n` nodes must hold, stated per edge: a Next edge from a
   * visited node to the node right after it, an Overlap edge between a visited node and any node
   * inside its instruction (either way), a JumpTo edge from a visited node to its jump target,
   * and each reversed.
   */
  ghost predicate Prescribed(entries: seq<Entry>, n: nat, e: Edge)
    requires n <= |entries|
  {
    match e.kind
    case Next => e.from < n && IndexOf(entries, EndOf(entries[e.from])) == Some(e.to)
    case Previous => e.to < n && IndexOf(entries, EndOf(entries[e.to])) == Some(e.from)
    case Overlap =>
      (e.from < n && HitsIn(entries, entries[e.from].addr, EndOf(entries[e.from]), e.to))
      || (e.to < n && HitsIn(entries, entries[e.to].addr, EndOf(entries[e.to]), e.from))
    case JumpTo => e.from < n && JumpsTo(entries, e.from, e.to)
    case JumpFrom => e.to < n && JumpsTo(entries, e.to, e.from)
  }

  /** Node `i` has a direct jump target and node `k` sits there. */
  predicate JumpsTo(entries: seq<Entry>, i: nat, k: nat)
    requires i < |entries|
  {
    entries[i].feature.jumpTarget.Some? && IndexOf(entries, entries[i].feature.jumpTarget.value) == Some(k)
  }

  /** The Overlap pairs for `lo..hi` are the pairs with a node hit in that range. */
  lemma {:induction false} OverlapEdgesMembers(entries: seq<Entry>, i: nat, lo: int, hi: int, e: Edge)
    ensures e in OverlapEdges(entries, i, lo, hi) <==>
              e.kind == Overlap && ((e.from == i && HitsIn(entries, lo, hi, e.to)) || (e.to == i && HitsIn(entries, lo, hi, e.from)))
    decreases hi - lo
  {
    if hi > lo {
      OverlapEdgesMembers(entries, i, lo, hi - 1, e);
      HitsInStep(entries, lo, hi, e.to);
      HitsInStep(entries, lo, hi, e.from);
    }
  }

  /** The edges of one node are the prescribed ones that involve it as the visited node. */
  lemma NodeEdgesMembers(entries: seq<Entry>, i: nat, e: Edge)
    requires i < |entries|
    ensures e in NodeEdges(entries, i) <==> VisitedAs(entries, i, e)
  {
    OverlapEdgesMembers(entries, i, entries[i].addr, EndOf(entries[i]), e);
  }

  /** `e` is an edge node `i`'s visit prescribes. */
  ghost predicate VisitedAs(entries: seq<Entry>, i: nat, e: Edge)
    requires i < |entries|
  {
    match e.kind
    case Next => e.from == i && IndexOf(entries, EndOf(entries[i])) == Some(e.to)
    case Previous => e.to == i && IndexOf(entries, EndOf(entries[i])) == Some(e.from)
    case Overlap =>
      (e.from == i && HitsIn(entries, entries[i].addr, EndOf(entries[i]), e.to))
      || (e.to == i && HitsIn(entries, entries[i].addr, EndOf(entries[i]), e.from))
    case JumpTo => e.from == i && JumpsTo(entries, i, e.to)
    case JumpFrom => e.to == i && JumpsTo(entries, i, e.from)
  }

  /** The visit of one of the first `n` nodes pushes `e`. */
  ghost predicate VisitedBefore(entries: seq<Entry>, n: nat, e: Edge)
    requires n <= |entries|
  {
    exists i :: 0 <= i < n && VisitedAs(entries, i, e)
  }

  lemma VisitedBeforeStep(entries: seq<Entry>, n: nat, e: Edge)
    requires 0 < n <= |entries|
    ensures VisitedBefore(entries, n, e) <==> VisitedBefore(entries, n - 1, e) || VisitedAs(entries, n - 1, e)
  {
    if VisitedBefore(entries, n, e) && !VisitedAs(entries, n - 1, e) {
      var i :| 0 <= i < n && VisitedAs(entries, i, e);
      assert i < n - 1;
    }
  }

  lemma EdgesStep(entries: seq<Entry>, n: nat, e: Edge)
    requires 0 < n <= |entries|
    ensures e in Edges(entries, n) <==> e in Edges(entries, n - 1) || e in NodeEdges(entries, n - 1)
  {
  }

  /** The graph of the first `n` nodes holds exactly the edges their visits prescribe. */
  lemma {:induction false} EdgesMembers(entries: seq<Entry>, n: nat, e: Edge)
    requires n <= |entries|
    ensures e in Edges(entries, n) <==> VisitedBefore(entries, n, e)
  {
    if n > 0 {
      EdgesStep(entries, n, e);
      EdgesMembers(entries, n - 1, e);
      NodeEdgesMembers(entries, n - 1, e);
      VisitedBeforeStep(entries, n, e);
    }
  }

  /** An edge is prescribed exactly when the visit of one of its end nodes pushes it. */
  lemma PrescribedByVisit(entries: seq<Entry>, n: nat, e: Edge)
    requires n <= |entries|
    ensures Prescribed(entries, n, e) <==> VisitedBefore(entries, n, e)
  {
    if Prescribed(entries, n, e) {
      if e.kind == Overlap && !(e.from < n && HitsIn(entries, entries[e.from].addr, EndOf(entries[e.from]), e.to)) {
        assert VisitedAs(entries, e.to, e);
      } else if e.kind.Next? || e.kind.Overlap? || e.kind.JumpTo? {
        assert VisitedAs(entries, e.from, e);
      } else {
        assert VisitedAs(entries, e.to, e);
      }
    }
  }

  /**
   * The graph `new` builds holds exactly the prescribed edges: Next/Previous to the node right
   * after an instruction, Overlap both ways with every node inside it (the node itself
   * included), JumpTo/JumpFrom to a jump target that is a node address.
   */
  lemma GraphExactly(entries: seq<Entry>, e: Edge)
    ensures e in Edges(entries, |entries|) <==> Prescribed(entries, |entries|, e)
  {
    EdgesMembers(entries, |entries|, e);
    PrescribedByVisit(entries, |entries|, e);
  }

  /** The edges come in pairs: every edge at an even position is followed by its reverse. */
  predicate Paired(es: seq<Edge>) {
    |es| % 2 == 0 && forall k :: 0 <= k < |es| && k % 2 == 0 ==> k + 1 < |es| && es[k + 1] == Reverse(es[k])
  }

  /** Every pair starts at node `i`. */
  predicate LeadsFrom(es: seq<Edge>, i: nat) {
    forall k :: 0 <= k < |es| && k % 2 == 0 ==> es[k].from == i
  }

  /** Every pair starts at a node below `n`. */
  predicate LeadsBelow(es: seq<Edge>, n: nat) {
    forall k :: 0 <= k < |es| && k % 2 == 0 ==> es[k].from < n
  }

  /** The pairs are grouped by the node they start at, in ascending node order. */
  predicate Grouped(es: seq<Edge>) {
    forall k, l :: 0 <= k < l < |es| && k % 2 == 0 && l % 2 == 0 ==> es[k].from <= es[l].from
  }

  lemma PairedConcat(a: seq<Edge>, b: seq<Edge>)
    requires Paired(a) && Paired(b)
    ensures Paired(a + b)
  {
    forall k | 0 <= k < |a + b| && k % 2 == 0 ensures k + 1 < |a + b| && (a + b)[k + 1] == Reverse((a + b)[k]) {
      if k >= |a| {
        assert (a + b)[k] == b[k - |a|];
        assert (a + b)[k + 1] == b[k - |a| + 1];
      }
    }
  }

  lemma LeadsFromConcat(a: seq<Edge>, b: seq<Edge>, i: nat)
    requires LeadsFrom(a, i) && LeadsFrom(b, i) && |a| % 2 == 0
    ensures LeadsFrom(a + b, i)
  {
    forall k | 0 <= k < |a + b| && k % 2 == 0 ensures (a + b)[k].from == i {
      if k >= |a| {
        assert (k - |a|) % 2 == 0;
        assert (a + b)[k] == b[k - |a|];
      } else {
        assert (a + b)[k] == a[k];
      }
    }
  }

  lemma GroupedConcat(a: seq<Edge>, b: seq<Edge>, i: nat)
    requires Grouped(a) && LeadsBelow(a, i + 1) && LeadsFrom(b, i) && |a| % 2 == 0
    ensures Grouped(a + b) && LeadsBelow(a + b, i + 1)
  {
    forall k | 0 <= k < |a + b| && k % 2 == 0 && k >= |a| ensures (a + b)[k].from == i {
      assert (a + b)[k] == b[k - |a|];
    }
  }

  /** The Overlap pairs of node `i` are pairs that start at `i`. */
  lemma {:induction false} OverlapEdgesShape(entries: seq<Entry>, i: nat, lo: int, hi: int)
    ensures Paired(OverlapEdges(entries, i, lo, hi)) && LeadsFrom(OverlapEdges(entries, i, lo, hi), i)
    decreases hi - lo
  {
    if hi > lo {
      var pair := match IndexOf(entries, hi - 1)
        case None => []
        case Some(o) => [Edge(i, o, Overlap), Edge(o, i, Overlap)];
      OverlapEdgesShape(entries, i, lo, hi - 1);
      PairedConcat(OverlapEdges(entries, i, lo, hi - 1), pair);
      LeadsFromConcat(OverlapEdges(entries, i, lo, hi - 1), pair, i);
    }
  }

  /** The edges of one node's visit are pairs that start at that node. */
  lemma NodeEdgesShape(entries: seq<Entry>, i: nat)
    requires i < |entries|
    ensures Paired(NodeEdges(entries, i)) && LeadsFrom(NodeEdges(entries, i), i)
  {
    var overlaps := OverlapEdges(entries, i, entries[i].addr, EndOf(entries[i]));
    OverlapEdgesShape(entries, i, entries[i].addr, EndOf(entries[i]));
    PairedConcat(NextEdges(entries, i), overlaps);
    LeadsFromConcat(NextEdges(entries, i), overlaps, i);
    PairedConcat(NextEdges(entries, i) + overlaps, JumpEdges(entries, i));
    LeadsFromConcat(NextEdges(entries, i) + overlaps, JumpEdges(entries, i), i);
  }

  /**
   * The graph is a list of pairs, each edge followed by its reverse, grouped by the visited
   * node in ascending node order; no sorting happens.
   */
  lemma {:induction false} EdgesShape(entries: seq<Entry>, n: nat)
    requires n <= |entries|
    ensures Paired(Edges(entries, n)) && Grouped(Edges(entries, n)) && LeadsBelow(Edges(entries, n), n)
  {
    if n > 0 {
      EdgesShape(entries, n - 1);
      NodeEdgesShape(entries, n - 1);
      PairedConcat(Edges(entries, n - 1), NodeEdges(entries, n - 1));
      GroupedConcat(Edges(entries, n - 1), NodeEdges(entries, n - 1), n - 1);
    }
  }

  /** With distinct addresses, every node with a non-empty instruction overlaps itself. */
  lemma SelfOverlap(entries: seq<Entry>, i: nat)
    requires DistinctAddrs(entries) && i < |entries| && entries[i].feature.size > 0
    ensures Edge(i, i, Overlap) in Edges(entries, |entries|)
  {
    IndexOfDistinct(entries, i);
    assert HitsIn(entries, entries[i].addr, EndOf(entries[i]), i);
    GraphExactly(entries, Edge(i, i, Overlap));
  }

  /** `GraphSample`: the nodes, the edge list, and where the sample came from. */
  datatype GraphSample = GraphSample(superset: seq<Node>, graph: seq<Edge>, source: Option<string>)

  /**
   * `GraphSample::new`: index the addresses, then visit every node in order. An instruction
   * ending past the address space overflows.
   */
  method New(entries: seq<Entry>, source: Option<string>) returns (r: Result<GraphSample>)
    ensures !r.Err?
    ensures r.Panic? <==> !NoOverflow(entries)
    ensures r.Ok? ==> r.value == GraphSample(StripAddrs(entries), Edges(entries, |entries|), source)
  {
    var index := BuildIndex(entries);
    var graph: seq<Edge> := [];
    for i := 0 to |entries|
      invariant graph == Edges(entries, i)
      invariant forall k :: 0 <= k < i ==> EndOf(entries[k]) < U32_LIMIT
    {
      if entries[i].addr + entries[i].feature.size >= U32_LIMIT {
        return Panic("attempt to add with overflow");
      }
      graph := Visit(entries, index, i, graph);
    }
    return Ok(GraphSample(StripAddrs(entries), graph, source));
  }

  /**
   * One node's visit: its Next/Previous pair, an Overlap pair per node address inside its
   * instruction, and its JumpTo/JumpFrom pair.
   */
  method Visit(entries: seq<Entry>, index: map<int, nat>, i: nat, graph: seq<Edge>) returns (r: seq<Edge>)
    requires i < |entries| && EndOf(entries[i]) < U32_LIMIT
    requires forall a :: Lookup(index, a) == IndexOf(entries, a)
    ensures r == graph + NodeEdges(entries, i)
  {
    var addr := entries[i].addr;
    var nextAddr := addr + entries[i].feature.size;
    var nexts: seq<Edge> := [];
    assert Lookup(index, nextAddr) == IndexOf(entries, EndOf(entries[i]));
    match Lookup(index, nextAddr) {
      case Some(next) =>
        nexts := [Edge(i, next, Next), Edge(next, i, Previous)];
      case None =>
    }
    assert nexts == NextEdges(entries, i);
    r := PushOverlaps(entries, index, i, addr, nextAddr, graph + nexts);
    var jumps: seq<Edge> := [];
    match entries[i].feature.jumpTarget {
      case Some(target) =>
        assert Lookup(index, target) == IndexOf(entries, target);
        match Lookup(index, target) {
          case Some(jump) =>
            jumps := [Edge(i, jump, JumpTo), Edge(jump, i, JumpFrom)];
          case None =>
        }
      case None =>
    }
    assert jumps == JumpEdges(entries, i);
    r := r + jumps;
    ghost var overlaps := OverlapEdges(entries, i, addr, nextAddr);
    assert NodeEdges(entries, i) == nexts + overlaps + jumps;
    SeqAssoc(graph, nexts, overlaps, jumps);
  }

  /** The Overlap pairs of node `i` for the addresses `lo..hi`, one pair per node address. */
  method PushOverlaps(entries: seq<Entry>, index: map<int, nat>, i: nat, lo: int, hi: int, graph: seq<Edge>)
    returns (r: seq<Edge>)
    requires forall a :: Lookup(index, a) == IndexOf(entries, a)
    ensures r == graph + OverlapEdges(entries, i, lo, hi)
  {
    r := graph;
    if hi <= lo {
      return;
    }
    for j := lo to hi
      invariant r == graph + OverlapEdges(entries, i, lo, j)
    {
      match Lookup(index, j) {
        case Some(overlap) =>
          r := r + [Edge(i, overlap, Overlap), Edge(overlap, i, Overlap)];
        case None =>
      }
    }
  }

  lemma SeqAssoc(a: seq<Edge>, b: seq<Edge>, c: seq<Edge>, d: seq<Edge>)
    ensures a + b + c + d == a + (b + c + d)
  {
  }

  /** The arrays a graph sample is stored as; `relations` holds one `(from, to)` row per edge, row after row. */
  datatype Arrays = Arrays(sizes: seq<u8>, codes: seq<u32>, labels: Option<seq<u8>>,
                           relationTypes: seq<u8>, relations: seq<u32>)

  /** An index stored as `u32` with `as`, which keeps the low 32 bits. */
  function AsU32(x: nat): (r: u32)
    ensures x < U32_LIMIT ==> r == x
  {
    x % U32_LIMIT
  }

  /** The edge types, one `u8` per edge. */
  function Types(graph: seq<Edge>): (r: seq<u8>)
    ensures |r| == |graph|
  {
    if graph == [] then [] else Types(graph[..|graph| - 1]) + [TypeCode(graph[|graph| - 1].kind)]
  }

  /** The edge endpoints, row after row. */
  function Rows(graph: seq<Edge>): (r: seq<u32>)
    ensures |r| == 2 * |graph|
  {
    if graph == [] then []
    else Rows(graph[..|graph| - 1]) + [AsU32(graph[|graph| - 1].from), AsU32(graph[|graph| - 1].to)]
  }

  /**
   * The array-building part of `to_npz`: sizes as decoded, codes through the vocabulary, labels
   * only when every node has one, one type and one row per edge.
   */
  function ToArrays(sample: GraphSample, vocab: Vocab.CodeVocab): (r: Arrays)
    ensures |r.sizes| == |r.codes| == |sample.superset|
    ensures r.labels.Some? <==> AllLabelled(sample.superset)
    ensures r.labels.Some? ==> |r.labels.value| == |sample.superset|
    ensures |r.relationTypes| == |sample.graph| && |r.relations| == 2 * |sample.graph|
  {
    var nodes := sample.superset;
    Arrays(
      seq(|nodes|, k requires 0 <= k < |nodes| => nodes[k].feature.size),
      seq(|nodes|, k requires 0 <= k < |nodes| => AsU32(Vocab.IdOf(vocab, nodes[k].feature.code))),
      if AllLabelled(nodes) then Some(seq(|nodes|, k requires 0 <= k < |nodes| && AllLabelled(nodes) => LabelByte(nodes[k].truth.value)))
      else None,
      Types(sample.graph),
      Rows(sample.graph))
  }

  /** The edges read back from the type array and the rows; `None` if a type byte is unknown. */
  function ReadEdges(types: seq<u8>, rows: seq<u32>): Option<seq<Edge>>
    requires |rows| == 2 * |types|
  {
    if types == [] then Some([])
    else
      var n := |types| - 1;
      var init := ReadEdges(types[..n], rows[..2 * n]);
      var t := TypeOfCode(types[n]);
      if init.Some? && t.Some? then Some(init.value + [Edge(rows[2 * n], rows[2 * n + 1], t.value)])
      else None
  }

  /**
   * Reading the stored relations back gives the graph, as long as every node index fits the
   * `u32` it is stored as.
   */
  lemma {:induction false} RelationsRoundTrip(graph: seq<Edge>)
    requires forall k :: 0 <= k < |graph| ==> graph[k].from < U32_LIMIT && graph[k].to < U32_LIMIT
    ensures ReadEdges(Types(graph), Rows(graph)) == Some(graph)
  {
    if graph != [] {
      var n := |graph| - 1;
      RelationsRoundTrip(graph[..n]);
      assert graph[..n] + [graph[n]] == graph;
      TypesLast(graph[..n], graph[n]);
      RowsLast(graph[..n], graph[n]);
      TypeCodeRoundTrip(graph[n].kind);
      ReadEdgesSnoc(Types(graph), Rows(graph), graph[..n], graph[n]);
    }
  }

  /** The stored types of a graph extend those of the graph without its last edge. */
  lemma TypesLast(init: seq<Edge>, e: Edge)
    ensures Types(init + [e])[..|init|] == Types(init) && Types(init + [e])[|init|] == TypeCode(e.kind)
  {
    assert (init + [e])[..|init|] == init;
    assert Types(init + [e]) == Types(init) + [TypeCode(e.kind)];
  }

  /** The stored rows of a graph extend those of the graph without its last edge. */
  lemma RowsLast(init: seq<Edge>, e: Edge)
    requires e.from < U32_LIMIT && e.to < U32_LIMIT
    ensures Rows(init + [e])[..2 * |init|] == Rows(init)
    ensures Rows(init + [e])[2 * |init|] == e.from && Rows(init + [e])[2 * |init| + 1] == e.to
  {
    assert (init + [e])[..|init|] == init;
    PairParts(Rows(init), AsU32(e.from), AsU32(e.to), Rows(init + [e]));
  }

  lemma PairParts<T>(init: seq<T>, a: T, b: T, whole: seq<T>)
    requires whole == init + [a, b]
    ensures whole[..|init|] == init && whole[|init|] == a && whole[|init| + 1] == b
  {
  }

  /** Reading one more type and row pair appends one more edge. */
  lemma ReadEdgesSnoc(types: seq<u8>, rows: seq<u32>, init: seq<Edge>, e: Edge)
    requires types != [] && |rows| == 2 * |types|
    requires var n := |types| - 1;
      && ReadEdges(types[..n], rows[..2 * n]) == Some(init)
      && TypeOfCode(types[n]) == Some(e.kind) && rows[2 * n] == e.from && rows[2 * n + 1] == e.to
    ensures ReadEdges(types, rows) == Some(init + [e])
  {
  }

  /** Every stored label reads back as the node's label. */
  lemma LabelsRoundTrip(sample: GraphSample, vocab: Vocab.CodeVocab, k: nat)
    requires AllLabelled(sample.superset) && k < |sample.superset|
    ensures LabelOfByte(ToArrays(sample, vocab).labels.value[k]) == sample.superset[k].truth.value
  {
  }
}
