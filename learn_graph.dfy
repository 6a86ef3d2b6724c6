/**
 * The training script's graph: an `EdgesBuilder` that buffers edges and flushes them into
 * segments, and `build_executable_graph`, which adds Next/Previous pairs to the node right after
 * each row and Overlap pairs to the nodes strictly inside it. Only the three relation codes
 * NEXT, PREV and OVERLAP exist here.
 */
module LearnGraph {
  import opened Wrappers
  import opened Words
  import opened Superset
  import opened Seqs

  const EDGE_NEXT: int := 0
  const EDGE_PREV: int := 1
  const EDGE_OVERLAP: int := 2
  const EDGE_RELCOUNT: int := 3

  /** A buffer holding this many edges is flushed into a segment. */
  const FLUSH_AT: nat := 0x80000

  /** The endpoints of each edge, in order. */
  function Firsts(log: seq<((int, int), int)>): (r: seq<(int, int)>)
    ensures |r| == |log| && forall k :: 0 <= k < |log| ==> r[k] == log[k].0
  {
    if log == [] then [] else Firsts(log[..|log| - 1]) + [log[|log| - 1].0]
  }

  /** The kind of each edge, in order. */
  function Seconds(log: seq<((int, int), int)>): (r: seq<int>)
    ensures |r| == |log| && forall k :: 0 <= k < |log| ==> r[k] == log[k].1
  {
    if log == [] then [] else Seconds(log[..|log| - 1]) + [log[|log| - 1].1]
  }

  lemma SnocLog(log: seq<((int, int), int)>, e: ((int, int), int))
    ensures Firsts(log + [e]) == Firsts(log) + [e.0] && Seconds(log + [e]) == Seconds(log) + [e.1]
  {
    assert (log + [e])[..|log|] == log;
  }

  /**
   * `EdgesBuilder`: the current buffers of edge endpoints and kinds, the flushed segments, and
   * the number of `add_edge` calls. `built` counts the edges already handed out by `build`, and
   * `log` is every edge with its kind since the last `build`.
   */
  class EdgesBuilder {
    var idxBuffer: seq<(int, int)>
    var tyBuffer: seq<int>
    var edgeCount: nat
    var idxParts: seq<seq<(int, int)>>
    var tyParts: seq<seq<int>>
    ghost var built: nat
    ghost var log: seq<((int, int), int)>

    /**
     * The two buffers stay equally long and below the flush size, the segments and the buffers
     * hold exactly the edges and kinds of `log`, and the count covers `log` and what was built.
     */
    ghost predicate Valid()
      reads this
    {
      && |idxBuffer| == |tyBuffer| < FLUSH_AT
      && edgeCount == built + |Pairs()|
      && Pairs() == Firsts(log) && Kinds() == Seconds(log)
    }

    /** Every edge added since the last `build`, segments first, in order. */
    function Pairs(): seq<(int, int)>
      reads this
    {
      Flatten(idxParts) + idxBuffer
    }

    /** The kinds of those edges, in the same order. */
    function Kinds(): seq<int>
      reads this
    {
      Flatten(tyParts) + tyBuffer
    }

    constructor ()
      ensures Valid() && Pairs() == [] && Kinds() == [] && log == [] && edgeCount == 0
    {
      log := [];
      idxBuffer := [];
      tyBuffer := [];
      edgeCount := 0;
      idxParts := [];
      tyParts := [];
      built := 0;
    }

    /** `add_edge`: one more edge, flushing both buffers into a segment once they are full. */
    method AddEdge(src: int, dst: int, kind: int)
      requires Valid()
      modifies this
      ensures Valid()
      ensures Pairs() == old(Pairs()) + [(src, dst)] && Kinds() == old(Kinds()) + [kind]
      ensures log == old(log) + [((src, dst), kind)]
      ensures edgeCount == old(edgeCount) + 1 && built == old(built)
    {
      SnocLog(log, ((src, dst), kind));
      var ib := idxBuffer + [(src, dst)];
      var tb := tyBuffer + [kind];
      var ip := idxParts;
      var tp := tyParts;
      assert Flatten(ip) + ib == Pairs() + [(src, dst)];
      assert Flatten(tp) + tb == Kinds() + [kind];
      if |ib| >= FLUSH_AT {
        FlattenSnoc(ip, ib);
        FlattenSnoc(tp, tb);
        ip, tp := ip + [ib], tp + [tb];
        ib, tb := [], [];
        assert Flatten(ip) + ib == Flatten(ip);
        assert Flatten(tp) + tb == Flatten(tp);
      }
      ghost var added := log + [((src, dst), kind)];
      assert Flatten(ip) + ib == Firsts(added) && Flatten(tp) + tb == Seconds(added);
      assert |ib| == |tb| < FLUSH_AT;
      idxBuffer, tyBuffer, idxParts, tyParts := ib, tb, ip, tp;
      edgeCount, log := edgeCount + 1, added;
    }

    /**
     * `build`: every edge and every kind since the last `build`, in call order, whatever the
     * segments; the buffers and segments are left empty and the count is kept.
     */
    method Build() returns (edgeIdx: seq<(int, int)>, edgeTy: seq<int>)
      requires Valid()
      modifies this
      ensures edgeIdx == old(Pairs()) && edgeTy == old(Kinds()) && |edgeIdx| == |edgeTy|
      ensures edgeIdx == Firsts(old(log)) && edgeTy == Seconds(old(log))
      ensures Valid() && idxBuffer == [] && tyBuffer == [] && idxParts == [] && tyParts == [] && log == []
      ensures edgeCount == old(edgeCount)
    {
      FlattenSnoc(idxParts, idxBuffer);
      FlattenSnoc(tyParts, tyBuffer);
      edgeIdx := Flatten(idxParts + [idxBuffer]);
      edgeTy := Flatten(tyParts + [tyBuffer]);
      assert edgeIdx == Firsts(log) && edgeTy == Seconds(log);
      built := built + |edgeIdx|;
      idxBuffer, tyBuffer, idxParts, tyParts, log := [], [], [], [], [];
      assert Pairs() == [] == Firsts(log) && Kinds() == [] == Seconds(log);
    }

    /** `__len__`: the number of `add_edge` calls, counting the edges already built. */
    function Len(): (r: nat)
      reads this
      requires Valid()
      ensures r == built + |Pairs()|
    {
      edgeCount
    }
  }

  /**
   * What `x.size` reads in the row loop. On a row of the frame it is the row's element count
   * (the columns `size`, `code` and `label` left once `addr` is the index), not the `size`
   * column; `SizeColumn` is the instruction size that `encode_instructions` reads.
   */
  datatype Width = RowLength | SizeColumn

  const ROW_FIELDS: nat := 3

  /** `next_addr`: the address after the row, as the loop computes it. */
  function NextAddr(e: Entry, w: Width): int {
    e.addr + match w
      case RowLength => ROW_FIELDS
      case SizeColumn => e.feature.size
  }

  /** An edge as the builder receives it: the two node positions and the relation code. */
  type LearnEdge = ((int, int), int)

  /** The NEXT/PREV pair of row `i`, when a node sits at `next_addr`. */
  function RowNext(entries: seq<Entry>, i: nat, w: Width): seq<LearnEdge>
    requires i < |entries|
  {
    match IndexOf(entries, NextAddr(entries[i], w))
    case None => []
    case Some(j) => [((i, j), EDGE_NEXT), ((j, i), EDGE_PREV)]
  }

  /** The OVERLAP pairs of row `i` for the addresses `lo..hi`, in address order. */
  function RowOverlaps(entries: seq<Entry>, i: nat, lo: int, hi: int): seq<LearnEdge>
    decreases hi - lo
  {
    if hi <= lo then []
    else
      RowOverlaps(entries, i, lo, hi - 1)
      + match IndexOf(entries, hi - 1)
        case None => []
        case Some(o) => [((i, o), EDGE_OVERLAP), ((o, i), EDGE_OVERLAP)]
  }

  /** Everything added for row `i`: overlaps start one address after the row's own. */
  function RowEdges(entries: seq<Entry>, i: nat, w: Width): seq<LearnEdge>
    requires i < |entries|
  {
    RowNext(entries, i, w) + RowOverlaps(entries, i, entries[i].addr + 1, NextAddr(entries[i], w))
  }

  /** The edges added for the first `n` rows. */
  function GraphEdges(entries: seq<Entry>, n: nat, w: Width): seq<LearnEdge>
    requires n <= |entries|
  {
    if n == 0 then [] else GraphEdges(entries, n - 1, w) + RowEdges(entries, n - 1, w)
  }

  /** A node sits strictly inside row `i`'s span and resolves to `o`. */
  ghost predicate Inside(entries: seq<Entry>, w: Width, i: int, o: int) {
    0 <= i < |entries| && 0 <= o && HitsIn(entries, entries[i].addr + 1, NextAddr(entries[i], w), o)
  }

  /**
   * The edges the graph must hold, stated per edge: NEXT to the node at `next_addr`, OVERLAP
   * both ways with any node strictly inside the span, PREV reversing NEXT, and no other code.
   */
  ghost predicate Prescribed(entries: seq<Entry>, w: Width, e: LearnEdge) {
    var from := e.0.0;
    var to := e.0.1;
    if e.1 == EDGE_NEXT then 0 <= from < |entries| && IndexOf(entries, NextAddr(entries[from], w)) == Some(to)
    else if e.1 == EDGE_PREV then 0 <= to < |entries| && IndexOf(entries, NextAddr(entries[to], w)) == Some(from)
    else if e.1 == EDGE_OVERLAP then Inside(entries, w, from, to) || Inside(entries, w, to, from)
    else false
  }

  /** `e` is an edge row `i` adds. */
  ghost predicate VisitedAs(entries: seq<Entry>, w: Width, i: nat, e: LearnEdge)
    requires i < |entries|
  {
    var from := e.0.0;
    var to := e.0.1;
    if e.1 == EDGE_NEXT then from == i && IndexOf(entries, NextAddr(entries[i], w)) == Some(to)
    else if e.1 == EDGE_PREV then to == i && IndexOf(entries, NextAddr(entries[i], w)) == Some(from)
    else if e.1 == EDGE_OVERLAP then (from == i && Inside(entries, w, i, to)) || (to == i && Inside(entries, w, i, from))
    else false
  }

  /** `HitsIn` for an integer position. */
  ghost predicate Hit(entries: seq<Entry>, lo: int, hi: int, o: int) {
    0 <= o && HitsIn(entries, lo, hi, o)
  }

  /** The OVERLAP pairs for `lo..hi` are the pairs with a node hit in that range. */
  lemma {:induction false} RowOverlapsMembers(entries: seq<Entry>, i: nat, lo: int, hi: int, e: LearnEdge)
    ensures e in RowOverlaps(entries, i, lo, hi) <==>
              e.1 == EDGE_OVERLAP && ((e.0.0 == i && Hit(entries, lo, hi, e.0.1)) || (e.0.1 == i && Hit(entries, lo, hi, e.0.0)))
    decreases hi - lo
  {
    if hi > lo {
      RowOverlapsMembers(entries, i, lo, hi - 1, e);
      if e.0.1 >= 0 {
        HitsInStep(entries, lo, hi, e.0.1);
      }
      if e.0.0 >= 0 {
        HitsInStep(entries, lo, hi, e.0.0);
      }
    }
  }

  lemma RowEdgesMembers(entries: seq<Entry>, w: Width, i: nat, e: LearnEdge)
    requires i < |entries|
    ensures e in RowEdges(entries, i, w) <==> VisitedAs(entries, w, i, e)
  {
    RowOverlapsMembers(entries, i, entries[i].addr + 1, NextAddr(entries[i], w), e);
  }

  /** The row of one of the first `n` rows adds `e`. */
  ghost predicate VisitedBefore(entries: seq<Entry>, w: Width, n: nat, e: LearnEdge)
    requires n <= |entries|
  {
    exists i :: 0 <= i < n && VisitedAs(entries, w, i, e)
  }

  /** The edges of each of the first `n` rows, row by row. */
  function RowsOf(entries: seq<Entry>, n: nat, w: Width): (r: seq<seq<LearnEdge>>)
    requires n <= |entries|
    ensures |r| == n && forall i :: 0 <= i < n ==> r[i] == RowEdges(entries, i, w)
  {
    seq(n, i requires 0 <= i < n => RowEdges(entries, i, w))
  }

  /** The graph of the first `n` rows is their rows' edges joined in order. */
  lemma {:induction false} GraphEdgesFlatten(entries: seq<Entry>, w: Width, n: nat)
    requires n <= |entries|
    ensures GraphEdges(entries, n, w) == Flatten(RowsOf(entries, n, w))
  {
    if n > 0 {
      GraphEdgesFlatten(entries, w, n - 1);
      assert RowsOf(entries, n, w)[..n - 1] == RowsOf(entries, n - 1, w);
    }
  }

  lemma GraphEdgesMembers(entries: seq<Entry>, w: Width, n: nat, e: LearnEdge)
    requires n <= |entries|
    ensures e in GraphEdges(entries, n, w) <==> VisitedBefore(entries, w, n, e)
  {
    var rows := RowsOf(entries, n, w);
    GraphEdgesFlatten(entries, w, n);
    FlattenMembers(rows, e);
    if e in Flatten(rows) {
      var i :| 0 <= i < n && e in rows[i];
      RowEdgesMembers(entries, w, i, e);
    }
    if VisitedBefore(entries, w, n, e) {
      var i :| 0 <= i < n && VisitedAs(entries, w, i, e);
      RowEdgesMembers(entries, w, i, e);
      assert e in rows[i];
    }
  }

  /**
   * The graph holds exactly the prescribed edges: NEXT/PREV with the node at `next_addr`,
   * OVERLAP both ways with the nodes strictly inside the span; a missing address adds nothing.
   */
  lemma GraphExactly(entries: seq<Entry>, w: Width, e: LearnEdge)
    ensures e in GraphEdges(entries, |entries|, w) <==> Prescribed(entries, w, e)
  {
    GraphEdgesMembers(entries, w, |entries|, e);
    if Prescribed(entries, w, e) {
      if e.1 == EDGE_OVERLAP && !Inside(entries, w, e.0.0, e.0.1) {
        assert VisitedAs(entries, w, e.0.1, e);
      } else if e.1 == EDGE_NEXT || e.1 == EDGE_OVERLAP {
        assert VisitedAs(entries, w, e.0.0, e);
      } else {
        assert VisitedAs(entries, w, e.0.1, e);
      }
    }
  }

  /** The overlap range starts after the row's own address, so no node overlaps itself. */
  lemma NoSelfOverlap(entries: seq<Entry>, w: Width, i: nat)
    ensures ((i, i), EDGE_OVERLAP) !in GraphEdges(entries, |entries|, w)
  {
    GraphExactly(entries, w, ((i, i), EDGE_OVERLAP));
    if i < |entries| {
      assert forall j | entries[i].addr + 1 <= j :: IndexOf(entries, j) != Some(i);
    }
  }

  /** Every relation code is below `EDGE_RELCOUNT`, the number of relations the model embeds. */
  lemma {:induction false} KindsInRange(entries: seq<Entry>, w: Width, n: nat, e: LearnEdge)
    requires n <= |entries| && e in GraphEdges(entries, n, w)
    ensures 0 <= e.1 < EDGE_RELCOUNT
  {
    GraphEdgesMembers(entries, w, n, e);
  }

  /**
   * The edge loop of `build_executable_graph`, with `x.size` read as `w`: the node positions
   * come from the address index, which with distinct addresses is the row's position.
   */
  method BuildExecutableGraph(entries: seq<Entry>, w: Width) returns (edgeIdx: seq<(int, int)>, edgeTy: seq<int>)
    requires DistinctAddrs(entries)
    ensures edgeIdx == Firsts(GraphEdges(entries, |entries|, w)) && edgeTy == Seconds(GraphEdges(entries, |entries|, w))
  {
    var edges := new EdgesBuilder();
    var index := BuildIndex(entries);
    for i := 0 to |entries|
      invariant edges.Valid() && fresh(edges) && edges.log == GraphEdges(entries, i, w)
    {
      AddRow(edges, entries, index, i, w);
    }
    ghost var all := edges.log;
    edgeIdx, edgeTy := edges.Build();
    assert edgeIdx == Firsts(all) && edgeTy == Seconds(all);
  }

  /** The edges of one row: the NEXT/PREV pair, then an OVERLAP pair per node strictly inside. */
  method AddRow(edges: EdgesBuilder, entries: seq<Entry>, index: map<int, nat>, i: nat, w: Width)
    requires edges.Valid() && i < |entries|
    requires forall a :: Lookup(index, a) == IndexOf(entries, a)
    modifies edges
    ensures edges.Valid() && edges.log == old(edges.log) + RowEdges(entries, i, w)
  {
    ghost var start := edges.log;
    AddNext(edges, entries, index, i, w);
    ghost var mid := edges.log;
    AddOverlaps(edges, entries, index, i, entries[i].addr + 1, NextAddr(entries[i], w));
    ghost var next := RowNext(entries, i, w);
    ghost var overlaps := RowOverlaps(entries, i, entries[i].addr + 1, NextAddr(entries[i], w));
    assert edges.log == start + next + overlaps;
  }

  /** The NEXT/PREV pair of row `i`, when the address after it is a node's. */
  method AddNext(edges: EdgesBuilder, entries: seq<Entry>, index: map<int, nat>, i: nat, w: Width)
    requires edges.Valid() && i < |entries|
    requires forall a :: Lookup(index, a) == IndexOf(entries, a)
    modifies edges
    ensures edges.Valid() && edges.log == old(edges.log) + RowNext(entries, i, w)
  {
    var nextAddr := NextAddr(entries[i], w);
    assert Lookup(index, nextAddr) == IndexOf(entries, nextAddr);
    match Lookup(index, nextAddr) {
      case Some(j) =>
        edges.AddEdge(i, j, EDGE_NEXT);
        edges.AddEdge(j, i, EDGE_PREV);
      case None =>
    }
  }

  /** The OVERLAP pairs of row `i` for the addresses `lo..hi`. */
  method AddOverlaps(edges: EdgesBuilder, entries: seq<Entry>, index: map<int, nat>, i: nat, lo: int, hi: int)
    requires edges.Valid()
    requires forall a :: Lookup(index, a) == IndexOf(entries, a)
    modifies edges
    ensures edges.Valid() && edges.log == old(edges.log) + RowOverlaps(entries, i, lo, hi)
  {
    ghost var start := edges.log;
    for o := lo to if hi < lo then lo else hi
      invariant edges.Valid() && edges.log == start + RowOverlaps(entries, i, lo, o)
    {
      assert Lookup(index, o) == IndexOf(entries, o);
      match Lookup(index, o) {
        case Some(j) =>
          edges.AddEdge(i, j, EDGE_OVERLAP);
          edges.AddEdge(j, i, EDGE_OVERLAP);
        case None =>
      }
    }
  }

  /** `encode_instructions`: each size shifted down by one, to a 0-based class index. */
  function EncodeSizes(entries: seq<Entry>): (r: seq<int>)
    ensures |r| == |entries| && forall k :: 0 <= k < |r| ==> r[k] + 1 == entries[k].feature.size
  {
    seq(|entries|, k requires 0 <= k < |entries| => entries[k].feature.size - 1)
  }

  /** Three one-byte instructions at addresses 0, 1 and 2. */
  function ThreeRows(): seq<Entry> {
    var f := Feature(1, 0, None, true, [], []);
    [Entry(0, f, None), Entry(1, f, None), Entry(2, f, None)]
  }

  /**
   * With `x.size` read as the row length, the loop treats every row as three bytes long: the
   * one-byte instruction at 0 gets no NEXT edge to the instruction at 1 and is said to overlap
   * it; with the size column it gets the NEXT edge and no overlap.
   */
  lemma RowLengthMisreadsSize()
    ensures ((0, 1), EDGE_OVERLAP) in GraphEdges(ThreeRows(), 3, RowLength)
    ensures ((0, 1), EDGE_NEXT) !in GraphEdges(ThreeRows(), 3, RowLength)
    ensures ((0, 1), EDGE_NEXT) in GraphEdges(ThreeRows(), 3, SizeColumn)
    ensures ((0, 1), EDGE_OVERLAP) !in GraphEdges(ThreeRows(), 3, SizeColumn)
  {
    var es := ThreeRows();
    GraphExactly(es, RowLength, ((0, 1), EDGE_OVERLAP));
    GraphExactly(es, RowLength, ((0, 1), EDGE_NEXT));
    GraphExactly(es, SizeColumn, ((0, 1), EDGE_NEXT));
    GraphExactly(es, SizeColumn, ((0, 1), EDGE_OVERLAP));
    assert IndexOf(es, 1) == Some(1);
    assert HitsIn(es, 1, 3, 1);
    assert IndexOf(es, 3) == None;
    assert !Inside(es, SizeColumn, 0, 1) && !Inside(es, SizeColumn, 1, 0);
  }

  /**
   * With the size column, a row has a NEXT edge to a node exactly when that node sits right
   * after the instruction.
   */
  lemma SizeColumnNext(entries: seq<Entry>, i: nat, j: nat)
    requires i < |entries|
    ensures ((i, j), EDGE_NEXT) in GraphEdges(entries, |entries|, SizeColumn) <==> IndexOf(entries, EndOf(entries[i])) == Some(j)
  {
    var e: LearnEdge := ((i, j), EDGE_NEXT);
    GraphExactly(entries, SizeColumn, e);
    assert NextAddr(entries[i], SizeColumn) == EndOf(entries[i]);
    assert Prescribed(entries, SizeColumn, e) <==> IndexOf(entries, EndOf(entries[i])) == Some(j);
  }
}
