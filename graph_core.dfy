/**
 * The current superset graph's building blocks: the seven relation types, the out-edges of a
 * node (its jump target and the node after it), the forward-only topological order, and the
 * edge list with its sort.
 */
module GraphCore {
  import opened Wrappers
  import opened Words
  import opened Superset

  datatype RelationType = Next | Previous | Overlap | JumpTo | JumpFrom | DataDependency | DataDependent

  /** The `u8` each relation type is stored as. */
  function TypeCode(t: RelationType): (r: u8)
    ensures r < 7
  {
    match t
    case Next => 0
    case Previous => 1
    case Overlap => 2
    case JumpTo => 3
    case JumpFrom => 4
    case DataDependency => 5
    case DataDependent => 6
  }

  /** The relation type a stored `u8` stands for. */
  function TypeOfCode(b: u8): Option<RelationType> {
    if b == 0 then Some(Next)
    else if b == 1 then Some(Previous)
    else if b == 2 then Some(Overlap)
    else if b == 3 then Some(JumpTo)
    else if b == 4 then Some(JumpFrom)
    else if b == 5 then Some(DataDependency)
    else if b == 6 then Some(DataDependent)
    else None
  }

  /** Every relation type is stored as a distinct code that reads back as that type. */
  lemma TypeCodeRoundTrip(t: RelationType)
    ensures TypeOfCode(TypeCode(t)) == Some(t)
  {
  }

  /** The node right after node `i`'s instruction, when execution falls through to it. */
  function FallThrough(entries: seq<Entry>, i: nat): Option<nat>
    requires i < |entries|
  {
    if entries[i].feature.fallsThrough then IndexOf(entries, EndOf(entries[i])) else None
  }

  /** The node at node `i`'s direct jump target. */
  function JumpNode(entries: seq<Entry>, i: nat): Option<nat>
    requires i < |entries|
  {
    match entries[i].feature.jumpTarget
    case None => None
    case Some(target) => IndexOf(entries, target)
  }

  function OptionList(o: Option<nat>): seq<nat> {
    match o
    case None => []
    case Some(x) => [x]
  }

  /**
   * `get_instr_out_edges`: the fall-through successor, then the jump successor, reversed; the
   * node after the instruction is therefore the last one, the first to be popped.
   */
  function OutEdges(entries: seq<Entry>, i: nat): (r: seq<nat>)
    requires i < |entries|
    ensures |r| <= 2
    ensures forall x :: x in r <==> Some(x) == FallThrough(entries, i) || Some(x) == JumpNode(entries, i)
    ensures forall x :: x in r ==> x < |entries|
  {
    OptionList(JumpNode(entries, i)) + OptionList(FallThrough(entries, i))
  }

  /** A backtracking stack entry: a node and the out-edges still to explore. */
  datatype StackItem = StackItem(index: nat, iter: seq<nat>)

  /** The nodes `len - 1` down to `lo`, in that order. */
  function Descending(len: nat, lo: nat): (r: seq<nat>)
    requires lo <= len
    ensures |r| == len - lo && forall k :: 0 <= k < |r| ==> r[k] == len - 1 - k
    decreases len - lo
  {
    if lo == len then [] else Descending(len, lo + 1) + [lo]
  }

  /** A sequence backwards. */
  function Reversed(s: seq<nat>): (r: seq<nat>)
    ensures |r| == |s| && forall k :: 0 <= k < |s| ==> r[k] == s[|s| - 1 - k]
  {
    if s == [] then [] else [s[|s| - 1]] + Reversed(s[..|s| - 1])
  }

  /**
   * `toposort`: a depth-first walk from every node, last node first, that skips out-edges to
   * nodes at or below the current one. Every out-edge above a node leads to a node already
   * finalised, so each start node is finalised at once and the order is `0..len`; the push of an
   * unvisited successor and both panics cannot happen.
   */
  method Toposort(entries: seq<Entry>) returns (result: seq<nat>)
    requires NoOverflow(entries)
    ensures |result| == |entries| && forall k :: 0 <= k < |result| ==> result[k] == k
  {
    var len := |entries|;
    var stack: seq<StackItem> := [];
    var isInStack := new bool[len](_ => false);
    var wasVisited := new bool[len](_ => false);
    result := [];
    var start := len;
    while start > 0
      invariant start <= len && stack == []
      invariant forall k :: 0 <= k < len ==> wasVisited[k] == (k >= start)
      invariant forall k :: 0 <= k < len ==> !isInStack[k]
      invariant result == Descending(len, start)
    {
      start := start - 1;
      if !wasVisited[start] {
        stack := stack + [StackItem(start, OutEdges(entries, start))];
        while stack != []
          invariant |stack| <= 1
          invariant stack != [] ==> stack[0].index == start && forall x :: x in stack[0].iter ==> x < len
          invariant forall k :: 0 <= k < len ==> wasVisited[k] == (k > start || (k == start && stack == []))
          invariant forall k :: 0 <= k < len ==> !isInStack[k]
          invariant result == if stack == [] then Descending(len, start) else Descending(len, start + 1)
          decreases if stack == [] then 0 else |stack[0].iter| + 1
        {
          var item := stack[|stack| - 1];
          stack := stack[..|stack| - 1];
          if item.iter != [] {
            var next := item.iter[|item.iter| - 1];
            assert next in item.iter;
            var rest := item.iter[..|item.iter| - 1];
            assert forall x :: x in rest ==> x in item.iter;
            item := StackItem(item.index, rest);
            var index := item.index;
            stack := stack + [item];
            if next <= index {
              continue;
            }
            if wasVisited[next] {
              continue;
            }
            assert false;
          } else {
            isInStack[item.index] := false;
            if !wasVisited[item.index] {
              wasVisited[item.index] := true;
              result := result + [item.index];
            } else {
              assert false;
            }
          }
        }
      }
    }
    result := Reversed(result);
  }

  /** Two edges in ascending `(from, to)` order. */
  predicate EdgeLe(a: (u32, u32), b: (u32, u32)) {
    a.0 < b.0 || (a.0 == b.0 && a.1 <= b.1)
  }

  /** An edge with its type, as `sort` keeps them together. */
  type Triple = ((u32, u32), RelationType)

  predicate SortedTriples(s: seq<Triple>) {
    forall i, j :: 0 <= i < j < |s| ==> EdgeLe(s[i].0, s[j].0)
  }

  /** Inserting one triple into a sorted list, after every triple whose edge is not above it. */
  function InsertTriple(s: seq<Triple>, x: Triple): (r: seq<Triple>)
    requires SortedTriples(s)
    ensures SortedTriples(r)
    ensures |r| == |s| + 1 && (r[0] == x || (s != [] && r[0] == s[0]))
  {
    if s == [] then [x]
    else if EdgeLe(s[0].0, x.0) then [s[0]] + InsertTriple(s[1..], x)
    else [x] + s
  }

  /** Insertion adds exactly the one triple. */
  lemma {:induction false} InsertTripleMultiset(s: seq<Triple>, x: Triple)
    requires SortedTriples(s)
    ensures multiset(InsertTriple(s, x)) == multiset(s) + multiset{x}
  {
    if s != [] && EdgeLe(s[0].0, x.0) {
      InsertTripleMultiset(s[1..], x);
      assert s == [s[0]] + s[1..];
    }
  }

  /** The triples in ascending edge order. */
  function SortTriples(s: seq<Triple>): (r: seq<Triple>)
    ensures SortedTriples(r)
  {
    if s == [] then [] else InsertTriple(SortTriples(s[..|s| - 1]), s[|s| - 1])
  }

  /** Sorting keeps every triple, as often as it occurs. */
  lemma {:induction false} SortTriplesMultiset(s: seq<Triple>)
    ensures multiset(SortTriples(s)) == multiset(s)
  {
    if s != [] {
      SortTriplesMultiset(s[..|s| - 1]);
      InsertTripleMultiset(SortTriples(s[..|s| - 1]), s[|s| - 1]);
      assert s == s[..|s| - 1] + [s[|s| - 1]];
    }
  }

  /** The types of the triples whose edge is `e`, in the order they occur. */
  function TypesOf(s: seq<Triple>, e: (u32, u32)): seq<RelationType> {
    if s == [] then []
    else (if s[0].0 == e then [s[0].1] else []) + TypesOf(s[1..], e)
  }

  lemma {:induction false} TypesOfConcat(a: seq<Triple>, b: seq<Triple>, e: (u32, u32))
    ensures TypesOf(a + b, e) == TypesOf(a, e) + TypesOf(b, e)
  {
    if a != [] {
      assert (a + b)[1..] == a[1..] + b;
      TypesOfConcat(a[1..], b, e);
    } else {
      assert a + b == b;
    }
  }

  /** A sorted list whose first edge is above `e` holds no triple with edge `e`. */
  lemma {:induction false} NoneBelowFirst(s: seq<Triple>, e: (u32, u32))
    requires SortedTriples(s) && s != [] && !EdgeLe(s[0].0, e)
    ensures TypesOf(s, e) == []
  {
    if |s| > 1 {
      assert EdgeLe(s[0].0, s[1].0);
      NoneBelowFirst(s[1..], e);
    }
  }

  /** Insertion puts the new triple after every triple with the same edge. */
  lemma {:induction false} InsertTripleStable(s: seq<Triple>, x: Triple, e: (u32, u32))
    requires SortedTriples(s)
    ensures TypesOf(InsertTriple(s, x), e) == TypesOf(s, e) + (if x.0 == e then [x.1] else [])
  {
    if s == [] {
    } else if EdgeLe(s[0].0, x.0) {
      InsertTripleStable(s[1..], x, e);
      assert ([s[0]] + InsertTriple(s[1..], x))[1..] == InsertTriple(s[1..], x);
    } else {
      assert ([x] + s)[1..] == s;
      if x.0 == e {
        NoneBelowFirst(s, e);
      }
    }
  }

  /**
   * Sorting is stable: the triples with any one edge keep their types in their original order,
   * as `permutation::sort` on the edges alone leaves them.
   */
  lemma {:induction false} SortTriplesStable(s: seq<Triple>, e: (u32, u32))
    ensures TypesOf(SortTriples(s), e) == TypesOf(s, e)
  {
    if s != [] {
      var init, x := s[..|s| - 1], s[|s| - 1];
      SortTriplesStable(init, e);
      InsertTripleStable(SortTriples(init), x, e);
      assert s == init + [x];
      TypesOfConcat(init, [x], e);
      var rest: seq<Triple> := [x][1..];
      assert rest == [];
    }
  }

  /** The edge list: `edges[k]` has the type `edgeTypes[k]`. */
  class Graph {
    var edges: seq<(u32, u32)>
    var edgeTypes: seq<RelationType>

    /** The two vectors stay the same length. */
    predicate Valid()
      reads this
    {
      |edges| == |edgeTypes|
    }

    /** Each edge with its type. */
    function Triples(): (r: seq<Triple>)
      reads this
      requires Valid()
      ensures |r| == |edges| && forall k :: 0 <= k < |r| ==> r[k] == (edges[k], edgeTypes[k])
    {
      seq(|edges|, k requires 0 <= k < |edges| && Valid() reads this => (edges[k], edgeTypes[k]))
    }

    constructor ()
      ensures edges == [] && edgeTypes == [] && Valid()
    {
      edges := [];
      edgeTypes := [];
    }

    /** `add_edge`: one more edge and its type. */
    method AddEdge(from: u32, to: u32, edgeType: RelationType)
      requires Valid()
      modifies this
      ensures Valid()
      ensures edges == old(edges) + [(from, to)] && edgeTypes == old(edgeTypes) + [edgeType]
      ensures Triples() == old(Triples()) + [((from, to), edgeType)]
    {
      edges := edges + [(from, to)];
      edgeTypes := edgeTypes + [edgeType];
    }

    /**
     * `sort`: the edges in ascending `(from, to)` order, each type moved along with its edge.
     */
    method Sort()
      requires Valid()
      modifies this
      ensures Valid()
      ensures SortedTriples(Triples()) && multiset(Triples()) == multiset(old(Triples()))
      ensures Triples() == SortTriples(old(Triples()))
    {
      var sorted := SortTriples(Triples());
      SortTriplesMultiset(Triples());
      edges := seq(|sorted|, k requires 0 <= k < |sorted| => sorted[k].0);
      edgeTypes := seq(|sorted|, k requires 0 <= k < |sorted| => sorted[k].1);
      assert Triples() == sorted;
    }
  }
}
