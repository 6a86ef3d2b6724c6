/**
 * Half-open u32 intervals and the interval set of the `fetch` crate.
 *
 * An `IntervalSet` keeps an ordered map from u32 keys to `Start`/`End` markers; read in key
 * order the markers alternate Start, End, Start, End, ..., and each Start/End pair is one
 * stored interval [start, end). The ordered map is modelled by the sequence of its entries in
 * key order. A value x is covered when the number of keys <= x is odd.
 */
module IntervalSets {
  import opened Wrappers
  import opened Words

  /** The two bounds of an interval. */
  datatype Bounds = Bounds(start: u32, end: u32)

  /** `Interval<u32>`: every constructor of the source guarantees start <= end. */
  type Interval = b: Bounds | b.start <= b.end witness Bounds(0, 0)

  predicate InInterval(iv: Interval, x: int) {
    iv.start <= x < iv.end
  }

  /** The integers in [lo, hi). */
  function Range(lo: int, hi: int): (r: set<int>)
    ensures forall x :: x in r <==> lo <= x < hi
    ensures lo <= hi ==> |r| == hi - lo
    decreases hi - lo
  {
    if hi <= lo then {} else {lo} + Range(lo + 1, hi)
  }

  /** `Interval::from_start_and_end`, which asserts start <= end. */
  function FromStartAndEnd(start: u32, end: u32): (r: Interval)
    requires start <= end
    ensures Len(r) == end - start
    ensures forall x :: InInterval(r, x) <==> start <= x < end
  {
    Bounds(start, end)
  }

  /** `Interval::from_start_and_len`; `start + len` must not overflow u32. */
  function FromStartAndLen(start: u32, len: u32): (r: Interval)
    requires start + len < U32_LIMIT
    ensures r.start == start && Len(r) == len
  {
    Bounds(start, start + len)
  }

  /** `Interval::len`: the number of values in the interval. */
  function Len(iv: Interval): (r: u32)
    ensures r == |Range(iv.start, iv.end)|
  {
    iv.end - iv.start
  }

  /** `Interval::is_empty`: no value lies in the interval. */
  predicate IsEmpty(iv: Interval)
    ensures IsEmpty(iv) <==> forall x :: !InInterval(iv, x)
  {
    assert iv.start < iv.end ==> InInterval(iv, iv.start);
    Len(iv) == 0
  }

  /**
   * `Interval::intersection`: [max start, min end), or the empty interval [0, 0) when the
   * two do not meet.
   */
  function Intersection(a: Interval, b: Interval): (r: Interval)
    ensures forall x :: InInterval(r, x) <==> InInterval(a, x) && InInterval(b, x)
    ensures (if a.start < b.start then b.start else a.start) > (if a.end < b.end then a.end else b.end)
      ==> r == Bounds(0, 0)
  {
    var start := if a.start < b.start then b.start else a.start;
    var end := if a.end < b.end then a.end else b.end;
    if end < start then Bounds(0, 0) else Bounds(start, end)
  }

  datatype SetNode = Start | End

  function Opposite(n: SetNode): SetNode {
    if n == Start then End else Start
  }

  /** One entry of the ordered map. */
  datatype Point = Point(key: u32, node: SetNode)

  predicate Ascending(p: seq<Point>) {
    forall i, j :: 0 <= i < j < |p| ==> p[i].key < p[j].key
  }

  predicate Alternating(p: seq<Point>) {
    |p| % 2 == 0 && forall i :: 0 <= i < |p| ==> (p[i].node == Start <==> i % 2 == 0)
  }

  /** The invariant of the ordered map: keys ascend and markers alternate, Start first. */
  predicate WellFormed(p: seq<Point>) {
    Ascending(p) && Alternating(p)
  }

  lemma AscendingSlice(p: seq<Point>, lo: int, hi: int)
    requires Ascending(p) && 0 <= lo <= hi <= |p|
    ensures Ascending(p[lo..hi])
  {
    forall u, w | 0 <= u < w < hi - lo ensures p[lo..hi][u].key < p[lo..hi][w].key {
      assert p[lo..hi][u] == p[lo + u] && p[lo..hi][w] == p[lo + w];
    }
  }

  lemma AscendingConcat(x: seq<Point>, y: seq<Point>)
    requires Ascending(x) && Ascending(y)
    requires x == [] || y == [] || x[|x| - 1].key < y[0].key
    ensures Ascending(x + y)
  {
    var s := x + y;
    forall u, w | 0 <= u < w < |s| ensures s[u].key < s[w].key {
      if w < |x| {
        assert s[u] == x[u] && s[w] == x[w];
      } else if u >= |x| {
        assert s[u] == y[u - |x|] && s[w] == y[w - |x|];
      } else {
        assert s[u] == x[u] && s[w] == y[w - |x|];
        assert x[u].key <= x[|x| - 1].key && y[0].key <= y[w - |x|].key;
      }
    }
  }

  /** The number of leading entries whose key is below `v`. */
  function CountBelow(p: seq<Point>, v: int): (c: nat)
    ensures c <= |p|
  {
    if p == [] || p[0].key >= v then 0 else 1 + CountBelow(p[1..], v)
  }

  lemma {:induction false} CountBelowFacts(p: seq<Point>, v: int)
    ensures forall t :: 0 <= t < CountBelow(p, v) ==> p[t].key < v
    ensures CountBelow(p, v) < |p| ==> p[CountBelow(p, v)].key >= v
  {
    if p != [] && p[0].key < v {
      CountBelowFacts(p[1..], v);
      assert forall t :: 1 <= t < |p| ==> p[t] == p[1..][t - 1];
    }
  }

  lemma CountBelowRest(p: seq<Point>, v: int)
    requires Ascending(p)
    ensures forall t :: CountBelow(p, v) <= t < |p| ==> p[t].key >= v
  {
    CountBelowFacts(p, v);
  }

  /** The count is the first position holding a key that is not below `v`. */
  lemma {:induction false} CountBelowIs(p: seq<Point>, v: int, c: nat)
    requires c <= |p|
    requires forall t :: 0 <= t < c ==> p[t].key < v
    requires c < |p| ==> p[c].key >= v
    ensures CountBelow(p, v) == c
  {
    if c > 0 {
      assert forall t :: 0 <= t < c - 1 ==> p[1..][t] == p[t + 1];
      CountBelowIs(p[1..], v, c - 1);
    }
  }

  lemma {:induction false} CountBelowMonotone(p: seq<Point>, v: int, w: int)
    requires v <= w
    ensures CountBelow(p, v) <= CountBelow(p, w)
  {
    if p != [] && p[0].key < v {
      CountBelowMonotone(p[1..], v, w);
    }
  }

  lemma {:induction false} CountBelowConcat(x: seq<Point>, y: seq<Point>, v: int)
    ensures CountBelow(x + y, v) == if CountBelow(x, v) < |x| then CountBelow(x, v) else |x| + CountBelow(y, v)
  {
    if x == [] {
      assert x + y == y;
    } else {
      assert (x + y)[0] == x[0];
      if x[0].key < v {
        assert (x + y)[1..] == x[1..] + y;
        CountBelowConcat(x[1..], y, v);
      }
    }
  }

  lemma {:induction false} CountBelowPrefix(p: seq<Point>, i: nat, v: int)
    requires i <= |p|
    ensures CountBelow(p[..i], v) == if i < CountBelow(p, v) then i else CountBelow(p, v)
  {
    if i > 0 && p[0].key < v {
      assert p[..i][1..] == p[1..][..i - 1];
      CountBelowPrefix(p[1..], i - 1, v);
    }
  }

  lemma CountBelowSuffix(p: seq<Point>, j: nat, v: int)
    requires j <= |p| && Ascending(p)
    ensures CountBelow(p[j..], v) == if j <= CountBelow(p, v) then CountBelow(p, v) - j else 0
  {
    var c := CountBelow(p, v);
    CountBelowFacts(p, v);
    CountBelowRest(p, v);
    if j <= c {
      forall t | 0 <= t < c - j ensures p[j..][t].key < v {
        assert p[j..][t] == p[j + t];
      }
      CountBelowIs(p[j..], v, c - j);
    } else {
      CountBelowIs(p[j..], v, 0);
    }
  }

  /** Moving every key up by `offset` moves every count up by `offset`. */
  lemma {:induction false} ShiftedCount(p: seq<Point>, q: seq<Point>, offset: int, v: int)
    requires |q| == |p|
    requires forall t :: 0 <= t < |p| ==> q[t].key == p[t].key + offset
    ensures CountBelow(q, v + offset) == CountBelow(p, v)
  {
    if p != [] {
      assert forall t :: 0 <= t < |p| - 1 ==> q[1..][t] == q[t + 1] && p[1..][t] == p[t + 1];
      ShiftedCount(p[1..], q[1..], offset, v);
    }
  }

  /** The ordered map's `get`. */
  function Lookup(p: seq<Point>, k: int): Option<SetNode> {
    var c := CountBelow(p, k);
    if c < |p| && p[c].key == k then Some(p[c].node) else None
  }

  /** In an ascending map a key is found exactly when some entry carries it. */
  lemma LookupFinds(p: seq<Point>, k: int, t: int)
    requires Ascending(p) && 0 <= t < |p| && p[t].key == k
    ensures Lookup(p, k) == Some(p[t].node)
  {
    CountBelowIs(p, k, t);
  }

  /** Counting up to and including `k` adds one exactly when `k` is a key. */
  lemma KeyStep(p: seq<Point>, k: int)
    requires Ascending(p)
    ensures CountBelow(p, k + 1) == CountBelow(p, k) + (if Lookup(p, k).Some? then 1 else 0)
  {
    var c := CountBelow(p, k);
    CountBelowFacts(p, k);
    if c < |p| && p[c].key == k {
      CountBelowIs(p, k + 1, c + 1);
    } else {
      CountBelowIs(p, k + 1, c);
    }
  }

  /** `IntervalSet::contains`: the greatest key strictly below `v` carries a Start. */
  function ContainsPoint(p: seq<Point>, v: int): bool {
    var c := CountBelow(p, v);
    c > 0 && p[c - 1].node == Start
  }

  /** Whether `x` lies in one of the stored intervals. */
  predicate Covered(p: seq<Point>, x: int) {
    CountBelow(p, x + 1) % 2 == 1
  }

  /** `contains(v)` reads the parity of the number of keys below `v`. */
  lemma ContainsParity(p: seq<Point>, v: int)
    requires Alternating(p)
    ensures ContainsPoint(p, v) <==> CountBelow(p, v) % 2 == 1
  {
  }

  /** So `contains(v)` holds exactly when v - 1 is covered: a start is not contained, an end is. */
  lemma ContainsIsCoveredBelow(p: seq<Point>, v: int)
    requires WellFormed(p)
    ensures ContainsPoint(p, v) <==> Covered(p, v - 1)
  {
    ContainsParity(p, v);
  }

  /** Inserting a key the map does not hold. */
  function InsertPoint(p: seq<Point>, k: u32, n: SetNode): seq<Point> {
    var c := CountBelow(p, k);
    p[..c] + [Point(k, n)] + p[c..]
  }

  /** Removing a key the map holds. */
  function RemovePoint(p: seq<Point>, k: u32): seq<Point>
    requires Lookup(p, k).Some?
  {
    var c := CountBelow(p, k);
    p[..c] + p[c + 1..]
  }

  /** Removing every key in [lo, hi). */
  function RemoveKeysIn(p: seq<Point>, lo: int, hi: int): seq<Point>
    requires lo <= hi
  {
    CountBelowMonotone(p, lo, hi);
    p[..CountBelow(p, lo)] + p[CountBelow(p, hi)..]
  }

  /**
   * The update `push` and `remove` make at one bound: with no entry at `k`, `want` is inserted
   * when `insertIfVacant`; an entry equal to `want` stays; the opposite entry is removed.
   */
  function SetBoundary(p: seq<Point>, k: u32, want: SetNode, insertIfVacant: bool): seq<Point> {
    match Lookup(p, k)
    case None => if insertIfVacant then InsertPoint(p, k, want) else p
    case Some(n) => if n == want then p else RemovePoint(p, k)
  }

  /** The marker placed at the lower bound when marking from position `i`. */
  function LeftMark(i: nat, a: u32, first: SetNode): seq<Point> {
    if (i % 2 == 0) == (first == Start) then [Point(a, first)] else []
  }

  /** The marker placed at the upper bound when the entries above it start at position `j`. */
  function RightMark(j: nat, b: u32, first: SetNode): seq<Point> {
    if (j % 2 == 0) == (first == Start) then [Point(b, Opposite(first))] else []
  }

  /**
   * The entries after marking [a, b) as covered (`first == Start`) or uncovered
   * (`first == End`): the entries below a and above b stay, and a marker is placed at a and
   * at b only where the coverage changes there.
   */
  function Splice(p: seq<Point>, a: u32, b: u32, first: SetNode): seq<Point>
    requires a < b
  {
    var i := CountBelow(p, a);
    var j := CountBelow(p, b + 1);
    (p[..i] + LeftMark(i, a, first)) + (RightMark(j, b, first) + p[j..])
  }

  /** The entry `SetBoundary` leaves at `k`: the kept entry, a new one, or none. */
  function BoundaryMark(q: seq<Point>, k: u32, want: SetNode, ins: bool): seq<Point> {
    match Lookup(q, k)
    case Some(n) => if n == want then [Point(k, n)] else []
    case None => if ins then [Point(k, want)] else []
  }

  /** The conclusion of `KeyStep`, as a hypothesis of the lemmas below. */
  predicate KeyStepHolds(q: seq<Point>, k: int) {
    CountBelow(q, k + 1) == CountBelow(q, k) + (if Lookup(q, k).Some? then 1 else 0)
  }

  /** `SetBoundary` replaces the entry at `k`, if any, by its mark. */
  lemma BoundaryForm(q: seq<Point>, k: u32, want: SetNode, ins: bool)
    requires KeyStepHolds(q, k)
    ensures CountBelow(q, k) <= CountBelow(q, k + 1)
    ensures SetBoundary(q, k, want, ins)
      == q[..CountBelow(q, k)] + BoundaryMark(q, k, want, ins) + q[CountBelow(q, k + 1)..]
  {
    var c, c1 := CountBelow(q, k), CountBelow(q, k + 1);
    var m := BoundaryMark(q, k, want, ins);
    if Lookup(q, k).Some? {
      assert c1 == c + 1;
      var e := q[c];
      assert q == q[..c] + [e] + q[c1..];
      if e.node == want {
        assert m == [e];
      } else {
        assert m == [];
      }
    } else {
      assert c1 == c;
      assert q == q[..c] + q[c..];
    }
  }

  /** On a well-formed map the mark at the lower bound is `LeftMark`. */
  lemma MarkAtStart(p: seq<Point>, a: u32, first: SetNode)
    requires WellFormed(p)
    ensures BoundaryMark(p, a, first, ContainsPoint(p, a) == (first == End)) == LeftMark(CountBelow(p, a), a, first)
  {
    ContainsParity(p, a);
  }

  /** On a well-formed map the mark at the upper bound is `RightMark`. */
  lemma MarkAtEnd(p: seq<Point>, b: u32, first: SetNode)
    requires WellFormed(p)
    ensures BoundaryMark(p, b, Opposite(first), ContainsPoint(p, b) == (first == End)) == RightMark(CountBelow(p, b + 1), b, first)
  {
    ContainsParity(p, b);
    KeyStep(p, b);
  }

  lemma Reassociate<T>(x: seq<T>, y: seq<T>, z: seq<T>)
    ensures x + y + z == x + (y + z)
  {
  }

  /** The outer parts of a three-part sequence. */
  lemma OuterParts<T>(x: seq<T>, y: seq<T>, z: seq<T>)
    ensures (x + (y + z))[..|x|] == x && (x + (y + z))[|x| + |y|..] == z
  {
  }

  /** Reassociating a prefix out of a three-part sequence. */
  lemma Glue<T>(whole: seq<T>, rest: seq<T>, x: seq<T>, u: seq<T>, m: seq<T>, post: seq<T>, pre: seq<T>)
    requires whole == pre + m + post && rest == u + m + post && pre == x + u
    ensures whole == x + rest
  {
  }

  /** A count that covers the whole first part continues into the second. */
  lemma CountWhole(x: seq<Point>, w: seq<Point>, v: int)
    requires CountBelow(x, v) == |x|
    ensures CountBelow(x + w, v) == |x| + CountBelow(w, v)
  {
    CountBelowConcat(x, w, v);
  }

  /** A count that stops inside the first part ignores the second. */
  lemma CountKeepsPrefix(x: seq<Point>, w: seq<Point>, v: int)
    requires CountBelow(x, v) < |x|
    ensures CountBelow(x + w, v) == CountBelow(x, v)
  {
    CountBelowConcat(x, w, v);
  }

  /** Looking up a key above every key of the prefix looks in the rest. */
  lemma LookupConcat(x: seq<Point>, w: seq<Point>, k: int)
    requires CountBelow(x, k) == |x|
    ensures Lookup(x + w, k) == Lookup(w, k)
  {
    CountWhole(x, w, k);
    var c := CountBelow(w, k);
    if c < |w| { assert (x + w)[|x| + c] == w[c]; }
  }

  /** Counts, key step and mark at a key above every key of the prefix. */
  lemma ConcatAtKey(x: seq<Point>, w: seq<Point>, k: u32, want: SetNode, ins: bool)
    requires KeyStepHolds(w, k) && CountBelow(x, k) == |x|
    ensures CountBelow(x + w, k) == |x| + CountBelow(w, k)
    ensures CountBelow(x + w, k + 1) == |x| + CountBelow(w, k + 1)
    ensures KeyStepHolds(x + w, k)
    ensures BoundaryMark(x + w, k, want, ins) == BoundaryMark(w, k, want, ins)
  {
    CountBelowMonotone(x, k, k + 1);
    CountWhole(x, w, k);
    CountWhole(x, w, k + 1);
    LookupConcat(x, w, k);
  }

  /** Splicing past a prefix splices the rest. */
  lemma SpliceConcat(x: seq<Point>, w: seq<Point>, c: nat, c1: nat, m: seq<Point>)
    requires c <= c1 <= |w|
    ensures (x + w)[..|x| + c] + m + (x + w)[|x| + c1..] == x + (w[..c] + m + w[c1..])
  {
    assert (x + w)[..|x| + c] == x + w[..c];
    assert (x + w)[|x| + c1..] == w[c1..];
  }

  /** `BoundaryForm` with the counts and the mark given by name. */
  lemma BoundaryFormAt(q: seq<Point>, k: u32, want: SetNode, ins: bool, c: nat, c1: nat, m: seq<Point>)
    requires KeyStepHolds(q, k)
    requires c == CountBelow(q, k) && c1 == CountBelow(q, k + 1) && m == BoundaryMark(q, k, want, ins)
    ensures c <= c1 <= |q| && SetBoundary(q, k, want, ins) == q[..c] + m + q[c1..]
  {
    BoundaryForm(q, k, want, ins);
  }

  /** The splice form of `SetBoundary` past a prefix, with the counts and mark of the rest. */
  lemma ConcatForm(x: seq<Point>, w: seq<Point>, k: u32, want: SetNode, ins: bool, c: nat, c1: nat, m: seq<Point>)
    requires KeyStepHolds(w, k) && CountBelow(x, k) == |x|
    requires c == CountBelow(w, k) && c1 == CountBelow(w, k + 1) && m == BoundaryMark(w, k, want, ins)
    ensures c <= c1 <= |w|
    ensures SetBoundary(x + w, k, want, ins) == (x + w)[..|x| + c] + m + (x + w)[|x| + c1..]
  {
    ConcatAtKey(x, w, k, want, ins);
    BoundaryFormAt(x + w, k, want, ins, |x| + c, |x| + c1, m);
  }

  /** `SetBoundary` at a key above every key of the prefix acts on the rest alone. */
  lemma BoundaryConcat(x: seq<Point>, w: seq<Point>, k: u32, want: SetNode, ins: bool)
    requires KeyStepHolds(w, k) && CountBelow(x, k) == |x|
    ensures SetBoundary(x + w, k, want, ins) == x + SetBoundary(w, k, want, ins)
  {
    var c, c1 := CountBelow(w, k), CountBelow(w, k + 1);
    var m := BoundaryMark(w, k, want, ins);
    ConcatForm(x, w, k, want, ins, c, c1, m);
    BoundaryFormAt(w, k, want, ins, c, c1, m);
    SpliceConcat(x, w, c, c1, m);
  }

  /** The first bound update of `push`/`remove`, on a well-formed map. */
  lemma StepAtStart(p: seq<Point>, a: u32, first: SetNode)
    requires WellFormed(p)
    ensures SetBoundary(p, a, first, ContainsPoint(p, a) == (first == End))
      == p[..CountBelow(p, a)] + LeftMark(CountBelow(p, a), a, first) + p[CountBelow(p, a + 1)..]
  {
    KeyStep(p, a);
    BoundaryForm(p, a, first, ContainsPoint(p, a) == (first == End));
    MarkAtStart(p, a, first);
  }

  /** The lower bound and everything below it stay below the upper bound. */
  lemma LowerPartBelow(p: seq<Point>, a: u32, b: u32, first: SetNode)
    requires Ascending(p) && a < b
    ensures var i := CountBelow(p, a);
      CountBelow(p[..i] + LeftMark(i, a, first), b) == i + |LeftMark(i, a, first)|
      && CountBelow(p[..i] + LeftMark(i, a, first), a + 1) == i + |LeftMark(i, a, first)|
  {
    var i := CountBelow(p, a);
    CountBelowMonotone(p, a, b);
    CountBelowMonotone(p, a, a + 1);
    CountBelowPrefix(p, i, b);
    CountBelowPrefix(p, i, a + 1);
    CountWhole(p[..i], LeftMark(i, a, first), b);
    CountWhole(p[..i], LeftMark(i, a, first), a + 1);
  }

  lemma KeyStepSuffix(p: seq<Point>, s: nat, k: int)
    requires Ascending(p) && s <= |p|
    ensures KeyStepHolds(p[s..], k)
  {
    AscendingSlice(p, s, |p|);
    KeyStep(p[s..], k);
  }

  /** Dropping entries below `k` does not change the mark at `k`. */
  lemma MarkSuffix(p: seq<Point>, s: nat, k: u32, want: SetNode, ins: bool)
    requires s <= CountBelow(p, k)
    ensures BoundaryMark(p[s..], k, want, ins) == BoundaryMark(p, k, want, ins)
  {
    CountBelowPrefix(p, s, k);
    assert p == p[..s] + p[s..];
    LookupConcat(p[..s], p[s..], k);
  }

  /** The bound update at `k` on the entries from position `s` on, where `s` is below `k`'s position. */
  lemma SuffixBoundary(p: seq<Point>, s: nat, k: u32, want: SetNode, ins: bool)
    requires Ascending(p) && s <= CountBelow(p, k)
    ensures KeyStepHolds(p[s..], k) && CountBelow(p, k) <= CountBelow(p, k + 1)
    ensures SetBoundary(p[s..], k, want, ins)
      == p[s..CountBelow(p, k)] + (BoundaryMark(p, k, want, ins) + p[CountBelow(p, k + 1)..])
  {
    var c, c1 := CountBelow(p, k), CountBelow(p, k + 1);
    var m := BoundaryMark(p, k, want, ins);
    CountBelowMonotone(p, k, k + 1);
    KeyStepSuffix(p, s, k);
    MarkSuffix(p, s, k, want, ins);
    CountBelowSuffix(p, s, k);
    CountBelowSuffix(p, s, k + 1);
    BoundaryFormAt(p[s..], k, want, ins, c - s, c1 - s, m);
    SuffixSplice(p, s, c, c1, m);
  }

  /** Splicing a suffix at positions taken relative to the whole sequence. */
  lemma SuffixSplice(p: seq<Point>, s: nat, c: nat, c1: nat, m: seq<Point>)
    requires s <= c <= c1 <= |p|
    ensures p[s..][..c - s] + m + p[s..][c1 - s..] == p[s..c] + (m + p[c1..])
  {
    assert p[s..][..c - s] == p[s..c];
    assert p[s..][c1 - s..] == p[c1..];
  }

  /** The second bound update, on the map the first update left. */
  lemma StepAtEnd(p: seq<Point>, a: u32, b: u32, first: SetNode, want: SetNode, ins: bool)
    requires Ascending(p) && a < b
    ensures var i, ia, j0, j := CountBelow(p, a), CountBelow(p, a + 1), CountBelow(p, b), CountBelow(p, b + 1);
      var x := p[..i] + LeftMark(i, a, first);
      ia <= j0 <= j &&
      SetBoundary(x + p[ia..], b, want, ins) == x + (p[ia..j0] + (BoundaryMark(p, b, want, ins) + p[j..]))
  {
    var i, ia := CountBelow(p, a), CountBelow(p, a + 1);
    var x := p[..i] + LeftMark(i, a, first);
    CountBelowMonotone(p, a + 1, b);
    SuffixBoundary(p, ia, b, want, ins);
    LowerPartBelow(p, a, b, first);
    BoundaryConcat(x, p[ia..], b, want, ins);
  }

  /** Nothing from the upper bound on lies below it. */
  lemma UpperPartAbove(p: seq<Point>, b: u32, right: seq<Point>)
    requires Ascending(p) && (right == [] || right[0].key == b)
    ensures CountBelow(right + p[CountBelow(p, b + 1)..], b) == 0
  {
    var j := CountBelow(p, b + 1);
    var z := right + p[j..];
    CountBelowRest(p, b + 1);
    if right != [] { assert z[0] == right[0]; }
    else if p[j..] != [] { assert z[0] == p[j]; }
  }

  /** Nothing from the lower bound's successor on lies below it. */
  lemma MiddlePartAbove(p: seq<Point>, a: u32, b: u32, right: seq<Point>)
    requires Ascending(p) && a < b && (right == [] || right[0].key == b)
    ensures CountBelow(p, a + 1) <= CountBelow(p, b) <= CountBelow(p, b + 1)
    ensures var ia, j0, j := CountBelow(p, a + 1), CountBelow(p, b), CountBelow(p, b + 1);
      CountBelow(p[ia..j0] + (right + p[j..]), a + 1) == 0
  {
    var ia, j0, j := CountBelow(p, a + 1), CountBelow(p, b), CountBelow(p, b + 1);
    CountBelowMonotone(p, a + 1, b);
    CountBelowMonotone(p, b, b + 1);
    var yz: seq<Point> := p[ia..j0] + (right + p[j..]);
    CountBelowRest(p, a + 1);
    if ia < j0 { assert yz[0] == p[ia]; }
    else if right != [] { assert yz[0] == right[0]; }
    else if j < |p| { assert yz[0] == p[j]; }
  }

  /** The entries strictly between the bounds lie below the upper bound. */
  lemma MiddlePartBelow(p: seq<Point>, a: u32, b: u32)
    requires Ascending(p) && a < b
    ensures CountBelow(p, a + 1) <= CountBelow(p, b)
    ensures CountBelow(p[CountBelow(p, a + 1)..CountBelow(p, b)], b) == CountBelow(p, b) - CountBelow(p, a + 1)
  {
    var ia, j0 := CountBelow(p, a + 1), CountBelow(p, b);
    CountBelowMonotone(p, a + 1, b);
    CountBelowSuffix(p, ia, b);
    assert p[ia..j0] == p[ia..][..j0 - ia];
    CountBelowPrefix(p[ia..], j0 - ia, b);
  }

  /** The positions in the twice-updated map that bound the keys strictly inside (a, b). */
  lemma InteriorCounts(p: seq<Point>, a: u32, b: u32, first: SetNode)
    requires Ascending(p) && a < b
    ensures var i, ia, j0, j := CountBelow(p, a), CountBelow(p, a + 1), CountBelow(p, b), CountBelow(p, b + 1);
      ia <= j0 <= j && (
      var x := p[..i] + LeftMark(i, a, first);
      var y := p[ia..j0];
      var z := RightMark(j, b, first) + p[j..];
      CountBelow(x + (y + z), a + 1) == |x| && CountBelow(x + (y + z), b) == |x| + |y|)
  {
    var i, ia, j0, j := CountBelow(p, a), CountBelow(p, a + 1), CountBelow(p, b), CountBelow(p, b + 1);
    var right := RightMark(j, b, first);
    MiddlePartAbove(p, a, b, right);
    MiddlePartBelow(p, a, b);
    var x := p[..i] + LeftMark(i, a, first);
    var y := p[ia..j0];
    var z := right + p[j..];
    LowerPartBelow(p, a, b, first);
    CountWhole(x, y + z, a + 1);
    UpperPartAbove(p, b, right);
    CountWhole(y, z, b);
    CountWhole(x, y + z, b);
  }

  /** Removing the keys strictly inside (a, b) leaves the spliced map. */
  lemma StepInterior(p: seq<Point>, a: u32, b: u32, first: SetNode)
    requires Ascending(p) && a < b
    ensures var i, ia, j0, j := CountBelow(p, a), CountBelow(p, a + 1), CountBelow(p, b), CountBelow(p, b + 1);
      ia <= j0 <= j && (
      var x := p[..i] + LeftMark(i, a, first);
      RemoveKeysIn(x + (p[ia..j0] + (RightMark(j, b, first) + p[j..])), a + 1, b) == Splice(p, a, b, first))
  {
    var i, ia, j0, j := CountBelow(p, a), CountBelow(p, a + 1), CountBelow(p, b), CountBelow(p, b + 1);
    InteriorCounts(p, a, b, first);
    var x := p[..i] + LeftMark(i, a, first);
    var y := p[ia..j0];
    var z := RightMark(j, b, first) + p[j..];
    OuterParts(x, y, z);
  }

  /** The three steps of `push`/`remove` together produce the splice. */
  lemma MarkIsSplice(p: seq<Point>, a: u32, b: u32, first: SetNode)
    requires WellFormed(p) && a < b
    ensures var q1 := SetBoundary(p, a, first, ContainsPoint(p, a) == (first == End));
      var q2 := SetBoundary(q1, b, Opposite(first), ContainsPoint(p, b) == (first == End));
      RemoveKeysIn(q2, a + 1, b) == Splice(p, a, b, first)
  {
    StepAtStart(p, a, first);
    StepAtEnd(p, a, b, first, Opposite(first), ContainsPoint(p, b) == (first == End));
    MarkAtEnd(p, b, first);
    StepInterior(p, a, b, first);
  }

  /** The three steps of `push` on a non-empty interval give `PushPoints`. */
  lemma PushSteps(p: seq<Point>, iv: Interval)
    requires WellFormed(p) && iv.start < iv.end
    ensures var q1 := SetBoundary(p, iv.start, Start, !ContainsPoint(p, iv.start));
      var q2 := SetBoundary(q1, iv.end, End, !ContainsPoint(p, iv.end));
      RemoveKeysIn(q2, iv.start + 1, iv.end) == PushPoints(p, iv)
  {
    MarkIsSplice(p, iv.start, iv.end, Start);
  }

  /** The three steps of `remove` on a non-empty interval give `RemovePoints`. */
  lemma RemoveSteps(p: seq<Point>, iv: Interval)
    requires WellFormed(p) && iv.start < iv.end
    ensures var q1 := SetBoundary(p, iv.start, End, ContainsPoint(p, iv.start));
      var q2 := SetBoundary(q1, iv.end, Start, ContainsPoint(p, iv.end));
      RemoveKeysIn(q2, iv.start + 1, iv.end) == RemovePoints(p, iv)
  {
    MarkIsSplice(p, iv.start, iv.end, End);
  }

  /** Mark parities: what lies below the upper marker ends on the parity `first` calls for. */
  lemma MarkParity(i: nat, j: nat, a: u32, b: u32, first: SetNode)
    ensures (i + |LeftMark(i, a, first)|) % 2 == (if first == Start then 1 else 0)
    ensures (j + |RightMark(j, b, first)|) % 2 == (if first == Start then 1 else 0)
  {
  }

  /** The key of the last entry, or -1 for no entries. */
  function LastKey(x: seq<Point>): int {
    if x == [] then -1 else x[|x| - 1].key
  }

  /** The key of the first entry, or 2^32 for no entries. */
  function FirstKey(x: seq<Point>): int {
    if x == [] then U32_LIMIT else x[0].key
  }

  /** Joining two ascending runs, the second above the first. */
  lemma AscendingJoin(x: seq<Point>, y: seq<Point>)
    requires Ascending(x) && Ascending(y) && LastKey(x) < FirstKey(y)
    ensures Ascending(x + y)
    ensures LastKey(x + y) == if y == [] then LastKey(x) else LastKey(y)
    ensures FirstKey(x + y) == if x == [] then FirstKey(y) else FirstKey(x)
  {
    AscendingConcat(x, y);
  }

  /** The entries below the lower bound, then its mark. */
  lemma SpliceLowerAscending(p: seq<Point>, a: u32, first: SetNode)
    requires Ascending(p)
    ensures var i := CountBelow(p, a);
      Ascending(p[..i] + LeftMark(i, a, first)) && LastKey(p[..i] + LeftMark(i, a, first)) <= a
  {
    var i := CountBelow(p, a);
    CountBelowFacts(p, a);
    AscendingSlice(p, 0, i);
    AscendingJoin(p[..i], LeftMark(i, a, first));
  }

  /** The mark at the upper bound, then the entries above it. */
  lemma SpliceUpperAscending(p: seq<Point>, b: u32, first: SetNode)
    requires Ascending(p)
    ensures var j := CountBelow(p, b + 1);
      Ascending(RightMark(j, b, first) + p[j..]) && FirstKey(RightMark(j, b, first) + p[j..]) >= b
  {
    var j := CountBelow(p, b + 1);
    CountBelowFacts(p, b + 1);
    AscendingSlice(p, j, |p|);
    AscendingJoin(RightMark(j, b, first), p[j..]);
  }

  /** The splice keeps the keys ascending. */
  lemma SpliceAscending(p: seq<Point>, a: u32, b: u32, first: SetNode)
    requires Ascending(p) && a < b
    ensures Ascending(Splice(p, a, b, first))
  {
    var i, j := CountBelow(p, a), CountBelow(p, b + 1);
    SpliceLowerAscending(p, a, first);
    SpliceUpperAscending(p, b, first);
    AscendingJoin(p[..i] + LeftMark(i, a, first), RightMark(j, b, first) + p[j..]);
  }

  /** The marker at one position of the splice. */
  lemma SpliceNodeAt(p: seq<Point>, a: u32, b: u32, first: SetNode, t: int)
    requires Alternating(p) && a < b && 0 <= t < |Splice(p, a, b, first)|
    ensures Splice(p, a, b, first)[t].node == Start <==> t % 2 == 0
  {
    var i, j := CountBelow(p, a), CountBelow(p, b + 1);
    CountBelowMonotone(p, a, b + 1);
    MarkParity(i, j, a, b, first);
    MarksAlternate(p, i, j, LeftMark(i, a, first), RightMark(j, b, first), t);
  }

  /**
   * Replacing the entries between positions `i` and `j` of an alternating map by at most two
   * markers that continue its alternation keeps every position's marker on its parity.
   */
  lemma MarksAlternate(p: seq<Point>, i: nat, j: nat, left: seq<Point>, right: seq<Point>, t: int)
    requires Alternating(p) && i <= j <= |p| && |left| <= 1 && |right| <= 1
    requires left != [] ==> (left[0].node == Start <==> i % 2 == 0)
    requires right != [] ==> (right[0].node == Start <==> (i + |left|) % 2 == 0)
    requires (i + |left| + |right|) % 2 == j % 2
    requires 0 <= t < |(p[..i] + left) + (right + p[j..])|
    ensures ((p[..i] + left) + (right + p[j..]))[t].node == Start <==> t % 2 == 0
  {
    var s := (p[..i] + left) + (right + p[j..]);
    var m := i + |left| + |right|;
    if t < i {
      assert s[t] == p[t];
    } else if t < i + |left| {
      assert s[t] == left[0];
    } else if t < m {
      assert s[t] == right[0];
    } else {
      assert s[t] == p[j + t - m];
    }
  }

  /** The splice keeps the markers alternating. */
  lemma SpliceAlternating(p: seq<Point>, a: u32, b: u32, first: SetNode)
    requires Alternating(p) && a < b
    ensures Alternating(Splice(p, a, b, first))
  {
    var i, j := CountBelow(p, a), CountBelow(p, b + 1);
    MarkParity(i, j, a, b, first);
    var s := Splice(p, a, b, first);
    forall t | 0 <= t < |s| ensures (s[t].node == Start <==> t % 2 == 0) {
      SpliceNodeAt(p, a, b, first, t);
    }
  }

  /** The splice is well formed again. */
  lemma SpliceWellFormed(p: seq<Point>, a: u32, b: u32, first: SetNode)
    requires WellFormed(p) && a < b
    ensures WellFormed(Splice(p, a, b, first))
  {
    SpliceAscending(p, a, b, first);
    SpliceAlternating(p, a, b, first);
  }

  /** Entries appended at or above `w` do not change the count below `w`. */
  lemma CountStopsBefore(pre: seq<Point>, rest: seq<Point>, w: int)
    requires rest == [] || rest[0].key >= w
    ensures CountBelow(pre + rest, w) == CountBelow(pre, w)
  {
    CountBelowConcat(pre, rest, w);
  }

  /** The upper part of the splice starts at or above the upper bound. */
  lemma UpperStartsAtEnd(p: seq<Point>, b: u32, first: SetNode)
    ensures var z := RightMark(CountBelow(p, b + 1), b, first) + p[CountBelow(p, b + 1)..];
      z == [] || z[0].key >= b
  {
    CountBelowFacts(p, b + 1);
  }

  /** Below the lower bound the splice counts as the entries it keeps below `a`. */
  lemma SpliceCountsKept(p: seq<Point>, a: u32, b: u32, first: SetNode, v: int)
    requires a < b && v < a
    ensures CountBelow(Splice(p, a, b, first), v + 1) == CountBelow(p[..CountBelow(p, a)], v + 1)
  {
    var i, j := CountBelow(p, a), CountBelow(p, b + 1);
    var left := LeftMark(i, a, first);
    var z := RightMark(j, b, first) + p[j..];
    UpperStartsAtEnd(p, b, first);
    assert Splice(p, a, b, first) == p[..i] + (left + z);
    CountStopsBefore(p[..i], left + z, v + 1);
  }

  /** Below `a`, the entries below `a` count as the whole map. */
  lemma KeptCountsAll(p: seq<Point>, a: u32, v: int)
    requires v < a
    ensures CountBelow(p[..CountBelow(p, a)], v + 1) == CountBelow(p, v + 1)
  {
    CountBelowMonotone(p, v + 1, a);
    CountBelowPrefix(p, CountBelow(p, a), v + 1);
  }

  /** Below the lower bound the splice counts as the old map. */
  lemma SpliceCountBelowStart(p: seq<Point>, a: u32, b: u32, first: SetNode, v: int)
    requires a < b && v < a
    ensures CountBelow(Splice(p, a, b, first), v + 1) == CountBelow(p, v + 1)
  {
    SpliceCountsKept(p, a, b, first, v);
    KeptCountsAll(p, a, v);
  }

  /** From the lower bound on, all of the lower part counts. */
  lemma LowerPartCounted(p: seq<Point>, a: u32, first: SetNode, v: int)
    requires Ascending(p) && a <= v
    ensures var i := CountBelow(p, a);
      CountBelow(p[..i] + LeftMark(i, a, first), v + 1) == i + |LeftMark(i, a, first)|
  {
    var i := CountBelow(p, a);
    CountBelowMonotone(p, a, v + 1);
    CountBelowPrefix(p, i, v + 1);
    CountWhole(p[..i], LeftMark(i, a, first), v + 1);
  }

  /** From the upper bound on, the upper part counts its mark and the old entries up to v. */
  lemma UpperPartCounted(p: seq<Point>, b: u32, first: SetNode, v: int)
    requires Ascending(p) && b <= v
    ensures var j := CountBelow(p, b + 1);
      j <= CountBelow(p, v + 1) &&
      CountBelow(RightMark(j, b, first) + p[j..], v + 1) == |RightMark(j, b, first)| + (CountBelow(p, v + 1) - j)
  {
    var j := CountBelow(p, b + 1);
    CountBelowMonotone(p, b + 1, v + 1);
    CountWhole(RightMark(j, b, first), p[j..], v + 1);
    CountBelowSuffix(p, j, v + 1);
  }

  /** Inside [a, b) the splice counts exactly its lower part. */
  lemma SpliceCountInside(p: seq<Point>, a: u32, b: u32, first: SetNode, v: int)
    requires Ascending(p) && a <= v < b
    ensures var i := CountBelow(p, a);
      CountBelow(Splice(p, a, b, first), v + 1) == i + |LeftMark(i, a, first)|
  {
    var i, j := CountBelow(p, a), CountBelow(p, b + 1);
    LowerPartCounted(p, a, first, v);
    SpliceUpperAscending(p, b, first);
    CountWhole(p[..i] + LeftMark(i, a, first), RightMark(j, b, first) + p[j..], v + 1);
  }

  /** From the upper bound on the splice counts its marks plus the old entries above b. */
  lemma SpliceCountAboveEnd(p: seq<Point>, a: u32, b: u32, first: SetNode, v: int)
    requires Ascending(p) && a < b && b <= v
    ensures var i, j := CountBelow(p, a), CountBelow(p, b + 1);
      j <= CountBelow(p, v + 1) &&
      CountBelow(Splice(p, a, b, first), v + 1)
        == i + |LeftMark(i, a, first)| + |RightMark(j, b, first)| + (CountBelow(p, v + 1) - j)
  {
    var i, j := CountBelow(p, a), CountBelow(p, b + 1);
    LowerPartCounted(p, a, first, v);
    UpperPartCounted(p, b, first, v);
    CountWhole(p[..i] + LeftMark(i, a, first), RightMark(j, b, first) + p[j..], v + 1);
  }

  /** Above the upper bound the marks shift the count by an even number. */
  lemma MarkParityAbove(i: nat, j: nat, c: int, a: u32, b: u32, first: SetNode)
    requires j <= c
    ensures (i + |LeftMark(i, a, first)| + |RightMark(j, b, first)| + (c - j)) % 2 == c % 2
  {
    MarkParity(i, j, a, b, first);
  }

  /** What the splice covers: [a, b) as requested, everything else as before. */
  lemma SpliceCovered(p: seq<Point>, a: u32, b: u32, first: SetNode, v: int)
    requires Ascending(p) && a < b
    ensures Covered(Splice(p, a, b, first), v) == if a <= v < b then first == Start else Covered(p, v)
  {
    var i, j := CountBelow(p, a), CountBelow(p, b + 1);
    var n := CountBelow(Splice(p, a, b, first), v + 1);
    if v < a {
      SpliceCountBelowStart(p, a, b, first, v);
    } else if v < b {
      SpliceCountInside(p, a, b, first, v);
      MarkParity(i, j, a, b, first);
    } else {
      SpliceCountAboveEnd(p, a, b, first, v);
      MarkParityAbove(i, j, CountBelow(p, v + 1), a, b, first);
    }
  }

  /** The entries after pushing one interval; an empty interval changes nothing. */
  function PushPoints(p: seq<Point>, iv: Interval): (r: seq<Point>)
    requires WellFormed(p)
    ensures WellFormed(r)
    ensures forall v :: Covered(r, v) <==> Covered(p, v) || InInterval(iv, v)
  {
    if iv.start == iv.end then p
    else
      SpliceWellFormed(p, iv.start, iv.end, Start);
      assert forall v :: Covered(Splice(p, iv.start, iv.end, Start), v) <==> Covered(p, v) || InInterval(iv, v) by {
        forall v {
          SpliceCovered(p, iv.start, iv.end, Start, v);
        }
      }
      Splice(p, iv.start, iv.end, Start)
  }

  /** The entries after removing one interval; an empty interval changes nothing. */
  function RemovePoints(p: seq<Point>, iv: Interval): (r: seq<Point>)
    requires WellFormed(p)
    ensures WellFormed(r)
    ensures forall v :: Covered(r, v) <==> Covered(p, v) && !InInterval(iv, v)
  {
    if iv.start == iv.end then p
    else
      SpliceWellFormed(p, iv.start, iv.end, End);
      assert forall v :: Covered(Splice(p, iv.start, iv.end, End), v) <==> Covered(p, v) && !InInterval(iv, v) by {
        forall v {
          SpliceCovered(p, iv.start, iv.end, End, v);
        }
      }
      Splice(p, iv.start, iv.end, End)
  }

  /** The entries after pushing each interval in turn. */
  function PushAll(p: seq<Point>, ivs: seq<Interval>): (r: seq<Point>)
    requires WellFormed(p)
    ensures WellFormed(r)
  {
    if ivs == [] then p else PushPoints(PushAll(p, ivs[..|ivs| - 1]), ivs[|ivs| - 1])
  }

  /** Some interval of the sequence holds `v`. */
  predicate InSome(ivs: seq<Interval>, v: int) {
    exists k :: 0 <= k < |ivs| && InInterval(ivs[k], v)
  }

  /** Pushing intervals covers exactly the old values and those of the pushed intervals. */
  lemma {:induction false} PushAllCovered(p: seq<Point>, ivs: seq<Interval>, v: int)
    requires WellFormed(p)
    ensures Covered(PushAll(p, ivs), v) <==> Covered(p, v) || InSome(ivs, v)
  {
    if ivs != [] {
      var init := ivs[..|ivs| - 1];
      PushAllCovered(p, init, v);
      if InSome(ivs, v) {
        var k :| 0 <= k < |ivs| && InInterval(ivs[k], v);
        if k < |ivs| - 1 { assert init[k] == ivs[k]; }
      }
      if InSome(init, v) {
        var k :| 0 <= k < |init| && InInterval(init[k], v);
        assert ivs[k] == init[k];
      }
    }
  }

  /** A start/end pair of a well-formed map, as an interval. */
  function PairAt(p: seq<Point>, k: nat): Interval
    requires WellFormed(p) && 2 * k + 1 < |p|
  {
    Bounds(p[2 * k].key, p[2 * k + 1].key)
  }

  /** The stored intervals, in key order. */
  function IntervalsOf(p: seq<Point>): (r: seq<Interval>)
    requires WellFormed(p)
    ensures |r| == |p| / 2
    ensures forall k :: 0 <= k < |r| ==> r[k] == Bounds(p[2 * k].key, p[2 * k + 1].key)
  {
    seq(|p| / 2, k requires 0 <= k < |p| / 2 => PairAt(p, k))
  }

  /** The points that spell out a sequence of intervals. */
  function Flatten(ivs: seq<Interval>): (r: seq<Point>)
    ensures |r| == 2 * |ivs|
    ensures forall k :: 0 <= k < |ivs| ==> r[2 * k] == Point(ivs[k].start, Start) && r[2 * k + 1] == Point(ivs[k].end, End)
  {
    if ivs == [] then []
    else
      var init := Flatten(ivs[..|ivs| - 1]);
      assert forall k :: 0 <= k < |ivs| - 1 ==> ivs[..|ivs| - 1][k] == ivs[k];
      init + [Point(ivs[|ivs| - 1].start, Start), Point(ivs[|ivs| - 1].end, End)]
  }

  /** Non-empty intervals in ascending order with a gap between any two of them. */
  predicate Separated(ivs: seq<Interval>) {
    (forall k :: 0 <= k < |ivs| ==> ivs[k].start < ivs[k].end)
    && (forall k, m :: 0 <= k < m < |ivs| ==> ivs[k].end < ivs[m].start)
  }

  lemma EvenOrOdd(t: nat)
    ensures t == 2 * (t / 2) || t == 2 * (t / 2) + 1
  {
  }

  /** A well-formed map is exactly the flattening of its intervals, which are separated. */
  lemma FlattenIntervalsOf(p: seq<Point>)
    requires WellFormed(p)
    ensures Separated(IntervalsOf(p))
    ensures Flatten(IntervalsOf(p)) == p
  {
    var ivs := IntervalsOf(p);
    forall k, m | 0 <= k < m < |ivs| ensures ivs[k].end < ivs[m].start {
      assert 2 * k + 1 < 2 * m;
    }
    var f := Flatten(ivs);
    forall t | 0 <= t < |p| ensures f[t] == p[t] {
      EvenOrOdd(t);
      var k := t / 2;
      assert k < |ivs| && ivs[k] == Bounds(p[2 * k].key, p[2 * k + 1].key);
      if t == 2 * k {
        assert f[t] == Point(ivs[k].start, Start) && p[t].node == Start;
      } else {
        assert f[t] == Point(ivs[k].end, End) && p[t].node == End;
      }
    }
  }

  /** Intervals that all end below `v` flatten to keys below `v`. */
  lemma {:induction false} FlattenKeysBelow(ivs: seq<Interval>, v: int)
    requires forall k :: 0 <= k < |ivs| ==> ivs[k].end < v
    ensures CountBelow(Flatten(ivs), v) == |Flatten(ivs)|
  {
    if ivs != [] {
      var init := ivs[..|ivs| - 1];
      var last := ivs[|ivs| - 1];
      assert forall k :: 0 <= k < |init| ==> init[k] == ivs[k];
      FlattenKeysBelow(init, v);
      CountWhole(Flatten(init), [Point(last.start, Start), Point(last.end, End)], v);
    }
  }

  /** Dropping the last of separated intervals leaves separated intervals, all below it. */
  lemma SeparatedInit(ivs: seq<Interval>, init: seq<Interval>)
    requires Separated(ivs) && ivs != [] && init == ivs[..|ivs| - 1]
    ensures Separated(init)
    ensures forall k :: 0 <= k < |init| ==> init[k].end < ivs[|ivs| - 1].start
    ensures ivs[|ivs| - 1].start < ivs[|ivs| - 1].end
  {
  }

  /** Pushing separated intervals in order onto an empty map appends each as one pair. */
  lemma {:induction false} PushAllSeparated(ivs: seq<Interval>)
    requires Separated(ivs)
    ensures PushAll([], ivs) == Flatten(ivs)
  {
    if ivs != [] {
      var init := ivs[..|ivs| - 1];
      var last := ivs[|ivs| - 1];
      SeparatedInit(ivs, init);
      PushAllSeparated(init);
      var g := Flatten(init);
      FlattenKeysBelow(init, last.start);
      FlattenKeysBelow(init, last.end + 1);
      SpliceAppends(g, last.start, last.end);
    }
  }

  /** Pushing an interval above every key of an even-length map appends its two markers. */
  lemma SpliceAppends(g: seq<Point>, s: u32, e: u32)
    requires s < e && |g| % 2 == 0
    requires CountBelow(g, s) == |g| && CountBelow(g, e + 1) == |g|
    ensures Splice(g, s, e, Start) == g + [Point(s, Start), Point(e, End)]
  {
    assert g[..|g|] == g && g[|g|..] == [];
  }

  /** Serialising a well-formed map to its intervals and pushing them back rebuilds it. */
  lemma SerdeRoundTrip(p: seq<Point>)
    requires WellFormed(p)
    ensures PushAll([], IntervalsOf(p)) == p
  {
    FlattenIntervalsOf(p);
    PushAllSeparated(IntervalsOf(p));
  }

  /** Two ascending maps with the same keys have the same keys position by position. */
  lemma {:induction false} AscendingSameKeys(p: seq<Point>, q: seq<Point>)
    requires Ascending(p) && Ascending(q)
    requires forall k :: Lookup(p, k).Some? <==> Lookup(q, k).Some?
    ensures |p| == |q| && forall t :: 0 <= t < |p| ==> p[t].key == q[t].key
    decreases |p| + |q|
  {
    if p != [] && q != [] {
      LookupFinds(p, p[0].key, 0);
      LookupFinds(q, q[0].key, 0);
      var cp, cq := CountBelow(p, q[0].key), CountBelow(q, p[0].key);
      CountBelowFacts(p, q[0].key);
      CountBelowFacts(q, p[0].key);
      assert p[0].key == q[0].key by {
        assert p[cp].key == q[0].key && q[cq].key == p[0].key;
        assert p[0].key <= p[cp].key && q[0].key <= q[cq].key;
      }
      AscendingSlice(p, 1, |p|);
      AscendingSlice(q, 1, |q|);
      forall k ensures Lookup(p[1..], k).Some? <==> Lookup(q[1..], k).Some? {
        LookupTail(p, k);
        LookupTail(q, k);
      }
      AscendingSameKeys(p[1..], q[1..]);
      forall t | 0 <= t < |p| ensures p[t].key == q[t].key {
        if t > 0 { assert p[t] == p[1..][t - 1] && q[t] == q[1..][t - 1]; }
      }
    } else if p != [] {
      LookupFinds(p, p[0].key, 0);
    } else if q != [] {
      LookupFinds(q, q[0].key, 0);
    }
  }

  /** Dropping the first entry of an ascending map drops exactly its key. */
  lemma LookupTail(p: seq<Point>, k: int)
    requires Ascending(p) && p != []
    ensures Lookup(p[1..], k).Some? <==> Lookup(p, k).Some? && k != p[0].key
  {
    AscendingSlice(p, 1, |p|);
    var c := CountBelow(p, k);
    CountBelowFacts(p, k);
    if Lookup(p, k).Some? && k != p[0].key {
      assert c > 0;
      LookupFinds(p[1..], k, c - 1);
    }
    if Lookup(p[1..], k).Some? {
      var d := CountBelow(p[1..], k);
      CountBelowFacts(p[1..], k);
      assert p[d + 1] == p[1..][d];
      LookupFinds(p, k, d + 1);
    }
  }

  /**
   * The representation is canonical: two well-formed maps that cover the same values are
   * equal, since the keys are exactly the values where coverage changes.
   */
  lemma Canonical(p: seq<Point>, q: seq<Point>)
    requires WellFormed(p) && WellFormed(q)
    requires forall v :: Covered(p, v) <==> Covered(q, v)
    ensures p == q
  {
    forall k ensures Lookup(p, k).Some? <==> Lookup(q, k).Some? {
      KeyStep(p, k);
      KeyStep(q, k);
      assert Covered(p, k) == Covered(q, k);
      assert Covered(p, k - 1) == Covered(q, k - 1);
    }
    AscendingSameKeys(p, q);
  }

  /** A value inside the k-th stored pair has exactly 2k + 1 keys at or below it. */
  lemma CountAtPair(p: seq<Point>, k: nat, v: int)
    requires Ascending(p) && 2 * k + 1 < |p| && p[2 * k].key <= v < p[2 * k + 1].key
    ensures CountBelow(p, v + 1) == 2 * k + 1
  {
    forall t | 0 <= t < 2 * k + 1 ensures p[t].key < v + 1 {
      if t < 2 * k { assert p[t].key < p[2 * k].key; }
    }
    CountBelowIs(p, v + 1, 2 * k + 1);
  }

  /** A covered value lies in the pair its count ends in. */
  lemma CoveredInPair(p: seq<Point>, v: int)
    requires WellFormed(p) && Covered(p, v)
    ensures InSome(IntervalsOf(p), v)
  {
    var ivs := IntervalsOf(p);
    var c := CountBelow(p, v + 1);
    CountBelowFacts(p, v + 1);
    var k := (c - 1) / 2;
    assert 2 * k == c - 1;
    assert p[2 * k].key < v + 1;
    assert InInterval(ivs[k], v);
  }

  /** Coverage seen through the stored intervals. */
  lemma CoveredIffInInterval(p: seq<Point>, v: int)
    requires WellFormed(p)
    ensures Covered(p, v) <==> InSome(IntervalsOf(p), v)
  {
    var ivs := IntervalsOf(p);
    if Covered(p, v) {
      CoveredInPair(p, v);
    }
    if InSome(ivs, v) {
      var k :| 0 <= k < |ivs| && InInterval(ivs[k], v);
      CountAtPair(p, k, v);
    }
  }

  /** The intervals of a set as a set of values. */
  function Members(ivs: seq<Interval>): set<int> {
    if ivs == [] then {} else Range(ivs[0].start, ivs[0].end) + Members(ivs[1..])
  }

  /** The summed lengths of a sequence of intervals, as `coverage` adds them. */
  function TotalLength(ivs: seq<Interval>): nat {
    if ivs == [] then 0 else Len(ivs[0]) + TotalLength(ivs[1..])
  }

  lemma {:induction false} MembersBelow(ivs: seq<Interval>, x: int)
    requires Separated(ivs) && ivs != []
    requires x in Members(ivs)
    ensures ivs[0].start <= x
  {
    if x !in Range(ivs[0].start, ivs[0].end) {
      assert x in Members(ivs[1..]);
      assert Separated(ivs[1..]);
      MembersBelow(ivs[1..], x);
      assert ivs[1..][0] == ivs[1];
    }
  }

  /** For separated intervals the summed lengths count the covered values. */
  lemma {:induction false} TotalLengthCountsMembers(ivs: seq<Interval>)
    requires Separated(ivs)
    ensures TotalLength(ivs) == |Members(ivs)|
  {
    if ivs != [] {
      var head := Range(ivs[0].start, ivs[0].end);
      assert Separated(ivs[1..]);
      TotalLengthCountsMembers(ivs[1..]);
      forall x | x in Members(ivs[1..]) ensures x !in head {
        MembersBelow(ivs[1..], x);
        assert ivs[1..][0] == ivs[1];
      }
      assert head * Members(ivs[1..]) == {};
    }
  }

  /** Adding `offset` to the largest key does not overflow u32. */
  predicate ShiftFits(p: seq<Point>, offset: u32) {
    p == [] || p[|p| - 1].key + offset < U32_LIMIT
  }

  /** The shift fits exactly when every covered value, moved by the offset, stays below u32's end. */
  lemma ShiftFitsCovered(p: seq<Point>, offset: u32)
    requires WellFormed(p)
    ensures ShiftFits(p, offset) <==> forall v :: Covered(p, v) ==> v + 1 + offset < U32_LIMIT
  {
    if p != [] {
      var n := |p|;
      var e: int := p[n - 1].key;
      forall v: int | Covered(p, v) ensures v + 1 <= e {
        CountBelowFacts(p, v + 1);
      }
      CountBelowFacts(p, e);
      assert CountBelow(p, e) == n - 1;
      assert Covered(p, e - 1);
    }
  }

  /** The class of the same name: an ordered map from u32 keys to markers. */
  class IntervalSet {
    var points: seq<Point>

    ghost predicate Valid()
      reads this
    {
      WellFormed(points)
    }

    /** Whether `v` lies in one of the stored intervals. */
    ghost predicate Covers(v: int)
      reads this
    {
      Covered(points, v)
    }

    /** `IntervalSet::new`. */
    constructor ()
      ensures Valid() && points == []
      ensures forall v :: !Covers(v)
    {
      points := [];
    }

    /** `IntervalSet::contains`: some stored [s, e) has s < v <= e. */
    function Contains(v: int): (r: bool)
      reads this
      requires Valid()
      ensures r <==> Covers(v - 1)
      ensures r <==> InSome(Iter(), v - 1)
    {
      ContainsIsCoveredBelow(points, v);
      CoveredIffInInterval(points, v - 1);
      ContainsPoint(points, v)
    }

    /** `IntervalSet::iter`: the stored intervals, ascending and separated. */
    function Iter(): (r: seq<Interval>)
      reads this
      requires Valid()
      ensures Separated(r)
      ensures forall v :: Covers(v) <==> InSome(r, v)
    {
      FlattenIntervalsOf(points);
      assert forall v :: Covers(v) <==> InSome(IntervalsOf(points), v) by {
        forall v {
          CoveredIffInInterval(points, v);
        }
      }
      IntervalsOf(points)
    }

    /** `IntervalSet::push`: merges the interval with everything it overlaps or touches. */
    method Push(iv: Interval)
      requires Valid()
      modifies this
      ensures Valid()
      ensures points == PushPoints(old(points), iv)
      ensures forall v :: Covers(v) <==> old(Covers(v)) || InInterval(iv, v)
    {
      if iv.start == iv.end {
        return;
      }
      ghost var p := points;
      var containsStart := ContainsPoint(points, iv.start);
      var containsEnd := ContainsPoint(points, iv.end);
      match Lookup(points, iv.start) {
        case None =>
          if !containsStart {
            points := InsertPoint(points, iv.start, Start);
          }
        case Some(Start) =>
        case Some(End) =>
          points := RemovePoint(points, iv.start);
      }
      ghost var q1 := points;
      assert q1 == SetBoundary(p, iv.start, Start, !ContainsPoint(p, iv.start));
      match Lookup(points, iv.end) {
        case None =>
          if !containsEnd {
            points := InsertPoint(points, iv.end, End);
          }
        case Some(End) =>
        case Some(Start) =>
          points := RemovePoint(points, iv.end);
      }
      assert points == SetBoundary(q1, iv.end, End, !ContainsPoint(p, iv.end));
      PushSteps(p, iv);
      points := RemoveKeysIn(points, iv.start + 1, iv.end);
    }

    /** `IntervalSet::remove`: splits stored intervals around the removed one. */
    method Remove(iv: Interval)
      requires Valid()
      modifies this
      ensures Valid()
      ensures points == RemovePoints(old(points), iv)
      ensures forall v :: Covers(v) <==> old(Covers(v)) && !InInterval(iv, v)
    {
      if iv.start == iv.end {
        return;
      }
      ghost var p := points;
      var containsStart := ContainsPoint(points, iv.start);
      var containsEnd := ContainsPoint(points, iv.end);
      match Lookup(points, iv.start) {
        case None =>
          if containsStart {
            points := InsertPoint(points, iv.start, End);
          }
        case Some(End) =>
        case Some(Start) =>
          points := RemovePoint(points, iv.start);
      }
      ghost var q1 := points;
      assert q1 == SetBoundary(p, iv.start, End, ContainsPoint(p, iv.start));
      match Lookup(points, iv.end) {
        case None =>
          if containsEnd {
            points := InsertPoint(points, iv.end, Start);
          }
        case Some(Start) =>
        case Some(End) =>
          points := RemovePoint(points, iv.end);
      }
      assert points == SetBoundary(q1, iv.end, Start, ContainsPoint(p, iv.end));
      RemoveSteps(p, iv);
      points := RemoveKeysIn(points, iv.start + 1, iv.end);
    }

    /**
     * `IntervalSet::shift`: every key moves up by `offset`. The source adds in u32, which
     * panics on overflow in a debug build; the requires keeps the largest key in range.
     */
    method Shift(offset: u32)
      requires Valid()
      requires ShiftFits(points, offset)
      modifies this
      ensures Valid()
      ensures |points| == |old(points)|
      ensures forall t :: 0 <= t < |points| ==> points[t] == Point(old(points)[t].key + offset, old(points)[t].node)
      ensures forall v :: Covers(v) <==> old(Covers(v - offset))
    {
      var entries := points;
      points := [];
      var t := 0;
      while t < |entries|
        invariant 0 <= t <= |entries|
        invariant |points| == t
        invariant forall u :: 0 <= u < t ==> (entries[u].key + offset < U32_LIMIT
          && points[u] == Point(entries[u].key + offset, entries[u].node))
      {
        assert entries[t].key <= entries[|entries| - 1].key;
        var k: u32 := entries[t].key + offset;
        assert Ascending(points);
        CountBelowIs(points, k, t);
        points := InsertPoint(points, k, entries[t].node);
        t := t + 1;
      }
      forall v ensures Covers(v) <==> Covered(entries, v - offset) {
        ShiftedCount(entries, points, offset, v - offset + 1);
      }
    }

    /** `IntervalSet::extend`: pushes each interval in order. */
    method Extend(ivs: seq<Interval>)
      requires Valid()
      modifies this
      ensures Valid()
      ensures points == PushAll(old(points), ivs)
    {
      var t := 0;
      while t < |ivs|
        invariant 0 <= t <= |ivs|
        invariant Valid()
        invariant points == PushAll(old(points), ivs[..t])
      {
        Push(ivs[t]);
        assert ivs[..t + 1][..t] == ivs[..t];
        t := t + 1;
      }
      assert ivs[..t] == ivs;
    }

    /** The serde form: the (start, end) pairs of the stored intervals. */
    function Serialize(): (r: seq<(u32, u32)>)
      reads this
      requires Valid()
      ensures |r| == |points| / 2
      ensures forall k :: 0 <= k < |r| ==> r[k].0 < r[k].1
    {
      FlattenIntervalsOf(points);
      var ivs := Iter();
      seq(|ivs|, k requires 0 <= k < |ivs| => (ivs[k].start, ivs[k].end))
    }
  }

  /** The pairs deserialisation pushes, each through `From<(V, V)>`, which asserts start <= end. */
  function PairsAsIntervals(pairs: seq<(u32, u32)>): (r: Option<seq<Interval>>)
    ensures r.Some? <==> forall k :: 0 <= k < |pairs| ==> pairs[k].0 <= pairs[k].1
    ensures r.Some? ==> (|r.value| == |pairs|
      && forall k :: 0 <= k < |pairs| ==> r.value[k] == Bounds(pairs[k].0, pairs[k].1))
  {
    if pairs == [] then Some([])
    else if pairs[0].0 > pairs[0].1 then None
    else
      match PairsAsIntervals(pairs[1..])
      case None =>
        assert exists k :: 1 <= k < |pairs| && pairs[k].0 > pairs[k].1 by {
          var k :| 0 <= k < |pairs[1..]| && pairs[1..][k].0 > pairs[1..][k].1;
          assert pairs[k + 1] == pairs[1..][k];
        }
        None
      case Some(rest) =>
        assert forall k :: 1 <= k < |pairs| ==> pairs[k] == pairs[1..][k - 1];
        var head: Interval := Bounds(pairs[0].0, pairs[0].1);
        Some([head] + rest)
  }

  /** `Deserialize for IntervalSet`: pushes every pair into an empty set; a reversed pair panics. */
  method Deserialize(pairs: seq<(u32, u32)>) returns (r: Result<IntervalSet>)
    ensures r.Ok? || r.Panic?
    ensures r.Ok? <==> PairsAsIntervals(pairs).Some?
    ensures r.Ok? ==> (fresh(r.value) && r.value.Valid()
      && r.value.points == PushAll([], PairsAsIntervals(pairs).value))
  {
    var ivs := PairsAsIntervals(pairs);
    if ivs.None? {
      return Panic("assertion failed: start <= end");
    }
    var created := new IntervalSet();
    created.Extend(ivs.value);
    return Ok(created);
  }

  /** Serialising a set and deserialising the pairs gives a set with the same entries. */
  lemma SerializeDeserialize(s: IntervalSet)
    requires s.Valid()
    ensures PairsAsIntervals(s.Serialize()) == Some(s.Iter())
    ensures PushAll([], s.Iter()) == s.points
  {
    SerdeRoundTrip(s.points);
    var pairs := s.Serialize();
    assert PairsAsIntervals(pairs).value == s.Iter();
  }
}
