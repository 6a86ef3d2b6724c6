/**
 * The integer bookkeeping of the train/test split: the multiset of byte n-grams of a program,
 * the overlap of two such multisets, and the builder that deals components into groups.
 */
module Split {
  import opened Wrappers
  import opened Words
  import opened Memory

  type NGram = seq<u8>

  /** The windows of length `n` of a byte string, in order, as `windows(n)` yields them. */
  function Windows(data: seq<u8>, n: nat): (r: seq<NGram>)
    requires n > 0
    ensures |r| == if |data| < n then 0 else |data| - n + 1
  {
    if |data| < n then [] else Windows(data[..|data| - 1], n) + [data[|data| - n..]]
  }

  /** Window `k` is the `n` bytes from offset `k`. */
  lemma {:induction false} WindowsAt(data: seq<u8>, n: nat, k: nat)
    requires n > 0 && k < |Windows(data, n)|
    ensures Windows(data, n)[k] == data[k..k + n]
  {
    var init := data[..|data| - 1];
    if k < |Windows(init, n)| {
      WindowsAt(init, n, k);
    }
  }

  /** The windows of every region, region by region. */
  function AllWindows(program: seq<Region>, n: nat): seq<NGram>
    requires n > 0
  {
    if program == [] then [] else AllWindows(program[..|program| - 1], n) + Windows(program[|program| - 1].data, n)
  }

  /** The number of windows of length `n` a region of `len` bytes has. */
  function WindowCount(program: seq<Region>, n: nat): nat {
    if program == [] then 0
    else
      var len := |program[|program| - 1].data|;
      WindowCount(program[..|program| - 1], n) + (if len < n then 0 else len - n + 1)
  }

  /** The total count is the number of windows over all regions. */
  lemma {:induction false} AllWindowsCount(program: seq<Region>, n: nat)
    requires n > 0
    ensures |AllWindows(program, n)| == WindowCount(program, n)
  {
    if program != [] {
      AllWindowsCount(program[..|program| - 1], n);
    }
  }

  /** `NGramIndex`: each n-gram with its number of occurrences, and the number of windows. */
  datatype NGramIndex = NGramIndex(ngrams: map<NGram, nat>, totalCount: nat)

  /** The index counts exactly the n-grams of the multiset `w`, and its total is `|w|`. */
  ghost predicate Represents(idx: NGramIndex, w: multiset<NGram>) {
    && (forall g :: g in idx.ngrams <==> w[g] > 0)
    && (forall g :: g in idx.ngrams ==> idx.ngrams[g] == w[g])
    && idx.totalCount == |w|
  }

  /** `n` copies of one n-gram. */
  function Copies(g: NGram, n: nat): (r: multiset<NGram>)
    ensures |r| == n && r[g] == n && forall x :: x != g ==> r[x] == 0
  {
    if n == 0 then multiset{} else Copies(g, n - 1) + multiset{g}
  }

  /** Some n-gram of a non-empty map. */
  ghost function Pick(m: map<NGram, nat>): (g: NGram)
    requires m != map[]
    ensures g in m
  {
    var g :| g in m; g
  }

  /** The multiset a count map stands for. */
  ghost function BagOf(m: map<NGram, nat>): multiset<NGram>
    decreases |m|
  {
    if m == map[] then multiset{}
    else
      var g := Pick(m);
      BagOf(m - {g}) + Copies(g, m[g])
  }

  /** Each n-gram occurs in the bag as often as the map counts it. */
  lemma {:induction false} BagOfCount(m: map<NGram, nat>, x: NGram)
    ensures BagOf(m)[x] == if x in m then m[x] else 0
    decreases |m|
  {
    if m != map[] {
      BagOfCount(m - {Pick(m)}, x);
    }
  }

  /** An index that represents `w` counts the bag `w`. */
  lemma BagOfRepresented(idx: NGramIndex, w: multiset<NGram>)
    requires Represents(idx, w)
    ensures BagOf(idx.ngrams) == w
  {
    forall x ensures BagOf(idx.ngrams)[x] == w[x] {
      BagOfCount(idx.ngrams, x);
    }
  }

  /** One more occurrence of `g`. */
  function Count(ngrams: map<NGram, nat>, g: NGram): map<NGram, nat> {
    ngrams[g := (if g in ngrams then ngrams[g] else 0) + 1]
  }

  /**
   * `NGramIndex::new`: every window of every region is counted once, in the map and in the
   * total (`windows` demands a non-zero length).
   */
  method NewIndex(program: seq<Region>, n: nat) returns (idx: NGramIndex)
    requires n > 0
    ensures Represents(idx, multiset(AllWindows(program, n)))
  {
    var ngrams: map<NGram, nat> := map[];
    var totalCount := 0;
    for i := 0 to |program|
      invariant Represents(NGramIndex(ngrams, totalCount), multiset(AllWindows(program[..i], n)))
    {
      assert program[..i + 1][..i] == program[..i];
      ngrams, totalCount := CountRegion(ngrams, totalCount, program[i].data, n, multiset(AllWindows(program[..i], n)));
    }
    assert program[..|program|] == program;
    idx := NGramIndex(ngrams, totalCount);
  }

  /** Counting one more window keeps the index in step with the bag. */
  lemma CountStep(idx: NGramIndex, w: multiset<NGram>, g: NGram)
    requires Represents(idx, w)
    ensures Represents(NGramIndex(Count(idx.ngrams, g), idx.totalCount + 1), w + multiset{g})
  {
  }

  /** The body of the inner loop: window `j` is counted. */
  method CountWindow(ngrams0: map<NGram, nat>, total0: nat, windows: seq<NGram>, j: nat, ghost w: multiset<NGram>)
    returns (ngrams: map<NGram, nat>, totalCount: nat)
    requires j < |windows| && Represents(NGramIndex(ngrams0, total0), w + multiset(windows[..j]))
    ensures Represents(NGramIndex(ngrams, totalCount), w + multiset(windows[..j + 1]))
  {
    assert windows[..j + 1] == windows[..j] + [windows[j]];
    CountStep(NGramIndex(ngrams0, total0), w + multiset(windows[..j]), windows[j]);
    ngrams, totalCount := Count(ngrams0, windows[j]), total0 + 1;
  }

  /** The inner loop: the windows of one region. */
  method CountRegion(ngrams0: map<NGram, nat>, total0: nat, data: seq<u8>, n: nat, ghost w: multiset<NGram>)
    returns (ngrams: map<NGram, nat>, totalCount: nat)
    requires n > 0 && Represents(NGramIndex(ngrams0, total0), w)
    ensures Represents(NGramIndex(ngrams, totalCount), w + multiset(Windows(data, n)))
  {
    ngrams, totalCount := ngrams0, total0;
    var windows := Windows(data, n);
    for j := 0 to |windows|
      invariant Represents(NGramIndex(ngrams, totalCount), w + multiset(windows[..j]))
    {
      ngrams, totalCount := CountWindow(ngrams, totalCount, windows, j, w);
    }
    assert windows[..|windows|] == windows;
  }

  /** `len`: the number of distinct n-grams. */
  function Len(idx: NGramIndex): nat {
    |idx.ngrams|
  }

  /** The distinct n-grams are the distinct windows. */
  lemma LenIsDistinct(idx: NGramIndex, w: multiset<NGram>)
    requires Represents(idx, w)
    ensures idx.ngrams.Keys == set g | g in w
    ensures Len(idx) == |set g | g in w|
  {
    assert idx.ngrams.Keys == set g | g in w;
  }

  /** `|A ∩ B|`: the smaller count of every shared n-gram. */
  ghost function IntersectionSize(a: NGramIndex, b: NGramIndex): nat {
    |BagOf(a.ngrams) * BagOf(b.ngrams)|
  }

  /**
   * The integer part of `similarity`: the intersection, summed over the first index's n-grams,
   * and the union `total_a + total_b - intersection`, whose `usize` subtraction panics when
   * the totals do not cover the intersection.
   */
  method Similarity(a: NGramIndex, b: NGramIndex) returns (r: Result<(nat, nat)>)
    ensures !r.Err?
    ensures r.Ok? <==> IntersectionSize(a, b) <= a.totalCount + b.totalCount
    ensures r.Ok? ==> r.value == (IntersectionSize(a, b), a.totalCount + b.totalCount - IntersectionSize(a, b))
  {
    var intersection := Intersection(a.ngrams, b.ngrams);
    if a.totalCount + b.totalCount < intersection {
      return Panic("attempt to subtract with overflow");
    }
    r := Ok((intersection, a.totalCount + b.totalCount - intersection));
  }

  /** The loop of `similarity`: `min(count, other_count)` for every n-gram both maps hold. */
  method Intersection(a: map<NGram, nat>, b: map<NGram, nat>) returns (intersection: nat)
    ensures intersection == |BagOf(a) * BagOf(b)|
  {
    intersection := 0;
    var rest := a.Keys;
    while rest != {}
      invariant rest <= a.Keys
      invariant intersection == |BagOf(a - rest) * BagOf(b)|
      decreases |rest|
    {
      var ngram :| ngram in rest;
      var count := a[ngram];
      IntersectionStep(a, rest, ngram, b);
      if ngram in b {
        var otherCount := b[ngram];
        intersection := intersection + if count < otherCount then count else otherCount;
      }
      rest := rest - {ngram};
    }
    assert a - {} == a;
  }

  /** Taking one more n-gram of `a` into the intersection adds its smaller count. */
  lemma IntersectionStep(a: map<NGram, nat>, rest: set<NGram>, g: NGram, b: map<NGram, nat>)
    requires g in rest && rest <= a.Keys
    ensures |BagOf(a - (rest - {g})) * BagOf(b)| ==
              |BagOf(a - rest) * BagOf(b)| + (if g !in b then 0 else if a[g] < b[g] then a[g] else b[g])
  {
    var before := BagOf(a - rest) * BagOf(b);
    var added := Copies(g, if g !in b then 0 else if a[g] < b[g] then a[g] else b[g]);
    forall x ensures (BagOf(a - (rest - {g})) * BagOf(b))[x] == (before + added)[x] {
      BagOfCount(a - (rest - {g}), x);
      BagOfCount(a - rest, x);
      BagOfCount(b, x);
    }
    assert BagOf(a - (rest - {g})) * BagOf(b) == before + added;
  }

  /** The intersection does not depend on which index is asked. */
  lemma IntersectionSymmetric(a: NGramIndex, b: NGramIndex)
    ensures IntersectionSize(a, b) == IntersectionSize(b, a)
  {
    assert BagOf(a.ngrams) * BagOf(b.ngrams) == BagOf(b.ngrams) * BagOf(a.ngrams);
  }

  /** The common part of two multisets is no larger than either. */
  lemma IntersectionBelow(x: multiset<NGram>, y: multiset<NGram>)
    ensures |x * y| <= |x| && |x * y| <= |y|
  {
    assert x == (x * y) + (x - y);
    assert y == (x * y) + (y - x);
  }

  /**
   * For indices built from windows, the intersection is at most either total, so the union
   * never underflows and is at least the intersection.
   */
  lemma IntersectionBounded(a: NGramIndex, wa: multiset<NGram>, b: NGramIndex, wb: multiset<NGram>)
    requires Represents(a, wa) && Represents(b, wb)
    ensures IntersectionSize(a, b) <= a.totalCount && IntersectionSize(a, b) <= b.totalCount
  {
    BagOfRepresented(a, wa);
    BagOfRepresented(b, wb);
    IntersectionBelow(wa, wb);
  }

  /** An index compared with itself: intersection and union are both the total. */
  lemma SelfSimilarity(a: NGramIndex, w: multiset<NGram>)
    requires Represents(a, w)
    ensures IntersectionSize(a, a) == a.totalCount
    ensures a.totalCount + a.totalCount - IntersectionSize(a, a) == a.totalCount
  {
    BagOfRepresented(a, w);
    assert w * w == w;
  }

  const U64_MAX: int := 0xFFFF_FFFF_FFFF_FFFF

  /** `SplitGroup`: the requested fraction, the size dealt to it, and its items in order. */
  datatype SplitGroup = SplitGroup(targetFraction: real, currentSize: nat, items: seq<nat>)

  /**
   * `SplitGroupResult`: the requested fraction, the items, and the two integers whose `f64`
   * quotient is `actual_fraction`.
   */
  datatype GroupResult = GroupResult(targetFraction: real, size: nat, totalSize: nat, items: seq<nat>)

  function SumSizes(groups: seq<SplitGroup>): nat {
    if groups == [] then 0 else SumSizes(groups[..|groups| - 1]) + groups[|groups| - 1].currentSize
  }

  /** Changing one group's size changes the sum by the same amount. */
  lemma {:induction false} SumSizesUpdate(groups: seq<SplitGroup>, t: nat, g: SplitGroup)
    requires t < |groups|
    ensures SumSizes(groups[t := g]) + groups[t].currentSize == SumSizes(groups) + g.currentSize
  {
    var last := |groups| - 1;
    if t < last {
      assert groups[t := g][..last] == groups[..last][t := g];
      SumSizesUpdate(groups[..last], t, g);
    } else {
      assert groups[t := g][..last] == groups[..last];
    }
  }

  /** A group's size is part of the sum. */
  lemma {:induction false} GroupBelowSum(groups: seq<SplitGroup>, t: nat)
    requires t < |groups|
    ensures groups[t].currentSize <= SumSizes(groups)
  {
    if t < |groups| - 1 {
      GroupBelowSum(groups[..|groups| - 1], t);
    }
  }

  /** `SplitBuilder`: the total dealt so far and the groups. */
  class SplitBuilder {
    var currentSize: nat
    var groups: seq<SplitGroup>

    /** The total is the sum of the group sizes and fits `u64`. */
    ghost predicate Valid()
      reads this
    {
      currentSize == SumSizes(groups) && currentSize <= U64_MAX
    }

    /** `new`: one empty group per requested fraction, in order. */
    constructor (fractions: seq<real>)
      ensures Valid() && currentSize == 0 && |groups| == |fractions|
      ensures forall k :: 0 <= k < |groups| ==> groups[k] == SplitGroup(fractions[k], 0, [])
    {
      currentSize := 0;
      var gs: seq<SplitGroup> := [];
      for k := 0 to |fractions|
        invariant |gs| == k && SumSizes(gs) == 0
        invariant forall j :: 0 <= j < k ==> gs[j] == SplitGroup(fractions[j], 0, [])
      {
        gs := gs + [SplitGroup(fractions[k], 0, [])];
      }
      groups := gs;
    }

    /**
     * `push_component`: the component's size is added to the group the `f64` scores pick
     * (`choice`) and to the total, and its items are appended to that group. With no groups
     * `unwrap` panics; a `u64` overflow panics before anything changes.
     */
    method PushComponent(items: seq<nat>, groupSize: nat, choice: nat) returns (r: Result<nat>)
      requires Valid() && (groups != [] ==> choice < |groups|)
      modifies this
      ensures Valid() && !r.Err?
      ensures r.Panic? <==> old(groups) == [] || old(currentSize) + groupSize > U64_MAX
      ensures r.Panic? ==> groups == old(groups) && currentSize == old(currentSize)
      ensures r.Ok? ==> r.value == choice && currentSize == old(currentSize) + groupSize
      ensures r.Ok? ==> groups == old(groups)[choice := SplitGroup(old(groups)[choice].targetFraction,
                                                                   old(groups)[choice].currentSize + groupSize,
                                                                   old(groups)[choice].items + items)]
    {
      if groups == [] {
        return Panic("called `Option::unwrap()` on a `None` value");
      }
      var group := groups[choice];
      GroupBelowSum(groups, choice);
      if group.currentSize + groupSize > U64_MAX || currentSize + groupSize > U64_MAX {
        return Panic("attempt to add with overflow");
      }
      var updated := SplitGroup(group.targetFraction, group.currentSize + groupSize, group.items + items);
      SumSizesUpdate(groups, choice, updated);
      groups := groups[choice := updated];
      currentSize := currentSize + groupSize;
      r := Ok(choice);
    }

    /** `build`: each group's fraction, size and items, against the total. */
    method Build() returns (result: seq<GroupResult>)
      requires Valid()
      ensures |result| == |groups|
      ensures forall k :: 0 <= k < |result| ==>
                result[k] == GroupResult(groups[k].targetFraction, groups[k].currentSize, currentSize, groups[k].items)
    {
      var totalSize := currentSize;
      result := [];
      for k := 0 to |groups|
        invariant |result| == k
        invariant forall j :: 0 <= j < k ==>
                    result[j] == GroupResult(groups[j].targetFraction, groups[j].currentSize, totalSize, groups[j].items)
      {
        var group := groups[k];
        result := result + [GroupResult(group.targetFraction, group.currentSize, totalSize, group.items)];
      }
    }
  }

  /** The built sizes add up to the total every result is measured against. */
  lemma {:induction false} ResultSizesSum(groups: seq<SplitGroup>, result: seq<GroupResult>, total: nat)
    requires |result| == |groups| && total == SumSizes(groups)
    requires forall k :: 0 <= k < |result| ==> result[k].size == groups[k].currentSize
    ensures ResultSizes(result) == total
  {
    if groups != [] {
      var last := |groups| - 1;
      ResultSizesSum(groups[..last], result[..last], SumSizes(groups[..last]));
    }
  }

  function ResultSizes(result: seq<GroupResult>): nat {
    if result == [] then 0 else ResultSizes(result[..|result| - 1]) + result[|result| - 1].size
  }
}
