/**
 * `AddressClasses`: the ground truth of a sample, as two interval sets of addresses, one of
 * instruction bytes and one of data bytes. The `datatool` and `fetch` crates carry the same
 * type with the same operations.
 */
module Classes {
  import opened Wrappers
  import opened Words
  import opened IntervalSets
  import opened Text

  /** Every interval of `ivs` intersected with `range`, the empty results dropped. */
  function Clip(ivs: seq<Interval>, range: Interval): (r: seq<Interval>)
    ensures |r| <= |ivs|
    ensures forall k :: 0 <= k < |r| ==> r[k].start < r[k].end
  {
    if ivs == [] then []
    else
      var x := Intersection(ivs[0], range);
      (if x.start == x.end then [] else [x]) + Clip(ivs[1..], range)
  }

  /** A value is in a clipped interval exactly when it is in an original one and in the range. */
  lemma {:induction false} ClipCovers(ivs: seq<Interval>, range: Interval, v: int)
    ensures InSome(Clip(ivs, range), v) <==> InSome(ivs, v) && InInterval(range, v)
  {
    if ivs != [] {
      var x := Intersection(ivs[0], range);
      var head: seq<Interval> := if x.start == x.end then [] else [x];
      var rest := Clip(ivs[1..], range);
      assert Clip(ivs, range) == head + rest;
      ClipCovers(ivs[1..], range, v);
      InSomeConcat(head, rest, v);
      InSomeConcat([ivs[0]], ivs[1..], v);
      assert [ivs[0]] + ivs[1..] == ivs;
      assert InSome(head, v) <==> InInterval(x, v) by {
        if InSome(head, v) { assert head[0] == x; }
        if InInterval(x, v) { assert head[0] == x; }
      }
      assert InSome([ivs[0]], v) <==> InInterval(ivs[0], v) by {
        if InSome([ivs[0]], v) { assert [ivs[0]][0] == ivs[0]; }
      }
    }
  }

  /** Clipped intervals start no lower than the intervals they come from. */
  lemma {:induction false} ClipStartsAbove(ivs: seq<Interval>, range: Interval, lo: int)
    requires forall m :: 0 <= m < |ivs| ==> lo <= ivs[m].start
    ensures forall k :: 0 <= k < |Clip(ivs, range)| ==> lo <= Clip(ivs, range)[k].start
  {
    if ivs != [] {
      var x := Intersection(ivs[0], range);
      var head: seq<Interval> := if x.start == x.end then [] else [x];
      var rest := Clip(ivs[1..], range);
      assert Clip(ivs, range) == head + rest;
      ClipStartsAbove(ivs[1..], range, lo);
      forall k | 0 <= k < |head + rest| ensures lo <= (head + rest)[k].start {
        if k >= |head| { assert (head + rest)[k] == rest[k - |head|]; }
      }
    }
  }

  lemma InSomeConcat(x: seq<Interval>, y: seq<Interval>, v: int)
    ensures InSome(x + y, v) <==> InSome(x, v) || InSome(y, v)
  {
    if InSome(x + y, v) {
      var k :| 0 <= k < |x + y| && InInterval((x + y)[k], v);
      if k >= |x| { assert (x + y)[k] == y[k - |x|]; }
    }
    if InSome(y, v) {
      var k :| 0 <= k < |y| && InInterval(y[k], v);
      assert (x + y)[|x| + k] == y[k];
    }
    if InSome(x, v) {
      var k :| 0 <= k < |x| && InInterval(x[k], v);
      assert (x + y)[k] == x[k];
    }
  }

  /** Clipping separated intervals leaves them separated. */
  lemma {:induction false} ClipSeparated(ivs: seq<Interval>, range: Interval)
    requires Separated(ivs)
    ensures Separated(Clip(ivs, range))
  {
    if ivs != [] {
      var tail := ivs[1..];
      assert Separated(tail);
      ClipSeparated(tail, range);
      var x := Intersection(ivs[0], range);
      var rest := Clip(tail, range);
      if x.start != x.end {
        ClipStartsAbove(tail, range, ivs[0].end + 1);
        var r := [x] + rest;
        assert Clip(ivs, range) == r;
        forall k, m | 0 <= k < m < |r| ensures r[k].end < r[m].start {
          if k > 0 { assert r[k] == rest[k - 1]; }
          assert r[m] == rest[m - 1];
        }
      } else {
        assert Clip(ivs, range) == rest;
      }
    }
  }

  /** Pushing separated intervals into an empty set stores exactly those intervals. */
  lemma RebuildSeparated(ivs: seq<Interval>)
    requires Separated(ivs)
    ensures IntervalsOf(PushAll([], ivs)) == ivs
  {
    PushAllSeparated(ivs);
  }

  /** The values `now` covers are exactly the values `before` covers that lie in [lo, hi). */
  ghost predicate CutTo(now: seq<Point>, before: seq<Point>, lo: int, hi: int) {
    forall v :: Covered(now, v) <==> Covered(before, v) && lo <= v < hi
  }

  /**
   * The filtering half of `filter_to`: a new set built by pushing the non-empty
   * intersections of the stored intervals with `range`.
   */
  method Filtered(s: IntervalSet, range: Interval) returns (r: IntervalSet)
    requires s.Valid()
    ensures fresh(r) && r.Valid()
    ensures r.Iter() == Clip(s.Iter(), range)
    ensures CutTo(r.points, s.points, range.start, range.end)
  {
    var clipped := Clip(s.Iter(), range);
    r := new IntervalSet();
    r.Extend(clipped);
    ClipSeparated(s.Iter(), range);
    RebuildSeparated(clipped);
    forall v ensures Covered(r.points, v) <==> Covered(s.points, v) && range.start <= v < range.end {
      PushAllCovered([], clipped, v);
      ClipCovers(s.Iter(), range, v);
    }
  }

  /** The u32 running sum of interval lengths, as `Iterator::sum` adds them: it panics on overflow. */
  function SumLengths(ivs: seq<Interval>, acc: u32): (r: Result<u32>)
    ensures !r.Err?
    ensures r.Ok? <==> acc + TotalLength(ivs) < U32_LIMIT
    ensures r.Ok? ==> r.value == acc + TotalLength(ivs)
  {
    if ivs == [] then Ok(acc)
    else if acc + Len(ivs[0]) >= U32_LIMIT then Panic("attempt to add with overflow")
    else SumLengths(ivs[1..], acc + Len(ivs[0]))
  }

  /** Which set a dumped interval comes from; the source tags them "code" and "data". */
  datatype Kind = Code | Data

  /** An `(interval, kind)` pair of the dump. */
  datatype Entry = Entry(iv: Interval, kind: Kind)

  /** The derived order of `(Interval<u32>, &str)`: by start, then end, then "code" before "data". */
  predicate EntryLe(a: Entry, b: Entry) {
    a.iv.start < b.iv.start
    || (a.iv.start == b.iv.start && (a.iv.end < b.iv.end
      || (a.iv.end == b.iv.end && (a.kind == Code || b.kind == Data))))
  }

  predicate SortedEntries(s: seq<Entry>) {
    forall i, j :: 0 <= i < j < |s| ==> EntryLe(s[i], s[j])
  }

  /** One step of the sort: `x` placed before the first entry it does not follow. */
  function InsertEntry(x: Entry, s: seq<Entry>): (r: seq<Entry>)
    requires SortedEntries(s)
    ensures SortedEntries(r)
    ensures multiset(r) == multiset(s) + multiset{x}
  {
    if s == [] || EntryLe(x, s[0]) then
      SortedCons(x, s);
      [x] + s
    else
      var rest := InsertEntry(x, s[1..]);
      HeadBelowInsert(x, s, rest);
      SortedCons(s[0], rest);
      assert s == [s[0]] + s[1..];
      [s[0]] + rest
  }

  /** An entry below every entry of a sorted sequence can be put in front of it. */
  lemma SortedCons(x: Entry, s: seq<Entry>)
    requires SortedEntries(s)
    requires s != [] ==> EntryLe(x, s[0])
    ensures SortedEntries([x] + s)
  {
    var r := [x] + s;
    forall i, j | 0 <= i < j < |r| ensures EntryLe(r[i], r[j]) {
      if i > 0 {
        assert r[i] == s[i - 1] && r[j] == s[j - 1];
      } else {
        assert r[j] == s[j - 1];
        assert EntryLe(s[0], s[j - 1]) || j == 1;
      }
    }
  }

  /** The head of a sorted sequence stays below everything its tail with `x` inserted holds. */
  lemma HeadBelowInsert(x: Entry, s: seq<Entry>, rest: seq<Entry>)
    requires SortedEntries(s) && s != [] && !EntryLe(x, s[0])
    requires multiset(rest) == multiset(s[1..]) + multiset{x}
    ensures rest != [] ==> EntryLe(s[0], rest[0])
  {
    if rest != [] {
      assert rest[0] in multiset(rest);
      if rest[0] != x {
        assert rest[0] in multiset(s[1..]);
        var m :| 0 <= m < |s[1..]| && s[1..][m] == rest[0];
        assert s[m + 1] == rest[0];
      }
    }
  }

  /** `data.sort()`: the entries in ascending order, as a permutation of the input. */
  function SortEntries(s: seq<Entry>): (r: seq<Entry>)
    ensures SortedEntries(r)
    ensures multiset(r) == multiset(s)
  {
    if s == [] then []
    else
      assert s == [s[0]] + s[1..];
      InsertEntry(s[0], SortEntries(s[1..]))
  }

  /** The intervals of one set tagged with their kind. */
  function Tagged(ivs: seq<Interval>, kind: Kind): (r: seq<Entry>)
    ensures |r| == |ivs| && forall k :: 0 <= k < |ivs| ==> r[k] == Entry(ivs[k], kind)
  {
    seq(|ivs|, k requires 0 <= k < |ivs| => Entry(ivs[k], kind))
  }

  /** The entries `dump` walks: code intervals, then data intervals, sorted. */
  function DumpEntries(code: seq<Interval>, data: seq<Interval>): seq<Entry> {
    SortEntries(Tagged(code, Code) + Tagged(data, Data))
  }

  /** A line of the dump: a gap between two entries, or an entry. */
  datatype DumpLine = GapLine(from: u32, to: u32, gap: u32) | EntryLine(entry: Entry)

  function LineStart(line: DumpLine): int {
    if line.GapLine? then line.from else line.entry.iv.start
  }

  function LineEnd(line: DumpLine): int {
    if line.GapLine? then line.to else line.entry.iv.end
  }

  /** The entries named by the lines, in order, gap lines left out. */
  function EntriesOf(lines: seq<DumpLine>): seq<Entry> {
    if lines == [] then []
    else (if lines[0].EntryLine? then [lines[0].entry] else []) + EntriesOf(lines[1..])
  }

  lemma {:induction false} EntriesOfConcat(a: seq<DumpLine>, b: seq<DumpLine>)
    ensures EntriesOf(a + b) == EntriesOf(a) + EntriesOf(b)
  {
    if a != [] {
      assert (a + b)[1..] == a[1..] + b;
      EntriesOfConcat(a[1..], b);
    } else {
      assert a + b == b;
    }
  }

  /** Each entry starts at or after the end of the one before it (and of `prev`). */
  predicate Chained(es: seq<Entry>, prev: Option<u32>) {
    (prev.Some? && es != [] ==> prev.value <= es[0].iv.start)
    && forall k :: 0 < k < |es| ==> es[k - 1].iv.end <= es[k].iv.start
  }

  /** The gap line written before an entry that starts after `prev`, if any. */
  function GapLines(prev: Option<u32>, e: Entry): seq<DumpLine>
    requires prev.Some? ==> prev.value <= e.iv.start
  {
    if prev.Some? && e.iv.start - prev.value > 0 then [GapLine(prev.value, e.iv.start, e.iv.start - prev.value)] else []
  }

  /**
   * The loop of `dump` from the entry after `prev` on: each entry gets a line, preceded by
   * a gap line when it starts after the previous end. The `start - prev` of the source is a
   * u32 subtraction, which panics when an entry starts before the previous one ended.
   */
  function DumpFrom(es: seq<Entry>, prev: Option<u32>): (r: Result<seq<DumpLine>>)
    ensures !r.Err?
    ensures r.Ok? <==> Chained(es, prev)
    decreases |es|
  {
    if es == [] then Ok([])
    else
      var iv := es[0].iv;
      if prev.Some? && iv.start < prev.value then Panic("attempt to subtract with overflow")
      else
        var rest := DumpFrom(es[1..], Some(iv.end));
        assert Chained(es, prev) <==> Chained(es[1..], Some(iv.end)) by {
          assert forall k :: 0 < k < |es| - 1 ==> es[1..][k - 1] == es[k] && es[1..][k] == es[k + 1];
        }
        if rest.Ok? then Ok(GapLines(prev, es[0]) + [EntryLine(es[0])] + rest.value) else rest
  }

  /** The entry lines of a dump name every entry exactly once, in order. */
  lemma {:induction false} DumpListsEntries(es: seq<Entry>, prev: Option<u32>)
    requires DumpFrom(es, prev).Ok?
    ensures EntriesOf(DumpFrom(es, prev).value) == es
  {
    if es != [] {
      var gap := GapLines(prev, es[0]);
      var rest := DumpFrom(es[1..], Some(es[0].iv.end)).value;
      DumpListsEntries(es[1..], Some(es[0].iv.end));
      EntriesOfConcat(gap + [EntryLine(es[0])], rest);
      EntriesOfConcat(gap, [EntryLine(es[0])]);
      assert EntriesOf([EntryLine(es[0])]) == [es[0]];
      assert gap != [] ==> EntriesOf(gap) == [];
      assert es == [es[0]] + es[1..];
    }
  }

  /**
   * Dump lines tile the addresses they span: each line begins where the one before it ends,
   * a gap line is non-empty, states its own length and is followed by an entry.
   */
  predicate Tiled(lines: seq<DumpLine>) {
    (forall i :: 0 <= i < |lines| && lines[i].GapLine? ==>
      lines[i].from < lines[i].to && lines[i].gap == lines[i].to - lines[i].from
      && i + 1 < |lines| && lines[i + 1].EntryLine?)
    && forall i :: 0 < i < |lines| ==> LineEnd(lines[i - 1]) == LineStart(lines[i])
  }

  /**
   * A dump that does not panic is tiled, starts at `prev` (or at the first entry) and ends
   * with an entry: there is a gap line exactly where an entry starts after the previous end.
   */
  lemma {:induction false} DumpTiles(es: seq<Entry>, prev: Option<u32>)
    requires DumpFrom(es, prev).Ok?
    ensures Tiled(DumpFrom(es, prev).value)
    ensures var lines := DumpFrom(es, prev).value;
      lines != [] ==> (lines[|lines| - 1].EntryLine?
        && LineStart(lines[0]) == if prev.Some? then prev.value else es[0].iv.start)
  {
    if es != [] {
      var iv := es[0].iv;
      var gap := GapLines(prev, es[0]);
      var rest := DumpFrom(es[1..], Some(iv.end)).value;
      DumpTiles(es[1..], Some(iv.end));
      var head := gap + [EntryLine(es[0])];
      assert DumpFrom(es, prev).value == head + rest;
      HeadTiled(gap, es[0]);
      TiledConcat(head, rest);
    }
  }

  /** An entry line, preceded by at most one non-empty gap line that ends where it starts. */
  lemma HeadTiled(gap: seq<DumpLine>, e: Entry)
    requires |gap| <= 1
    requires gap != [] ==> (gap[0].GapLine? && gap[0].from < gap[0].to == e.iv.start
      && gap[0].gap == gap[0].to - gap[0].from)
    ensures Tiled(gap + [EntryLine(e)])
  {
  }

  /** Tiled lines followed by tiled lines that start where the first ones end are tiled. */
  lemma TiledConcat(head: seq<DumpLine>, rest: seq<DumpLine>)
    requires Tiled(head) && Tiled(rest) && head != [] && head[|head| - 1].EntryLine?
    requires rest != [] ==> LineEnd(head[|head| - 1]) == LineStart(rest[0])
    ensures Tiled(head + rest)
  {
    var lines := head + rest;
    forall i | 0 < i < |lines| ensures LineEnd(lines[i - 1]) == LineStart(lines[i]) {
      if i < |head| {
        assert lines[i] == head[i] && lines[i - 1] == head[i - 1];
      } else if i == |head| {
        assert lines[i] == rest[0] && lines[i - 1] == head[|head| - 1];
      } else {
        assert lines[i] == rest[i - |head|] && lines[i - 1] == rest[i - 1 - |head|];
      }
    }
    forall i | 0 <= i < |lines| && lines[i].GapLine? ensures
      lines[i].from < lines[i].to && lines[i].gap == lines[i].to - lines[i].from
      && i + 1 < |lines| && lines[i + 1].EntryLine?
    {
      if i >= |head| {
        assert lines[i] == rest[i - |head|] && lines[i + 1] == rest[i + 1 - |head|];
      } else {
        assert lines[i] == head[i];
        assert i + 1 < |head|;
        assert lines[i + 1] == head[i + 1];
      }
    }
  }

  /** Two intervals share no value. */
  predicate Apart(a: Interval, b: Interval) {
    a.end <= b.start || b.end <= a.start
  }

  predicate PairwiseApart(s: seq<Entry>) {
    forall i, j :: 0 <= i < j < |s| ==> Apart(s[i].iv, s[j].iv)
  }

  predicate AllNonEmpty(s: seq<Entry>) {
    forall i :: 0 <= i < |s| ==> s[i].iv.start < s[i].iv.end
  }

  /** Every entry of `t` is an entry of `s`. */
  lemma MembersOfPermutation(s: seq<Entry>, t: seq<Entry>, i: int)
    requires multiset(t) <= multiset(s) && 0 <= i < |t|
    ensures exists m :: 0 <= m < |s| && s[m] == t[i]
  {
    assert t[i] in multiset(t);
    assert t[i] in multiset(s);
  }

  /** Inserting an entry apart from all others keeps the entries pairwise apart. */
  lemma {:induction false} InsertApart(x: Entry, s: seq<Entry>)
    requires SortedEntries(s) && PairwiseApart(s)
    requires forall i :: 0 <= i < |s| ==> Apart(x.iv, s[i].iv)
    ensures PairwiseApart(InsertEntry(x, s))
  {
    var r := InsertEntry(x, s);
    if s == [] || EntryLe(x, s[0]) {
      assert r == [x] + s;
      forall i, j | 0 <= i < j < |r| ensures Apart(r[i].iv, r[j].iv) {
        assert r[j] == s[j - 1];
        if i > 0 { assert r[i] == s[i - 1]; }
      }
    } else {
      var rest := InsertEntry(x, s[1..]);
      InsertApart(x, s[1..]);
      assert r == [s[0]] + rest;
      forall i, j | 0 <= i < j < |r| ensures Apart(r[i].iv, r[j].iv) {
        assert r[j] == rest[j - 1];
        if i > 0 {
          assert r[i] == rest[i - 1];
        } else if rest[j - 1] != x {
          assert multiset(rest) == multiset(s[1..]) + multiset{x};
          assert rest[j - 1] in multiset(s[1..]) by {
            assert rest[j - 1] in multiset(rest);
          }
          var m :| 0 <= m < |s[1..]| && s[1..][m] == rest[j - 1];
          assert s[m + 1] == rest[j - 1];
        }
      }
    }
  }

  /** Sorting keeps entries that are pairwise apart pairwise apart. */
  lemma {:induction false} SortApart(s: seq<Entry>)
    requires PairwiseApart(s)
    ensures PairwiseApart(SortEntries(s))
  {
    if s != [] {
      var tail := s[1..];
      assert PairwiseApart(tail) by {
        forall i, j | 0 <= i < j < |tail| ensures Apart(tail[i].iv, tail[j].iv) {
          assert tail[i] == s[i + 1] && tail[j] == s[j + 1];
        }
      }
      SortApart(tail);
      var t := SortEntries(tail);
      forall i | 0 <= i < |t| ensures Apart(s[0].iv, t[i].iv) {
        MembersOfPermutation(tail, t, i);
        var m :| 0 <= m < |tail| && tail[m] == t[i];
        assert s[m + 1] == t[i];
      }
      InsertApart(s[0], t);
    }
  }

  /** Sorted, non-empty entries that are pairwise apart follow each other without overlap. */
  lemma SortedApartChained(s: seq<Entry>)
    requires SortedEntries(s) && PairwiseApart(s) && AllNonEmpty(s)
    ensures Chained(s, None)
  {
    forall k | 0 < k < |s| ensures s[k - 1].iv.end <= s[k].iv.start {
      assert EntryLe(s[k - 1], s[k]) && Apart(s[k - 1].iv, s[k].iv);
    }
  }

  /** In a chain of non-empty entries every entry ends before each later one starts. */
  lemma {:induction false} ChainedOrdered(s: seq<Entry>, i: int, j: int)
    requires Chained(s, None) && AllNonEmpty(s) && 0 <= i < j < |s|
    ensures s[i].iv.end <= s[j].iv.start
    decreases j - i
  {
    if i + 1 < j {
      ChainedOrdered(s, i, j - 1);
    }
  }

  /** The tagged entries of two separated sets with no common value are pairwise apart. */
  lemma TaggedApart(code: seq<Interval>, data: seq<Interval>)
    requires Separated(code) && Separated(data)
    requires forall v :: !(InSome(code, v) && InSome(data, v))
    ensures PairwiseApart(Tagged(code, Code) + Tagged(data, Data))
    ensures AllNonEmpty(Tagged(code, Code) + Tagged(data, Data))
  {
    var s := Tagged(code, Code) + Tagged(data, Data);
    forall i, j | 0 <= i < j < |s| ensures Apart(s[i].iv, s[j].iv) {
      if j < |code| {
        assert s[i].iv == code[i] && s[j].iv == code[j];
      } else if i >= |code| {
        assert s[i].iv == data[i - |code|] && s[j].iv == data[j - |code|];
      } else {
        var c, d := code[i], data[j - |code|];
        assert s[i].iv == c && s[j].iv == d;
        var m := if c.start < d.start then d.start else c.start;
        if !Apart(c, d) {
          assert InInterval(c, m) && InInterval(d, m);
          assert InSome(code, m) && InSome(data, m);
        }
      }
    }
  }

  /** The tagged entries are all non-empty, and so are the sorted ones. */
  lemma DumpEntriesNonEmpty(code: seq<Interval>, data: seq<Interval>)
    requires Separated(code) && Separated(data)
    ensures AllNonEmpty(Tagged(code, Code) + Tagged(data, Data))
    ensures AllNonEmpty(DumpEntries(code, data))
  {
    var s := Tagged(code, Code) + Tagged(data, Data);
    var sorted := DumpEntries(code, data);
    forall i | 0 <= i < |s| ensures s[i].iv.start < s[i].iv.end {
      if i < |code| { assert s[i].iv == code[i]; } else { assert s[i].iv == data[i - |code|]; }
    }
    forall i | 0 <= i < |sorted| ensures sorted[i].iv.start < sorted[i].iv.end {
      MembersOfPermutation(s, sorted, i);
    }
  }

  /** With no address in both a code and a data interval, the sorted entries form a chain. */
  lemma DisjointDumpChained(code: seq<Interval>, data: seq<Interval>)
    requires Separated(code) && Separated(data)
    requires forall v :: !(InSome(code, v) && InSome(data, v))
    ensures Chained(DumpEntries(code, data), None)
  {
    DumpEntriesNonEmpty(code, data);
    TaggedApart(code, data);
    SortApart(Tagged(code, Code) + Tagged(data, Data));
    SortedApartChained(DumpEntries(code, data));
  }

  /** Two different entries of a chain of non-empty entries are apart. */
  lemma ChainedApart(s: seq<Entry>, x: Entry, y: Entry)
    requires Chained(s, None) && AllNonEmpty(s)
    requires x in s && y in s && x != y
    ensures Apart(x.iv, y.iv)
  {
    var i :| 0 <= i < |s| && s[i] == x;
    var j :| 0 <= j < |s| && s[j] == y;
    if i < j { ChainedOrdered(s, i, j); } else { ChainedOrdered(s, j, i); }
  }

  /** Every tagged entry is among the sorted dump entries. */
  lemma TaggedInDump(code: seq<Interval>, data: seq<Interval>, x: Entry)
    requires x in Tagged(code, Code) + Tagged(data, Data)
    ensures x in DumpEntries(code, data)
  {
    assert x in multiset(Tagged(code, Code) + Tagged(data, Data));
    assert x in multiset(DumpEntries(code, data));
  }

  /** An address in both a code and a data interval breaks the chain of sorted entries. */
  lemma SharedDumpBroken(code: seq<Interval>, data: seq<Interval>, v: int)
    requires Separated(code) && Separated(data)
    requires InSome(code, v) && InSome(data, v)
    ensures !Chained(DumpEntries(code, data), None)
  {
    var s := Tagged(code, Code) + Tagged(data, Data);
    var a :| 0 <= a < |code| && InInterval(code[a], v);
    var b :| 0 <= b < |data| && InInterval(data[b], v);
    var x, y := Entry(code[a], Code), Entry(data[b], Data);
    assert s[a] == x && s[|code| + b] == y;
    TaggedInDump(code, data, x);
    TaggedInDump(code, data, y);
    if Chained(DumpEntries(code, data), None) {
      DumpEntriesNonEmpty(code, data);
      ChainedApart(DumpEntries(code, data), x, y);
    }
  }

  /** No value lies both in an interval of `code` and in an interval of `data`. */
  ghost predicate NoSharedValue(code: seq<Interval>, data: seq<Interval>) {
    forall v :: !(InSome(code, v) && InSome(data, v))
  }

  /**
   * `dump` runs without an overflowing subtraction exactly when no address is in both a code
   * interval and a data interval.
   */
  lemma DumpSucceedsIff(code: seq<Interval>, data: seq<Interval>)
    requires Separated(code) && Separated(data)
    ensures Chained(DumpEntries(code, data), None) <==> NoSharedValue(code, data)
  {
    if NoSharedValue(code, data) {
      DisjointDumpChained(code, data);
    } else {
      var v :| InSome(code, v) && InSome(data, v);
      SharedDumpBroken(code, data, v);
    }
  }

  /** The `0x{:0w$x}` form the dump prints numbers in: lower-case hexadecimal, zero-padded. */
  function Hex(v: nat, width: nat): string {
    "0x" + FormatPadded(v, 16, width)
  }

  function KindName(kind: Kind): string {
    if kind == Code then "code" else "data"
  }

  /** One line of the dump as `writeln!` formats it, without its line end. */
  function Render(line: DumpLine): string {
    match line
    case GapLine(from, to, gap) => Hex(from, 8) + " - " + Hex(to, 8) + " (" + Hex(gap, 4) + ") gap"
    case EntryLine(e) => Hex(e.iv.start, 8) + " - " + Hex(e.iv.end, 8) + " (" + Hex(Len(e.iv), 4) + ") " + KindName(e.kind)
  }

  function RenderAll(lines: seq<DumpLine>): (r: seq<string>)
    ensures |r| == |lines|
    ensures forall k :: 0 <= k < |lines| ==> r[k] == Render(lines[k])
  {
    seq(|lines|, k requires 0 <= k < |lines| => Render(lines[k]))
  }

  lemma HexHasNoLineEnd(v: nat, width: nat)
    ensures '\n' !in Hex(v, width)
  {
  }

  /** A rendered line holds no line feed and does not end in a carriage return. */
  lemma RenderIsOneLine(line: DumpLine)
    ensures '\n' !in Render(line)
    ensures Render(line)[|Render(line)| - 1] != '\r'
  {
    match line
    case GapLine(from, to, gap) =>
      HexHasNoLineEnd(from, 8);
      HexHasNoLineEnd(to, 8);
      HexHasNoLineEnd(gap, 4);
    case EntryLine(e) =>
      HexHasNoLineEnd(e.iv.start, 8);
      HexHasNoLineEnd(e.iv.end, 8);
      HexHasNoLineEnd(Len(e.iv), 4);
  }

  /** Reading the dump text back line by line gives one text line per dump line, in order. */
  lemma DumpTextLines(lines: seq<DumpLine>)
    ensures Lines(Unlines(RenderAll(lines))) == RenderAll(lines)
  {
    forall k | 0 <= k < |lines| {
      RenderIsOneLine(lines[k]);
    }
    LinesUnlines(RenderAll(lines));
  }

  /** Writing one more line with `writeln!` extends the text by that line and a line end. */
  lemma WriteLine(lines: seq<DumpLine>, line: DumpLine)
    ensures Unlines(RenderAll(lines + [line])) == Unlines(RenderAll(lines)) + Render(line) + "\n"
  {
    assert RenderAll(lines + [line]) == RenderAll(lines) + [Render(line)];
    UnlinesSnoc(RenderAll(lines), Render(line));
  }

  /** The lines `dump` writes after `lines` when the rest of the loop produces `rest`. */
  function Prepend(lines: seq<DumpLine>, rest: Result<seq<DumpLine>>): Result<seq<DumpLine>> {
    if rest.Ok? then Ok(lines + rest.value) else rest
  }

  /** `DumpFrom` on a non-empty sequence whose first entry does not start before `prev`. */
  lemma DumpFromUnfold(es: seq<Entry>, prev: Option<u32>)
    requires es != []
    requires prev.Some? ==> prev.value <= es[0].iv.start
    ensures DumpFrom(es, prev) == Prepend(GapLines(prev, es[0]) + [EntryLine(es[0])], DumpFrom(es[1..], Some(es[0].iv.end)))
  {
  }

  /** One step of the loop of `dump`: the first entry's lines, then the lines of the rest. */
  lemma DumpFromStep(es: seq<Entry>, prev: Option<u32>, lines: seq<DumpLine>)
    requires es != []
    requires prev.Some? ==> prev.value <= es[0].iv.start
    ensures Prepend(lines, DumpFrom(es, prev))
      == Prepend(lines + GapLines(prev, es[0]) + [EntryLine(es[0])], DumpFrom(es[1..], Some(es[0].iv.end)))
  {
    DumpFromUnfold(es, prev);
    var rest := DumpFrom(es[1..], Some(es[0].iv.end));
    var head := GapLines(prev, es[0]) + [EntryLine(es[0])];
    assert lines + head == lines + GapLines(prev, es[0]) + [EntryLine(es[0])];
    if rest.Ok? {
      assert lines + (head + rest.value) == lines + head + rest.value;
    }
  }

  /**
   * The loop of `dump` over sorted entries, writing each line with `writeln!`. It produces the
   * text of `DumpFrom`'s lines, or panics where `DumpFrom` does.
   */
  method WriteDump(entries: seq<Entry>) returns (r: Result<string>)
    ensures !r.Err?
    ensures r.Ok? <==> DumpFrom(entries, None).Ok?
    ensures r.Ok? ==> r.value == Unlines(RenderAll(DumpFrom(entries, None).value))
  {
    var result: string := "";
    var prev: Option<u32> := None;
    ghost var lines: seq<DumpLine> := [];
    assert entries[0..] == entries;
    assert Prepend([], DumpFrom(entries, None)) == DumpFrom(entries, None) by {
      if DumpFrom(entries, None).Ok? {
        assert [] + DumpFrom(entries, None).value == DumpFrom(entries, None).value;
      }
    }
    for t := 0 to |entries|
      invariant Prepend(lines, DumpFrom(entries[t..], prev)) == DumpFrom(entries, None)
      invariant result == Unlines(RenderAll(lines))
    {
      var entry := entries[t];
      assert entries[t..][0] == entry && entries[t..][1..] == entries[t + 1..];
      if prev.Some? && entry.iv.start < prev.value {
        return Panic("attempt to subtract with overflow");
      }
      DumpFromStep(entries[t..], prev, lines);
      ghost var gapLines := GapLines(prev, entry);
      assert lines == lines + [];
      if prev.Some? {
        var gap := entry.iv.start - prev.value;
        if gap > 0 {
          var line := GapLine(prev.value, entry.iv.start, gap);
          WriteLine(lines, line);
          result := result + Render(line) + "\n";
          lines := lines + [line];
        }
      }
      var line := EntryLine(entry);
      WriteLine(lines, line);
      result := result + Render(line) + "\n";
      lines := lines + [line];
      prev := Some(entry.iv.end);
    }
    assert entries[|entries|..] == [];
    assert lines + [] == lines;
    return Ok(result);
  }

  /** Cutting to one range and then to another cuts to their intersection. */
  lemma CutToTwice(a: seq<Point>, b: seq<Point>, c: seq<Point>, lo1: int, hi1: int, lo2: int, hi2: int)
    requires CutTo(b, a, lo1, hi1) && CutTo(c, b, lo2, hi2)
    ensures CutTo(c, a, if lo1 < lo2 then lo2 else lo1, if hi1 < hi2 then hi1 else hi2)
  {
  }

  /** A set whose values are exactly those of the intervals `ivs`. */
  ghost predicate Holds(s: IntervalSet, ivs: seq<Interval>)
    reads s
  {
    forall v :: s.Covers(v) <==> InSome(ivs, v)
  }

  /** Pushing an interval into a set that holds `ivs` makes it hold `ivs + [iv]`. */
  method PushHolds(s: IntervalSet, ivs: seq<Interval>, iv: Interval)
    requires s.Valid() && Holds(s, ivs)
    modifies s
    ensures s.Valid() && Holds(s, ivs + [iv])
  {
    s.Push(iv);
    forall v ensures s.Covers(v) <==> InSome(ivs + [iv], v) {
      InSomeConcat(ivs, [iv], v);
      assert InSome([iv], v) <==> InInterval(iv, v) by {
        if InSome([iv], v) {
          var k :| 0 <= k < 1 && InInterval([iv][k], v);
        } else {
          assert !InInterval([iv][0], v);
        }
      }
    }
  }

  /** Two sets share no address exactly when their intervals share none. */
  lemma DisjointIntervals(a: IntervalSet, b: IntervalSet)
    requires a.Valid() && b.Valid()
    ensures (forall v :: !(a.Covers(v) && b.Covers(v))) <==> NoSharedValue(a.Iter(), b.Iter())
  {
    if !NoSharedValue(a.Iter(), b.Iter()) {
      var v :| InSome(a.Iter(), v) && InSome(b.Iter(), v);
      assert a.Covers(v) && b.Covers(v);
    }
  }

  /** The two interval sets of a sample: instruction bytes and data bytes. */
  class AddressClasses {
    var trueInstructions: IntervalSet
    var trueData: IntervalSet

    ghost predicate Valid()
      reads this, trueInstructions, trueData
    {
      trueInstructions != trueData && trueInstructions.Valid() && trueData.Valid()
    }

    /** `AddressClasses::new`: both sets empty. */
    constructor ()
      ensures Valid() && fresh(trueInstructions) && fresh(trueData)
      ensures trueInstructions.points == [] && trueData.points == []
    {
      trueInstructions := new IntervalSet();
      trueData := new IntervalSet();
    }

    /**
     * `relocate`: both sets are shifted by the same offset. The u32 addition of `shift`
     * must not overflow for the largest key of either set.
     */
    method Relocate(offset: u32)
      requires Valid()
      requires ShiftFits(trueInstructions.points, offset) && ShiftFits(trueData.points, offset)
      modifies trueInstructions, trueData
      ensures Valid()
      ensures forall v :: trueInstructions.Covers(v) <==> old(trueInstructions.Covers(v - offset))
      ensures forall v :: trueData.Covers(v) <==> old(trueData.Covers(v - offset))
    {
      trueInstructions.Shift(offset);
      trueData.Shift(offset);
    }

    /**
     * `filter_to`: both sets are replaced by the non-empty intersections of their intervals
     * with `range`; intervals disjoint from the range are dropped.
     */
    method FilterTo(range: Interval)
      requires Valid()
      modifies this
      ensures Valid() && fresh(trueInstructions) && fresh(trueData)
      ensures trueInstructions.Iter() == Clip(old(trueInstructions.Iter()), range)
      ensures trueData.Iter() == Clip(old(trueData.Iter()), range)
      ensures CutTo(trueInstructions.points, old(trueInstructions.points), range.start, range.end)
      ensures CutTo(trueData.points, old(trueData.points), range.start, range.end)
    {
      var instructions := Filtered(trueInstructions, range);
      var data := Filtered(trueData, range);
      trueInstructions := instructions;
      trueData := data;
    }

    /**
     * `coverage`: the summed lengths of all intervals of both sets, which counts the
     * addresses of each set (an address in both counts twice). The u32 sum panics when the
     * total does not fit.
     */
    function Coverage(): (r: Result<u32>)
      reads this, trueInstructions, trueData
      requires Valid()
      ensures !r.Err?
      ensures r.Ok? <==> |Members(trueInstructions.Iter())| + |Members(trueData.Iter())| < U32_LIMIT
      ensures r.Ok? ==> r.value == |Members(trueInstructions.Iter())| + |Members(trueData.Iter())|
    {
      TotalLengthCountsMembers(trueInstructions.Iter());
      TotalLengthCountsMembers(trueData.Iter());
      var code := SumLengths(trueInstructions.Iter(), 0);
      if code.Ok? then SumLengths(trueData.Iter(), code.value) else code
    }

    /** No address is both an instruction byte and a data byte. */
    ghost predicate ClassesDisjoint()
      reads this, trueInstructions, trueData
    {
      forall v :: !(trueInstructions.Covers(v) && trueData.Covers(v))
    }

    /**
     * `dump`: every code and data interval in sorted order, one line each, with a gap line
     * before an interval that starts after the previous one ended. The `start - prev`
     * subtraction panics exactly when some address is both code and data.
     */
    method Dump() returns (r: Result<string>)
      requires Valid()
      ensures !r.Err?
      ensures r.Ok? <==> ClassesDisjoint()
      ensures r.Ok? ==> (DumpFrom(DumpEntries(trueInstructions.Iter(), trueData.Iter()), None).Ok?
        && r.value == Unlines(RenderAll(DumpFrom(DumpEntries(trueInstructions.Iter(), trueData.Iter()), None).value)))
    {
      var code := trueInstructions.Iter();
      var data := trueData.Iter();
      DumpSucceedsIff(code, data);
      DisjointIntervals(trueInstructions, trueData);
      r := WriteDump(DumpEntries(code, data));
    }
  }
}
