/**
 * The ByteWeight experiment data: per PE executable, a function file of `start end` hex lines
 * and a thunk file of hex addresses, read into the instruction set of the sample's classes;
 * and the walk over the `pe-x86` then `elf-x86` executables that hands each sample on.
 */
module ByteWeight {
  import opened Wrappers
  import opened Words
  import opened Text
  import opened IntervalSets
  import opened Classes

  /** `collect::<Result<Vec<_>>>()` over a map of the lines: every value, or the first error. */
  function Collect<T>(lines: seq<string>, parse: string -> Result<T>): (r: Result<seq<T>>)
    ensures r.Ok? <==> forall k :: 0 <= k < |lines| ==> parse(lines[k]).Ok?
    ensures r.Ok? ==> |r.value| == |lines| && forall k :: 0 <= k < |lines| ==> parse(lines[k]) == Ok(r.value[k])
    ensures !r.Ok? ==> exists k :: FirstFailure(lines, parse, k) && SameFailure(r, parse(lines[k]))
  {
    if lines == [] then
      Ok([])
    else
      var head := parse(lines[0]);
      var tail := Collect(lines[1..], parse);
      assert forall k :: 0 < k < |lines| ==> lines[1..][k - 1] == lines[k];
      if !head.Ok? then
        assert FirstFailure(lines, parse, 0);
        match head
        case Err(reason) => Err(reason)
        case Panic(reason) => Panic(reason)
      else if !tail.Ok? then
        var k :| FirstFailure(lines[1..], parse, k) && SameFailure(tail, parse(lines[1..][k]));
        assert FirstFailure(lines, parse, k + 1);
        tail
      else
        Ok([head.value] + tail.value)
  }

  /** Lines that each parse to the matching value collect to those values. */
  lemma CollectOk<T>(lines: seq<string>, parse: string -> Result<T>, values: seq<T>)
    requires |values| == |lines| && forall k :: 0 <= k < |lines| ==> parse(lines[k]) == Ok(values[k])
    ensures Collect(lines, parse) == Ok(values)
  {
    var r := Collect(lines, parse);
    assert r.Ok?;
    assert forall k :: 0 <= k < |lines| ==> r.value[k] == values[k];
    assert r.value == values;
  }

  /** Line `k` is the first whose parse fails. */
  predicate FirstFailure<T>(lines: seq<string>, parse: string -> Result<T>, k: int) {
    0 <= k < |lines| && !parse(lines[k]).Ok? && forall j :: 0 <= j < k ==> parse(lines[j]).Ok?
  }

  /** Two failed outcomes of different value types that carry the same kind and reason. */
  predicate SameFailure<T, U>(a: Result<T>, b: Result<U>) {
    (a.Err? && b.Err? && a.reason == b.reason) || (a.Panic? && b.Panic? && a.reason == b.reason)
  }

  /** A function line: exactly two space-separated parts, each a base-16 u32. */
  function ParseFunctionLine(line: string): (r: Result<(u32, u32)>)
    ensures !r.Panic?
    ensures r.Ok? <==> var parts := Split(line, ' ');
      |parts| == 2 && ParseU32(parts[0], 16).Some? && ParseU32(parts[1], 16).Some?
    ensures r.Ok? ==> (|Split(line, ' ')| == 2 && Some(r.value.0) == ParseU32(Split(line, ' ')[0], 16)
                       && Some(r.value.1) == ParseU32(Split(line, ' ')[1], 16))
    ensures |Split(line, ' ')| != 2 ==> r == Err("invalid line: " + line)
  {
    var parts := Split(line, ' ');
    if |parts| != 2 then
      Err("invalid line: " + line)
    else
      var start := ParseU32(parts[0], 16);
      var end := ParseU32(parts[1], 16);
      if start.None? || end.None? then Err("invalid digit found in string")
      else Ok((start.value, end.value))
  }

  /** A thunk line: one base-16 u32. */
  function ParseThunkLine(line: string): (r: Result<u32>)
    ensures r.Ok? <==> ParseU32(line, 16).Some?
    ensures r.Ok? ==> Some(r.value) == ParseU32(line, 16)
    ensures !r.Panic?
  {
    match ParseU32(line, 16)
    case Some(v) => Ok(v)
    case None => Err("Parsing thunk")
  }

  /** The function ranges of a function file. */
  function ParseFunctions(text: string): Result<seq<(u32, u32)>> {
    Collect(Lines(text), ParseFunctionLine)
  }

  /** The thunk addresses of a thunk file. */
  function ParseThunks(text: string): Result<seq<u32>> {
    Collect(Lines(text), ParseThunkLine)
  }

  /** A function line as the experiment data writes it. */
  function FunctionLine(range: (u32, u32)): string {
    Format(range.0, 16) + " " + Format(range.1, 16)
  }

  /** One function line parses back to its range. */
  lemma FunctionLineRoundTrip(range: (u32, u32))
    ensures ParseFunctionLine(FunctionLine(range)) == Ok(range)
    ensures '\n' !in FunctionLine(range) && FunctionLine(range)[|FunctionLine(range)| - 1] != '\r'
  {
    var a, b := Format(range.0, 16), Format(range.1, 16);
    DigitsArePlain(a, 16);
    DigitsArePlain(b, 16);
    assert ' ' !in a by {
      forall i | 0 <= i < |a| ensures a[i] != ' ' { assert IsDigit(a[i], 16); }
    }
    assert ' ' !in b by {
      forall i | 0 <= i < |b| ensures b[i] != ' ' { assert IsDigit(b[i], 16); }
    }
    assert Join([a, b], ' ') == FunctionLine(range);
    SplitJoin([a, b], ' ');
    ParseFormat(range.0, 16);
    ParseFormat(range.1, 16);
    assert FunctionLine(range)[|FunctionLine(range)| - 1] == b[|b| - 1];
  }

  /** The lines of a function file. */
  function FunctionLines(ranges: seq<(u32, u32)>): (r: seq<string>)
    ensures |r| == |ranges| && forall k :: 0 <= k < |ranges| ==> r[k] == FunctionLine(ranges[k])
  {
    seq(|ranges|, k requires 0 <= k < |ranges| => FunctionLine(ranges[k]))
  }

  /** A function file written one `start end` line per range parses back to the ranges. */
  lemma FunctionsRoundTrip(ranges: seq<(u32, u32)>)
    ensures ParseFunctions(Unlines(FunctionLines(ranges))) == Ok(ranges)
  {
    var lines := FunctionLines(ranges);
    forall k | 0 <= k < |lines|
      ensures '\n' !in lines[k] && (lines[k] == [] || lines[k][|lines[k]| - 1] != '\r')
      ensures ParseFunctionLine(lines[k]) == Ok(ranges[k])
    {
      FunctionLineRoundTrip(ranges[k]);
    }
    LinesUnlines(lines);
    CollectOk(lines, ParseFunctionLine, ranges);
  }

  /** A thunk file written one hex address per line parses back to the addresses. */
  lemma ThunksRoundTrip(thunks: seq<u32>)
    ensures ParseThunks(Unlines(seq(|thunks|, k requires 0 <= k < |thunks| => Format(thunks[k], 16)))) == Ok(thunks)
  {
    var lines := seq(|thunks|, k requires 0 <= k < |thunks| => Format(thunks[k], 16));
    forall k | 0 <= k < |lines|
      ensures '\n' !in lines[k] && (lines[k] == [] || lines[k][|lines[k]| - 1] != '\r')
      ensures ParseThunkLine(lines[k]) == Ok(thunks[k])
    {
      DigitsArePlain(lines[k], 16);
      ParseFormat(thunks[k], 16);
    }
    LinesUnlines(lines);
    CollectOk(lines, ParseThunkLine, thunks);
  }

  /** Every function range is well ordered. */
  predicate RangesOrdered(functions: seq<(u32, u32)>) {
    forall k :: 0 <= k < |functions| ==> functions[k].0 <= functions[k].1
  }

  /** The intervals [start, end) of the function ranges. */
  function FunctionIntervals(functions: seq<(u32, u32)>): (r: seq<Interval>)
    requires RangesOrdered(functions)
    ensures |r| == |functions|
    ensures forall k :: 0 <= k < |functions| ==> r[k] == FromStartAndEnd(functions[k].0, functions[k].1)
  {
    seq(|functions|, k requires 0 <= k < |functions| && RangesOrdered(functions) =>
      FromStartAndEnd(functions[k].0, functions[k].1))
  }

  /** Every thunk's decoded instruction ends within the u32 range. */
  predicate ThunksFit(thunks: seq<u32>, thunkLen: u32 -> u32) {
    forall k :: 0 <= k < |thunks| ==> thunks[k] + thunkLen(thunks[k]) < U32_LIMIT
  }

  /** The one-instruction intervals of the thunks. */
  function ThunkIntervals(thunks: seq<u32>, thunkLen: u32 -> u32): (r: seq<Interval>)
    requires ThunksFit(thunks, thunkLen)
    ensures |r| == |thunks|
    ensures forall k :: 0 <= k < |thunks| ==> r[k] == FromStartAndLen(thunks[k], thunkLen(thunks[k]))
  {
    seq(|thunks|, k requires 0 <= k < |thunks| && ThunksFit(thunks, thunkLen) =>
      FromStartAndLen(thunks[k], thunkLen(thunks[k])))
  }

  /**
   * The class-building part of `read_pe_x86`: every function range is pushed as
   * [start, end) into the instruction set (start > end fails the interval's assertion), then
   * every thunk as the one instruction decoded there; `thunkLen` stands for that decoding.
   * The data set stays empty.
   */
  method PeClasses(functions: seq<(u32, u32)>, thunks: seq<u32>, thunkLen: u32 -> u32)
    returns (r: Result<AddressClasses>)
    ensures !r.Err?
    ensures r.Ok? <==> RangesOrdered(functions) && ThunksFit(thunks, thunkLen)
    ensures r.Ok? ==> (fresh(r.value) && r.value.Valid() && r.value.trueData.points == []
                       && Holds(r.value.trueInstructions, FunctionIntervals(functions) + ThunkIntervals(thunks, thunkLen)))
  {
    var classes := new AddressClasses();
    assert Holds(classes.trueInstructions, []);
    var ok := PushFunctions(classes.trueInstructions, functions);
    if !ok {
      return Panic("assertion failed: start <= end");
    }
    ok := PushThunks(classes.trueInstructions, FunctionIntervals(functions), thunks, thunkLen);
    if !ok {
      return Panic("attempt to add with overflow");
    }
    return Ok(classes);
  }

  /** The function loop: each range pushed in order, stopping where start > end. */
  method PushFunctions(s: IntervalSet, functions: seq<(u32, u32)>) returns (ok: bool)
    requires s.Valid() && Holds(s, [])
    modifies s
    ensures s.Valid()
    ensures ok <==> RangesOrdered(functions)
    ensures ok ==> Holds(s, FunctionIntervals(functions))
  {
    for i := 0 to |functions|
      invariant s.Valid()
      invariant RangesOrdered(functions[..i])
      invariant Holds(s, FunctionIntervals(functions[..i]))
    {
      var (start, end) := functions[i];
      if start > end {
        return false;
      }
      assert FunctionIntervals(functions[..i + 1]) == FunctionIntervals(functions[..i]) + [FromStartAndEnd(start, end)];
      PushHolds(s, FunctionIntervals(functions[..i]), FromStartAndEnd(start, end));
    }
    assert functions[..|functions|] == functions;
    return true;
  }

  /** The thunk loop: each thunk's instruction pushed in order, stopping at an overflow. */
  method PushThunks(s: IntervalSet, done: seq<Interval>, thunks: seq<u32>, thunkLen: u32 -> u32) returns (ok: bool)
    requires s.Valid() && Holds(s, done)
    modifies s
    ensures s.Valid()
    ensures ok <==> ThunksFit(thunks, thunkLen)
    ensures ok ==> Holds(s, done + ThunkIntervals(thunks, thunkLen))
  {
    assert done + ThunkIntervals(thunks[..0], thunkLen) == done;
    for i := 0 to |thunks|
      invariant s.Valid()
      invariant ThunksFit(thunks[..i], thunkLen)
      invariant Holds(s, done + ThunkIntervals(thunks[..i], thunkLen))
    {
      var thunk := thunks[i];
      var len := thunkLen(thunk);
      if thunk + len >= U32_LIMIT {
        return false;
      }
      var iv := FromStartAndLen(thunk, len);
      assert ThunkIntervals(thunks[..i + 1], thunkLen) == ThunkIntervals(thunks[..i], thunkLen) + [iv];
      assert done + ThunkIntervals(thunks[..i + 1], thunkLen) == (done + ThunkIntervals(thunks[..i], thunkLen)) + [iv];
      PushHolds(s, done + ThunkIntervals(thunks[..i], thunkLen), iv);
    }
    assert thunks[..|thunks|] == thunks;
    return true;
  }

  /**
   * `read_pe_x86` after the executable is loaded: the function file is parsed (its first bad
   * line is the error), then the thunk file, then the classes are built.
   */
  method ReadPeX86(functionsText: string, thunksText: string, thunkLen: u32 -> u32)
    returns (r: Result<AddressClasses>)
    ensures r.Err? <==> ParseFunctions(functionsText).Err? || ParseThunks(thunksText).Err?
    ensures r.Ok? <==> (ParseFunctions(functionsText).Ok? && ParseThunks(thunksText).Ok?
                        && RangesOrdered(ParseFunctions(functionsText).value)
                        && ThunksFit(ParseThunks(thunksText).value, thunkLen))
    ensures r.Ok? ==> (fresh(r.value) && r.value.Valid() && r.value.trueData.points == []
                       && Holds(r.value.trueInstructions,
                                FunctionIntervals(ParseFunctions(functionsText).value)
                                + ThunkIntervals(ParseThunks(thunksText).value, thunkLen)))
  {
    var functions := ParseFunctions(functionsText);
    if !functions.Ok? {
      return Err("Parsing functions");
    }
    var thunks := ParseThunks(thunksText);
    if !thunks.Ok? {
      return Err(thunks.reason);
    }
    r := PeClasses(functions.value, thunks.value, thunkLen);
  }

  /** The two platforms of the experiment data. */
  datatype Platform = PeX86 | ElfX86

  /** The platform's directory name, as `Display` prints it. */
  function PlatformName(p: Platform): (r: string)
    ensures '/' !in r && |r| >= 6
  {
    match p
    case PeX86 => "pe-x86"
    case ElfX86 => "elf-x86"
  }

  /** The name of a yielded sample: `platform/executable`. */
  function SamplePath(p: Platform, name: string): string {
    PlatformName(p) + "/" + name
  }

  /** Different (platform, executable) pairs yield different sample names. */
  lemma SamplePathInjective(p: Platform, name: string, q: Platform, other: string)
    requires SamplePath(p, name) == SamplePath(q, other)
    ensures p == q && name == other
  {
    var s := SamplePath(p, name);
    assert s[6] == (if p == PeX86 then '/' else '6');
    assert SamplePath(q, other)[6] == (if q == PeX86 then '/' else '6');
    assert name == s[|PlatformName(p)| + 1..];
    assert other == s[|PlatformName(q)| + 1..];
  }

  /** An executable the walk leaves out: the `icc_` builds. */
  predicate Skipped(name: string) {
    StartsWith(name, "icc_")
  }

  /** The executables of one platform the walk visits, in directory order. */
  function Eligible(p: Platform, names: seq<string>): (r: seq<(Platform, string)>)
    ensures forall c :: c in r <==> c.0 == p && c.1 in names && !Skipped(c.1)
  {
    if names == [] then []
    else
      var init := Eligible(p, names[..|names| - 1]);
      var last := names[|names| - 1];
      assert names == names[..|names| - 1] + [last];
      if Skipped(last) then init else init + [(p, last)]
  }

  /** Everything the walk visits when nothing fails: `pe-x86` first, then `elf-x86`. */
  function Candidates(peNames: seq<string>, elfNames: seq<string>): seq<(Platform, string)> {
    Eligible(PeX86, peNames) + Eligible(ElfX86, elfNames)
  }

  /**
   * The visits of a walk that stops at the first failure: `visited` is a prefix of the
   * candidates, every visit but a failed last one succeeded, and the walk completed exactly
   * when every candidate succeeded.
   */
  predicate WalkOutcome(candidates: seq<(Platform, string)>, succeeds: (Platform, string) -> bool,
                        visited: seq<(Platform, string)>, completed: bool) {
    |visited| <= |candidates| && visited == candidates[..|visited|]
    && (forall k :: 0 <= k < |visited| - 1 ==> succeeds(visited[k].0, visited[k].1))
    && (completed <==> visited == candidates && forall k :: 0 <= k < |visited| ==> succeeds(visited[k].0, visited[k].1))
    && (!completed ==> visited != [] && !succeeds(visited[|visited| - 1].0, visited[|visited| - 1].1))
  }

  /** The walk over one platform's executables. */
  method WalkPlatform(p: Platform, names: seq<string>, succeeds: (Platform, string) -> bool)
    returns (visited: seq<(Platform, string)>, completed: bool)
    ensures WalkOutcome(Eligible(p, names), succeeds, visited, completed)
  {
    visited := [];
    assert names[..0] == [];
    for i := 0 to |names|
      invariant visited == Eligible(p, names[..i])
      invariant forall k :: 0 <= k < |visited| ==> succeeds(visited[k].0, visited[k].1)
    {
      assert names[..i + 1][..i] == names[..i];
      var name := names[i];
      if StartsWith(name, "icc_") {
        continue;
      }
      visited := visited + [(p, name)];
      if !succeeds(p, name) {
        EligiblePrefix(p, names, i + 1);
        return visited, false;
      }
    }
    assert names[..|names|] == names;
    return visited, true;
  }

  /** The eligible executables of a prefix of the names are a prefix of all of them. */
  lemma {:induction false} EligiblePrefix(p: Platform, names: seq<string>, i: nat)
    requires i <= |names|
    ensures var e := Eligible(p, names[..i]);
      |e| <= |Eligible(p, names)| && e == Eligible(p, names)[..|e|]
  {
    if i < |names| {
      var init := names[..|names| - 1];
      EligiblePrefix(p, init, i);
      assert init[..i] == names[..i];
    } else {
      assert names[..i] == names;
    }
  }

  /**
   * `dump_byteweight` (and the stream of `fetch_byteweight`): the `pe-x86` executables, then
   * the `elf-x86` ones, each but the `icc_` builds read and handed on; the first read or
   * callback failure aborts the walk. `succeeds` stands for reading a sample and the callback.
   */
  method Walk(peNames: seq<string>, elfNames: seq<string>, succeeds: (Platform, string) -> bool)
    returns (visited: seq<(Platform, string)>, completed: bool)
    ensures WalkOutcome(Candidates(peNames, elfNames), succeeds, visited, completed)
  {
    var pe, peDone := WalkPlatform(PeX86, peNames, succeeds);
    if !peDone {
      return pe, false;
    }
    var elf, elfDone := WalkPlatform(ElfX86, elfNames, succeeds);
    visited, completed := pe + elf, elfDone;
    var all := Candidates(peNames, elfNames);
    assert all[..|visited|] == pe + all[|pe|..][..|elf|];
  }
}
