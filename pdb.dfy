/**
 * Ground truth from a PDB file: procedure and trampoline symbols give instruction ranges, data
 * symbols give data locations, and each data location is taken to run up to the next
 * instruction start. The PDB reader itself is abstracted: its symbol stream, with each symbol's
 * section offset already mapped to an RVA, is the input.
 */
module Pdb {
  import opened Wrappers
  import opened Words
  import opened IntervalSets
  import opened Classes
  import opened OrderedSets

  /**
   * What `extract_symbol` sees of one parsed symbol. `rva`/`thunk` is `None` when the address
   * map has no RVA for the symbol's offset; `Unparsable` is a symbol whose parse fails.
   */
  datatype PdbSymbol =
    | DataSymbol(rva: Option<u32>)
    | Procedure(rva: Option<u32>, len: u32)
    | Trampoline(thunk: Option<u32>, size: u16)
    | OtherSymbol
    | Unparsable

  /** `p` is the (address, length) instruction range that `symbol` describes. */
  predicate DescribesRange(symbol: PdbSymbol, p: (u32, u32)) {
    (symbol.Procedure? && symbol.rva == Some(p.0) && p.1 == symbol.len)
    || (symbol.Trampoline? && symbol.thunk == Some(p.0) && p.1 == symbol.size)
  }

  /** `symbol` is a data symbol at `x`. */
  predicate LocatedAt(symbol: PdbSymbol, x: u32) {
    symbol.DataSymbol? && symbol.rva == Some(x)
  }

  /** The instruction range one symbol adds, if any. */
  function RangeOf(symbol: PdbSymbol): seq<(u32, u32)> {
    match symbol
    case Procedure(Some(addr), len) => [(addr, len)]
    case Trampoline(Some(addr), size) => [(addr, size)]
    case _ => []
  }

  /** The data locations after one symbol: a located data symbol joins the set. */
  function AddLocation(locations: seq<u32>, symbol: PdbSymbol): seq<u32>
    requires Increasing(locations)
  {
    match symbol
    case DataSymbol(Some(addr)) => Insert(locations, addr)
    case _ => locations
  }

  /** The instruction ranges of a symbol stream, in stream order. */
  function RangesOf(symbols: seq<PdbSymbol>): seq<(u32, u32)> {
    if symbols == [] then []
    else RangesOf(symbols[..|symbols| - 1]) + RangeOf(symbols[|symbols| - 1])
  }

  /** The data locations after a symbol stream, starting from `locations`. */
  function AddLocations(locations: seq<u32>, symbols: seq<PdbSymbol>): (r: seq<u32>)
    requires Increasing(locations)
    ensures Increasing(r)
  {
    if symbols == [] then locations
    else AddLocation(AddLocations(locations, symbols[..|symbols| - 1]), symbols[|symbols| - 1])
  }

  /** Exactly the procedure and trampoline symbols with an RVA contribute instruction ranges. */
  lemma {:induction false} RangesOfMembers(symbols: seq<PdbSymbol>, p: (u32, u32))
    ensures p in RangesOf(symbols) <==> exists k :: 0 <= k < |symbols| && DescribesRange(symbols[k], p)
  {
    if symbols != [] {
      var init := symbols[..|symbols| - 1];
      var last := symbols[|symbols| - 1];
      RangesOfMembers(init, p);
      assert p in RangeOf(last) <==> DescribesRange(last, p);
      if exists k :: 0 <= k < |init| && DescribesRange(init[k], p) {
        var k :| 0 <= k < |init| && DescribesRange(init[k], p);
        assert symbols[k] == init[k];
      }
      if exists k :: 0 <= k < |symbols| && DescribesRange(symbols[k], p) {
        var k :| 0 <= k < |symbols| && DescribesRange(symbols[k], p);
        if k < |init| {
          assert init[k] == symbols[k];
        }
      }
    }
  }

  lemma AddLocationMembers(locations: seq<u32>, symbol: PdbSymbol, x: u32)
    requires Increasing(locations)
    ensures x in AddLocation(locations, symbol) <==> x in locations || LocatedAt(symbol, x)
  {
  }

  /** Exactly the located data symbols add data locations, each once. */
  lemma {:induction false} LocationsMembers(locations: seq<u32>, symbols: seq<PdbSymbol>, x: u32)
    requires Increasing(locations)
    ensures x in AddLocations(locations, symbols)
      <==> x in locations || exists k :: 0 <= k < |symbols| && LocatedAt(symbols[k], x)
  {
    if symbols != [] {
      var init := symbols[..|symbols| - 1];
      var last := symbols[|symbols| - 1];
      LocationsMembers(locations, init, x);
      AddLocationMembers(AddLocations(locations, init), last, x);
      if exists k :: 0 <= k < |init| && LocatedAt(init[k], x) {
        var k :| 0 <= k < |init| && LocatedAt(init[k], x);
        assert symbols[k] == init[k];
      }
      if exists k :: 0 <= k < |symbols| && LocatedAt(symbols[k], x) {
        var k :| 0 <= k < |symbols| && LocatedAt(symbols[k], x);
        if k < |init| {
          assert init[k] == symbols[k];
        }
      }
    }
  }

  /** `Ranges`: what the symbol walk collects. */
  class Ranges {
    var instructionRanges: seq<(u32, u32)>
    /** The `BTreeSet<u32>` of data locations, ascending. */
    var dataLocations: seq<u32>

    ghost predicate Valid()
      reads this
    {
      Increasing(dataLocations)
    }

    constructor ()
      ensures Valid() && instructionRanges == [] && dataLocations == []
    {
      instructionRanges := [];
      dataLocations := [];
    }

    /**
     * `extract_symbol`: a located data symbol adds its RVA to the data locations, a located
     * procedure or trampoline appends its range; a symbol that does not parse is an error and
     * changes nothing; every other symbol is ignored.
     */
    method ExtractSymbol(symbol: PdbSymbol) returns (r: Result<()>)
      requires Valid()
      modifies this
      ensures Valid()
      ensures !r.Panic?
      ensures r.Err? <==> symbol.Unparsable?
      ensures instructionRanges == old(instructionRanges) + RangeOf(symbol)
      ensures dataLocations == AddLocation(old(dataLocations), symbol)
    {
      match symbol {
        case Unparsable =>
          return Err("symbol parse error");
        case DataSymbol(rva) =>
          if rva.Some? {
            dataLocations := Insert(dataLocations, rva.value);
          }
        case Procedure(rva, len) =>
          if rva.Some? {
            instructionRanges := instructionRanges + [(rva.value, len)];
          }
        case Trampoline(thunk, size) =>
          if thunk.Some? {
            instructionRanges := instructionRanges + [(thunk.value, size as u32)];
          }
        case OtherSymbol =>
      }
      assert instructionRanges == old(instructionRanges) + RangeOf(symbol);
      return Ok(());
    }

    /**
     * `walk_symbols`: extracts every symbol of the stream in order; a symbol's error is
     * ignored and the walk goes on.
     */
    method WalkSymbols(symbols: seq<PdbSymbol>)
      requires Valid()
      modifies this
      ensures Valid()
      ensures instructionRanges == old(instructionRanges) + RangesOf(symbols)
      ensures dataLocations == AddLocations(old(dataLocations), symbols)
    {
      for t := 0 to |symbols|
        invariant Valid()
        invariant instructionRanges == old(instructionRanges) + RangesOf(symbols[..t])
        invariant dataLocations == AddLocations(old(dataLocations), symbols[..t])
      {
        assert symbols[..t + 1][..t] == symbols[..t];
        ghost var before := instructionRanges;
        var ignored := ExtractSymbol(symbols[t]);
        assert before + RangeOf(symbols[t]) == old(instructionRanges) + (RangesOf(symbols[..t]) + RangeOf(symbols[t]));
      }
      assert symbols[..|symbols|] == symbols;
    }
  }

  /** The instruction starts of some ranges, as the ascending set `instruction_starts`. */
  function StartsOf(ranges: seq<(u32, u32)>): (r: seq<u32>)
    ensures Increasing(r)
  {
    if ranges == [] then []
    else Insert(StartsOf(ranges[..|ranges| - 1]), ranges[|ranges| - 1].0)
  }

  /** Some range of `ranges` starts at `x`. */
  predicate StartsSome(ranges: seq<(u32, u32)>, x: u32) {
    exists k :: 0 <= k < |ranges| && ranges[k].0 == x
  }

  lemma StartsStep(ranges: seq<(u32, u32)>, x: u32)
    requires ranges != []
    ensures x in StartsOf(ranges) <==> x in StartsOf(ranges[..|ranges| - 1]) || x == ranges[|ranges| - 1].0
  {
  }

  /** The starts are exactly the first components of the ranges. */
  lemma {:induction false} StartsMembers(ranges: seq<(u32, u32)>, x: u32)
    ensures x in StartsOf(ranges) <==> StartsSome(ranges, x)
  {
    if ranges != [] {
      var init := ranges[..|ranges| - 1];
      var last := ranges[|ranges| - 1];
      StartsMembers(init, x);
      StartsStep(ranges, x);
      StartsSomeStep(ranges, x);
    }
  }

  /** Some range starts at `x` when one before the last does, or the last does. */
  lemma StartsSomeStep(ranges: seq<(u32, u32)>, x: u32)
    requires ranges != []
    ensures StartsSome(ranges, x) <==> StartsSome(ranges[..|ranges| - 1], x) || ranges[|ranges| - 1].0 == x
  {
    var init := ranges[..|ranges| - 1];
    assert forall k :: 0 <= k < |init| ==> init[k] == ranges[k];
    if StartsSome(ranges, x) && ranges[|ranges| - 1].0 != x {
      var k :| 0 <= k < |ranges| && ranges[k].0 == x;
      assert init[k].0 == x;
    }
  }

  /** The first of the ascending `starts` at or above `addr`, where the peeked iterator stops. */
  function NextStart(starts: seq<u32>, addr: u32): (r: Option<u32>)
    ensures r.Some? ==> r.value in starts && addr <= r.value
  {
    if starts == [] then None
    else if starts[0] >= addr then Some(starts[0])
    else NextStart(starts[1..], addr)
  }

  /** `NextStart` finds the smallest start at or above `addr`, and none exactly when there is none. */
  lemma {:induction false} NextStartLeast(starts: seq<u32>, addr: u32)
    requires Increasing(starts)
    ensures NextStart(starts, addr).None? <==> forall s :: s in starts ==> s < addr
    ensures NextStart(starts, addr).Some? ==> forall s :: s in starts && addr <= s ==> NextStart(starts, addr).value <= s
  {
    if starts != [] && starts[0] < addr {
      NextStartLeast(starts[1..], addr);
      assert starts == [starts[0]] + starts[1..];
    }
  }

  /** Where the sweep's index stops, `NextStart` is the element there. */
  lemma {:induction false} NextStartAt(starts: seq<u32>, addr: u32, i: nat)
    requires Increasing(starts) && i <= |starts|
    requires forall k :: 0 <= k < i ==> starts[k] < addr
    requires i == |starts| || addr <= starts[i]
    ensures NextStart(starts, addr) == if i < |starts| then Some(starts[i]) else None
  {
    if i > 0 {
      NextStartAt(starts[1..], addr, i - 1);
    }
  }

  /** The data interval of one location: up to the next instruction start, none if there is none. */
  function DataInterval(location: u32, starts: seq<u32>): seq<Interval> {
    match NextStart(starts, location)
    case None => []
    case Some(next) => [FromStartAndLen(location, next - location)]
  }

  /** The data intervals of the sweep, one per location that has an instruction start above it. */
  function Sweep(locations: seq<u32>, starts: seq<u32>): seq<Interval> {
    if locations == [] then []
    else Sweep(locations[..|locations| - 1], starts) + DataInterval(locations[|locations| - 1], starts)
  }

  /** `v` lies between a data location and the next instruction start. */
  predicate DataSpans(location: u32, starts: seq<u32>, v: int) {
    NextStart(starts, location).Some? && location <= v < NextStart(starts, location).value
  }

  /** Some data location of `locations` spans `v`. */
  predicate SomeSpans(locations: seq<u32>, starts: seq<u32>, v: int) {
    exists k :: 0 <= k < |locations| && DataSpans(locations[k], starts, v)
  }

  lemma SomeSpansStep(locations: seq<u32>, starts: seq<u32>, v: int)
    requires locations != []
    ensures SomeSpans(locations, starts, v)
      <==> SomeSpans(locations[..|locations| - 1], starts, v) || DataSpans(locations[|locations| - 1], starts, v)
  {
    var init := locations[..|locations| - 1];
    if SomeSpans(init, starts, v) {
      var k :| 0 <= k < |init| && DataSpans(init[k], starts, v);
      assert locations[k] == init[k];
    }
    if SomeSpans(locations, starts, v) {
      var k :| 0 <= k < |locations| && DataSpans(locations[k], starts, v);
      if k < |init| {
        assert init[k] == locations[k];
      }
    }
  }

  /** The interval of one data location covers exactly the values it spans. */
  lemma DataIntervalCovers(location: u32, starts: seq<u32>, v: int)
    ensures InSome(DataInterval(location, starts), v) <==> DataSpans(location, starts, v)
  {
    var tail := DataInterval(location, starts);
    if InSome(tail, v) {
      assert InInterval(tail[0], v);
    }
    if DataSpans(location, starts, v) {
      assert InInterval(tail[0], v);
    }
  }

  /** A value is data exactly when it lies between some data location and the next instruction start. */
  lemma {:induction false} SweepCovers(locations: seq<u32>, starts: seq<u32>, v: int)
    ensures InSome(Sweep(locations, starts), v) <==> SomeSpans(locations, starts, v)
  {
    if locations != [] {
      var init := locations[..|locations| - 1];
      var last := locations[|locations| - 1];
      SweepCovers(init, starts, v);
      InSomeConcat(Sweep(init, starts), DataInterval(last, starts), v);
      DataIntervalCovers(last, starts, v);
      SomeSpansStep(locations, starts, v);
    }
  }

  /** A data location that is itself an instruction start gets an empty interval, which covers nothing. */
  lemma LocationAtStart(location: u32, starts: seq<u32>)
    requires Increasing(starts) && location in starts
    ensures DataInterval(location, starts) == [FromStartAndLen(location, 0)]
    ensures !InSome(DataInterval(location, starts), location)
  {
    NextStartLeast(starts, location);
  }

  /** The instruction ranges fit in u32 when their lengths are added. */
  predicate RangesFit(ranges: seq<(u32, u32)>) {
    forall k :: 0 <= k < |ranges| ==> ranges[k].0 + ranges[k].1 < U32_LIMIT
  }

  /** The intervals [address, address + length) of instruction ranges that fit. */
  function RangeIntervals(ranges: seq<(u32, u32)>): seq<Interval>
    requires RangesFit(ranges)
  {
    if ranges == [] then []
    else
      var last := ranges[|ranges| - 1];
      assert last.0 + last.1 < U32_LIMIT;
      RangeIntervals(ranges[..|ranges| - 1]) + [FromStartAndLen(last.0, last.1)]
  }

  /** A value is an instruction byte exactly when some range [address, address + length) holds it. */
  lemma {:induction false} RangeIntervalsCover(ranges: seq<(u32, u32)>, v: int)
    requires RangesFit(ranges)
    ensures InSome(RangeIntervals(ranges), v)
      <==> exists k :: 0 <= k < |ranges| && ranges[k].0 <= v < ranges[k].0 + ranges[k].1
  {
    if ranges != [] {
      var init := ranges[..|ranges| - 1];
      var last := ranges[|ranges| - 1];
      var tail := [FromStartAndLen(last.0, last.1)];
      RangeIntervalsCover(init, v);
      InSomeConcat(RangeIntervals(init), tail, v);
      assert InSome(tail, v) <==> last.0 <= v < last.0 + last.1 by {
        if InSome(tail, v) {
          assert InInterval(tail[0], v);
        }
        if last.0 <= v < last.0 + last.1 {
          assert InInterval(tail[0], v);
        }
      }
      if exists k :: 0 <= k < |init| && init[k].0 <= v < init[k].0 + init[k].1 {
        var k :| 0 <= k < |init| && init[k].0 <= v < init[k].0 + init[k].1;
        assert ranges[k] == init[k];
      }
      if exists k :: 0 <= k < |ranges| && ranges[k].0 <= v < ranges[k].0 + ranges[k].1 {
        var k :| 0 <= k < |ranges| && ranges[k].0 <= v < ranges[k].0 + ranges[k].1;
        if k < |init| {
          assert init[k] == ranges[k];
        }
      }
    }
  }

  /** The data intervals `dump_pdb` derives from a symbol stream, before relocation. */
  function DataIntervals(symbols: seq<PdbSymbol>): seq<Interval> {
    Sweep(AddLocations([], symbols), StartsOf(RangesOf(symbols)))
  }

  /** Every interval of both classes, moved by `baseAddr`, stays within u32. */
  ghost predicate RelocationFits(symbols: seq<PdbSymbol>, baseAddr: u32)
    requires RangesFit(RangesOf(symbols))
  {
    forall v :: (InSome(DataIntervals(symbols), v) || InSome(RangeIntervals(RangesOf(symbols)), v))
      ==> v + 1 + baseAddr < U32_LIMIT
  }

  /** The set holds exactly the values of `ivs` moved up by `offset`. */
  ghost predicate HoldsShifted(s: IntervalSet, ivs: seq<Interval>, offset: int)
    reads s
  {
    forall v :: s.Covers(v) <==> InSome(ivs, v - offset)
  }

  /** Relocating the classes built from `symbols` fits exactly when `RelocationFits` holds. */
  lemma RelocationFitsShift(symbols: seq<PdbSymbol>, baseAddr: u32, classes: AddressClasses)
    requires classes.Valid() && RangesFit(RangesOf(symbols))
    requires Holds(classes.trueData, DataIntervals(symbols))
    requires Holds(classes.trueInstructions, RangeIntervals(RangesOf(symbols)))
    ensures (ShiftFits(classes.trueInstructions.points, baseAddr) && ShiftFits(classes.trueData.points, baseAddr))
      <==> RelocationFits(symbols, baseAddr)
  {
    var code, data := classes.trueInstructions, classes.trueData;
    ShiftFitsCovered(code.points, baseAddr);
    ShiftFitsCovered(data.points, baseAddr);
    if RelocationFits(symbols, baseAddr) {
      forall v | Covered(code.points, v) ensures v + 1 + baseAddr < U32_LIMIT {
        assert code.Covers(v);
      }
      forall v | Covered(data.points, v) ensures v + 1 + baseAddr < U32_LIMIT {
        assert data.Covers(v);
      }
    } else {
      var v :| (InSome(DataIntervals(symbols), v) || InSome(RangeIntervals(RangesOf(symbols)), v))
        && v + 1 + baseAddr >= U32_LIMIT;
      assert code.Covers(v) || data.Covers(v);
    }
  }

  /**
   * `dump_pdb` over the symbol streams of all modules, concatenated: the walk collects the
   * ranges and data locations; the sweep gives each data location the interval up to the next
   * instruction start; every instruction range becomes an instruction interval; both sets are
   * moved by `baseAddr`. A range or a relocated set that leaves u32 panics.
   */
  method DumpPdb(baseAddr: u32, symbols: seq<PdbSymbol>) returns (r: Result<AddressClasses>)
    ensures !r.Err?
    ensures r.Ok? <==> RangesFit(RangesOf(symbols)) && RelocationFits(symbols, baseAddr)
    ensures r.Ok? ==> fresh(r.value) && r.value.Valid()
    ensures r.Ok? ==> HoldsShifted(r.value.trueData, DataIntervals(symbols), baseAddr)
    ensures r.Ok? ==> HoldsShifted(r.value.trueInstructions, RangeIntervals(RangesOf(symbols)), baseAddr)
  {
    var ranges := new Ranges();
    ranges.WalkSymbols(symbols);
    var instructionRanges := ranges.instructionRanges;
    var locations := ranges.dataLocations;
    assert instructionRanges == RangesOf(symbols);
    var starts := CollectStarts(instructionRanges);
    var classes := new AddressClasses();
    SweepInto(classes, locations, starts);
    assert Holds(classes.trueData, DataIntervals(symbols));
    var fits := PushRanges(classes, instructionRanges);
    if !fits {
      return Panic("attempt to add with overflow");
    }
    RelocationFitsShift(symbols, baseAddr, classes);
    if !ShiftFits(classes.trueInstructions.points, baseAddr) || !ShiftFits(classes.trueData.points, baseAddr) {
      return Panic("attempt to add with overflow");
    }
    classes.Relocate(baseAddr);
    return Ok(classes);
  }

  /** Collecting the instruction starts into the ascending set `instruction_starts`. */
  method CollectStarts(ranges: seq<(u32, u32)>) returns (starts: seq<u32>)
    ensures starts == StartsOf(ranges)
  {
    starts := [];
    for t := 0 to |ranges|
      invariant starts == StartsOf(ranges[..t])
    {
      assert ranges[..t + 1][..t] == ranges[..t];
      starts := Insert(starts, ranges[t].0);
    }
    assert ranges[..|ranges|] == ranges;
  }

  /** The first `i` starts all lie below `x`. */
  predicate AllBelow(starts: seq<u32>, i: int, x: int)
    requires 0 <= i <= |starts|
  {
    forall k :: 0 <= k < i ==> starts[k] < x
  }

  /**
   * The `while let Some(..) = peek()` loop of the sweep: advances the peeked iterator past
   * the starts below `addr`, so that it then peeks at `NextStart(starts, addr)`.
   */
  method SkipBelow(starts: seq<u32>, i0: nat, addr: u32) returns (i: nat)
    requires Increasing(starts) && i0 <= |starts| && AllBelow(starts, i0, addr)
    ensures i0 <= i <= |starts| && AllBelow(starts, i, addr)
    ensures NextStart(starts, addr) == if i < |starts| then Some(starts[i]) else None
  {
    i := i0;
    while i < |starts| && starts[i] < addr
      invariant i0 <= i <= |starts| && AllBelow(starts, i, addr)
    {
      i := i + 1;
    }
    NextStartAt(starts, addr, i);
  }

  /** The sweep over one more location adds that location's data interval. */
  lemma SweepStep(locations: seq<u32>, starts: seq<u32>, t: nat)
    requires t < |locations|
    ensures Sweep(locations[..t + 1], starts) == Sweep(locations[..t], starts) + DataInterval(locations[t], starts)
  {
    assert locations[..t + 1][..t] == locations[..t];
  }

  /**
   * The sweep of `dump_pdb`: one pass over the ascending data locations with a peeked
   * iterator over the ascending instruction starts.
   */
  method SweepInto(classes: AddressClasses, locations: seq<u32>, starts: seq<u32>)
    requires classes.Valid() && Holds(classes.trueData, [])
    requires Increasing(locations) && Increasing(starts)
    modifies classes.trueData
    ensures classes.Valid() && Holds(classes.trueData, Sweep(locations, starts))
  {
    var i := 0;
    for t := 0 to |locations|
      invariant classes.Valid()
      invariant 0 <= i <= |starts|
      invariant t < |locations| ==> AllBelow(starts, i, locations[t])
      invariant Holds(classes.trueData, Sweep(locations[..t], starts))
    {
      var addr := locations[t];
      i := SkipBelow(starts, i, addr);
      SweepStep(locations, starts, t);
      if i < |starts| {
        var next := starts[i];
        assert DataInterval(addr, starts) == [FromStartAndLen(addr, next - addr)];
        PushHolds(classes.trueData, Sweep(locations[..t], starts), FromStartAndLen(addr, next - addr));
        assert Sweep(locations[..t + 1], starts) == Sweep(locations[..t], starts) + [FromStartAndLen(addr, next - addr)];
        assert Holds(classes.trueData, Sweep(locations[..t + 1], starts));
      } else {
        assert DataInterval(addr, starts) == [];
        assert Sweep(locations[..t + 1], starts) == Sweep(locations[..t], starts) + [];
        assert Sweep(locations[..t + 1], starts) == Sweep(locations[..t], starts);
        assert Holds(classes.trueData, Sweep(locations[..t + 1], starts));
      }
      if t + 1 < |locations| {
        assert addr < locations[t + 1];
      }
    }
    assert locations[..|locations|] == locations;
  }

  /**
   * Pushing every instruction range [address, address + length) into the instruction set; the
   * u32 addition panics when a range does not fit, reported as `false`.
   */
  method PushRanges(classes: AddressClasses, ranges: seq<(u32, u32)>) returns (fits: bool)
    requires classes.Valid() && Holds(classes.trueInstructions, [])
    modifies classes.trueInstructions
    ensures classes.Valid()
    ensures fits <==> RangesFit(ranges)
    ensures fits ==> Holds(classes.trueInstructions, RangeIntervals(ranges))
  {
    for t := 0 to |ranges|
      invariant classes.Valid()
      invariant RangesFit(ranges[..t])
      invariant Holds(classes.trueInstructions, RangeIntervals(ranges[..t]))
    {
      var (addr, len) := ranges[t];
      if addr + len >= U32_LIMIT {
        return false;
      }
      assert ranges[..t + 1][..t] == ranges[..t];
      PushHolds(classes.trueInstructions, RangeIntervals(ranges[..t]), FromStartAndLen(addr, len));
    }
    assert ranges[..|ranges|] == ranges;
    return true;
  }
}
