/**
 * `dump_elf_symbols`: the ground truth of an ELF executable read from its symbol table
 * (System V gABI, chapter "Object Files", section "Symbol Table"). Defined function symbols
 * are instruction bytes, defined object and common symbols are data bytes.
 */
module ElfSymbols {
  import opened Wrappers
  import opened Words
  import opened IntervalSets
  import opened Classes

  /** `st_shndx` of a symbol that is not defined in any section. */
  const SHN_UNDEF: int := 0

  /** The symbol types of the low four bits of `st_info`. */
  const STT_NOTYPE: int := 0
  const STT_OBJECT: int := 1
  const STT_FUNC: int := 2
  const STT_SECTION: int := 3
  const STT_FILE: int := 4
  const STT_COMMON: int := 5
  const STT_TLS: int := 6

  /** The fields of an `Elf32_Sym` the classification reads. */
  datatype Symbol = Symbol(shndx: u16, value: u32, size: u32, info: u8)

  /** `st_type`: the low four bits of `st_info`. */
  function SymbolType(symbol: Symbol): (r: int)
    ensures 0 <= r < 16
    ensures r == symbol.info % 16
  {
    symbol.info % 16
  }

  predicate Defined(symbol: Symbol) {
    symbol.shndx != SHN_UNDEF
  }

  /** The types the loop skips: no type, file, section and thread-local symbols. */
  predicate Uninteresting(symbol: Symbol) {
    var kind := SymbolType(symbol);
    kind == STT_NOTYPE || kind == STT_FILE || kind == STT_SECTION || kind == STT_TLS
  }

  /** A defined symbol whose bytes are data. */
  predicate IsData(symbol: Symbol) {
    Defined(symbol) && (SymbolType(symbol) == STT_OBJECT || SymbolType(symbol) == STT_COMMON)
  }

  /** A defined symbol whose bytes are instructions. */
  predicate IsFunction(symbol: Symbol) {
    Defined(symbol) && SymbolType(symbol) == STT_FUNC
  }

  /**
   * A symbol the loop gets past without a panic: undefined or uninteresting, or a data or
   * function symbol whose end `value + size` fits in a u32.
   */
  predicate Accepted(symbol: Symbol) {
    !Defined(symbol) || Uninteresting(symbol)
    || ((IsData(symbol) || IsFunction(symbol)) && symbol.value + symbol.size < U32_LIMIT)
  }

  /** The interval [value, value + size) of an accepted data or function symbol. */
  function SymbolInterval(symbol: Symbol): (r: Interval)
    requires symbol.value + symbol.size < U32_LIMIT
    ensures forall v :: InInterval(r, v) <==> symbol.value <= v < symbol.value + symbol.size
  {
    FromStartAndLen(symbol.value, symbol.size)
  }

  /** The intervals of the symbols of `symbols` that `isData` selects (data or functions), in order. */
  function Selected(symbols: seq<Symbol>, isData: bool): seq<Interval>
    requires forall k :: 0 <= k < |symbols| ==> Accepted(symbols[k])
  {
    if symbols == [] then []
    else
      var last := symbols[|symbols| - 1];
      assert Accepted(last);
      assert forall k :: 0 <= k < |symbols| - 1 ==> symbols[..|symbols| - 1][k] == symbols[k];
      Selected(symbols[..|symbols| - 1], isData)
      + (if (isData && IsData(last)) || (!isData && IsFunction(last)) then [SymbolInterval(last)] else [])
  }

  /** `symbol` is a data symbol (or a function symbol) whose bytes include `v`. */
  predicate Spans(symbol: Symbol, isData: bool, v: int) {
    (if isData then IsData(symbol) else IsFunction(symbol)) && symbol.value <= v < symbol.value + symbol.size
  }

  /** Some symbol of `symbols` selected by `isData` spans `v`. */
  predicate SomeSpans(symbols: seq<Symbol>, isData: bool, v: int) {
    exists k :: 0 <= k < |symbols| && Spans(symbols[k], isData, v)
  }

  lemma SomeSpansStep(symbols: seq<Symbol>, isData: bool, v: int)
    requires symbols != []
    ensures SomeSpans(symbols, isData, v)
      <==> SomeSpans(symbols[..|symbols| - 1], isData, v) || Spans(symbols[|symbols| - 1], isData, v)
  {
    var init := symbols[..|symbols| - 1];
    if SomeSpans(init, isData, v) {
      var k :| 0 <= k < |init| && Spans(init[k], isData, v);
      assert symbols[k] == init[k];
    }
    if SomeSpans(symbols, isData, v) {
      var k :| 0 <= k < |symbols| && Spans(symbols[k], isData, v);
      if k < |init| {
        assert init[k] == symbols[k];
      }
    }
  }

  /** The interval one symbol contributes covers exactly the values it spans. */
  lemma OwnIntervalCovers(symbol: Symbol, isData: bool, v: int)
    requires Accepted(symbol)
    ensures var own := if (isData && IsData(symbol)) || (!isData && IsFunction(symbol)) then [SymbolInterval(symbol)] else [];
      InSome(own, v) <==> Spans(symbol, isData, v)
  {
    var own := if (isData && IsData(symbol)) || (!isData && IsFunction(symbol)) then [SymbolInterval(symbol)] else [];
    if InSome(own, v) {
      assert InInterval(own[0], v);
    }
    if Spans(symbol, isData, v) {
      assert InInterval(own[0], v);
    }
  }

  /** A value is in a selected interval exactly when some selected symbol spans it. */
  lemma {:induction false} SelectedCovers(symbols: seq<Symbol>, isData: bool, v: int)
    requires forall k :: 0 <= k < |symbols| ==> Accepted(symbols[k])
    ensures InSome(Selected(symbols, isData), v) <==> SomeSpans(symbols, isData, v)
  {
    if symbols != [] {
      var init := symbols[..|symbols| - 1];
      var last := symbols[|symbols| - 1];
      var own: seq<Interval> := if (isData && IsData(last)) || (!isData && IsFunction(last)) then [SymbolInterval(last)] else [];
      SelectedCovers(init, isData, v);
      InSomeConcat(Selected(init, isData), own, v);
      OwnIntervalCovers(last, isData, v);
      SomeSpansStep(symbols, isData, v);
    }
  }

  /** The selected intervals of one more symbol: those before it, then its own if it is selected. */
  lemma SelectedStep(symbols: seq<Symbol>, t: int)
    requires 0 <= t < |symbols| && forall k :: 0 <= k <= t ==> Accepted(symbols[k])
    ensures Selected(symbols[..t + 1], true)
      == Selected(symbols[..t], true) + if IsData(symbols[t]) then [SymbolInterval(symbols[t])] else []
    ensures Selected(symbols[..t + 1], false)
      == Selected(symbols[..t], false) + if IsFunction(symbols[t]) then [SymbolInterval(symbols[t])] else []
    ensures !IsData(symbols[t]) ==> Selected(symbols[..t + 1], true) == Selected(symbols[..t], true)
    ensures !IsFunction(symbols[t]) ==> Selected(symbols[..t + 1], false) == Selected(symbols[..t], false)
  {
    assert symbols[..t + 1][..t] == symbols[..t];
    assert Selected(symbols[..t], true) + [] == Selected(symbols[..t], true);
    assert Selected(symbols[..t], false) + [] == Selected(symbols[..t], false);
  }

  /**
   * `dump_elf_symbols` over the symbol table: undefined symbols and no-type, file, section
   * and thread-local symbols are skipped; object and common symbols go to the data set and
   * function symbols to the instruction set. Any other type panics, and so does a symbol
   * whose end does not fit in a u32.
   */
  method DumpElfSymbols(symbols: seq<Symbol>) returns (r: Result<AddressClasses>)
    ensures !r.Err?
    ensures r.Ok? <==> forall k :: 0 <= k < |symbols| ==> Accepted(symbols[k])
    ensures r.Ok? ==> (fresh(r.value) && r.value.Valid()
      && Holds(r.value.trueData, Selected(symbols, true))
      && Holds(r.value.trueInstructions, Selected(symbols, false)))
  {
    var classes := new AddressClasses();
    for t := 0 to |symbols|
      invariant fresh(classes) && fresh(classes.trueInstructions) && fresh(classes.trueData)
      invariant classes.Valid()
      invariant forall k :: 0 <= k < t ==> Accepted(symbols[k])
      invariant Holds(classes.trueData, Selected(symbols[..t], true))
      invariant Holds(classes.trueInstructions, Selected(symbols[..t], false))
    {
      var failure := AddSymbol(classes, symbols, t);
      if failure.Some? {
        return Panic(failure.value);
      }
    }
    assert symbols[..|symbols|] == symbols;
    return Ok(classes);
  }

  /** One turn of the symbol loop: skip, push the symbol's interval into its class, or panic. */
  method AddSymbol(classes: AddressClasses, symbols: seq<Symbol>, t: nat) returns (failure: Option<string>)
    requires t < |symbols| && classes.Valid() && forall k :: 0 <= k < t ==> Accepted(symbols[k])
    requires Holds(classes.trueData, Selected(symbols[..t], true))
    requires Holds(classes.trueInstructions, Selected(symbols[..t], false))
    modifies classes.trueData, classes.trueInstructions
    ensures classes.Valid()
    ensures failure.None? <==> Accepted(symbols[t])
    ensures failure.None? ==> (Holds(classes.trueData, Selected(symbols[..t + 1], true))
      && Holds(classes.trueInstructions, Selected(symbols[..t + 1], false)))
  {
    var symbol := symbols[t];
    if symbol.shndx == SHN_UNDEF {
      SelectedStep(symbols, t);
      return None;
    }
    var kind := SymbolType(symbol);
    if kind == STT_NOTYPE || kind == STT_FILE || kind == STT_SECTION || kind == STT_TLS {
      SelectedStep(symbols, t);
      return None;
    }
    if kind == STT_OBJECT || kind == STT_COMMON {
      if symbol.value + symbol.size >= U32_LIMIT {
        return Some("attempt to add with overflow");
      }
      SelectedStep(symbols, t);
      PushHolds(classes.trueData, Selected(symbols[..t], true), SymbolInterval(symbol));
    } else if kind == STT_FUNC {
      if symbol.value + symbol.size >= U32_LIMIT {
        return Some("attempt to add with overflow");
      }
      SelectedStep(symbols, t);
      PushHolds(classes.trueInstructions, Selected(symbols[..t], false), SymbolInterval(symbol));
    } else {
      return Some("Unknown symbol type");
    }
    failure := None;
  }
}
