/**
 * The instruction-code vocabulary: code frequencies are counted over supersets, the most
 * frequent codes get dense ids after two reserved ones, and the code list is stored as text,
 * one code name per line after two header lines.
 *
 * Instruction codes are numbers; `names[c]` is the name the code `c` prints as, for every code
 * the decoder knows (`Code::values()` in order).
 */
module Vocab {
  import opened Wrappers
  import opened Text
  import Superset

  type Code = nat

  /** `Code::INVALID`, the first code. */
  const INVALID_CODE: Code := 0

  const SPECIAL_VALUE_COUNT: nat := 2
  /** The id of `Code::INVALID`. */
  const INVALID: nat := 0
  /** The id of every code the vocabulary does not list. */
  const UNKNOWN: nat := 1

  /** How often `c` was counted; a code never added counts zero. */
  function Count(freq: map<Code, nat>, c: Code): nat {
    if c in freq then freq[c] else 0
  }

  /** The number of superset entries whose instruction has code `c`. */
  function Occurrences(entries: seq<Superset.Entry>, c: Code): nat {
    if entries == [] then 0
    else Occurrences(entries[..|entries| - 1], c) + if entries[|entries| - 1].feature.code == c then 1 else 0
  }

  /** `a` ranks before `b`: it is more frequent, or as frequent with a smaller code. */
  predicate Precedes(freq: map<Code, nat>, a: Code, b: Code) {
    Count(freq, a) > Count(freq, b) || (Count(freq, a) == Count(freq, b) && a < b)
  }

  /** Codes in strictly descending frequency, ties by ascending code. */
  predicate Ranked(freq: map<Code, nat>, s: seq<Code>) {
    forall i, j :: 0 <= i < j < |s| ==> Precedes(freq, s[i], s[j])
  }

  /** Inserting a new code at its place in the ranking. */
  function InsertRanked(freq: map<Code, nat>, s: seq<Code>, c: Code): (r: seq<Code>)
    requires Ranked(freq, s) && c !in s
    ensures Ranked(freq, r) && |r| == |s| + 1
    ensures forall y :: y in r <==> y in s || y == c
    ensures r[0] == c || (s != [] && r[0] == s[0])
  {
    if s == [] then [c]
    else if Precedes(freq, c, s[0]) then [c] + s
    else
      var rest := InsertRanked(freq, s[1..], c);
      assert forall y :: y in s <==> y == s[0] || y in s[1..] by {
        assert s == [s[0]] + s[1..];
      }
      [s[0]] + rest
  }

  /**
   * `CodeVocab`: the listed codes and the map from a code to its id, which is its position
   * plus two.
   */
  datatype CodeVocab = CodeVocab(codes: seq<Code>, codeToIndex: map<Code, nat>)

  /** The id map `new` collects: a code listed twice keeps its later position. */
  function IndexMap(codes: seq<Code>): (m: map<Code, nat>)
    ensures forall c :: c in m <==> c in codes
    ensures forall c :: c in m ==>
              (SPECIAL_VALUE_COUNT <= m[c] < |codes| + SPECIAL_VALUE_COUNT && codes[m[c] - SPECIAL_VALUE_COUNT] == c)
  {
    if codes == [] then map[]
    else
      var init := codes[..|codes| - 1];
      assert forall c :: c in codes <==> c in init || c == codes[|codes| - 1] by {
        assert codes == init + [codes[|codes| - 1]];
      }
      IndexMap(init)[codes[|codes| - 1] := |codes| - 1 + SPECIAL_VALUE_COUNT]
  }

  /** `CodeVocab::new`. */
  function New(codes: seq<Code>): (v: CodeVocab)
    ensures v.codes == codes
  {
    CodeVocab(codes, IndexMap(codes))
  }

  /** No code is listed twice. */
  predicate Distinct(codes: seq<Code>) {
    forall i, j :: 0 <= i < j < |codes| ==> codes[i] != codes[j]
  }

  /** With distinct codes, `new` gives `codes[i]` the id `i + 2`. */
  lemma {:induction false} NewIds(codes: seq<Code>, i: nat)
    requires Distinct(codes) && i < |codes|
    ensures IdOf(New(codes), codes[i]) == i + SPECIAL_VALUE_COUNT
  {
    var m := IndexMap(codes);
    assert codes[i] in m;
    var p := m[codes[i]] - SPECIAL_VALUE_COUNT;
    assert codes[p] == codes[i];
  }

  /** `vocab[code]`: the code's id, or `UNKNOWN` for a code the vocabulary does not list. */
  function IdOf(v: CodeVocab, c: Code): nat {
    if c in v.codeToIndex then v.codeToIndex[c] else UNKNOWN
  }

  /**
   * `vocab[index]`: id 0 is `Code::INVALID`, id 1 panics, and every other id names the listed
   * code at its position minus two; an id past the list panics on the index.
   */
  function CodeAt(v: CodeVocab, index: nat): Result<Code> {
    if index < SPECIAL_VALUE_COUNT then
      if index == INVALID then Ok(INVALID_CODE)
      else Panic("Attempt to get unknown code from the vocab")
    else if index - SPECIAL_VALUE_COUNT < |v.codes| then Ok(v.codes[index - SPECIAL_VALUE_COUNT])
    else Panic("index out of bounds")
  }

  /** A vocabulary as `new` builds it. */
  predicate WellFormed(v: CodeVocab) {
    v.codeToIndex == IndexMap(v.codes)
  }

  /** A listed code's id leads back to the code. */
  lemma IdThenCode(v: CodeVocab, c: Code)
    requires WellFormed(v) && c in v.codes
    ensures IdOf(v, c) >= SPECIAL_VALUE_COUNT
    ensures CodeAt(v, IdOf(v, c)) == Ok(c)
  {
  }

  /** An unlisted code gets `UNKNOWN`, whose id does not lead back to any code. */
  lemma UnlistedIsUnknown(v: CodeVocab, c: Code)
    requires WellFormed(v) && c !in v.codes
    ensures IdOf(v, c) == UNKNOWN
    ensures CodeAt(v, IdOf(v, c)).Panic?
    ensures CodeAt(v, INVALID) == Ok(INVALID_CODE)
  {
  }

  /** `CodeVocabBuilder`: how often each code was seen. */
  class CodeVocabBuilder {
    var freq: map<Code, nat>

    constructor ()
      ensures freq == map[]
    {
      freq := map[];
    }

    /** `add`: one more occurrence of `code`. */
    method Add(code: Code)
      modifies this
      ensures forall c :: Count(freq, c) == Count(old(freq), c) + if c == code then 1 else 0
      ensures freq.Keys == old(freq.Keys) + {code}
    {
      freq := freq[code := Count(freq, code) + 1];
    }

    /** `add_sample`: one occurrence per superset entry, of that entry's code. */
    method AddSample(entries: seq<Superset.Entry>)
      modifies this
      ensures forall c :: Count(freq, c) == Count(old(freq), c) + Occurrences(entries, c)
    {
      for t := 0 to |entries|
        invariant forall c :: Count(freq, c) == Count(old(freq), c) + Occurrences(entries[..t], c)
      {
        assert entries[..t + 1][..t] == entries[..t];
        Add(entries[t].feature.code);
      }
      assert entries[..|entries|] == entries;
    }

    /** `merge`: every code's count becomes the sum of both builders' counts. */
    method Merge(other: CodeVocabBuilder)
      requires other != this
      modifies this
      ensures forall c :: Count(freq, c) == Count(old(freq), c) + Count(other.freq, c)
      ensures freq.Keys == old(freq.Keys) + other.freq.Keys
    {
      var counts: map<Code, nat> := freq;
      var add := other.freq;
      var pending := add.Keys;
      while pending != {}
        invariant MergedExcept(old(freq), add, pending, counts)
        decreases |pending|
      {
        var code :| code in pending;
        MergeStep(old(freq), add, pending, counts, code);
        counts := counts[code := Count(counts, code) + add[code]];
        pending := pending - {code};
      }
      MergedAll(old(freq), add, counts);
      freq := counts;
    }

    /** `len`: the number of distinct codes seen. */
    function Len(): (r: nat)
      reads this
      ensures r == |freq.Keys|
    {
      |freq.Keys|
    }

    /**
     * `build_top_k`: `Code::INVALID` is dropped, the other codes are ranked by descending
     * frequency and then ascending code, and the first `k` form the vocabulary.
     */
    method BuildTopK(k: nat) returns (v: CodeVocab)
      ensures WellFormed(v) && TopK(freq - {INVALID_CODE}, k, v.codes)
    {
      var f := freq - {INVALID_CODE};
      var ranked := RankCodes(f);
      var m := if k < |ranked| then k else |ranked|;
      PrefixIsTopK(f, ranked, k);
      v := New(ranked[..m]);
    }

    /** `build`: every code but `Code::INVALID`, ranked. */
    method Build() returns (v: CodeVocab)
      ensures WellFormed(v) && Ranked(freq - {INVALID_CODE}, v.codes)
      ensures forall c :: c in v.codes <==> c in freq && c != INVALID_CODE
    {
      v := BuildTopK(Len());
      forall c | c in freq && c != INVALID_CODE ensures c in v.codes {
        assert |(freq - {INVALID_CODE}).Keys| <= |freq.Keys| by {
          assert (freq - {INVALID_CODE}).Keys <= freq.Keys;
        }
        if c !in v.codes {
          RankedIsDistinct(freq - {INVALID_CODE}, v.codes);
          DistinctCodesCover(v.codes, (freq - {INVALID_CODE}).Keys);
        }
      }
    }
  }

  /** The counts of `start` merged with those of `add` for every code outside `pending`. */
  ghost predicate MergedExcept(start: map<Code, nat>, add: map<Code, nat>, pending: set<Code>, freq: map<Code, nat>) {
    && pending <= add.Keys
    && (forall c :: c in pending ==> Count(freq, c) == Count(start, c))
    && (forall c :: c !in pending ==> Count(freq, c) == Count(start, c) + Count(add, c))
    && freq.Keys == start.Keys + (add.Keys - pending)
  }

  /** With nothing pending, every count is merged. */
  lemma MergedAll(start: map<Code, nat>, add: map<Code, nat>, freq: map<Code, nat>)
    requires MergedExcept(start, add, {}, freq)
    ensures forall c :: Count(freq, c) == Count(start, c) + Count(add, c)
    ensures freq.Keys == start.Keys + add.Keys
  {
    assert add.Keys - {} == add.Keys;
  }

  /** Merging one more pending code. */
  lemma MergeStep(start: map<Code, nat>, add: map<Code, nat>, pending: set<Code>, freq: map<Code, nat>, code: Code)
    requires MergedExcept(start, add, pending, freq) && code in pending
    ensures code in add && |pending - {code}| < |pending|
    ensures MergedExcept(start, add, pending - {code}, freq[code := Count(freq, code) + add[code]])
  {
  }

  /** Every counted code, ranked by inserting one code at a time. */
  method RankCodes(f: map<Code, nat>) returns (ranked: seq<Code>)
    ensures Ranked(f, ranked) && |ranked| == |f.Keys|
    ensures forall c :: c in ranked <==> c in f
  {
    var pending := f.Keys;
    ranked := [];
    while pending != {}
      invariant RankedExcept(f, pending, ranked)
      decreases |pending|
    {
      var code :| code in pending;
      RankStep(f, pending, ranked, code);
      ranked := InsertRanked(f, ranked, code);
      pending := pending - {code};
    }
  }

  /** `ranked` ranks every code of `f` outside `pending`. */
  ghost predicate RankedExcept(f: map<Code, nat>, pending: set<Code>, ranked: seq<Code>) {
    && pending <= f.Keys
    && Ranked(f, ranked) && |ranked| == |f.Keys| - |pending|
    && forall c :: c in ranked <==> c in f && c !in pending
  }

  /** Ranking one more pending code. */
  lemma RankStep(f: map<Code, nat>, pending: set<Code>, ranked: seq<Code>, code: Code)
    requires RankedExcept(f, pending, ranked) && code in pending
    ensures code !in ranked
    ensures RankedExcept(f, pending - {code}, InsertRanked(f, ranked, code))
  {
  }

  /**
   * `codes` are the `k` best of the counted codes (all of them when there are fewer), in rank
   * order: each precedes every counted code left out.
   */
  ghost predicate TopK(f: map<Code, nat>, k: nat, codes: seq<Code>) {
    && Ranked(f, codes)
    && |codes| == (if k < |f.Keys| then k else |f.Keys|)
    && (forall c :: c in codes ==> c in f)
    && forall c, d :: c in codes && d in f && d !in codes ==> Precedes(f, c, d)
  }

  /** The first `k` codes of a full ranking are the top `k`. */
  lemma PrefixIsTopK(f: map<Code, nat>, ranked: seq<Code>, k: nat)
    requires Ranked(f, ranked) && |ranked| == |f.Keys|
    requires forall c :: c in ranked <==> c in f
    ensures TopK(f, k, ranked[..if k < |ranked| then k else |ranked|])
  {
    var m := if k < |ranked| then k else |ranked|;
    forall c, d | c in ranked[..m] && d in f && d !in ranked[..m] ensures Precedes(f, c, d) {
      var i :| 0 <= i < m && ranked[..m][i] == c;
      var j :| 0 <= j < |ranked| && ranked[j] == d;
    }
  }

  /** A ranking lists no code twice. */
  lemma RankedIsDistinct(freq: map<Code, nat>, s: seq<Code>)
    requires Ranked(freq, s)
    ensures Distinct(s)
  {
  }

  /** Distinct codes drawn from a set, as many as it has, are all of it. */
  lemma {:induction false} DistinctCodesCover(s: seq<Code>, keys: set<Code>)
    requires Distinct(s) && |s| == |keys|
    requires forall c :: c in s ==> c in keys
    ensures forall c :: c in keys ==> c in s
  {
    if s != [] {
      var init := s[..|s| - 1];
      var last := s[|s| - 1];
      assert forall c :: c in init ==> c in keys - {last} by {
        forall c | c in init ensures c in keys - {last} {
          var i :| 0 <= i < |init| && init[i] == c;
          assert s[i] == c;
        }
      }
      DistinctCodesCover(init, keys - {last});
      forall c | c in keys ensures c in s {
        if c != last {
          assert c in init;
        }
      }
    }
  }

  /** The name table: distinct names, none with a line end or a trailing carriage return. */
  predicate ValidNames(names: seq<string>) {
    (forall i, j :: 0 <= i < j < |names| ==> names[i] != names[j])
    && forall i :: 0 <= i < |names| ==> '\n' !in names[i] && (names[i] == [] || names[i][|names[i]| - 1] != '\r')
  }

  /** Every code is one the name table knows. */
  predicate KnownCodes(codes: seq<Code>, names: seq<string>) {
    forall k :: 0 <= k < |codes| ==> codes[k] < |names|
  }

  /** The names of some codes, in order. */
  function NamesOf(codes: seq<Code>, names: seq<string>): (r: seq<string>)
    requires KnownCodes(codes, names)
    ensures |r| == |codes|
    ensures forall k :: 0 <= k < |codes| ==> r[k] == names[codes[k]]
  {
    if codes == [] then []
    else NamesOf(codes[..|codes| - 1], names) + [names[codes[|codes| - 1]]]
  }

  /** The code a name stands for: the last code with that name, as the name dictionary collects it. */
  function CodeNamed(names: seq<string>, line: string): (r: Option<Code>)
    ensures r.Some? <==> line in names
    ensures r.Some? ==> r.value < |names| && names[r.value] == line
  {
    if names == [] then None
    else if names[|names| - 1] == line then Some(|names| - 1)
    else CodeNamed(names[..|names| - 1], line)
  }

  /** With distinct names, a code's name leads back to the code. */
  lemma {:induction false} NameThenCode(names: seq<string>, c: Code)
    requires ValidNames(names) && c < |names|
    ensures CodeNamed(names, names[c]) == Some(c)
  {
    if c < |names| - 1 {
      var init := names[..|names| - 1];
      assert init[c] == names[c];
      NameThenCode(init, c);
    }
  }

  /** The text `serialize_to` writes: the two header lines, then one code name per line. */
  function Serialized(v: CodeVocab, names: seq<string>): string
    requires KnownCodes(v.codes, names)
  {
    Unlines(["INVALID", "UNKNOWN"] + NamesOf(v.codes, names))
  }

  lemma HeaderText()
    ensures Unlines(["INVALID", "UNKNOWN"]) == "INVALID\nUNKNOWN\n"
  {
    assert ["INVALID", "UNKNOWN"][1..] == ["UNKNOWN"];
    assert ["UNKNOWN"][1..] == [];
  }

  /** `serialize_to`, writing line by line. */
  method SerializeTo(v: CodeVocab, names: seq<string>) returns (text: string)
    requires KnownCodes(v.codes, names)
    ensures text == Serialized(v, names)
  {
    text := "INVALID\nUNKNOWN\n";
    HeaderText();
    assert ["INVALID", "UNKNOWN"] + NamesOf(v.codes[..0], names) == ["INVALID", "UNKNOWN"];
    for t := 0 to |v.codes|
      invariant text == Unlines(["INVALID", "UNKNOWN"] + NamesOf(v.codes[..t], names))
    {
      assert v.codes[..t + 1][..t] == v.codes[..t];
      UnlinesSnoc(["INVALID", "UNKNOWN"] + NamesOf(v.codes[..t], names), names[v.codes[t]]);
      assert ["INVALID", "UNKNOWN"] + NamesOf(v.codes[..t + 1], names)
        == ["INVALID", "UNKNOWN"] + NamesOf(v.codes[..t], names) + [names[v.codes[t]]];
      text := text + names[v.codes[t]] + "\n";
    }
    assert v.codes[..|v.codes|] == v.codes;
  }

  /** The codes of the lines after the header, or the first line that names no code. */
  function ParseCodes(lines: seq<string>, names: seq<string>): (r: Result<seq<Code>>)
    ensures !r.Panic?
    ensures r.Ok? ==>
              (|r.value| == |lines| && KnownCodes(r.value, names)
               && forall k :: 0 <= k < |lines| ==> names[r.value[k]] == lines[k])
    ensures r.Err? <==> exists k :: 0 <= k < |lines| && lines[k] !in names
  {
    if lines == [] then Ok([])
    else
      match CodeNamed(names, lines[0])
      case None => Err("invalid code: " + lines[0])
      case Some(c) =>
        var rest := ParseCodes(lines[1..], names);
        if rest.Ok? then Ok([c] + rest.value)
        else
          var k :| 0 <= k < |lines[1..]| && lines[1..][k] !in names;
          assert lines[k + 1] !in names;
          rest
  }

  /**
   * `deserialize_from` on a text: a missing or wrong first or second header line panics, a
   * line naming no code is an error, and otherwise the codes form a new vocabulary.
   */
  function Deserialized(text: string, names: seq<string>): (r: Result<CodeVocab>)
    ensures r.Panic? <==> |Lines(text)| < 2 || Lines(text)[0] != "INVALID" || Lines(text)[1] != "UNKNOWN"
    ensures r.Ok? ==> WellFormed(r.value) && KnownCodes(r.value.codes, names)
  {
    var lines := Lines(text);
    if |lines| < 1 then Panic("called `Option::unwrap()` on a `None` value")
    else if lines[0] != "INVALID" then Panic("assertion failed: `(left == right)`")
    else if |lines| < 2 then Panic("called `Option::unwrap()` on a `None` value")
    else if lines[1] != "UNKNOWN" then Panic("assertion failed: `(left == right)`")
    else
      match ParseCodes(lines[2..], names)
      case Ok(codes) => Ok(New(codes))
      case Err(reason) => Err(reason)
  }

  /** `deserialize_from`: the header checks, then one lookup per remaining line. */
  method DeserializeFrom(text: string, names: seq<string>) returns (r: Result<CodeVocab>)
    ensures r == Deserialized(text, names)
  {
    var lines := Lines(text);
    if |lines| < 1 {
      return Panic("called `Option::unwrap()` on a `None` value");
    }
    if lines[0] != "INVALID" {
      return Panic("assertion failed: `(left == right)`");
    }
    if |lines| < 2 {
      return Panic("called `Option::unwrap()` on a `None` value");
    }
    if lines[1] != "UNKNOWN" {
      return Panic("assertion failed: `(left == right)`");
    }
    var body := lines[2..];
    var codes: seq<Code> := [];
    assert body[0..] == body;
    PrefixedNone(ParseCodes(body, names));
    for t := 0 to |body|
      invariant ParseCodes(body, names) == Prefixed(codes, ParseCodes(body[t..], names))
    {
      var c := CodeNamed(names, body[t]);
      if c.None? {
        return Err("invalid code: " + body[t]);
      }
      ParseStep(body, t, names);
      PrefixedAppend(codes, c.value, ParseCodes(body[t + 1..], names));
      codes := codes + [c.value];
    }
    assert codes + [] == codes;
    return Ok(New(codes));
  }

  /** The codes parsed so far ahead of what the remaining lines give. */
  function Prefixed(codes: seq<Code>, rest: Result<seq<Code>>): Result<seq<Code>> {
    if rest.Ok? then Ok(codes + rest.value) else rest
  }

  lemma ParseStep(body: seq<string>, t: nat, names: seq<string>)
    requires t < |body|
    ensures ParseCodes(body[t..], names) == match CodeNamed(names, body[t])
      case None => Err("invalid code: " + body[t])
      case Some(c) => Prefixed([c], ParseCodes(body[t + 1..], names))
  {
    assert body[t..][1..] == body[t + 1..];
  }

  lemma PrefixedNone(rest: Result<seq<Code>>)
    ensures Prefixed([], rest) == rest
  {
    if rest.Ok? {
      assert [] + rest.value == rest.value;
    }
  }

  lemma PrefixedAppend(codes: seq<Code>, c: Code, rest: Result<seq<Code>>)
    ensures Prefixed(codes, Prefixed([c], rest)) == Prefixed(codes + [c], rest)
  {
    if rest.Ok? {
      assert codes + ([c] + rest.value) == codes + [c] + rest.value;
    }
  }

  /** Reading back the text `serialize_to` writes gives the same code list. */
  lemma SerializeRoundTrip(v: CodeVocab, names: seq<string>)
    requires ValidNames(names) && KnownCodes(v.codes, names)
    ensures Deserialized(Serialized(v, names), names) == Ok(New(v.codes))
  {
    var lines := ["INVALID", "UNKNOWN"] + NamesOf(v.codes, names);
    LinesUnlines(lines);
    assert lines[2..] == NamesOf(v.codes, names);
    ParseNames(v.codes, names);
  }

  /** Parsing the names of known codes gives the codes back. */
  lemma {:induction false} ParseNames(codes: seq<Code>, names: seq<string>)
    requires ValidNames(names) && KnownCodes(codes, names)
    ensures ParseCodes(NamesOf(codes, names), names) == Ok(codes)
  {
    var ns := NamesOf(codes, names);
    if codes != [] {
      NameThenCode(names, codes[0]);
      assert KnownCodes(codes[1..], names);
      ParseNames(codes[1..], names);
      assert ns[1..] == NamesOf(codes[1..], names);
      assert [codes[0]] + codes[1..] == codes;
    }
  }
}
