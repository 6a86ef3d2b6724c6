/**
 * The parts of Rust's string library the line parsers rely on: `char::is_whitespace` and
 * `trim`, `starts_with`, `split(char)`, `lines()`, and `u32::from_str_radix` with the
 * formatting it inverts.
 */
module Text {
  import opened Wrappers
  import opened Words

  /** Unicode White_Space, the set `char::is_whitespace` tests. */
  predicate IsWhitespace(c: char) {
    ('\t' <= c <= '\r') || c == ' ' || c == '\U{85}' || c == '\U{A0}' || c == '\U{1680}'
    || ('\U{2000}' <= c <= '\U{200A}') || c == '\U{2028}' || c == '\U{2029}'
    || c == '\U{202F}' || c == '\U{205F}' || c == '\U{3000}'
  }

  /** `str::trim_start`: the longest all-whitespace prefix is removed. */
  function TrimStart(s: string): (r: string)
    ensures |r| <= |s| && r == s[|s| - |r|..]
    ensures r == [] || !IsWhitespace(r[0])
    ensures forall i :: 0 <= i < |s| - |r| ==> IsWhitespace(s[i])
  {
    if s != [] && IsWhitespace(s[0]) then TrimStart(s[1..]) else s
  }

  /** `str::trim_end`: the longest all-whitespace suffix is removed. */
  function TrimEnd(s: string): (r: string)
    ensures |r| <= |s| && r == s[..|r|]
    ensures r == [] || !IsWhitespace(r[|r| - 1])
    ensures forall i :: |r| <= i < |s| ==> IsWhitespace(s[i])
  {
    if s != [] && IsWhitespace(s[|s| - 1]) then TrimEnd(s[..|s| - 1]) else s
  }

  /** `str::trim`. */
  function Trim(s: string): string {
    TrimEnd(TrimStart(s))
  }

  predicate StartsWith(s: string, prefix: string) {
    |prefix| <= |s| && s[..|prefix|] == prefix
  }

  /** The position of the first `c` in `s`, or `|s|` when there is none. */
  function IndexOf(s: string, c: char): (i: nat)
    ensures i <= |s|
    ensures i < |s| ==> s[i] == c
    ensures forall k :: 0 <= k < i ==> s[k] != c
  {
    if s == [] then 0 else if s[0] == c then 0 else 1 + IndexOf(s[1..], c)
  }

  /** The pieces joined back with `sep` between them. */
  function Join(parts: seq<string>, sep: char): string
    requires |parts| >= 1
  {
    if |parts| == 1 then parts[0] else parts[0] + [sep] + Join(parts[1..], sep)
  }

  /** `str::split(sep)` for a single character: at least one piece, none containing `sep`. */
  function Split(s: string, sep: char): (r: seq<string>)
    ensures |r| >= 1
    ensures forall k :: 0 <= k < |r| ==> sep !in r[k]
    ensures Join(r, sep) == s
    decreases |s|
  {
    var i := IndexOf(s, sep);
    if i == |s| then
      [s]
    else
      var rest := Split(s[i + 1..], sep);
      assert s == s[..i] + [sep] + s[i + 1..];
      [s[..i]] + rest
  }

  /** The inverse direction: splitting a join whose pieces do not contain the separator. */
  lemma {:induction false} SplitJoin(parts: seq<string>, sep: char)
    requires |parts| >= 1
    requires forall k :: 0 <= k < |parts| ==> sep !in parts[k]
    ensures Split(Join(parts, sep), sep) == parts
  {
    if |parts| > 1 {
      var s := Join(parts, sep);
      var tail := Join(parts[1..], sep);
      assert s == parts[0] + [sep] + tail;
      assert IndexOf(s, sep) == |parts[0]| by {
        assert s[|parts[0]|] == sep;
        forall k | 0 <= k < |parts[0]| ensures s[k] != sep {
          assert s[k] == parts[0][k];
        }
      }
      assert s[|parts[0]| + 1..] == tail;
      assert s[..|parts[0]|] == parts[0];
      SplitJoin(parts[1..], sep);
      assert parts == [parts[0]] + parts[1..];
    } else {
      assert sep !in parts[0];
    }
  }

  /** A line as `lines()` yields it: the text before a `\n`, minus one `\r` right before it. */
  function StripCarriageReturn(line: string): string {
    if |line| > 0 && line[|line| - 1] == '\r' then line[..|line| - 1] else line
  }

  /**
   * `str::lines()`: the text split at each `\n`, a `\r` before the `\n` dropped; a final
   * line end does not start another (empty) line.
   */
  function Lines(s: string): (r: seq<string>)
    ensures forall k :: 0 <= k < |r| ==> '\n' !in r[k]
    ensures s == [] <==> r == []
    decreases |s|
  {
    if s == [] then
      []
    else
      var i := IndexOf(s, '\n');
      if i == |s| then [s] else [StripCarriageReturn(s[..i])] + Lines(s[i + 1..])
  }

  /** Text written one line at a time with `writeln!`. */
  function Unlines(lines: seq<string>): string {
    if lines == [] then [] else lines[0] + "\n" + Unlines(lines[1..])
  }

  /** Reading back what `writeln!` wrote gives the same lines. */
  lemma {:induction false} LinesUnlines(lines: seq<string>)
    requires forall k :: 0 <= k < |lines| ==> '\n' !in lines[k]
    requires forall k :: 0 <= k < |lines| ==> lines[k] == [] || lines[k][|lines[k]| - 1] != '\r'
    ensures Lines(Unlines(lines)) == lines
  {
    if lines != [] {
      var s := Unlines(lines);
      var l := lines[0];
      assert s == l + "\n" + Unlines(lines[1..]);
      assert IndexOf(s, '\n') == |l| by {
        assert s[|l|] == '\n';
        forall k | 0 <= k < |l| ensures s[k] != '\n' {
          assert s[k] == l[k];
        }
      }
      assert s[..|l|] == l;
      assert s[|l| + 1..] == Unlines(lines[1..]);
      LinesUnlines(lines[1..]);
      assert lines == [l] + lines[1..];
    }
  }

  /** Writing one more line appends it and a line end. */
  lemma {:induction false} UnlinesSnoc(xs: seq<string>, x: string)
    ensures Unlines(xs + [x]) == Unlines(xs) + x + "\n"
  {
    if xs == [] {
      assert [] + [x] == [x];
    } else {
      assert (xs + [x])[1..] == xs[1..] + [x];
      UnlinesSnoc(xs[1..], x);
    }
  }

  /** The value of a digit in any radix up to 36, as `char::to_digit` reads it. */
  function DigitValue(c: char): (r: Option<nat>)
    ensures r.Some? ==> r.value < 36
    ensures r.Some? <==> ('0' <= c <= '9' || 'a' <= c <= 'z' || 'A' <= c <= 'Z')
  {
    if '0' <= c <= '9' then Some(c as nat - '0' as nat)
    else if 'a' <= c <= 'z' then Some(c as nat - 'a' as nat + 10)
    else if 'A' <= c <= 'Z' then Some(c as nat - 'A' as nat + 10)
    else None
  }

  predicate IsDigit(c: char, radix: nat) {
    DigitValue(c).Some? && DigitValue(c).value < radix
  }

  /** The number a non-empty run of digits denotes, most significant digit first. */
  function DigitsValue(s: string, radix: nat): nat
    requires forall i :: 0 <= i < |s| ==> IsDigit(s[i], radix)
  {
    if s == [] then 0
    else
      assert IsDigit(s[|s| - 1], radix);
      Shift(DigitsValue(s[..|s| - 1], radix), radix, DigitValue(s[|s| - 1]).value)
  }

  /** One more digit `d` after the value `v` in radix `radix`. */
  function Shift(v: nat, radix: nat, d: nat): nat {
    v * radix + d
  }

  /**
   * `u32::from_str_radix`: an optional `+`, then at least one digit of the radix; the value
   * must fit 32 bits. Unsigned types do not accept a `-`.
   */
  function ParseU32(s: string, radix: nat): (r: Option<u32>)
    requires 2 <= radix <= 36
    ensures s == [] ==> r == None
    ensures r.Some? ==> (s != [] &&
      var d := if s[0] == '+' then s[1..] else s;
      d != [] && (forall i :: 0 <= i < |d| ==> IsDigit(d[i], radix)) && r.value == DigitsValue(d, radix))
    ensures s != [] ==> (
      var d := if s[0] == '+' then s[1..] else s;
      (d != [] && (forall i :: 0 <= i < |d| ==> IsDigit(d[i], radix)) && DigitsValue(d, radix) < U32_LIMIT) ==>
        r == Some(DigitsValue(d, radix)))
  {
    if s == [] || s == "+" then None
    else
      var digits := if s[0] == '+' then s[1..] else s;
      if forall i :: 0 <= i < |digits| ==> IsDigit(digits[i], radix) then
        var v := DigitsValue(digits, radix);
        if v < U32_LIMIT then Some(v) else None
      else None
  }

  /** The digit for a value below the radix, lower case as `{:x}` prints it. */
  function DigitChar(d: nat): (c: char)
    requires d < 16
    ensures DigitValue(c) == Some(d)
  {
    if d < 10 then ('0' as nat + d) as char else ('a' as nat + d - 10) as char
  }

  /** The shortest digit string of `v` in `radix` (`{}` for 10, `{:x}` for 16). */
  function Format(v: nat, radix: nat): (s: string)
    requires radix == 10 || radix == 16
    ensures s != [] && s[0] != '+'
    ensures forall i :: 0 <= i < |s| ==> IsDigit(s[i], radix)
    decreases v
  {
    if v < radix then [DigitChar(v)] else Format(v / radix, radix) + [DigitChar(v % radix)]
  }

  /** `Format` followed by left zero-padding to at least `width` digits (`{:08x}`). */
  function FormatPadded(v: nat, radix: nat, width: nat): (s: string)
    requires radix == 10 || radix == 16
    ensures |s| >= width
    ensures forall i :: 0 <= i < |s| ==> IsDigit(s[i], radix)
  {
    var digits := Format(v, radix);
    if |digits| >= width then digits else seq(width - |digits|, _ => '0') + digits
  }

  lemma {:induction false} FormatValue(v: nat, radix: nat)
    requires radix == 10 || radix == 16
    ensures DigitsValue(Format(v, radix), radix) == v
    decreases v
  {
    var s := Format(v, radix);
    if v >= radix {
      FormatValue(v / radix, radix);
      assert s[..|s| - 1] == Format(v / radix, radix);
    }
  }

  /** Parsing what `Format` printed gives the number back, for every u32. */
  lemma ParseFormat(v: u32, radix: nat)
    requires radix == 10 || radix == 16
    ensures ParseU32(Format(v, radix), radix) == Some(v)
  {
    FormatValue(v, radix);
  }

  /** A string that neither starts nor ends with whitespace is its own trim. */
  lemma TrimPlain(s: string)
    requires s != [] && !IsWhitespace(s[0]) && !IsWhitespace(s[|s| - 1])
    ensures Trim(s) == s
  {
  }

  /** Digits are neither whitespace nor line breaks. */
  lemma DigitsArePlain(s: string, radix: nat)
    requires s != [] && forall i :: 0 <= i < |s| ==> IsDigit(s[i], radix)
    ensures !IsWhitespace(s[0]) && !IsWhitespace(s[|s| - 1])
    ensures '\n' !in s && s[|s| - 1] != '\r'
  {
    assert IsDigit(s[0], radix) && IsDigit(s[|s| - 1], radix);
    forall i | 0 <= i < |s| ensures s[i] != '\n' {
      assert IsDigit(s[i], radix);
    }
  }
}
