/** The IDA `.lst` listing filter: the addresses of the lines that list an instruction. */
module IdaListing {
  import opened Wrappers
  import opened Words
  import opened Text

  /**
   * A line of the listing as the listing pattern sees it: no match, or a match with its
   * upper-case hexadecimal address digits and, when bytes follow, the text after them.
   */
  datatype ListingLine = Unmatched | Listed(addr: string, content: Option<string>)

  /** The address of a matched line (`u32::from_str_radix(_, 16)`). */
  function LineAddr(line: ListingLine): Option<u32>
    requires line.Listed?
  {
    ParseU32(line.addr, 16)
  }

  /** The first two space-separated words of the content. */
  function LeadingWords(content: string): (r: seq<string>)
    ensures |r| <= 2
  {
    var words := Split(content, ' ');
    if |words| <= 2 then words else words[..2]
  }

  /** Data directives and UTF-16 strings are not instructions. */
  predicate LooksLikeData(content: string) {
    (exists w :: w in LeadingWords(content) && w in {"db", "dw", "dd", "dq", "align"})
    || StartsWith(content, "text \"UTF-16LE\"")
  }

  /**
   * The address last processed after `lines`: that of the last matched line carrying content,
   * or the initial 0.
   */
  function LastProcessed(lines: seq<ListingLine>): u32 {
    if lines == [] then 0
    else
      var line := lines[|lines| - 1];
      if line.Listed? && line.content.Some? && LineAddr(line).Some? then LineAddr(line).value
      else LastProcessed(lines[..|lines| - 1])
  }

  /** Line `k` records address `a`: an instruction line at an address other than the last one. */
  ghost predicate Records(lines: seq<ListingLine>, k: int, a: u32) {
    && 0 <= k < |lines| && lines[k].Listed? && LineAddr(lines[k]) == Some(a)
    && lines[k].content.Some? && !LooksLikeData(lines[k].content.value)
    && a != LastProcessed(lines[..k])
  }

  /** Some matched line has an address that does not fit a u32, and `unwrap` panics. */
  ghost predicate BadAddress(lines: seq<ListingLine>, k: int) {
    0 <= k < |lines| && lines[k].Listed? && LineAddr(lines[k]).None?
  }

  /** The addresses recorded from `lines`, line by line. */
  function Recorded(lines: seq<ListingLine>): set<u32> {
    if lines == [] then {}
    else
      var init := lines[..|lines| - 1];
      var line := lines[|lines| - 1];
      Recorded(init)
      + if line.Listed? && line.content.Some? && LineAddr(line).Some? && !LooksLikeData(line.content.value)
           && LineAddr(line).value != LastProcessed(init)
        then {LineAddr(line).value} else {}
  }

  /** An address is recorded exactly when some line records it. */
  lemma {:induction false} RecordedMeaning(lines: seq<ListingLine>)
    ensures forall a :: a in Recorded(lines) <==> exists k :: Records(lines, k, a)
  {
    if lines != [] {
      var init := lines[..|lines| - 1];
      var last := |lines| - 1;
      RecordedMeaning(init);
      assert lines[..last] == init;
      forall a ensures a in Recorded(lines) <==> exists k :: Records(lines, k, a) {
        if exists k :: Records(lines, k, a) {
          var k :| Records(lines, k, a);
          if k < last {
            assert lines[..k] == init[..k];
            assert Records(init, k, a);
          }
        }
        if exists k :: Records(init, k, a) {
          var k :| Records(init, k, a);
          assert lines[..k] == init[..k];
          assert Records(lines, k, a);
        } else if a in Recorded(lines) {
          assert a !in Recorded(init);
          var line := lines[last];
          assert line.Listed? && line.content.Some? && LineAddr(line) == Some(a);
          assert Records(lines, last, a);
        }
      }
    }
  }

  /**
   * `parse_lst`: unmatched lines are ignored; a line at the last processed address is skipped;
   * a line with content becomes the last processed one and is recorded unless it looks like
   * data. An address too long for a u32 panics.
   */
  method ParseLst(lines: seq<ListingLine>) returns (r: Result<set<u32>>)
    ensures !r.Err?
    ensures r.Panic? <==> exists k :: BadAddress(lines, k)
    ensures r.Ok? ==> forall a :: a in r.value <==> exists k :: Records(lines, k, a)
  {
    var result: set<u32> := {};
    var prevProcessedAddr: u32 := 0;
    for i := 0 to |lines|
      invariant forall k :: 0 <= k < i ==> !BadAddress(lines, k)
      invariant prevProcessedAddr == LastProcessed(lines[..i])
      invariant result == Recorded(lines[..i])
    {
      var line := lines[i];
      if line.Listed? {
        var addr := ParseU32(line.addr, 16);
        if addr.None? {
          assert BadAddress(lines, i);
          return Panic("called `Result::unwrap()` on an `Err` value");
        }
        ListingStep(lines, i);
        if prevProcessedAddr != addr.value && line.content.Some? {
          var content := line.content.value;
          var looksLikeData := LooksLikeData(content);
          prevProcessedAddr := addr.value;
          if !looksLikeData {
            result := result + {addr.value};
          }
        }
      } else {
        ListingStep(lines, i);
      }
    }
    assert lines[..|lines|] == lines;
    RecordedMeaning(lines);
    r := Ok(result);
  }

  /** What one more line does to the last processed address and to the recorded set. */
  lemma ListingStep(lines: seq<ListingLine>, i: nat)
    requires i < |lines| && (lines[i].Listed? ==> LineAddr(lines[i]).Some?)
    ensures var line := lines[i];
      var content := line.Listed? && line.content.Some?;
      && LastProcessed(lines[..i + 1]) == (if content then LineAddr(line).value else LastProcessed(lines[..i]))
      && Recorded(lines[..i + 1]) == Recorded(lines[..i])
           + if content && !LooksLikeData(line.content.value) && LineAddr(line).value != LastProcessed(lines[..i])
             then {LineAddr(line).value} else {}
  {
    assert lines[..i + 1][..i] == lines[..i];
  }

  /** Every matched address in a listing written in address order is at least the last one. */
  ghost predicate InAddressOrder(lines: seq<ListingLine>) {
    forall j, k :: 0 <= j < k < |lines| && lines[j].Listed? && lines[k].Listed?
                   && LineAddr(lines[j]).Some? && LineAddr(lines[k]).Some?
                   ==> LineAddr(lines[j]).value <= LineAddr(lines[k]).value
  }

  /** The last processed address is the initial 0 or the address of an earlier content line. */
  lemma {:induction false} LastProcessedFrom(lines: seq<ListingLine>)
    ensures LastProcessed(lines) == 0 || exists j :: 0 <= j < |lines| && lines[j].Listed? && LineAddr(lines[j]) == Some(LastProcessed(lines))
  {
    if lines != [] {
      var init := lines[..|lines| - 1];
      LastProcessedFrom(init);
      if LastProcessed(lines) != 0 && LastProcessed(lines) == LastProcessed(init) {
        var j :| 0 <= j < |init| && init[j].Listed? && LineAddr(init[j]) == Some(LastProcessed(init));
        assert lines[j] == init[j];
      }
    }
  }

  /**
   * Address 0 is never recorded from a listing in address order: while only address 0 has
   * been seen, the last processed address is still the initial 0.
   */
  lemma ZeroNeverRecorded(lines: seq<ListingLine>, k: nat)
    requires InAddressOrder(lines)
    ensures !Records(lines, k, 0)
  {
    if k < |lines| && lines[k].Listed? && LineAddr(lines[k]) == Some(0) {
      LastProcessedFrom(lines[..k]);
    }
  }

  /** A line repeating the address of the content line before it is never recorded. */
  lemma RepeatSkipped(lines: seq<ListingLine>, k: nat)
    requires 0 < k < |lines| && lines[k - 1].Listed? && lines[k - 1].content.Some?
    requires lines[k].Listed? && lines[k].addr == lines[k - 1].addr
    ensures forall a :: !Records(lines, k, a)
  {
    assert lines[..k][k - 1] == lines[k - 1];
    assert lines[..k][..k - 1] == lines[..k - 1];
  }
}
