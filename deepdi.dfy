/** The DeepDi output reader, in both runner variants. */
module DeepDi {
  import opened Wrappers
  import opened Words
  import opened Text
  import opened Containers
  import opened LineScan

  /**
   * A line lists an address when, trimmed, it starts with `0x`; the rest must be hexadecimal
   * digits of a u32.
   */
  function LineVerdict(line: string): Verdict {
    var t := Trim(line);
    if t == [] || !StartsWith(t, "0x") then Skip
    else
      match ParseU32(t[2..], 16)
      case None => Bad
      case Some(a) => Value(a)
  }

  function Verdicts(lines: seq<string>): (vs: seq<Verdict>)
    ensures |vs| == |lines| && forall k :: 0 <= k < |lines| ==> vs[k] == LineVerdict(lines[k])
  {
    seq(|lines|, k requires 0 <= k < |lines| => LineVerdict(lines[k]))
  }

  /** The line loop of both runners: addresses collected into a set, the first bad line fails. */
  method ParseOutput(output: string) returns (r: Result<set<u32>>)
    ensures !r.Panic?
    ensures r.Err? <==> Scan(Verdicts(Lines(output))).None?
    ensures r.Ok? ==> r.value == Scan(Verdicts(Lines(output))).value
  {
    var lines := Lines(output);
    ghost var vs := Verdicts(lines);
    var predicted: set<u32> := {};
    for i := 0 to |lines|
      invariant Scan(vs[..i]) == Some(predicted)
    {
      var verdict := ReadLine(lines[i]);
      if verdict.Bad? {
        ScanFails(vs);
        return Err("Failed to parse address");
      }
      ScanStep(vs, i, predicted);
      if verdict.Value? {
        predicted := predicted + {verdict.v};
      }
    }
    assert vs[..|lines|] == vs;
    r := Ok(predicted);
  }

  /** The body of the line loop: trim, skip unless `0x` starts the line, parse the rest. */
  method ReadLine(line: string) returns (verdict: Verdict)
    ensures verdict == LineVerdict(line)
  {
    var trimmed := Trim(line);
    if trimmed == [] || !StartsWith(trimmed, "0x") {
      return Skip;
    }
    var address := ParseU32(trimmed[2..], 16);
    if address.None? {
      return Bad;
    }
    verdict := Value(address.value);
  }

  /**
   * `run_deepdi` of the disassembly tool: the exit status is checked before the container is
   * deleted; the output must be UTF-8 (`None` when it is not).
   */
  method RunDeepDiTool(statusCode: int, deleteSucceeds: bool, output: Option<string>)
    returns (r: Result<set<u32>>, deleted: bool)
    ensures !r.Panic?
    ensures deleted == CheckThenDelete(statusCode, deleteSucceeds).deleted
    ensures !CheckThenDelete(statusCode, deleteSucceeds).proceed || output.None? ==> r.Err?
    ensures CheckThenDelete(statusCode, deleteSucceeds).proceed && output.Some? ==>
              var read := Scan(Verdicts(Lines(output.value)));
              (r.Err? <==> read.None?) && (r.Ok? ==> r.value == read.value)
  {
    var finish := CheckThenDelete(statusCode, deleteSucceeds);
    deleted := finish.deleted;
    if statusCode != 0 {
      return Err("DeepDi exited with non-successful exit code"), deleted;
    }
    if !deleteSucceeds {
      return Err("Failed to delete DeepDi container"), deleted;
    }
    if output.None? {
      return Err("Failed to parse DeepDi output as string"), deleted;
    }
    r := ParseOutput(output.value);
  }

  /** `run_deepdi` of the runners: the container is deleted first, then the status checked. */
  method RunDeepDiRunner(statusCode: int, deleteSucceeds: bool, output: Option<string>)
    returns (r: Result<set<u32>>, deleted: bool)
    ensures !r.Panic?
    ensures deleted == DeleteThenCheck(statusCode, deleteSucceeds).deleted
    ensures !DeleteThenCheck(statusCode, deleteSucceeds).proceed || output.None? ==> r.Err?
    ensures DeleteThenCheck(statusCode, deleteSucceeds).proceed && output.Some? ==>
              var read := Scan(Verdicts(Lines(output.value)));
              (r.Err? <==> read.None?) && (r.Ok? ==> r.value == read.value)
  {
    var finish := DeleteThenCheck(statusCode, deleteSucceeds);
    deleted := finish.deleted;
    if !deleteSucceeds {
      return Err("Failed to delete DeepDi container"), deleted;
    }
    if statusCode != 0 {
      return Err("DeepDi exited with non-successful exit code"), deleted;
    }
    if output.None? {
      return Err("Failed to parse DeepDi output as string"), deleted;
    }
    r := ParseOutput(output.value);
  }

  /** The line DeepDi prints for an address: `0x` and its hexadecimal digits. */
  function HexLine(a: u32): string {
    "0x" + Format(a, 16)
  }

  /** A printed line lists its address and holds no line break. */
  lemma HexLineFacts(a: u32)
    ensures LineVerdict(HexLine(a)) == Value(a)
    ensures '\n' !in HexLine(a) && HexLine(a)[|HexLine(a)| - 1] != '\r'
  {
    var digits := Format(a, 16);
    var line := HexLine(a);
    DigitsArePlain(digits, 16);
    assert line[|line| - 1] == digits[|digits| - 1];
    TrimPlain(line);
    assert line[2..] == digits;
    ParseFormat(a, 16);
  }

  function HexLines(addrs: seq<u32>): (r: seq<string>)
    ensures |r| == |addrs| && forall k :: 0 <= k < |r| ==> r[k] == HexLine(addrs[k])
  {
    seq(|addrs|, k requires 0 <= k < |addrs| => HexLine(addrs[k]))
  }

  /** Reading back the addresses DeepDi printed, one per line, gives exactly the set of them. */
  lemma ReadBack(addrs: seq<u32>)
    ensures Scan(Verdicts(Lines(Unlines(HexLines(addrs))))) == Some(set a: u32 | a in addrs)
  {
    var lines := HexLines(addrs);
    forall k | 0 <= k < |lines|
      ensures '\n' !in lines[k] && (lines[k] == [] || lines[k][|lines[k]| - 1] != '\r')
      ensures Verdicts(lines)[k] == Values(addrs)[k]
    {
      HexLineFacts(addrs[k]);
    }
    LinesUnlines(lines);
    assert Verdicts(lines) == Values(addrs);
    ScanValues(addrs);
  }
}
