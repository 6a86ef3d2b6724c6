/** The identify-x86 output reader: predicted node indices mapped to superset addresses. */
module IdentifyX86Output {
  import opened Wrappers
  import opened Words
  import opened Text
  import opened OrderedSets
  import opened Containers
  import opened LineScan
  import opened Superset

  /** A non-empty trimmed line names a node by its decimal index (`u32::from_str`). */
  function LineVerdict(line: string): Verdict {
    var t := Trim(line);
    if t == [] then Skip
    else
      match ParseU32(t, 10)
      case None => Bad
      case Some(i) => Value(i)
  }

  function Verdicts(lines: seq<string>): (vs: seq<Verdict>)
    ensures |vs| == |lines| && forall k :: 0 <= k < |lines| ==> vs[k] == LineVerdict(lines[k])
  {
    seq(|lines|, k requires 0 <= k < |lines| => LineVerdict(lines[k]))
  }

  /**
   * The line loop: each index joins a `BTreeSet`, kept here as its ascending sequence of
   * elements.
   */
  method ParseNodes(output: string) returns (r: Result<seq<u32>>)
    ensures !r.Panic?
    ensures r.Err? <==> Scan(Verdicts(Lines(output))).None?
    ensures r.Ok? ==> Increasing(r.value) && forall i :: i in r.value <==> i in Scan(Verdicts(Lines(output))).value
  {
    var lines := Lines(output);
    ghost var vs := Verdicts(lines);
    var predictedNodes: seq<u32> := [];
    for i := 0 to |lines|
      invariant Increasing(predictedNodes)
      invariant Scan(vs[..i]).Some?
      invariant forall n :: n in predictedNodes <==> n in Scan(vs[..i]).value
    {
      var verdict := ReadLine(lines[i]);
      if verdict.Bad? {
        ScanFails(vs);
        return Err("Failed to parse node index");
      }
      ghost var acc := Scan(vs[..i]).value;
      ScanStep(vs, i, acc);
      predictedNodes := Absorb(predictedNodes, acc, verdict);
    }
    assert vs[..|lines|] == vs;
    r := Ok(predictedNodes);
  }

  /** A value verdict inserts its index into the ascending node sequence; a skip leaves it. */
  method Absorb(nodes: seq<u32>, ghost acc: set<u32>, verdict: Verdict) returns (next: seq<u32>)
    requires verdict != Bad && Increasing(nodes) && forall n :: n in nodes <==> n in acc
    ensures Increasing(next) && forall n :: n in next <==> n in (if verdict.Value? then acc + {verdict.v} else acc)
  {
    next := nodes;
    if verdict.Value? {
      next := Insert(nodes, verdict.v);
    }
  }

  /** The body of the line loop: trim, skip an empty line, parse the rest as decimal. */
  method ReadLine(line: string) returns (verdict: Verdict)
    ensures verdict == LineVerdict(line)
  {
    var trimmed := Trim(line);
    if trimmed == [] {
      return Skip;
    }
    var index := ParseU32(trimmed, 10);
    if index.None? {
      return Bad;
    }
    verdict := Value(index.value);
  }

  /** The addresses of the predicted nodes; an index past the end of the superset panics. */
  function Predicted(nodes: set<u32>, superset: seq<Entry>): (r: Result<set<u32>>)
    ensures !r.Err?
  {
    if exists i :: i in nodes && i >= |superset| then Panic("index out of bounds")
    else Ok(set i | i in nodes && i < |superset| :: superset[i].addr)
  }

  /** The mapping to addresses, in ascending node order. */
  method NodeAddresses(nodes: seq<u32>, superset: seq<Entry>) returns (r: Result<set<u32>>)
    ensures r == Predicted((set i: u32 | i in nodes), superset)
  {
    var predicted: set<u32> := {};
    for k := 0 to |nodes|
      invariant forall j :: 0 <= j < k ==> nodes[j] < |superset|
      invariant predicted == set j | 0 <= j < k :: superset[nodes[j]].addr
    {
      if nodes[k] as int >= |superset| {
        var bad := nodes[k];
        ghost var chosen := set i: u32 | i in nodes;
        assert bad in chosen && bad >= |superset|;
        assert Predicted(chosen, superset) == Panic("index out of bounds");
        return Panic("index out of bounds");
      }
      predicted := predicted + {superset[nodes[k]].addr};
    }
    ghost var chosen := set i: u32 | i in nodes;
    forall i | i in chosen ensures i < |superset| {
      var j :| 0 <= j < |nodes| && nodes[j] == i;
    }
    assert predicted == set i | i in chosen && i < |superset| :: superset[i].addr by {
      forall a | a in set i | i in chosen && i < |superset| :: superset[i].addr
        ensures a in predicted
      {
        var i :| i in chosen && i < |superset| && superset[i].addr == a;
        var j :| 0 <= j < |nodes| && nodes[j] == i;
      }
    }
    r := Ok(predicted);
  }

  /** The outcome for the indices read: a parse error, or their addresses. */
  function Identified(read: Option<set<u32>>, superset: seq<Entry>): Result<set<u32>> {
    if read.None? then Err("Failed to parse node index") else Predicted(read.value, superset)
  }

  /**
   * `run_identify_x86` after the container has run: status, delete, UTF-8, the node indices,
   * then their addresses.
   */
  method RunIdentifyX86(statusCode: int, deleteSucceeds: bool, output: Option<string>, superset: seq<Entry>)
    returns (r: Result<set<u32>>, deleted: bool)
    ensures deleted == CheckThenDelete(statusCode, deleteSucceeds).deleted
    ensures !CheckThenDelete(statusCode, deleteSucceeds).proceed || output.None? ==> r.Err?
    ensures CheckThenDelete(statusCode, deleteSucceeds).proceed && output.Some? ==>
              r == Identified(Scan(Verdicts(Lines(output.value))), superset)
  {
    var finish := CheckThenDelete(statusCode, deleteSucceeds);
    deleted := finish.deleted;
    if statusCode != 0 {
      return Err("identify-x86 exited with non-successful exit code"), deleted;
    }
    if !deleteSucceeds {
      return Err("Failed to delete identify-x86 container"), deleted;
    }
    if output.None? {
      return Err("Failed to parse identify-x86 output as string"), deleted;
    }
    var nodes := ParseNodes(output.value);
    if nodes.Err? {
      return Err("Failed to parse node index"), deleted;
    }
    assert (set i: u32 | i in nodes.value) == Scan(Verdicts(Lines(output.value))).value;
    r := NodeAddresses(nodes.value, superset);
  }

  /** identify-x86 prints each predicted node as its decimal index on a line of its own. */
  lemma ReadBackNodes(nodes: seq<u32>)
    ensures Scan(Verdicts(Lines(Unlines(DecimalLines(nodes))))) == Some(set i: u32 | i in nodes)
  {
    var lines := DecimalLines(nodes);
    forall k | 0 <= k < |lines|
      ensures '\n' !in lines[k] && (lines[k] == [] || lines[k][|lines[k]| - 1] != '\r')
      ensures Verdicts(lines)[k] == Values(nodes)[k]
    {
      DigitsArePlain(Format(nodes[k], 10), 10);
      TrimPlain(Format(nodes[k], 10));
      ParseFormat(nodes[k], 10);
    }
    LinesUnlines(lines);
    assert Verdicts(lines) == Values(nodes);
    ScanValues(nodes);
  }

  function DecimalLines(nodes: seq<u32>): (r: seq<string>)
    ensures |r| == |nodes| && forall k :: 0 <= k < |r| ==> r[k] == Format(nodes[k], 10)
  {
    seq(|nodes|, k requires 0 <= k < |nodes| => Format(nodes[k], 10))
  }
}
