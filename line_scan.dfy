/** The line loop the DeepDi and identify-x86 readers share, over what each makes of a line. */
module LineScan {
  import opened Wrappers
  import opened Words

  /** A line is skipped, holds a value, or fails to parse. */
  datatype Verdict = Skip | Value(v: u32) | Bad

  /** The values of the lines in reading order; `None` from the first bad line on. */
  function Scan(vs: seq<Verdict>): Option<set<u32>> {
    if vs == [] then Some({})
    else
      var prev := Scan(vs[..|vs| - 1]);
      match vs[|vs| - 1]
      case Skip => prev
      case Bad => None
      case Value(x) => if prev.None? then None else Some(prev.value + {x})
  }

  /** Reading fails exactly when some line is bad. */
  lemma {:induction false} ScanFails(vs: seq<Verdict>)
    ensures Scan(vs).None? <==> Bad in vs
  {
    if vs != [] {
      var init := vs[..|vs| - 1];
      ScanFails(init);
      assert vs == init + [vs[|vs| - 1]];
    }
  }

  /** Otherwise the values read are exactly the values of the lines. */
  lemma {:induction false} ScanYields(vs: seq<Verdict>)
    requires Scan(vs).Some?
    ensures forall x :: x in Scan(vs).value <==> Value(x) in vs
  {
    if vs != [] {
      var init := vs[..|vs| - 1];
      ScanYields(init);
      assert vs == init + [vs[|vs| - 1]];
    }
  }

  /** One more line that is not bad adds its value, if any, to what was read. */
  lemma ScanStep(vs: seq<Verdict>, i: nat, acc: set<u32>)
    requires i < |vs| && Scan(vs[..i]) == Some(acc) && vs[i] != Bad
    ensures Scan(vs[..i + 1]) == Some(if vs[i].Value? then acc + {vs[i].v} else acc)
  {
    assert vs[..i + 1][..i] == vs[..i];
  }

  function Values(xs: seq<u32>): (vs: seq<Verdict>)
    ensures |vs| == |xs| && forall k :: 0 <= k < |xs| ==> vs[k] == Value(xs[k])
  {
    seq(|xs|, k requires 0 <= k < |xs| => Value(xs[k]))
  }

  /** Lines that all hold values read as the set of those values. */
  lemma ScanValues(xs: seq<u32>)
    ensures Scan(Values(xs)) == Some(set x: u32 | x in xs)
  {
    ScanFails(Values(xs));
    assert Bad !in Values(xs);
    ScanYields(Values(xs));
    forall x | Value(x) in Values(xs) ensures x in xs {
      var k :| 0 <= k < |xs| && Values(xs)[k] == Value(x);
    }
    forall x | x in xs ensures Value(x) in Values(xs) {
      var k :| 0 <= k < |xs| && xs[k] == x;
      assert Values(xs)[k] == Value(x);
    }
    assert Scan(Values(xs)).value == set x: u32 | x in xs;
  }
}
