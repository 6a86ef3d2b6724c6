/**
 * Scoring a disassembly result against the labelled superset: the addresses labelled Code are
 * the truth, and the predicted addresses split into true and false positives, the missed truth
 * into false negatives.
 */
module Evaluate {
  import opened Wrappers
  import opened Words
  import opened Superset

  /** `EvaluationResult`: the three address sets. */
  datatype Evaluation = Evaluation(truePositives: set<u32>, falsePositives: set<u32>, falseNegatives: set<u32>)

  /** The integer part of `EvaluationResultSummary`. */
  datatype Summary = Summary(truePositives: nat, falsePositives: nat, falseNegatives: nat)

  predicate Labelled(superset: seq<Entry>) {
    forall k :: 0 <= k < |superset| ==> superset[k].truth.Some?
  }

  /** The addresses of the entries labelled Code. */
  function CodeAddrs(superset: seq<Entry>): set<u32> {
    set k | 0 <= k < |superset| && superset[k].truth == Some(Code) :: superset[k].addr
  }

  /** What the scoring computes, as set algebra. */
  function Expected(code: set<u32>, predicted: set<u32>): Evaluation {
    Evaluation(predicted * code, predicted - code, code - predicted)
  }

  /**
   * `evaluate_result`: every entry's label is unwrapped (a missing one panics), the Code
   * addresses are collected, then each predicted address is a true or a false positive, and
   * each Code address not predicted a false negative.
   */
  method EvaluateResult(superset: seq<Entry>, predicted: set<u32>) returns (r: Result<Evaluation>)
    ensures !r.Err?
    ensures r.Panic? <==> !Labelled(superset)
    ensures r.Ok? ==> r.value == Expected(CodeAddrs(superset), predicted)
  {
    var truth := CollectCode(superset);
    if truth.None? {
      return Panic("called `Option::unwrap()` on a `None` value");
    }
    var trueResult := truth.value;
    var truePositives, falsePositives := SplitPredicted(predicted, trueResult);
    var falseNegatives := Missed(trueResult, predicted);
    r := Ok(Evaluation(truePositives, falsePositives, falseNegatives));
  }

  /** The first loop: the Code addresses, or `None` where a label is missing and unwrap panics. */
  method CollectCode(superset: seq<Entry>) returns (r: Option<set<u32>>)
    ensures r.None? <==> !Labelled(superset)
    ensures r.Some? ==> r.value == CodeAddrs(superset)
  {
    var trueResult: set<u32> := {};
    for i := 0 to |superset|
      invariant Labelled(superset[..i])
      invariant trueResult == CodeAddrs(superset[..i])
    {
      if superset[i].truth.None? {
        return None;
      }
      if superset[i].truth == Some(Code) {
        trueResult := trueResult + {superset[i].addr};
      }
      CodeAddrsSnoc(superset[..i + 1]);
      assert superset[..i + 1][..i] == superset[..i];
    }
    assert superset[..|superset|] == superset;
    r := Some(trueResult);
  }

  /** The second loop: each predicted address is a true positive exactly when it is Code. */
  method SplitPredicted(predicted: set<u32>, trueResult: set<u32>) returns (truePositives: set<u32>, falsePositives: set<u32>)
    ensures truePositives == predicted * trueResult && falsePositives == predicted - trueResult
  {
    truePositives, falsePositives := {}, {};
    var rest := predicted;
    while rest != {}
      invariant rest <= predicted
      invariant truePositives == (predicted - rest) * trueResult
      invariant falsePositives == (predicted - rest) - trueResult
      decreases |rest|
    {
      var address :| address in rest;
      if address in trueResult {
        truePositives := truePositives + {address};
      } else {
        falsePositives := falsePositives + {address};
      }
      rest := rest - {address};
    }
  }

  /** The third loop: the Code addresses that were not predicted. */
  method Missed(trueResult: set<u32>, predicted: set<u32>) returns (falseNegatives: set<u32>)
    ensures falseNegatives == trueResult - predicted
  {
    falseNegatives := {};
    var rest := trueResult;
    while rest != {}
      invariant rest <= trueResult
      invariant falseNegatives == (trueResult - rest) - predicted
      decreases |rest|
    {
      var address :| address in rest;
      if address !in predicted {
        falseNegatives := falseNegatives + {address};
      }
      rest := rest - {address};
    }
  }

  /** The Code addresses of a prefix one entry longer. */
  lemma CodeAddrsSnoc(superset: seq<Entry>)
    requires superset != []
    ensures CodeAddrs(superset) == CodeAddrs(superset[..|superset| - 1])
              + (if superset[|superset| - 1].truth == Some(Code) then {superset[|superset| - 1].addr} else {})
  {
    var init := superset[..|superset| - 1];
    var last := |superset| - 1;
    forall a | a in CodeAddrs(superset)
      ensures a in CodeAddrs(init) || (superset[last].truth == Some(Code) && a == superset[last].addr)
    {
      var k :| 0 <= k < |superset| && superset[k].truth == Some(Code) && superset[k].addr == a;
      if k < last {
        assert init[k] == superset[k];
      }
    }
    forall a | a in CodeAddrs(init) ensures a in CodeAddrs(superset) {
      var k :| 0 <= k < |init| && init[k].truth == Some(Code) && init[k].addr == a;
      assert superset[k] == init[k];
    }
  }

  /** `summary`: the sizes of the three sets (the ratios are floating point and left out). */
  function Summarize(e: Evaluation): Summary {
    Summary(|e.truePositives|, |e.falsePositives|, |e.falseNegatives|)
  }

  /**
   * True and false positives partition the prediction, and true positives and false negatives
   * partition the Code addresses; so the counts add up to the two set sizes.
   */
  lemma Partition(code: set<u32>, predicted: set<u32>)
    ensures var e := Expected(code, predicted);
      && e.truePositives + e.falsePositives == predicted && e.truePositives !! e.falsePositives
      && e.truePositives + e.falseNegatives == code && e.truePositives !! e.falseNegatives
    ensures var s := Summarize(Expected(code, predicted));
      s.truePositives + s.falsePositives == |predicted| && s.truePositives + s.falseNegatives == |code|
  {
    var e := Expected(code, predicted);
    assert e.truePositives + e.falsePositives == predicted;
    assert e.truePositives + e.falseNegatives == code;
  }
}
