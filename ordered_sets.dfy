/**
 * `BTreeSet<u32>` as the ascending sequence of its elements: the order in which it iterates
 * is part of what the callers rely on.
 */
module OrderedSets {
  import opened Words

  predicate Increasing(s: seq<u32>) {
    forall i, j :: 0 <= i < j < |s| ==> s[i] < s[j]
  }

  /** `BTreeSet::insert`: the element joins the set at its place in the order. */
  function Insert(s: seq<u32>, x: u32): (r: seq<u32>)
    requires Increasing(s)
    ensures Increasing(r)
    ensures forall y :: y in r <==> y in s || y == x
    ensures r != [] && (r[0] == x || (s != [] && r[0] == s[0]))
  {
    if s == [] then [x]
    else if x < s[0] then [x] + s
    else if x == s[0] then s
    else
      var rest := Insert(s[1..], x);
      assert forall y :: y in s <==> y == s[0] || y in s[1..] by {
        assert s == [s[0]] + s[1..];
      }
      [s[0]] + rest
  }
}
