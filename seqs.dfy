/** Sequences of segments joined end to end. */
module Seqs {
  /** The segments joined in order. */
  function Flatten<T>(parts: seq<seq<T>>): seq<T> {
    if parts == [] then [] else Flatten(parts[..|parts| - 1]) + parts[|parts| - 1]
  }

  lemma FlattenSnoc<T>(parts: seq<seq<T>>, last: seq<T>)
    ensures Flatten(parts + [last]) == Flatten(parts) + last
  {
    assert (parts + [last])[..|parts|] == parts;
  }

  /** An element of joined segments is an element of one of them. */
  lemma {:induction false} FlattenMembers<T>(parts: seq<seq<T>>, x: T)
    ensures x in Flatten(parts) <==> exists i :: 0 <= i < |parts| && x in parts[i]
  {
    if parts != [] {
      var n := |parts| - 1;
      var init := parts[..n];
      assert Flatten(parts) == Flatten(init) + parts[n];
      FlattenMembers(init, x);
      if x in Flatten(init) {
        var i :| 0 <= i < n && x in init[i];
        assert init[i] == parts[i];
      }
      if exists i :: 0 <= i < |parts| && x in parts[i] {
        var i :| 0 <= i < |parts| && x in parts[i];
        if i < n { assert init[i] == parts[i]; }
      }
    }
  }
}
