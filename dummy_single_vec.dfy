/** The reference `SingleVec` over a `SmallVec` with two inline slots: a plain growable vector. */
module DummySingleVec {
  import opened Wrappers
  import opened Words

  /** The slice iterator: the values still to yield. */
  datatype Iter = Iter(rest: seq<u32>)

  /** `Iterator::next`: the first remaining value, and the iterator over the others. */
  function Next(it: Iter): (r: (Option<u32>, Iter))
    ensures r.0.None? <==> it.rest == []
    ensures r.0.Some? ==> it.rest == [r.0.value] + r.1.rest
  {
    if it.rest == [] then (None, it) else (Some(it.rest[0]), Iter(it.rest[1..]))
  }

  class SingleVec {
    var inner: seq<u32>

    /** `new`. */
    constructor ()
      ensures inner == []
    {
      inner := [];
    }

    /** `from_single`. */
    constructor FromSingle(value: u32)
      ensures inner == [value]
    {
      inner := [value];
    }

    /** `from_vec`. */
    constructor FromVec(vec: seq<u32>)
      ensures inner == vec
    {
      inner := vec;
    }

    /** `push`: appended at the end. */
    method Push(value: u32)
      modifies this
      ensures inner == old(inner) + [value]
    {
      inner := inner + [value];
    }

    /** `clear`. */
    method Clear()
      modifies this
      ensures inner == []
    {
      inner := [];
    }

    /** `contains`. */
    method Contains(value: u32) returns (b: bool)
      ensures b <==> value in inner
    {
      b := value in inner;
    }

    /** `len`. */
    method Len() returns (n: nat)
      ensures n == |inner|
    {
      n := |inner|;
    }

    /** `iter`: in insertion order. */
    method Iterate() returns (it: Iter)
      ensures it.rest == inner
    {
      it := Iter(inner);
    }
  }
}
