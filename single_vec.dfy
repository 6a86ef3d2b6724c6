/**
 * `SingleVec`: a vector of `u32` held in one pointer-sized word. The null word is the empty
 * vector, an odd word carries a single value shifted left by one, and an even word points to a
 * boxed `Vec<u32>`. The word arithmetic is modelled on unbounded integers for a `usize` of
 * `bits` bits; the vector itself is modelled for the 64-bit target.
 */
module SingleVec {
  import opened Wrappers
  import opened Words

  /** The width of `usize` on the target the vectors are built for. */
  const USIZE_BITS: nat := 64

  const SINGLE_BIT: nat := 1

  predicate KnownWidth(bits: nat) {
    bits == 32 || bits == 64
  }

  /** `2^bits`: one more than the largest `usize`. */
  function UsizeLimit(bits: nat): (r: nat)
    requires KnownWidth(bits)
    ensures r == if bits == 32 then U32_LIMIT else U32_LIMIT * U32_LIMIT
  {
    if bits == 32 then 0x1_0000_0000 else 0x1_0000_0000_0000_0000
  }

  /**
   * `MAX_VALUE` as written, `1 << (usize::BITS - 1) - 1`: the subtraction binds tighter than
   * the shift, so this is `1 << (bits - 2)`.
   */
  function MaxValueAsWritten(bits: nat): nat
    requires KnownWidth(bits)
  {
    if bits == 32 then 0x4000_0000 else 0x4000_0000_0000_0000
  }

  /** The largest value whose encoding keeps every bit: `(1 << (bits - 1)) - 1`. */
  function MaxValue(bits: nat): (r: nat)
    requires KnownWidth(bits)
    ensures 2 * r + 2 == UsizeLimit(bits)
  {
    UsizeLimit(bits) / 2 - 1
  }

  /** `single_into_ptr`: `(value << 1) | SINGLE_BIT`, the shift dropping bits past the word. */
  function SingleIntoPtr(value: nat, bits: nat): (raw: nat)
    requires KnownWidth(bits)
    ensures raw < UsizeLimit(bits) && raw % 2 == SINGLE_BIT
  {
    (value * 2) % UsizeLimit(bits) + SINGLE_BIT
  }

  /** `ptr_is_single`: the low bit is set. */
  predicate PtrIsSingle(raw: nat) {
    raw % 2 == SINGLE_BIT
  }

  /**
   * `ptr_into_single`: asserts the low bit, clears it, shifts right by one and truncates to
   * `u32` with `as`.
   */
  function PtrIntoSingle(raw: nat): (r: Result<u32>)
    ensures r.Panic? <==> !PtrIsSingle(raw)
    ensures r.Ok? ==> r.value == (raw / 2) % U32_LIMIT
  {
    if raw % 2 == 0 then Panic("assertion `left != right` failed")
    else Ok(((raw - raw % 2) / 2) % U32_LIMIT)
  }

  /** Every value up to `MaxValue` comes back from its encoding, which is a single. */
  lemma SingleRoundTrip(value: u32, bits: nat)
    requires KnownWidth(bits) && value <= MaxValue(bits)
    ensures PtrIsSingle(SingleIntoPtr(value, bits)) && PtrIntoSingle(SingleIntoPtr(value, bits)) == Ok(value)
  {
    var raw := value * 2 + 1;
    if bits == 32 {
      assert (value * 2) % 0x1_0000_0000 == value * 2;
    } else {
      assert (value * 2) % 0x1_0000_0000_0000_0000 == value * 2;
    }
    assert SingleIntoPtr(value, bits) == raw;
    OddHalf(value);
  }

  /** Clearing the low bit of `2 * v + 1` and halving gives `v` back. */
  lemma OddHalf(v: nat)
    ensures (2 * v + 1) % 2 == 1 && ((2 * v + 1) - (2 * v + 1) % 2) / 2 == v
  {
  }

  /** Past `MaxValue` the shift drops the top bit, and the value does not come back. */
  lemma MaxValueIsLargest(bits: nat)
    requires KnownWidth(bits)
    ensures SingleIntoPtr(MaxValue(bits) + 1, bits) == SINGLE_BIT
  {
  }

  /** On the 64-bit target every `u32` is below both bounds, so the check never fires there. */
  lemma EveryItemFits(value: u32)
    ensures value <= MaxValueAsWritten(USIZE_BITS) && value <= MaxValue(USIZE_BITS)
  {
  }

  /**
   * On a 32-bit target the written bound rejects values whose encoding fits: `0x4000_0001`
   * fails `value <= MAX_VALUE`, yet it is below the bound the encoding needs and comes back.
   */
  lemma AsWrittenRejectsFittingValue()
    ensures 0x4000_0001 > MaxValueAsWritten(32) && 0x4000_0001 <= MaxValue(32)
    ensures PtrIntoSingle(SingleIntoPtr(0x4000_0001, 32)) == Ok(0x4000_0001)
  {
    SingleRoundTrip(0x4000_0001, 32);
  }

  /** `ReprRef`/`ReprMut`: what a word stands for. */
  datatype Repr = Empty | Single(value: u32) | Vec(ptr: nat)

  /** `repr`: null is empty, an odd word a single, an even word a vector pointer. */
  function ReprOf(inner: Option<nat>): (r: Repr)
    ensures r.Vec? ==> inner == Some(r.ptr) && r.ptr % 2 == 0
  {
    match inner
    case None => Empty
    case Some(raw) =>
      if PtrIsSingle(raw) then Single((raw / 2) % U32_LIMIT) else Vec(raw)
  }

  /**
   * `ptr_from_repr_mut`: a single must be at most `MaxValue` and a vector pointer must be
   * even, otherwise the assertions panic.
   */
  function PtrFromRepr(repr: Repr): (r: Result<Option<nat>>)
    ensures r.Panic? <==> (repr.Single? && repr.value > MaxValue(USIZE_BITS)) || (repr.Vec? && repr.ptr % 2 != 0)
  {
    match repr
    case Empty => Ok(None)
    case Single(value) =>
      if value > MaxValue(USIZE_BITS) then Panic("assertion failed: value as u64 <= MAX_VALUE as u64")
      else Ok(Some(SingleIntoPtr(value, USIZE_BITS)))
    case Vec(ptr) =>
      if ptr % 2 != 0 then Panic("unaligned ptr???") else Ok(Some(ptr))
  }

  /** Storing a representation and reading it back gives the same representation. */
  lemma ReprRoundTrip(repr: Repr)
    requires PtrFromRepr(repr).Ok?
    ensures ReprOf(PtrFromRepr(repr).value) == repr
  {
    if repr.Single? {
      SingleRoundTrip(repr.value, USIZE_BITS);
    }
  }

  /** The iterator: nothing left, one value left, or the rest of a slice. */
  datatype Iter = IterEmpty | IterSingle(value: u32) | IterVec(rest: seq<u32>)

  /** The values an iterator has still to yield. */
  function Remaining(it: Iter): seq<u32> {
    match it
    case IterEmpty => []
    case IterSingle(value) => [value]
    case IterVec(rest) => rest
  }

  /** `Iterator::next`: the first remaining value, and the iterator over the others. */
  function Next(it: Iter): (r: (Option<u32>, Iter))
    ensures r.0.None? <==> Remaining(it) == []
    ensures r.0.Some? ==> Remaining(it) == [r.0.value] + Remaining(r.1)
  {
    match it
    case IterEmpty => (None, IterEmpty)
    case IterSingle(value) => (Some(value), IterEmpty)
    case IterVec(rest) => if rest == [] then (None, it) else (Some(rest[0]), IterVec(rest[1..]))
  }

  /** Everything `next` yields until it returns `None`. */
  function Collect(it: Iter): seq<u32>
    decreases |Remaining(it)|
  {
    match Next(it)
    case (None, _) => []
    case (Some(x), rest) => [x] + Collect(rest)
  }

  /** Running an iterator to its end yields exactly the remaining values, in order. */
  lemma {:induction false} CollectRemaining(it: Iter)
    ensures Collect(it) == Remaining(it)
    decreases |Remaining(it)|
  {
    var (x, rest) := Next(it);
    if x.Some? {
      CollectRemaining(rest);
    }
  }

  /**
   * The vector: `inner` is the word (`None` for null) and `boxed` the contents of the
   * `Vec<u32>` a vector pointer owns.
   */
  class SingleVec {
    var inner: Option<nat>
    var boxed: seq<u32>

    /** The word fits a `usize`. */
    ghost predicate Valid()
      reads this
    {
      inner.Some? ==> inner.value < UsizeLimit(USIZE_BITS)
    }

    /** The values the vector holds, in insertion order. */
    function Items(): seq<u32>
      reads this
    {
      match ReprOf(inner)
      case Empty => []
      case Single(value) => [value]
      case Vec(_) => boxed
    }

    /** `new`: the null word. */
    constructor ()
      ensures Valid() && Items() == [] && inner == None
    {
      inner := None;
      boxed := [];
    }

    /** `from_single`: the tagged value. */
    constructor FromSingle(value: u32)
      ensures Valid() && Items() == [value]
    {
      EveryItemFits(value);
      ReprRoundTrip(Single(value));
      inner := PtrFromRepr(Single(value)).value;
      boxed := [];
    }

    /** `from_vec`: a pointer to a box holding `vec`; `alloc` is the address the box gets. */
    constructor FromVec(vec: seq<u32>, alloc: nat)
      requires alloc < UsizeLimit(USIZE_BITS) && alloc % 2 == 0
      ensures Valid() && Items() == vec
    {
      inner := PtrFromRepr(Vec(alloc)).value;
      boxed := vec;
    }

    /**
     * `push`: empty becomes a single, a single becomes a two-element vector in a new box at
     * `alloc`, a vector grows in its box; the value is appended in every case.
     */
    method Push(value: u32, alloc: nat)
      requires Valid() && alloc < UsizeLimit(USIZE_BITS) && alloc % 2 == 0
      modifies this
      ensures Valid() && Items() == old(Items()) + [value]
    {
      var newRepr: Repr;
      var newBox := boxed;
      match ReprOf(inner) {
        case Empty =>
          newRepr := Single(value);
        case Single(s) =>
          newRepr := Vec(alloc);
          newBox := [s, value];
        case Vec(ptr) =>
          newRepr := Vec(ptr);
          newBox := boxed + [value];
      }
      EveryItemFits(value);
      ReprRoundTrip(newRepr);
      inner := PtrFromRepr(newRepr).value;
      boxed := newBox;
    }

    /** `clear`: the box is dropped and the word set back to null. */
    method Clear()
      modifies this
      ensures Valid() && Items() == [] && inner == None
    {
      inner := None;
      boxed := [];
    }

    /** `contains`. */
    method Contains(value: u32) returns (b: bool)
      ensures b <==> value in Items()
    {
      match ReprOf(inner) {
        case Empty => b := false;
        case Single(s) => b := s == value;
        case Vec(_) => b := value in boxed;
      }
    }

    /** `len`. */
    method Len() returns (n: nat)
      ensures n == |Items()|
    {
      match ReprOf(inner) {
        case Empty => n := 0;
        case Single(_) => n := 1;
        case Vec(_) => n := |boxed|;
      }
    }

    /** `iter`: an iterator whose remaining values are the vector's, in order. */
    method Iterate() returns (it: Iter)
      ensures Remaining(it) == Items()
    {
      match ReprOf(inner) {
        case Empty => it := IterEmpty;
        case Single(value) => it := IterSingle(value);
        case Vec(_) => it := IterVec(boxed);
      }
    }

    /** `clone`: a new vector with the same values; a vector is copied into a box at `alloc`. */
    method Clone(alloc: nat) returns (c: SingleVec)
      requires alloc < UsizeLimit(USIZE_BITS) && alloc % 2 == 0
      ensures fresh(c) && c.Valid() && c.Items() == Items()
    {
      var repr := ReprOf(inner);
      if repr.Empty? {
        c := new SingleVec();
      } else if repr.Single? {
        c := new SingleVec.FromSingle(repr.value);
      } else {
        c := new SingleVec.FromVec(boxed, alloc);
      }
    }
  }
}
