/**
 * A superset disassembly: one decode candidate per byte address, in address order, each with
 * its instruction feature and an optional ground-truth label (`truth`). The decoder is not modelled; its
 * output is the input of the graph builders.
 */
module Superset {
  import opened Wrappers
  import opened Words

  datatype Label = Code | NotCode

  /** A register the data-dependency walk tracks (`UsedRegister`), by number. */
  type Reg = nat

  /**
   * `InstructionFeature`, abstracted: the decoded length, the instruction code, a direct jump
   * target, whether execution can fall through to the next instruction, and the registers it
   * reads and writes, in the order the register sets iterate.
   */
  datatype Feature = Feature(size: u8, code: nat, jumpTarget: Option<u32>, fallsThrough: bool,
                             uses: seq<Reg>, defines: seq<Reg>)

  /** One superset entry: an address, the candidate decoded there, and its label. */
  datatype Entry = Entry(addr: u32, feature: Feature, truth: Option<Label>)

  /**
   * What the address index returns for `a`: the position of the last entry at that address,
   * since a later `insert` of the same key overwrites an earlier one.
   */
  function IndexOf(entries: seq<Entry>, a: int): (r: Option<nat>)
    ensures r.Some? ==> r.value < |entries| && entries[r.value].addr == a
  {
    if entries == [] then None
    else if entries[|entries| - 1].addr == a then Some(|entries| - 1)
    else IndexOf(entries[..|entries| - 1], a)
  }

  /** The address right after an entry's instruction, as an unbounded integer. */
  function EndOf(e: Entry): int {
    e.addr + e.feature.size
  }

  /** No instruction ends past the 32-bit address space, where `addr + size` overflows. */
  predicate NoOverflow(entries: seq<Entry>) {
    forall k :: 0 <= k < |entries| ==> EndOf(entries[k]) < U32_LIMIT
  }

  /** The index finds `a` exactly when some entry sits at `a`, and then it is the last such entry. */
  lemma {:induction false} IndexOfFinds(entries: seq<Entry>, a: int)
    ensures IndexOf(entries, a).Some? <==> exists k :: 0 <= k < |entries| && entries[k].addr == a
    ensures IndexOf(entries, a).Some? ==> forall k :: IndexOf(entries, a).value < k < |entries| ==> entries[k].addr != a
  {
    if entries != [] && entries[|entries| - 1].addr != a {
      var init := entries[..|entries| - 1];
      IndexOfFinds(init, a);
      if exists k :: 0 <= k < |entries| && entries[k].addr == a {
        var k :| 0 <= k < |entries| && entries[k].addr == a;
        assert init[k] == entries[k];
      }
    }
  }

  /** No two entries share an address, as in a superset built from one memory image. */
  predicate DistinctAddrs(entries: seq<Entry>) {
    forall i, j :: 0 <= i < j < |entries| ==> entries[i].addr != entries[j].addr
  }

  /** With distinct addresses, the index maps each entry's address to that entry's position. */
  lemma IndexOfDistinct(entries: seq<Entry>, i: nat)
    requires DistinctAddrs(entries) && i < |entries|
    ensures IndexOf(entries, entries[i].addr) == Some(i)
  {
    IndexOfFinds(entries, entries[i].addr);
  }

  /** A map lookup as an option, for keys that may lie outside u32. */
  function Lookup(index: map<int, nat>, a: int): Option<nat> {
    if a in index then Some(index[a]) else None
  }

  /** The loop that fills the address index: one `insert(addr, i)` per entry, in order. */
  method BuildIndex(entries: seq<Entry>) returns (index: map<int, nat>)
    ensures forall a :: Lookup(index, a) == IndexOf(entries, a)
  {
    index := map[];
    for i := 0 to |entries|
      invariant forall a :: Lookup(index, a) == IndexOf(entries[..i], a)
    {
      assert entries[..i + 1][..i] == entries[..i];
      index := index[entries[i].addr := i];
    }
    assert entries[..|entries|] == entries;
  }

  /** A node sits at some address in `[lo, hi)` and the index resolves that address to `o`. */
  ghost predicate HitsIn(entries: seq<Entry>, lo: int, hi: int, o: nat) {
    exists j :: lo <= j < hi && IndexOf(entries, j) == Some(o)
  }

  /** Widening the range by one address adds the hits at that address. */
  lemma HitsInStep(entries: seq<Entry>, lo: int, hi: int, o: nat)
    requires lo < hi
    ensures HitsIn(entries, lo, hi, o) <==> HitsIn(entries, lo, hi - 1, o) || IndexOf(entries, hi - 1) == Some(o)
  {
    if HitsIn(entries, lo, hi, o) && IndexOf(entries, hi - 1) != Some(o) {
      var j :| lo <= j < hi && IndexOf(entries, j) == Some(o);
      assert j < hi - 1;
    }
  }

  /** A superset node as the graph sample keeps it: the instruction feature and the label. */
  datatype Node = Node(feature: Feature, truth: Option<Label>)

  /** The nodes in superset order, each with its feature and label and without its address. */
  function StripAddrs(entries: seq<Entry>): (r: seq<Node>)
    ensures |r| == |entries|
    ensures forall k :: 0 <= k < |entries| ==> r[k].feature == entries[k].feature && r[k].truth == entries[k].truth
  {
    seq(|entries|, k requires 0 <= k < |entries| => Node(entries[k].feature, entries[k].truth))
  }

  /** The `u8` a label is stored as. */
  function LabelByte(l: Label): u8 {
    match l
    case Code => 1
    case NotCode => 0
  }

  /** Every node carries a label. */
  predicate AllLabelled(nodes: seq<Node>) {
    forall k :: 0 <= k < |nodes| ==> nodes[k].truth.Some?
  }

  /** The label a stored byte stands for. */
  function LabelOfByte(b: u8): Label {
    if b == 1 then Code else NotCode
  }

  /** Every label byte reads back as its label. */
  lemma LabelByteRoundTrip(l: Label)
    ensures LabelOfByte(LabelByte(l)) == l
  {
  }
}
