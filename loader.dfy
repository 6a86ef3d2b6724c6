/**
 * Loading an executable's segments into a memory image: the segment permission mapping of
 * ELF program headers (System V gABI, chapter "Program Loading", section "Segment
 * Permissions") and of PE section characteristics (Microsoft PE/COFF specification,
 * section 4 "Section Table", "Section Flags"), and the zero padding of segment data.
 */
module Loader {
  import opened Wrappers
  import opened Words
  import opened Memory

  /** `p_flags` bits of an ELF program header. */
  const PF_X: bv32 := 0x1
  const PF_W: bv32 := 0x2
  const PF_R: bv32 := 0x4

  /** Memory permission bits of a PE section's characteristics. */
  const IMAGE_SCN_MEM_EXECUTE: bv32 := 0x2000_0000
  const IMAGE_SCN_MEM_READ: bv32 := 0x4000_0000
  const IMAGE_SCN_MEM_WRITE: bv32 := 0x8000_0000

  /** `e_type` of a shared object or position-independent executable. */
  const ET_DYN: int := 3
  /** Where `load_elf` places an `ET_DYN` image. */
  const DYN_BASE: int := 0x40000

  /** `object::SegmentFlags`, with the formats the loader does not handle folded into `OtherFlags`. */
  datatype SegmentFlags =
    | FlagsNone
    | Elf(pFlags: bv32)
    | MachO(flags: bv32, maxprot: bv32, initprot: bv32)
    | Coff(characteristics: bv32)
    | OtherFlags

  /**
   * What the loaders read of a segment: its address, its size in memory, its file data
   * (`None` when the data cannot be read) and its flags.
   */
  datatype Segment = Segment(address: u64, size: u64, data: Option<seq<u8>>, flags: SegmentFlags)

  /**
   * The ELF branch of `flags_to_protection`: the low three bits of `p_flags` select one of
   * seven protections; none of R, W, X set panics. The result grants exactly the permissions
   * whose bits are set.
   */
  function ElfProtection(pFlags: bv32): (r: Result<Protection>)
    ensures !r.Err?
    ensures r.Ok? <==> pFlags & (PF_R | PF_W | PF_X) != 0
    ensures r.Ok? ==> r.value == Protection(pFlags & PF_R != 0, pFlags & PF_W != 0, pFlags & PF_X != 0)
  {
    var flags := pFlags & 0x7;
    if flags == PF_X then Ok(EXECUTE)
    else if flags == PF_W then Ok(WRITE)
    else if flags == (PF_W | PF_X) then Ok(WRITE_EXECUTE)
    else if flags == PF_R then Ok(READ)
    else if flags == (PF_R | PF_X) then Ok(READ_EXECUTE)
    else if flags == (PF_R | PF_W) then Ok(READ_WRITE)
    else if flags == (PF_R | PF_W | PF_X) then Ok(READ_WRITE_EXECUTE)
    else Panic("Invalid segment access flags")
  }

  /**
   * The COFF branch of `flags_to_protection`: the characteristics masked to the three memory
   * permission bits select the protection the same way.
   */
  function CoffProtection(characteristics: bv32): (r: Result<Protection>)
    ensures !r.Err?
    ensures r.Ok? <==> characteristics & (IMAGE_SCN_MEM_READ | IMAGE_SCN_MEM_WRITE | IMAGE_SCN_MEM_EXECUTE) != 0
    ensures r.Ok? ==> r.value == Protection(characteristics & IMAGE_SCN_MEM_READ != 0,
      characteristics & IMAGE_SCN_MEM_WRITE != 0, characteristics & IMAGE_SCN_MEM_EXECUTE != 0)
  {
    var flags := characteristics & (IMAGE_SCN_MEM_READ | IMAGE_SCN_MEM_WRITE | IMAGE_SCN_MEM_EXECUTE);
    if flags == IMAGE_SCN_MEM_EXECUTE then Ok(EXECUTE)
    else if flags == IMAGE_SCN_MEM_WRITE then Ok(WRITE)
    else if flags == (IMAGE_SCN_MEM_WRITE | IMAGE_SCN_MEM_EXECUTE) then Ok(WRITE_EXECUTE)
    else if flags == IMAGE_SCN_MEM_READ then Ok(READ)
    else if flags == (IMAGE_SCN_MEM_READ | IMAGE_SCN_MEM_EXECUTE) then Ok(READ_EXECUTE)
    else if flags == (IMAGE_SCN_MEM_READ | IMAGE_SCN_MEM_WRITE) then Ok(READ_WRITE)
    else if flags == (IMAGE_SCN_MEM_READ | IMAGE_SCN_MEM_WRITE | IMAGE_SCN_MEM_EXECUTE) then Ok(READ_WRITE_EXECUTE)
    else Panic("Invalid segment access flags")
  }

  /** `flags_to_protection`: ELF and COFF flags map as above; every other kind panics. */
  function FlagsToProtection(flags: SegmentFlags): (r: Result<Protection>)
    ensures !r.Err?
    ensures r.Ok? <==> ((flags.Elf? && flags.pFlags & (PF_R | PF_W | PF_X) != 0)
      || (flags.Coff? && flags.characteristics & (IMAGE_SCN_MEM_READ | IMAGE_SCN_MEM_WRITE | IMAGE_SCN_MEM_EXECUTE) != 0))
    ensures r.Ok? ==> (r.value.execute <==> ((flags.Elf? && flags.pFlags & PF_X != 0)
      || (flags.Coff? && flags.characteristics & IMAGE_SCN_MEM_EXECUTE != 0)))
  {
    match flags
    case FlagsNone => Panic("SegmentFlags::None does not make sense")
    case Elf(pFlags) => ElfProtection(pFlags)
    case MachO(_, _, _) => Panic("not yet implemented: MachO segment flags")
    case Coff(characteristics) => CoffProtection(characteristics)
    case OtherFlags => Panic("not yet implemented: Getting protection")
  }

  /**
   * The padding loop of both loaders: zero bytes are appended while the data is shorter than
   * the segment's size in memory. The data is never truncated.
   */
  method PadWithZeros(data: seq<u8>, size: u64) returns (padded: seq<u8>)
    ensures |padded| == if |data| < size then size else |data|
    ensures padded[..|data|] == data
    ensures forall i :: |data| <= i < |padded| ==> padded[i] == 0
  {
    padded := data;
    while |padded| < size
      invariant |data| <= |padded| <= if |data| < size then size else |data|
      invariant padded[..|data|] == data
      invariant forall i :: |data| <= i < |padded| ==> padded[i] == 0
      decreases size - |padded|
    {
      padded := padded + [0];
    }
  }

  /** The data of a region loaded from a segment: its file data padded with zeros to its size. */
  predicate PaddedFrom(region: Region, data: seq<u8>, size: u64) {
    |region.data| == (if |data| < size then size else |data|)
    && region.data[..|data|] == data
    && (forall i :: |data| <= i < |region.data| ==> region.data[i] == 0)
  }

  /** A segment `load_executable` can load: its data can be read and its flags map. */
  predicate Loadable(segment: Segment) {
    segment.data.Some? && FlagsToProtection(segment.flags).Ok?
  }

  /**
   * `load_executable`: one region per segment, in segment order, at the segment address
   * truncated to 32 bits (`as u32`), with the mapped protection and the padded data. A segment
   * whose data cannot be read or whose flags do not map panics.
   */
  method LoadExecutable(segments: seq<Segment>) returns (r: Result<seq<Region>>)
    ensures !r.Err?
    ensures r.Ok? <==> forall k :: 0 <= k < |segments| ==> Loadable(segments[k])
    ensures r.Ok? ==> |r.value| == |segments| && forall k :: 0 <= k < |segments| ==>
      var segment := segments[k];
      r.value[k].addr == segment.address % U32_LIMIT
      && r.value[k].protection == FlagsToProtection(segment.flags).value
      && PaddedFrom(r.value[k], segment.data.value, segment.size)
  {
    var regions: seq<Region> := [];
    for t := 0 to |segments|
      invariant |regions| == t
      invariant forall k :: 0 <= k < t ==> Loadable(segments[k])
      invariant forall k :: 0 <= k < t ==>
        var segment := segments[k];
        regions[k].addr == segment.address % U32_LIMIT
        && regions[k].protection == FlagsToProtection(segment.flags).value
        && PaddedFrom(regions[k], segment.data.value, segment.size)
    {
      var segment := segments[t];
      var addr: u32 := segment.address % U32_LIMIT;
      if segment.data.None? {
        return Panic("called `Result::unwrap()` on an `Err` value");
      }
      var data := PadWithZeros(segment.data.value, segment.size);
      var prot := FlagsToProtection(segment.flags);
      if !prot.Ok? {
        return Panic(prot.reason);
      }
      regions := regions + [Region(addr, prot.value, data)];
    }
    return Ok(regions);
  }

  /** A segment `load_elf` can load: its relocated address fits, its data can be read and its ELF flags map. */
  predicate ElfLoadable(segment: Segment, offset: int) {
    segment.address % U32_LIMIT + offset < U32_LIMIT
    && segment.data.Some?
    && segment.flags.Elf? && ElfProtection(segment.flags.pFlags).Ok?
  }

  /**
   * `load_elf`: like `load_executable`, but an `ET_DYN` image has every region placed 0x40000
   * higher (the u32 addition panics on overflow), and a non-ELF flags value is unreachable.
   */
  method LoadElf(eType: int, segments: seq<Segment>) returns (r: Result<seq<Region>>)
    ensures !r.Err?
    ensures r.Ok? <==> forall k :: 0 <= k < |segments| ==>
      ElfLoadable(segments[k], if eType == ET_DYN then DYN_BASE else 0)
    ensures r.Ok? ==> |r.value| == |segments| && forall k :: 0 <= k < |segments| ==>
      var segment := segments[k];
      r.value[k].addr == segment.address % U32_LIMIT + (if eType == ET_DYN then DYN_BASE else 0)
      && r.value[k].protection == ElfProtection(segment.flags.pFlags).value
      && PaddedFrom(r.value[k], segment.data.value, segment.size)
  {
    var offset := if eType == ET_DYN then DYN_BASE else 0;
    var regions: seq<Region> := [];
    for t := 0 to |segments|
      invariant |regions| == t
      invariant forall k :: 0 <= k < t ==> ElfLoadable(segments[k], offset)
      invariant forall k :: 0 <= k < t ==>
        var segment := segments[k];
        regions[k].addr == segment.address % U32_LIMIT + offset
        && regions[k].protection == ElfProtection(segment.flags.pFlags).value
        && PaddedFrom(regions[k], segment.data.value, segment.size)
    {
      var segment := segments[t];
      if segment.address % U32_LIMIT + offset >= U32_LIMIT {
        return Panic("attempt to add with overflow");
      }
      var addr: u32 := segment.address % U32_LIMIT + offset;
      if segment.data.None? {
        return Panic("called `Result::unwrap()` on an `Err` value");
      }
      var data := PadWithZeros(segment.data.value, segment.size);
      if !segment.flags.Elf? {
        return Panic("internal error: entered unreachable code");
      }
      var prot := ElfProtection(segment.flags.pFlags);
      if !prot.Ok? {
        return Panic(prot.reason);
      }
      regions := regions + [Region(addr, prot.value, data)];
    }
    return Ok(regions);
  }
}
