/**
 * `ExecutableSample`: a memory image together with its ground-truth address classes and the
 * place it came from. Only the executable region is kept, and the classes are cut down to it.
 */
module Samples {
  import opened Wrappers
  import opened Words
  import opened IntervalSets
  import opened Memory
  import opened Classes

  /** `SampleSource`: the debug information a sample's ground truth was read from. */
  datatype SampleSource =
    | Pdb(uuid: seq<u8>, path: string)
    | Debian(packageName: string, path: string, buildId: seq<u8>)

  function Min(a: int, b: int): int {
    if a < b then a else b
  }

  /** The regions of a memory image that allow execution, in image order. */
  function ExecutableRegions(memory: seq<Region>): (r: seq<Region>)
    ensures |r| <= |memory|
    ensures forall k :: 0 <= k < |r| ==> r[k] in memory && r[k].protection.execute
    ensures forall x :: x in memory && x.protection.execute ==> x in r
  {
    if memory == [] then []
    else (if memory[0].protection.execute then [memory[0]] else []) + ExecutableRegions(memory[1..])
  }

  lemma OnlyRegionExecutable(region: Region)
    requires region.protection.execute
    ensures ExecutableRegions([region]) == [region]
  {
    assert [region][1..] == [];
  }

  /**
   * The `.text` interval of `from_debian`: the section's 64-bit address and size are each
   * converted to u32 (panicking when they do not fit) and the interval is [address,
   * address + size), whose end panics when it does not fit in a u32.
   */
  function TextInterval(address: u64, size: u64): (r: Result<Interval>)
    ensures !r.Err?
    ensures r.Ok? <==> address + size < U32_LIMIT
    ensures r.Ok? ==> r.value.start == address && r.value.end == address + size
  {
    if address >= U32_LIMIT || size >= U32_LIMIT then Panic("called `Result::unwrap()` on an `Err` value")
    else if address + size >= U32_LIMIT then Panic("attempt to add with overflow")
    else Ok(FromStartAndLen(address, size))
  }

  class ExecutableSample {
    var memory: seq<Region>
    var classes: AddressClasses
    var source: Option<SampleSource>

    ghost predicate Valid()
      reads this, classes, classes.trueInstructions, classes.trueData
    {
      classes.Valid()
    }

    constructor (memory: seq<Region>, classes: AddressClasses, source: Option<SampleSource>)
      ensures this.memory == memory && this.classes == classes && this.source == source
    {
      this.memory := memory;
      this.classes := classes;
      this.source := source;
    }

    /**
     * `ExecutableSample::coverage`: the number of classified addresses and the number of bytes
     * of the memory image. Either u32 result panics when it does not fit.
     */
    function Coverage(): (r: Result<(u32, u32)>)
      reads this, classes, classes.trueInstructions, classes.trueData
      requires Valid()
      ensures !r.Err?
      ensures r.Ok? <==> (|Members(classes.trueInstructions.Iter())| + |Members(classes.trueData.Iter())| < U32_LIMIT
        && TotalBytes(memory) < U32_LIMIT)
      ensures r.Ok? ==> (r.value.0 == |Members(classes.trueInstructions.Iter())| + |Members(classes.trueData.Iter())|
        && r.value.1 == TotalBytes(memory))
    {
      var covered := classes.Coverage();
      var total := TotalBytes(memory);
      if !covered.Ok? then Panic(covered.reason)
      else if total >= U32_LIMIT then Panic("called `Result::unwrap()` on an `Err` value")
      else Ok((covered.value, total as u32))
    }

    /**
     * `ExecutableSample::from_helper`: fails unless exactly one region allows execution; then
     * keeps only that region, cuts the classes down to its addresses and records the source.
     * The region's end is a u32 and panics when it does not fit.
     */
    static method FromHelper(memory: seq<Region>, classes: AddressClasses, source: SampleSource)
      returns (r: Result<ExecutableSample>)
      requires classes.Valid()
      modifies classes
      ensures r.Err? <==> |ExecutableRegions(memory)| != 1
      ensures r.Panic? <==> |ExecutableRegions(memory)| == 1 && RegionEnd(ExecutableRegions(memory)[0]) >= U32_LIMIT
      ensures r.Ok? ==> (fresh(r.value) && r.value.memory == ExecutableRegions(memory)
        && r.value.classes == classes && r.value.source == Some(source) && r.value.Valid())
      ensures r.Ok? ==> CutTo(classes.trueInstructions.points, old(classes.trueInstructions.points),
        ExecutableRegions(memory)[0].addr, RegionEnd(ExecutableRegions(memory)[0]))
      ensures r.Ok? ==> CutTo(classes.trueData.points, old(classes.trueData.points),
        ExecutableRegions(memory)[0].addr, RegionEnd(ExecutableRegions(memory)[0]))
    {
      var executable := ExecutableRegions(memory);
      if |executable| != 1 {
        return Err("Either no executable section or more than one");
      }
      var exe := executable[0];
      if RegionEnd(exe) >= U32_LIMIT {
        return Panic("attempt to add with overflow");
      }
      var range := FromStartAndEnd(exe.addr, RegionEnd(exe));
      classes.FilterTo(range);
      var sample := new ExecutableSample([exe], classes, Some(source));
      return Ok(sample);
    }

    /**
     * The `.text` part of `ExecutableSample::from_debian`: the classes are cut down to
     * [address, address + size) of `.text`, whose address and size must fit in a u32 with
     * their sum, and the sample is built from a single executable region holding the
     * section's data at its address.
     */
    static method FromDebianText(textAddress: u64, textSize: u64, textData: Option<seq<u8>>,
                                 classes: AddressClasses, source: SampleSource)
      returns (r: Result<ExecutableSample>)
      requires classes.Valid()
      modifies classes
      ensures !r.Err?
      ensures r.Ok? <==> (textData.Some? && textAddress + textSize < U32_LIMIT
        && textAddress + |textData.value| < U32_LIMIT)
      ensures r.Ok? ==> (r.value.memory == [Region(textAddress, READ_EXECUTE, textData.value)]
        && r.value.classes == classes && r.value.source == Some(source) && r.value.Valid())
      ensures r.Ok? ==> CutTo(classes.trueInstructions.points, old(classes.trueInstructions.points),
        textAddress, Min(textAddress + textSize, textAddress + |textData.value|))
      ensures r.Ok? ==> CutTo(classes.trueData.points, old(classes.trueData.points),
        textAddress, Min(textAddress + textSize, textAddress + |textData.value|))
    {
      if textData.None? {
        return Panic("called `Result::unwrap()` on an `Err` value");
      }
      var text := TextInterval(textAddress, textSize);
      if !text.Ok? {
        return Panic(text.reason);
      }
      ghost var code, data := classes.trueInstructions.points, classes.trueData.points;
      classes.FilterTo(text.value);
      ghost var textCode, textDataPoints := classes.trueInstructions.points, classes.trueData.points;
      // `text.address() as u32` keeps the address unchanged, as it was checked to fit above.
      var region := Region(textAddress, READ_EXECUTE, textData.value);
      OnlyRegionExecutable(region);
      r := FromHelper([region], classes, source);
      if r.Ok? {
        CutToTwice(code, textCode, classes.trueInstructions.points, text.value.start, text.value.end, region.addr, RegionEnd(region));
        CutToTwice(data, textDataPoints, classes.trueData.points, text.value.start, text.value.end, region.addr, RegionEnd(region));
      }
    }
  }
}
