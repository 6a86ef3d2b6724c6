/**
 * The parts of the `memory_image` crate the loaders and samples use: region protections and
 * regions of bytes at an address. The crate's source is not part of this model, so its
 * behaviour is assumed here: a memory image is the sequence of its regions in the order they
 * were added, a region's `end()` is its address plus its length (a panic when that overflows
 * `u32`), and `from_code_region` makes a `READ_EXECUTE` region.
 */
module Memory {
  import opened Words

  /** `Protection`: which of read, write and execute a region allows. */
  datatype Protection = Protection(read: bool, write: bool, execute: bool)

  const READ := Protection(true, false, false)
  const WRITE := Protection(false, true, false)
  const EXECUTE := Protection(false, false, true)
  const READ_WRITE := Protection(true, true, false)
  const READ_EXECUTE := Protection(true, false, true)
  const WRITE_EXECUTE := Protection(false, true, true)
  const READ_WRITE_EXECUTE := Protection(true, true, true)

  /** One region of a memory image. */
  datatype Region = Region(addr: u32, protection: Protection, data: seq<u8>)

  /** The first address past the region. */
  function RegionEnd(r: Region): int {
    r.addr + |r.data|
  }

  /** The number of bytes held by all regions. */
  function TotalBytes(regions: seq<Region>): nat {
    if regions == [] then 0 else |regions[0].data| + TotalBytes(regions[1..])
  }
}
