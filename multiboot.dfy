/**
 * The Multiboot header of `src/multiboot.rs`, as section 3.1.2 of the Multiboot
 * Specification 0.6.96 lays it out: the magic value, the requested features and a checksum
 * that makes the three sum to zero as unsigned 32-bit integers.
 */
module Multiboot {

  /** An unsigned 32-bit integer, `u32`. */
  type U32 = x: int | 0 <= x < 0x1_0000_0000

  /** The magic value of the header, which marks the kernel as Multiboot compliant. */
  const HEADER_MAGIC: U32 := 0x1BADB002

  /** The value a compliant boot loader leaves in EAX when it enters the kernel. */
  const EAX_MAGIC: U32 := 0x2BADB002

  /** `HeaderFlags::ALIGN_MODULES`, bit 0: modules are loaded on 4 KiB boundaries. */
  const ALIGN_MODULES: U32 := 1

  /** `HeaderFlags::MEMORY_MAP`, bit 1: the boot loader passes the memory map. */
  const MEMORY_MAP: U32 := 2

  datatype Header = Header(magic: U32, flags: U32, checksum: U32)

  /** `u32::wrapping_add`. */
  function WrappingAdd(a: U32, b: U32): U32 {
    (a + b) % 0x1_0000_0000
  }

  /** `u32::wrapping_neg`. */
  function WrappingNeg(a: U32): U32 {
    (0x1_0000_0000 - a) % 0x1_0000_0000
  }

  /**
   * `Header::new`: the checksum is the wrapping negation of the wrapping sum of the magic
   * value and the flags.
   */
  function NewHeader(flags: U32): (h: Header)
    ensures h.magic == HEADER_MAGIC && h.flags == flags
  {
    Header(HEADER_MAGIC, flags, WrappingNeg(WrappingAdd(HEADER_MAGIC, flags)))
  }

  /**
   * The checksum condition the boot loader checks: magic, flags and checksum add up to 0
   * modulo 2^32, for every set of flags.
   */
  lemma ChecksumCancels(flags: U32)
    ensures var h := NewHeader(flags);
            (h.magic + h.flags + h.checksum) % 0x1_0000_0000 == 0
  {
  }

  /**
   * The header the kernel declares requests both features, the distinct bits 0 and 1: it
   * is 0x1BADB002, 3, 0xE4524FFB (a worked instance of `ChecksumCancels`).
   */
  lemma BothFlagsHeader()
    ensures (ALIGN_MODULES as bv32) & (MEMORY_MAP as bv32) == 0
    ensures NewHeader(ALIGN_MODULES + MEMORY_MAP) == Header(0x1BADB002, 3, 0xE4524FFB)
  {
  }
}
