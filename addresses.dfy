/**
 * The kernel runs on 32-bit x86: `usize` and `u32` are both 32 bits wide. Addresses are
 * modelled as bounded integers rather than bit-vectors; where the source shifts or masks
 * them, the model divides or takes a remainder by the matching power of two.
 */
module Addresses {

  /** A physical address: the source's `u32`. */
  type PhysAddr = a: int | 0 <= a < 0x1_0000_0000

  /** The address of a physical frame: a 4 KiB-aligned physical address. */
  type FrameAddr = a: int | 0 <= a < 0x1_0000_0000 && a % 0x1000 == 0

  /** A virtual address: the source's 32-bit `usize`. */
  type VirtAddr = v: int | 0 <= v < 0x1_0000_0000
}
