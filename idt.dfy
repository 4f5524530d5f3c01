/**
 * `create_gate_descriptor` of `src/cpu/idt/mod.rs`: the 64-bit IDT entry for a handler, laid
 * out as the 32-bit gate descriptors of section 6.11 of the Intel 64 and IA-32
 * Architectures Software Developer's Manual, Volume 3A: handler offset bits 0-15 in bits
 * 0-15, the code-segment selector in bits 16-31, the gate type in bits 40-43, the
 * privilege level in bits 45-46, the present flag in bit 47, and handler offset bits 16-31
 * in bits 48-63.
 */
module Idt {

  /** `KERNEL_CODE_SEGMENT` of `src/cpu/gdt.rs`: the kernel code descriptor, at offset 8 of the GDT. */
  const KERNEL_CODE_SEGMENT: bv16 := 0x08

  /** The gate type: a 32-bit interrupt gate (interrupts disabled on entry) or a 32-bit trap gate. */
  function GateType(isInterrupt: bool): bv64 {
    if isInterrupt then 0xE else 0xF
  }

  /**
   * `create_gate_descriptor`; the handler is a 32-bit `usize`. The descriptor is the five
   * fields OR-ed together: the low fields below bit 48 and the high half of the handler
   * shifted to bit 48. The reserved byte and the privilege level are OR-ed in as zero and
   * are left out of the expression.
   */
  function GateDescriptor(isInterrupt: bool, handler: bv32): bv64 {
    LowFields(isInterrupt, handler) | (HighField(handler) << 48)
  }

  /**
   * Bits 0-47 of the descriptor: the low half of the handler address, the code-segment
   * selector at bit 16, the gate type at bit 40 and the present flag at bit 47.
   */
  function LowFields(isInterrupt: bool, handler: bv32): (r: bv64)
    ensures r < 0x1_0000_0000_0000
  {
    ((handler as bv64) & 0xFFFF)
    | ((KERNEL_CODE_SEGMENT as bv64) << 16)
    | (GateType(isInterrupt) << 40)
    | (1 << 47)
  }

  /** The high half of the handler address, as the descriptor computes it. */
  function HighField(handler: bv32): (r: bv64)
    ensures r == (handler as bv64) >> 16 && r < 0x1_0000
  {
    ((handler as bv64) >> 16) & 0xFFFF
  }

  /** Bits 0-15 hold the low half of the handler address. */
  lemma LowHalf(isInterrupt: bool, handler: bv32)
    ensures GateDescriptor(isInterrupt, handler) & 0xFFFF == (handler as bv64) & 0xFFFF
  {
  }

  /** Bits 48-63 hold the high half of the handler address. */
  lemma {:induction false} HighHalf(isInterrupt: bool, handler: bv32)
    ensures GateDescriptor(isInterrupt, handler) >> 48 == (handler as bv64) >> 16
  {
    ShiftOut(LowFields(isInterrupt, handler), HighField(handler));
  }

  /** A 16-bit field OR-ed in at bit 48 is what a shift by 48 reads back. */
  lemma ShiftOut(low: bv64, high: bv64)
    requires low < 0x1_0000_0000_0000 && high < 0x1_0000
    ensures (low | (high << 48)) >> 48 == high
  {
  }

  /** The two halves rebuild the handler address. */
  lemma {:induction false} HandlerHalves(isInterrupt: bool, handler: bv32)
    ensures ((GateDescriptor(isInterrupt, handler) >> 48) << 16) | (GateDescriptor(isInterrupt, handler) & 0xFFFF)
            == handler as bv64
  {
    LowHalf(isInterrupt, handler);
    HighHalf(isInterrupt, handler);
    var h := handler as bv64;
    assert h < 0x1_0000_0000;
    assert ((h >> 16) << 16) | (h & 0xFFFF) == h;
  }

  /** Bits 16-31 select the kernel code segment. */
  lemma SelectsKernelCode(isInterrupt: bool, handler: bv32)
    ensures (GateDescriptor(isInterrupt, handler) >> 16) & 0xFFFF == 0x08
  {
  }

  /**
   * The access byte: bits 32-39 reserved and zero, bits 40-43 the gate type (0xE for an
   * interrupt gate, 0xF for a trap gate), bit 44 zero, privilege level 0 in bits 45-46,
   * and the present flag set in bit 47.
   */
  lemma AccessBits(isInterrupt: bool, handler: bv32)
    ensures (GateDescriptor(isInterrupt, handler) >> 32) & 0xFF == 0
    ensures (GateDescriptor(isInterrupt, handler) >> 40) & 0xF == (if isInterrupt then 0xE else 0xF)
    ensures (GateDescriptor(isInterrupt, handler) >> 44) & 0x7 == 0
    ensures (GateDescriptor(isInterrupt, handler) >> 47) & 1 == 1
  {
  }
}
