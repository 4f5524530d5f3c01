/**
 * The boot-time bump allocator of `src/utility/init_allocator.rs`: memory is handed out
 * downwards from `top` towards `base` and never given back. `oom()`, which halts the
 * kernel, is modelled as the `None` outcome with the allocator left as it was.
 *
 * Addresses are 32-bit `usize` values. `Layout`s are those of the Rust core library: a
 * size and a power-of-two alignment, with the size rounded up to the alignment not
 * exceeding `isize::MAX`.
 */
module InitAllocators {
  import opened Wrappers

  /** Powers of two: 1, 2, 4, ... */
  predicate IsPowerOfTwo(n: nat)
    decreases n
  {
    n == 1 || (n >= 2 && n % 2 == 0 && IsPowerOfTwo(n / 2))
  }

  /** `core::alloc::Layout`: the size and alignment of a block. */
  datatype Layout = Layout(size: nat, align: nat)

  /** The invariant of `Layout` on a 32-bit target (`isize::MAX` is 0x7FFF_FFFF). */
  predicate ValidLayout(l: Layout) {
    IsPowerOfTwo(l.align) && l.size + (l.align - 1) <= 0x7FFF_FFFF
  }

  /**
   * `Layout::array::<T>(count)` for an element layout `elem`: the layout of `count`
   * consecutive elements, or `None` when its size would exceed `isize::MAX` once rounded
   * up to the alignment.
   */
  function ArrayLayout(elem: Layout, count: nat): (r: Option<Layout>)
    requires ValidLayout(elem)
    ensures r.Some? <==> elem.size * count + (elem.align - 1) <= 0x7FFF_FFFF
    ensures r.Some? ==> ValidLayout(r.value) && r.value == Layout(elem.size * count, elem.align)
  {
    if elem.size * count + (elem.align - 1) <= 0x7FFF_FFFF then Some(Layout(elem.size * count, elem.align))
    else None
  }

  /**
   * `addr & (align - 1)` for a power-of-two `align`: the bits below the alignment, that is
   * the remainder modulo `align`. This is what `allocate_raw` computes.
   */
  function LowBits(addr: nat, align: nat): (r: nat)
    requires align >= 1
    ensures r < align && r <= addr
  {
    addr % align
  }

  /** A multiple of `align` leaves no remainder. */
  lemma {:induction false} MultipleHasNoRemainder(k: nat, align: nat)
    requires align >= 1
    ensures (k * align) % align == 0
  {
    var q, r := (k * align) / align, (k * align) % align;
    assert (k - q) * align == r < align;
    assert q <= k;
  }

  /** `addr & !(align - 1)`: `addr` rounded down to a multiple of `align`. */
  function AlignDown(addr: nat, align: nat): (r: nat)
    requires align >= 1
    ensures r <= addr && r % align == 0 && addr - r < align
  {
    MultipleHasNoRemainder(addr / align, align);
    (addr / align) * align
  }

  /**
   * `allocate_raw` as written: from `top`, take `size` bytes, keep the low bits of the
   * result (line 50), and refuse when that falls below `base`.
   */
  function BumpAsWritten(top: nat, base: nat, l: Layout): (r: Option<nat>)
    requires ValidLayout(l)
    ensures r.Some? ==> base <= r.value < l.align
  {
    if top < l.size then None
    else
      var addr := LowBits(top - l.size, l.align);
      if addr < base then None else Some(addr)
  }

  /**
   * `allocate_raw` as intended: from `top`, take `size` bytes, round down to the
   * alignment, and refuse when that falls below `base`.
   */
  function Bump(top: nat, base: nat, l: Layout): Option<nat>
    requires ValidLayout(l)
  {
    if top < l.size then None
    else
      var addr := AlignDown(top - l.size, l.align);
      if addr < base then None else Some(addr)
  }

  /**
   * What `Bump` hands out: an aligned block of `size` bytes inside `[base, top)`, and it
   * refuses only when no aligned block fits there.
   */
  lemma BumpFits(top: nat, base: nat, l: Layout)
    requires ValidLayout(l)
    ensures var r := Bump(top, base, l);
            && (r.Some? ==> base <= r.value && r.value + l.size <= top && r.value % l.align == 0)
            && (r.None? <==> top < l.size || AlignDown(top - l.size, l.align) < base)
            && (r.Some? ==> top - l.size - r.value < l.align)
  {
  }

  /**
   * Two allocations in a row give disjoint blocks: the second lies wholly below the first.
   */
  lemma BumpDisjoint(top: nat, base: nat, l1: Layout, l2: Layout)
    requires ValidLayout(l1) && ValidLayout(l2)
    requires Bump(top, base, l1).Some?
    ensures var a := Bump(top, base, l1).value;
            var b := Bump(a, base, l2);
            b.Some? ==> b.value + l2.size <= a && base <= b.value
  {
  }

  /**
   * As written, `allocate_raw` keeps the bits the mask should clear: whenever `base` is at
   * least the alignment, which is the case for any allocator placed above the first page,
   * every allocation of every size fails, however much memory is left.
   */
  lemma AsWrittenAlwaysFails(top: nat, base: nat, l: Layout)
    requires ValidLayout(l) && base >= l.align
    ensures BumpAsWritten(top, base, l) == None
  {
  }

  /**
   * The concrete case: 1 MiB of memory at [0x10_0000, 0x20_0000), 16 bytes aligned to 8.
   * The code as written reports out-of-memory; the corrected mask yields 0x1F_FFF0.
   */
  lemma AsWrittenRefusesFirstAllocation()
    ensures BumpAsWritten(0x20_0000, 0x10_0000, Layout(16, 8)) == None
    ensures Bump(0x20_0000, 0x10_0000, Layout(16, 8)) == Some(0x1F_FFF0)
  {
    assert IsPowerOfTwo(8) by {
      assert IsPowerOfTwo(2) && IsPowerOfTwo(4);
    }
  }

  /** `InitAllocator`: the block `[base, top)` not yet handed out. */
  class InitAllocator {
    var top: nat
    const base: nat

    /** `InitAllocator::new`: takes ownership of `[base, top)`. */
    constructor (base: nat, top: nat)
      ensures this.base == base && this.top == top
    {
      this.base := base;
      this.top := top;
    }

    /**
     * `allocate_raw`, with the mask corrected (see `Bump`): on success the block starts at
     * the new `top`; on `oom()` nothing changes.
     */
    method AllocateRaw(l: Layout) returns (r: Option<nat>)
      requires ValidLayout(l)
      modifies this
      ensures r == Bump(old(top), base, l)
      ensures top == if r.Some? then r.value else old(top)
    {
      if top < l.size {
        return None;
      }
      var addr := top - l.size;
      addr := AlignDown(addr, l.align);
      if addr < base {
        return None;
      }
      top := addr;
      return Some(addr);
    }

    /**
     * `allocate_slice`: the address of room for `count` elements of layout `elem`, and the
     * count, as the slice `from_raw_parts_mut` builds; `oom()` when the array layout
     * overflows or the memory is exhausted.
     */
    method AllocateSlice(elem: Layout, count: nat) returns (r: Option<(nat, nat)>)
      requires ValidLayout(elem)
      modifies this
      ensures r.None? <==> ArrayLayout(elem, count).None? || Bump(old(top), base, ArrayLayout(elem, count).value).None?
      ensures r.Some? ==> var (addr, len) := r.value;
                          && len == count
                          && base <= addr && addr + elem.size * count <= old(top) && addr % elem.align == 0
                          && top == addr
      ensures r.None? ==> top == old(top)
    {
      var layout := ArrayLayout(elem, count);
      if layout.None? {
        return None;
      }
      BumpFits(top, base, layout.value);
      var addr := AllocateRaw(layout.value);
      if addr.None? {
        return None;
      }
      return Some((addr.value, count));
    }
  }
}
