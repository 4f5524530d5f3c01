/**
 * A two-level 32-bit address space (a page directory, page tables, and 4 MiB pages through
 * the PS bit), following section 4.3 of the Intel 64 and IA-32 Architectures Software
 * Developer's Manual, Volume 3A (`src/cpu/paging/address_space.rs`).
 *
 * Physical memory is a map from frame addresses to 1024-entry tables; a frame that was
 * never written reads as all zeros. The context owns that memory and a pool of free
 * frames; `Context::map` is the identity lookup into memory.
 *
 * This module gives every operation as a function of a memory snapshot. The imperative
 * `Context` and `AddressSpace` classes (module `AddressSpaces`) are proved to compute
 * exactly these functions, and module `MappingProperties` proves what they achieve.
 */
module Mappings {
  import opened Wrappers
  import opened Addresses
  import opened PagingModel

  /** `MappingError`. */
  datatype MappingError = OutOfMemory | AlreadyMapped

  /** Physical memory, by frame address. */
  type PhysMemory = map<nat, PageTable>

  /** What the context holds: memory and the free frames (top of the stack last). */
  datatype MemState = MemState(memory: PhysMemory, free: seq<FrameAddr>)

  /** The outcome of a mapping operation together with the state it leaves. */
  type Outcome = (Result<Unit, MappingError>, MemState)

  /** Reading the frame at `a`; a frame never written holds zeros. */
  function Frame(m: PhysMemory, a: nat): PageTable {
    if a in m then var t: PageTable := m[a]; t else EmptyTable()
  }

  /** The entry of the directory at `root` that covers `v`. */
  function DirEntry(m: PhysMemory, root: nat, v: VirtAddr): Entry {
    Get(Frame(m, root), ExtractPageDirectoryIndex(v))
  }

  /** A directory entry that refers to a page table (present, not a 4 MiB page). */
  predicate IsTable(e: Entry) {
    IsPresent(e) && !IsHugePage(e)
  }

  /** Mapping flags as the debug assertions demand them: neither PRESENT nor HUGE_PAGE. */
  predicate IsMappingFlags(f: set<Flag>) {
    Present !in f && HugePage !in f
  }

  // ---------------------------------------------------------------------------------
  // The specification: every operation as a function of a memory snapshot.

  /** `translate`: the walk from the directory at `root` down to a physical address. */
  function Walk(m: PhysMemory, root: nat, v: VirtAddr): (r: Option<nat>)
    ensures r.Some? ==> r.value % 0x1000 == v % 0x1000
  {
    var pde := DirEntry(m, root, v);
    if !IsPresent(pde) then None
    else if IsHugePage(pde) then
      OffsetKept(v, Extract4MiBOffset(v), Address4MiB(pde), 0x40_0000);
      Some(Extract4MiBOffset(v) + Address4MiB(pde))
    else
      var pte := Get(Frame(m, Address4KiB(pde)), ExtractPageTableIndex(v));
      if IsPresent(pte) then
        OffsetKept(v, Extract4KiBOffset(v), Address4KiB(pte), 0x1000);
        Some(Extract4KiBOffset(v) + Address4KiB(pte))
      else None
  }

  /**
   * An offset that differs from `v` by whole pages, added to a page-aligned base, keeps the
   * offset of `v` within its 4 KiB page.
   */
  lemma {:induction false} OffsetKept(v: int, off: int, base: int, unit: int)
    requires unit == 0x1000 || unit == 0x40_0000
    requires (v - off) % unit == 0 && base % unit == 0
    ensures (off + base) % 0x1000 == v % 0x1000
  {
    var k := (v - off) / unit;
    var j := base / unit;
    var pages := if unit == 0x1000 then j - k else (j - k) * 1024;
    assert off + base == v + pages * 0x1000;
  }

  /** Writing entry `i` of the table held in frame `a`. */
  function WriteEntry(m: PhysMemory, a: nat, i: PageTableIndex, e: Entry): PhysMemory {
    m[a := Put(Frame(m, a), i, e)]
  }

  /** `map_4mib`'s debug assertions: both addresses 4 MiB-aligned, valid mapping flags. */
  predicate Map4MiBArgs(v: VirtAddr, p: PhysAddr, f: set<Flag>) {
    v % 0x40_0000 == 0 && p % 0x40_0000 == 0 && IsMappingFlags(f)
  }

  /** `map_4kib`'s debug assertions: both addresses 4 KiB-aligned, valid mapping flags. */
  predicate Map4KiBArgs(v: VirtAddr, p: PhysAddr, f: set<Flag>) {
    v % 0x1000 == 0 && p % 0x1000 == 0 && IsMappingFlags(f)
  }

  /** `map_4mib`: refused when the directory entry is present, written otherwise. */
  function Map4MiBSpec(s: MemState, root: nat, v: VirtAddr, p: PhysAddr, f: set<Flag>): Outcome
    requires Map4MiBArgs(v, p, f)
  {
    var d := ExtractPageDirectoryIndex(v);
    if IsPresent(Get(Frame(s.memory, root), d)) then (Err(AlreadyMapped), s)
    else (Ok(Unit), s.(memory := WriteEntry(s.memory, root, d, MakeEntry(f + {Present, HugePage}, p))))
  }

  /**
   * The common tail of `map_4kib`: store `pde` as directory entry `d`, then, in the
   * table at `pta`, fail if the page's entry is present or write it otherwise.
   */
  function InstallPage(s: MemState, root: nat, d: PageTableIndex, pde: Entry, pta: nat,
                       v: VirtAddr, p: PhysAddr, f: set<Flag>): Outcome
    requires p % 0x1000 == 0
  {
    var m := WriteEntry(s.memory, root, d, pde);
    var t := ExtractPageTableIndex(v);
    if IsPresent(Get(Frame(m, pta), t)) then (Err(AlreadyMapped), s.(memory := m))
    else (Ok(Unit), s.(memory := WriteEntry(m, pta, t, MakeEntry(f + {Present}, p))))
  }

  /**
   * The fresh-table path of `map_4kib`: a frame is taken from the pool and zero-filled as
   * the page table. The new directory entry records `phys` when `recordPhys` holds (the
   * code as written) and the table's own address otherwise (the evident intent).
   */
  function MapFresh(s: MemState, root: nat, d: PageTableIndex, v: VirtAddr, p: PhysAddr, f: set<Flag>,
                    recordPhys: bool): Outcome
    requires p % 0x1000 == 0
  {
    if s.free == [] then (Err(OutOfMemory), s)
    else
      var pta := s.free[|s.free| - 1];
      var s1 := MemState(s.memory[pta := EmptyTable()], s.free[..|s.free| - 1]);
      InstallPage(s1, root, d, MakeEntry(f + {Present}, if recordPhys then p else pta), pta, v, p, f)
  }

  /**
   * `map_4kib`: a 4 MiB page covering `v` refuses it; otherwise the page table is reached,
   * allocating it if the directory entry is absent, or OR-ing `f` into the directory entry
   * (`update_flags`) if it is present. `recordPhys` selects the code as written.
   */
  function Map4KiBSpec(s: MemState, root: nat, v: VirtAddr, p: PhysAddr, f: set<Flag>,
                       recordPhys: bool): Outcome
    requires Map4KiBArgs(v, p, f)
  {
    var d := ExtractPageDirectoryIndex(v);
    var pde := Get(Frame(s.memory, root), d);
    if !IsPresent(pde) then MapFresh(s, root, d, v, p, f, recordPhys)
    else if IsHugePage(pde) then (Err(AlreadyMapped), s)
    else InstallPage(s, root, d, WithFlags(pde, f), Address4KiB(pde), v, p, f)
  }

  /** The path of `map_4kib` that allocates a fresh page table. */
  lemma FreshTablePath(s: MemState, root: nat, v: VirtAddr, p: PhysAddr, f: set<Flag>, recordPhys: bool)
    requires Map4KiBArgs(v, p, f)
    requires !IsPresent(DirEntry(s.memory, root, v))
    ensures Map4KiBSpec(s, root, v, p, f, recordPhys)
            == MapFresh(s, root, ExtractPageDirectoryIndex(v), v, p, f, recordPhys)
  {
  }

  /** The path of `map_4kib` through an existing page table. */
  lemma ExistingTablePath(s: MemState, root: nat, v: VirtAddr, p: PhysAddr, f: set<Flag>, recordPhys: bool)
    requires Map4KiBArgs(v, p, f)
    requires IsTable(DirEntry(s.memory, root, v))
    ensures var pde := DirEntry(s.memory, root, v);
            Map4KiBSpec(s, root, v, p, f, recordPhys)
            == InstallPage(s, root, ExtractPageDirectoryIndex(v), WithFlags(pde, f), Address4KiB(pde), v, p, f)
  {
  }

  /** Whether `map_range` takes a 4 MiB step from here. */
  predicate HugeStep(virt: int, phys: int, length: nat) {
    length >= 0x40_0000 && virt % 0x40_0000 == 0 && phys % 0x40_0000 == 0
  }

  /**
   * The arguments `map_range` accepts: everything 4 KiB-aligned (its debug assertions),
   * and both ranges ending below 2^32, so that advancing `virt` and `phys` past the last
   * page does not overflow (a panic in a debug build).
   */
  predicate RangeArgs(virt: int, phys: int, length: nat) {
    0 <= virt && virt + length < 0x1_0000_0000 && 0 <= phys && phys + length < 0x1_0000_0000
    && virt % 0x1000 == 0 && phys % 0x1000 == 0 && length % 0x1000 == 0
  }

  /** After a 4 KiB step, or a 4 MiB step where one is taken, the rest is a valid range. */
  lemma RangeStep(virt: int, phys: int, length: nat)
    requires RangeArgs(virt, phys, length) && length != 0
    ensures length >= 0x1000
    ensures RangeArgs(virt + 0x1000, phys + 0x1000, length - 0x1000)
    ensures HugeStep(virt, phys, length) ==>
              RangeArgs(virt + 0x40_0000, phys + 0x40_0000, length - 0x40_0000)
  {
  }

  /**
   * `map_range`: greedy 4 MiB / 4 KiB steps, stopping at the first error and leaving the
   * steps already taken in place. `recordPhys` selects the as-written `map_4kib`.
   */
  function MapRangeSpec(s: MemState, root: nat, virt: int, phys: int, length: nat, f: set<Flag>,
                        recordPhys: bool): Outcome
    requires RangeArgs(virt, phys, length) && IsMappingFlags(f)
    decreases length, 1
  {
    if length == 0 then (Ok(Unit), s)
    else MapRangeStep(s, root, virt, phys, length, f, recordPhys)
  }

  /**
   * One iteration of `map_range`'s loop: a 4 MiB page where length and alignment allow it,
   * a 4 KiB page otherwise; an error ends the range, a success continues with the rest.
   */
  function MapRangeStep(s: MemState, root: nat, virt: int, phys: int, length: nat, f: set<Flag>,
                        recordPhys: bool): Outcome
    requires RangeArgs(virt, phys, length) && IsMappingFlags(f) && length != 0
    decreases length, 0
  {
    RangeStep(virt, phys, length);
    if HugeStep(virt, phys, length) then
      var (r, s1) := Map4MiBSpec(s, root, virt, phys, f);
      if r.Err? then (r, s1)
      else MapRangeSpec(s1, root, virt + 0x40_0000, phys + 0x40_0000, length - 0x40_0000, f, recordPhys)
    else
      var (r, s1) := Map4KiBSpec(s, root, virt, phys, f, recordPhys);
      if r.Err? then (r, s1)
      else MapRangeSpec(s1, root, virt + 0x1000, phys + 0x1000, length - 0x1000, f, recordPhys)
  }

  /**
   * One step of `map_range`, 4 MiB (`huge`) or 4 KiB, whose `map_4mib` / `map_4kib` call
   * yields `r` and `s1`: a failure is the outcome of the whole range.
   */
  lemma MapRangeStopsAt(s: MemState, root: nat, virt: int, phys: int, length: nat, f: set<Flag>,
                        recordPhys: bool, r: Result<Unit, MappingError>, s1: MemState)
    requires RangeArgs(virt, phys, length) && IsMappingFlags(f) && length >= 0x1000 && r.Err?
    requires if HugeStep(virt, phys, length) then (r, s1) == Map4MiBSpec(s, root, virt, phys, f)
             else (r, s1) == Map4KiBSpec(s, root, virt, phys, f, recordPhys)
    ensures MapRangeSpec(s, root, virt, phys, length, f, recordPhys) == (r, s1)
  {
    assert MapRangeSpec(s, root, virt, phys, length, f, recordPhys)
        == MapRangeStep(s, root, virt, phys, length, f, recordPhys);
  }

  /** After a successful 4 MiB step, the rest of the range remains. */
  lemma MapRangeHugeStep(s: MemState, root: nat, virt: int, phys: int, length: nat, f: set<Flag>,
                         recordPhys: bool, s1: MemState)
    requires RangeArgs(virt, phys, length) && IsMappingFlags(f) && length != 0 && HugeStep(virt, phys, length)
    requires RangeArgs(virt + 0x40_0000, phys + 0x40_0000, length - 0x40_0000)
    requires (Ok(Unit), s1) == Map4MiBSpec(s, root, virt, phys, f)
    ensures MapRangeSpec(s, root, virt, phys, length, f, recordPhys)
            == MapRangeSpec(s1, root, virt + 0x40_0000, phys + 0x40_0000, length - 0x40_0000, f, recordPhys)
  {
    assert MapRangeSpec(s, root, virt, phys, length, f, recordPhys)
        == MapRangeStep(s, root, virt, phys, length, f, recordPhys);
  }

  /** After a successful 4 KiB step, the rest of the range remains. */
  lemma MapRangeSmallStep(s: MemState, root: nat, virt: int, phys: int, length: nat, f: set<Flag>,
                          recordPhys: bool, s1: MemState)
    requires RangeArgs(virt, phys, length) && IsMappingFlags(f) && length >= 0x1000 && !HugeStep(virt, phys, length)
    requires RangeArgs(virt + 0x1000, phys + 0x1000, length - 0x1000)
    requires (Ok(Unit), s1) == Map4KiBSpec(s, root, virt, phys, f, recordPhys)
    ensures MapRangeSpec(s, root, virt, phys, length, f, recordPhys)
            == MapRangeSpec(s1, root, virt + 0x1000, phys + 0x1000, length - 0x1000, f, recordPhys)
  {
    assert MapRangeSpec(s, root, virt, phys, length, f, recordPhys)
        == MapRangeStep(s, root, virt, phys, length, f, recordPhys);
  }
}
