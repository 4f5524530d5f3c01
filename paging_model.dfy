/**
 * Page-directory and page-table entries and the decomposition of a virtual address into
 * table indices, following the 32-bit paging format of section 4.3 of the Intel 64 and
 * IA-32 Architectures Software Developer's Manual, Volume 3A (`src/cpu/paging/model.rs`).
 *
 * An entry is the 32-bit `PageTableFlags` word, a `bitflags` set. The model keeps its two
 * halves apart: the set of declared flags it holds (bits 0-8) and the frame number held in
 * bits 12-31. `Bits` packs the two halves back into the word, and `EntryEncoding` shows
 * that the address accessors are the masks the source applies to that word.
 */
module PagingModel {
  import opened Addresses

  /** The nine flags `PageTableFlags` declares. */
  datatype Flag =
    | Present         // bit 0
    | Writable        // bit 1
    | UserAccessible  // bit 2
    | WriteThrough    // bit 3
    | CacheDisabled   // bit 4
    | Accessed        // bit 5
    | Dirty           // bit 6
    | HugePage        // bit 7: a directory entry that maps a 4 MiB page
    | Global          // bit 8

  /** The value of each flag's constant: `1 << n` for bit `n`. */
  function FlagBit(f: Flag): (b: nat)
    ensures b < 0x200
  {
    match f
    case Present => 0x001
    case Writable => 0x002
    case UserAccessible => 0x004
    case WriteThrough => 0x008
    case CacheDisabled => 0x010
    case Accessed => 0x020
    case Dirty => 0x040
    case HugePage => 0x080
    case Global => 0x100
  }

  /** The 32-bit word of a flag set: the sum of the bits of the flags it holds. */
  function FlagWord(fs: set<Flag>): (w: nat)
    ensures w < 0x200
  {
    (if Present in fs then 0x001 else 0) + (if Writable in fs then 0x002 else 0)
    + (if UserAccessible in fs then 0x004 else 0) + (if WriteThrough in fs then 0x008 else 0)
    + (if CacheDisabled in fs then 0x010 else 0) + (if Accessed in fs then 0x020 else 0)
    + (if Dirty in fs then 0x040 else 0) + (if HugePage in fs then 0x080 else 0)
    + (if Global in fs then 0x100 else 0)
  }

  /** A page-table or page-directory entry: its flags and the frame number above them. */
  datatype Entry = Entry(flags: set<Flag>, frame: nat)

  /** An entry whose frame number fits bits 12-31. */
  predicate WellFormed(e: Entry) {
    e.frame < 0x10_0000
  }

  /** The 32-bit word the entry stands for. */
  function Bits(e: Entry): nat {
    e.frame * 0x1000 + FlagWord(e.flags)
  }

  /** The all-zero entry, as left by zero-filling a frame. */
  const NULL_ENTRY: Entry := Entry({}, 0)

  /** `is_present`: the entry's PRESENT bit (bit 0) is set. */
  predicate IsPresent(e: Entry) {
    Present in e.flags
  }

  /** `is_huge_page`: the entry's HUGE_PAGE bit (bit 7) is set. */
  predicate IsHugePage(e: Entry) {
    HugePage in e.flags
  }

  /** `address_4kib`: the 4 KiB-aligned frame address held by the entry. */
  function Address4KiB(e: Entry): (a: nat)
    ensures a % 0x1000 == 0
  {
    e.frame * 0x1000
  }

  /**
   * `address_4mib`, used by `translate` but not defined in the shown source: taken to be
   * the 4 MiB-aligned address of a huge-page directory entry, the word with bits 0-21 cleared.
   */
  function Address4MiB(e: Entry): (a: nat)
    ensures a % 0x40_0000 == 0
    ensures a <= Address4KiB(e) < a + 0x40_0000
  {
    (e.frame / 1024) * 0x40_0000
  }

  /**
   * `flags | PageTableFlags::from_bits_retain(phys)` for a 4 KiB-aligned `phys`: the entry
   * that carries `flags` and points at `phys`.
   */
  function MakeEntry(flags: set<Flag>, phys: PhysAddr): (e: Entry)
    requires phys % 0x1000 == 0
    ensures Address4KiB(e) == phys && e.flags == flags && WellFormed(e)
  {
    Entry(flags, phys / 0x1000)
  }

  /** `update_flags` (`*parent |= child`): the flags are added, the address is kept. */
  function WithFlags(e: Entry, f: set<Flag>): (r: Entry)
    ensures Address4KiB(r) == Address4KiB(e) && Address4MiB(r) == Address4MiB(e)
    ensures IsPresent(r) <==> IsPresent(e) || Present in f
    ensures IsHugePage(r) <==> IsHugePage(e) || HugePage in f
  {
    e.(flags := e.flags + f)
  }

  /** The number of entries of a page table or page directory. */
  const ENTRY_COUNT: nat := 1024

  /** A page table or page directory: exactly 1024 entries (one 4 KiB frame). */
  type PageTable = t: seq<Entry> | |t| == 1024 witness EmptyTable()

  /** A table whose every entry is zero, the result of zero-filling a frame. */
  function EmptyTable(): (t: seq<Entry>)
    ensures |t| == ENTRY_COUNT
  {
    seq(1024, _ => NULL_ENTRY)
  }

  /** An index within a page table; the type itself keeps it below 1024. */
  type PageTableIndex = i: int | 0 <= i < 1024

  /** The debug assertion of `PageTableIndex::new`: the value indexes one of the 1024 entries. */
  predicate InBounds(value: nat) {
    value < ENTRY_COUNT
  }

  /** `PageTableIndex::new`: its debug assertion is its precondition. */
  function NewIndex(value: nat): (r: PageTableIndex)
    requires InBounds(value)
    ensures r as nat == value
  {
    value
  }

  /** `Index<PageTableIndex> for PageTable`: an unchecked read that stays in bounds. */
  function Get(t: PageTable, i: PageTableIndex): Entry {
    t[i]
  }

  /** `IndexMut<PageTableIndex> for PageTable`: writes entry `i` and no other. */
  function Put(t: PageTable, i: PageTableIndex, e: Entry): PageTable {
    t[i := e]
  }

  /** `extract_page_directory_index`: `virt_addr >> 22`, the 4 MiB region holding `v`. */
  function ExtractPageDirectoryIndex(v: VirtAddr): (r: PageTableIndex)
    ensures r * 0x40_0000 <= v < (r + 1) * 0x40_0000
  {
    NewIndex(v / 0x40_0000)
  }

  /** `extract_page_table_index`: `(virt_addr >> 12) & 0x3FF`, the 4 KiB page within it. */
  function ExtractPageTableIndex(v: VirtAddr): (r: PageTableIndex)
    ensures r * 0x1000 <= v % 0x40_0000 < (r + 1) * 0x1000
  {
    NewIndex((v / 0x1000) % 1024)
  }

  /**
   * `extract_offset`, as written: it builds a `PageTableIndex` from `virt_addr & 0xFFF`, so
   * the debug assertion of `PageTableIndex::new` becomes a precondition that excludes every
   * in-page offset from 1024 to 4095.
   */
  function ExtractOffset(v: VirtAddr): (r: PageTableIndex)
    requires InBounds(v % 0x1000)
    ensures r == v % 0x1000
  {
    NewIndex(v % 0x1000)
  }

  /** `extract_4kib_offset` (not defined in the shown source): the offset within a 4 KiB page. */
  function Extract4KiBOffset(v: VirtAddr): (r: nat)
    ensures r < 0x1000 && (v - r) % 0x1000 == 0
  {
    v % 0x1000
  }

  /** `extract_4mib_offset` (not defined in the shown source): the offset within a 4 MiB page. */
  function Extract4MiBOffset(v: VirtAddr): (r: nat)
    ensures r < 0x40_0000 && (v - r) % 0x40_0000 == 0
  {
    v % 0x40_0000
  }

  // ---------------------------------------------------------------------------------
  // Properties of the layout.

  /** The nine flags are the nine distinct bits 0-8, one each. */
  lemma FlagsAreDistinctBits()
    ensures [FlagBit(Present), FlagBit(Writable), FlagBit(UserAccessible), FlagBit(WriteThrough),
             FlagBit(CacheDisabled), FlagBit(Accessed), FlagBit(Dirty), FlagBit(HugePage),
             FlagBit(Global)]
         == [1, 2, 4, 8, 16, 32, 64, 128, 256]
    ensures forall f: Flag :: FlagWord({f}) == FlagBit(f)
  {
  }

  /**
   * The accessors are the source's masks of the packed word: `address_4kib` is the word
   * with bits 0-11 cleared (`bits & !0xFFF`), `address_4mib` the word with bits 0-21
   * cleared, and the flag half is what the 4 KiB mask removes.
   */
  lemma {:induction false} EntryEncoding(e: Entry)
    requires WellFormed(e)
    ensures Bits(e) < 0x1_0000_0000
    ensures Address4KiB(e) == Bits(e) - Bits(e) % 0x1000
    ensures Address4MiB(e) == Bits(e) - Bits(e) % 0x40_0000
    ensures Bits(e) % 0x1000 == FlagWord(e.flags)
  {
    var low := FlagWord(e.flags);
    assert Bits(e) % 0x1000 == low;
    var q := e.frame / 1024;
    var r := e.frame % 1024;
    assert Bits(e) == q * 0x40_0000 + (r * 0x1000 + low);
    assert Bits(e) % 0x40_0000 == r * 0x1000 + low;
  }

  /** A virtual address is the sum of its directory part, its table part and its offset. */
  lemma Decompose(v: VirtAddr)
    ensures v == ExtractPageDirectoryIndex(v) * 0x40_0000 + ExtractPageTableIndex(v) * 0x1000
                 + Extract4KiBOffset(v)
  {
  }

  /**
   * `extract_offset` serves exactly the addresses whose in-page offset is below 1024, and
   * there it agrees with the offset `translate` uses.
   */
  lemma ExtractOffsetAgrees(v: VirtAddr)
    ensures InBounds(v % 0x1000) <==> Extract4KiBOffset(v) < ENTRY_COUNT
    ensures InBounds(v % 0x1000) ==> ExtractOffset(v) == Extract4KiBOffset(v)
  {
  }

  /**
   * For the address 0x400, whose offset in its page is 0x400, the value `extract_offset`
   * hands to `PageTableIndex::new` fails that constructor's assertion.
   */
  lemma ExtractOffsetRejectsLargeOffsets()
    ensures Extract4KiBOffset(0x400) == 0x400 && !InBounds(0x400 % 0x1000)
  {
  }
}
