# A verified model of a small 32-bit x86 kernel

This project models the core of a small 32-bit x86 kernel written in Rust, and proves
properties of that model in Dafny. The core covered is:

- **The paging layer.**
  - Page-directory and page-table entries, and the decomposition of a virtual address
    into table indices, in the 32-bit format of section 4.3 of the Intel 64 and IA-32
    Architectures Software Developer's Manual, Volume 3A.
  - The two-level `AddressSpace`: `new`, `translate`, `map_4kib`, `map_4mib` and the
    greedy `map_range`.
  - These work through a `Context` that owns physical memory and a pool of free frames.
- **The two physical-memory allocators.**
  - The steady-state frame allocator, a LIFO stack of free frames.
  - The boot-time bump allocator, `InitAllocator`.
- **`ArrayVec`**, the fixed-capacity vector.
- **The keyboard.** The `Modifiers` bit set, and the QWERTY scancode state machine.
- **The terminals.**
  - The current terminal of `src/terminal/mod.rs`: output and scrolling, command-line
    editing, the last-word search and the scancode queue.
  - The older, output-only terminal of `src/terminal.rs`.
- **The VGA text-mode drivers**: cell packing, `putc`, the colours, and the code page 437
  table in both directions.
- **Small encoders and arithmetic**:
  - the IDT gate descriptor;
  - the Multiboot header and its checksum (section 3.1.2 of the Multiboot Specification
    0.6.96);
  - the PIT reload-value arithmetic;
  - the human-readable byte sizes;
  - the process and signal tables.

The source's own form is kept:

- **Pure code becomes functions and lemmas**: the entry layout, the modifiers, the VGA
  tables, the encoders and arithmetic.
- **Code that updates state in place becomes classes.** Their fields are updated by
  methods with `modifies` clauses:
  - the address space and its context;
  - both allocators;
  - `ArrayVec`;
  - the QWERTY layout;
  - both terminals;
  - the VGA buffer;
  - the process table and the signals.
- **Each such method is proved against a specification function of the old state.**
  Examples: `Mappings.Map4KiBSpec`, `QwertyLayout.Step`, `TerminalModel.TypeIn` and
  `Format.HumanBytes`.
- **What the source promises is proved about those functions.** Examples:
  - translation after a mapping, in `MappingProperties`;
  - the round trips of the VGA table;
  - the invariants the terminal keeps.

Modules and files:

| module | file | source |
|---|---|---|
| `Wrappers` | `wrappers.dfy` | `Option`, `Result` and `Unit` |
| `Arithmetic` | `arithmetic.dfy` | helper lemmas for products and quotients |
| `Addresses` | `addresses.dfy` | 32-bit physical and virtual addresses |
| `PagingModel` | `paging_model.dfy` | `src/cpu/paging/model.rs` |
| `FrameAllocator` | `frame_allocator.dfy` | `src/state/allocator.rs` |
| `Mappings` | `mappings.dfy` | `src/cpu/paging/address_space.rs`, as functions |
| `MappingProperties` | `mapping_properties.dfy` | what those functions achieve |
| `AddressSpaces` | `address_space.dfy` | `src/cpu/paging/address_space.rs`, as classes |
| `InitAllocators` | `init_allocator.dfy` | `src/utility/init_allocator.rs` |
| `ArrayVecs` | `array_vec.dfy` | `src/utility/array_vec.rs` |
| `KeyModifiers` | `modifiers.dfy` | `src/terminal/layouts/mod.rs` |
| `QwertyLayout` | `qwerty.dfy` | `src/terminal/layouts/qwerty.rs` |
| `Vga` | `vga.dfy` | `src/drivers/vga.rs` |
| `LegacyVga` | `legacy_vga.dfy` | `src/vga.rs` |
| `TerminalModel` | `terminal_model.dfy` | `src/terminal/mod.rs`, as values |
| `Terminals` | `terminal.dfy` | `src/terminal/mod.rs`, as a class |
| `LegacyTerminals` | `legacy_terminal.dfy` | `src/terminal.rs` |
| `Idt` | `idt.dfy` | `src/cpu/idt/mod.rs` |
| `Multiboot` | `multiboot.dfy` | `src/multiboot.rs` |
| `Pit` | `pit.dfy` | `src/drivers/pit.rs` |
| `Format` | `format.dfy` | `src/utility/format.rs` |
| `ProcessState` | `process.dfy` | `src/state/process.rs` |

Panics of the source are modelled in two ways:

- A panic on a precondition the caller must meet becomes a `requires`. These are the
  `debug_assert!`s, indexing past an end, and `PageTableIndex::new` on a value of 1024 or
  more.
- `oom()` and the mapping errors are modelled as outcomes: `Option` or `Result`.

Three helpers are used by the code but not defined in the files modelled:
`address_4mib`, `extract_4kib_offset` and `extract_4mib_offset`. They are taken to be the
obvious masks: `bits & !0x3F_FFFF`, `v & 0xFFF` and `v & 0x3F_FFFF`.

## Model

| member | source | states |
|---|---|---|
| PagingModel.FlagBit | src/cpu/paging/model.rs:8-40 | each declared flag is a single bit below bit 9 |
| PagingModel.FlagWord | src/cpu/paging/model.rs:8-40 | a set of flags occupies only bits 0-8 of the entry |
| PagingModel.FlagsAreDistinctBits | src/cpu/paging/model.rs:10-39 | the nine flags are the distinct bits 0-8 (PRESENT bit 0, HUGE_PAGE bit 7), and a one-flag set is that flag's bit |
| PagingModel.Address4KiB | src/cpu/paging/model.rs:64-66 | the frame address of an entry is 4 KiB-aligned |
| PagingModel.Address4MiB | src/cpu/paging/address_space.rs:71 | the address of a huge page is 4 MiB-aligned and lies within 4 MiB below the entry's frame address |
| PagingModel.MakeEntry | src/cpu/paging/address_space.rs:133-134 | OR-ing an aligned `phys` into `flags` reads back `phys` as its address and exactly `flags` as its flags |
| PagingModel.WithFlags | src/cpu/paging/address_space.rs:259-262 | OR-ing flags into an entry keeps both addresses, and the entry is present or huge exactly when it was before or the added flags say so |
| PagingModel.EntryEncoding | src/cpu/paging/model.rs:46-66 | in the packed 32-bit word, `address_4kib` is the word with bits 0-11 cleared, `address_4mib` the word with bits 0-21 cleared, and bits 0-11 are the flags |
| PagingModel.EmptyTable | src/cpu/paging/model.rs:72 | a zero-filled table has exactly 1024 entries |
| PagingModel.NewIndex | src/cpu/paging/model.rs:99-102 | `PageTableIndex::new` keeps its value, which must be below 1024 |
| PagingModel.ExtractPageDirectoryIndex | src/cpu/paging/model.rs:112-114 | the directory index is the 4 MiB region holding `v`: `r * 4 MiB <= v < (r + 1) * 4 MiB` |
| PagingModel.ExtractPageTableIndex | src/cpu/paging/model.rs:118-120 | the table index is the 4 KiB page within that region: `r * 4 KiB <= v % 4 MiB < (r + 1) * 4 KiB` |
| PagingModel.Decompose | src/cpu/paging/model.rs:112-126 | `v` is directory index * 4 MiB + table index * 4 KiB + in-page offset |
| PagingModel.ExtractOffset | src/cpu/paging/model.rs:124-126 | as written: the offset is a `PageTableIndex`, so it is only defined for offsets below 1024 |
| PagingModel.ExtractOffsetAgrees | src/cpu/paging/model.rs:124-126 | `extract_offset` is defined exactly where the in-page offset is below 1024, and there it equals the offset `translate` adds |
| PagingModel.ExtractOffsetRejectsLargeOffsets | src/cpu/paging/model.rs:99-102 | as written, for the address 0x400 the offset `extract_offset` hands to `PageTableIndex::new` (0x400) fails that constructor's assertion |
| PagingModel.Extract4KiBOffset | src/cpu/paging/address_space.rs:80 | the offset within a 4 KiB page: below 4096, and `v` minus it is 4 KiB-aligned |
| PagingModel.Extract4MiBOffset | src/cpu/paging/address_space.rs:71 | the offset within a 4 MiB page: below 4 MiB, and `v` minus it is 4 MiB-aligned |
| FrameAllocator.Allocator.constructor | src/state/allocator.rs:16-21 | a new allocator holds no frame and uses the given storage |
| FrameAllocator.Allocator.Deallocate | src/state/allocator.rs:37-48 | a frame is pushed on top, only slot `len` of the storage is written, and the storage must not be full |
| FrameAllocator.Allocator.Allocate | src/state/allocator.rs:52-60 | fails with OutOfMemory, and changes nothing, exactly when no frame is left; otherwise pops the most recently freed frame |
| FrameAllocator.Allocator.RemainingMemory | src/state/allocator.rs:64-66 | the free bytes are the number of free frames times 4096 |
| FrameAllocator.DeallocateThenAllocate | src/state/allocator.rs:37-60 | freeing a frame and allocating returns that frame and restores the contents |
| FrameAllocator.DepositThreeFrames | src/state/allocator.rs:37-60 | three frames come back in reverse order, and a fourth request fails with OutOfMemory |
| Mappings.Walk | src/cpu/paging/address_space.rs:64-84 | `translate` keeps the offset within the 4 KiB page: a translated address lies at the same offset in its frame |
| Mappings.FreshTablePath | src/cpu/paging/address_space.rs:120-135 | with no present directory entry, `map_4kib` takes the fresh-table path |
| Mappings.ExistingTablePath | src/cpu/paging/address_space.rs:140-152 | with a present, non-huge directory entry, `map_4kib` ORs the flags into it and installs the page in its table |
| Mappings.RangeStep | src/cpu/paging/address_space.rs:228-256 | after a 4 KiB step, or a 4 MiB step where one is taken, the rest of the range is still aligned and ends below 2^32 |
| Mappings.MapRangeStopsAt | src/cpu/paging/address_space.rs:240-251 | an error of one step is the outcome of the whole `map_range`, with earlier steps left in place |
| Mappings.MapRangeHugeStep | src/cpu/paging/address_space.rs:240-245 | after a successful 4 MiB step, `map_range` continues 4 MiB further on |
| Mappings.MapRangeSmallStep | src/cpu/paging/address_space.rs:246-251 | after a successful 4 KiB step, `map_range` continues 4 KiB further on |
| MappingProperties.SamePage | src/cpu/paging/model.rs:112-120 | the addresses of the 4 KiB page at `v` are exactly those with `v`'s two indices, at their offset from `v` |
| MappingProperties.SameRegion | src/cpu/paging/model.rs:112-114 | the addresses of the 4 MiB page at `v` are exactly those with `v`'s directory index, at their offset from `v` |
| MappingProperties.EmptyDirectoryMapsNothing | src/cpu/paging/address_space.rs:64-84 | a zero-filled directory translates no address |
| MappingProperties.NewIsSeparated | src/cpu/paging/address_space.rs:40-49 | the state `new` leaves keeps the directory, tables and free frames apart, and maps nothing |
| MappingProperties.FrameAfterWrite | src/cpu/paging/address_space.rs:133 | after writing frame `a`, frame `a` reads back what was written and every other frame is unchanged |
| MappingProperties.Map4MiBMaps | src/cpu/paging/address_space.rs:176-213 | `map_4mib` fails with AlreadyMapped, changing nothing, exactly when the directory entry is present; on success every address of the 4 MiB page translates to the same offset from `phys`, and the pool is untouched |
| MappingProperties.Map4MiBFrame | src/cpu/paging/address_space.rs:176-213 | `map_4mib` changes no translation outside its page and keeps the address space separated |
| MappingProperties.FreshTableWrites | src/cpu/paging/address_space.rs:120-135 | the fresh-table path writes only the directory and the frame taken from the pool |
| MappingProperties.FreshTableMaps | src/cpu/paging/address_space.rs:120-135 | with a frame to spare, the corrected fresh-table path maps the page to `phys`, changes nothing else and uses up one frame |
| MappingProperties.SeparatedAfterFresh | src/cpu/paging/address_space.rs:120-135 | a directory entry pointing at the frame just taken keeps the address space separated |
| MappingProperties.ExistingTableWrites | src/cpu/paging/address_space.rs:140-163 | the existing-table path writes only the directory and that table |
| MappingProperties.ExistingTableMaps | src/cpu/paging/address_space.rs:140-163 | the existing-table path fails exactly when the page's entry is present, and then changes no translation; otherwise it maps the page to `phys` and nothing else |
| MappingProperties.Map4KiBMaps | src/cpu/paging/address_space.rs:94-166 | `map_4kib` (corrected): OutOfMemory exactly when it needs a table and the pool is empty; AlreadyMapped exactly when a huge page or a present entry covers `v`; on success the page translates to `phys`; no other translation changes, and the address space stays separated |
| MappingProperties.Map4KiBAsWrittenLosesPage | src/cpu/paging/address_space.rs:133 | as written, mapping virtual 0 to 0x5000 in an empty directory succeeds yet leaves virtual 0 unmapped; corrected, it translates to 0x5000 |
| MappingProperties.MapRangeMaps | src/cpu/paging/address_space.rs:215-256 | `map_range` over the corrected `map_4kib`: on success every address of the range translates to the same offset from `phys`, and none of it translated before, so a range already mapped in any part fails; success or not, nothing outside the range changes and the address space stays separated |
| MappingProperties.MapRangeHugeMaps | src/cpu/paging/address_space.rs:240-245 | `MapRangeMaps` (corrected) for a range starting with a 4 MiB page |
| MappingProperties.MapRangeSmallMaps | src/cpu/paging/address_space.rs:246-251 | `MapRangeMaps` (corrected) for a range starting with a 4 KiB page |
| MappingProperties.MapRangeAsWrittenLosesPage | src/cpu/paging/address_space.rs:228-256 | as written, mapping the one page at virtual 0 to 0x5000 in an empty directory succeeds yet leaves virtual 0 unmapped |
| MappingProperties.MapRangeCompose | src/cpu/paging/address_space.rs:228-256 | a mapped first page plus a mapped rest is a mapped range, and an unmapped first page plus an unmapped rest is an unmapped range |
| MappingProperties.PageUnmapped | src/cpu/paging/address_space.rs:64-84 | a 4 KiB page whose first address does not translate translates nowhere |
| MappingProperties.RegionUnmapped | src/cpu/paging/address_space.rs:64-84 | a 4 MiB region whose directory entry is not present translates nowhere |
| AddressSpaces.Context.constructor | src/cpu/paging/address_space.rs:274-298 | a context over the given memory and frame pool |
| AddressSpaces.Context.Allocate | src/cpu/paging/address_space.rs:274-280 | a frame is the top of the pool; OutOfMemory exactly when the pool is empty, then nothing changes |
| AddressSpaces.Context.Write | src/cpu/paging/address_space.rs:290-298 | a store through a mapped table replaces exactly that frame |
| AddressSpaces.AddressSpace.Wrap | src/cpu/paging/address_space.rs:35 | an address space over a context and a directory address |
| AddressSpaces.AddressSpace.New | src/cpu/paging/address_space.rs:40-49 | takes the top frame of the pool and zero-fills it as the directory; OutOfMemory with nothing changed exactly when the pool is empty |
| AddressSpaces.AddressSpace.PageDirectory | src/cpu/paging/address_space.rs:53-55 | the directory address is the root fixed at construction |
| AddressSpaces.AddressSpace.Map4KiB | src/cpu/paging/address_space.rs:94-166 | computes `map_4kib` (corrected) on the memory and pool |
| AddressSpaces.AddressSpace.MapFreshTable | src/cpu/paging/address_space.rs:120-135 | computes the corrected fresh-table path |
| AddressSpaces.AddressSpace.Install | src/cpu/paging/address_space.rs:153-163 | stores the directory entry, then refuses a present page entry or writes it |
| AddressSpaces.AddressSpace.Map4MiB | src/cpu/paging/address_space.rs:176-213 | computes `map_4mib` on the memory and pool |
| AddressSpaces.AddressSpace.MapRange | src/cpu/paging/address_space.rs:228-256 | computes `map_range` (corrected: its 4 KiB steps run the corrected `map_4kib`), with its loop over `virt`, `phys` and `length` |
| AddressSpaces.AddressSpace.MapRangeNext | src/cpu/paging/address_space.rs:239-253 | one iteration of the corrected loop: the rest of the range is shorter, and a failure ends the range |
| AddressSpaces.AddressSpace.MapRangeHuge | src/cpu/paging/address_space.rs:240-245 | a 4 MiB iteration of the loop, continuing into the corrected rest of the range |
| AddressSpaces.AddressSpace.MapRangeSmall | src/cpu/paging/address_space.rs:246-251 | a 4 KiB iteration of the loop through the corrected `map_4kib` |
| InitAllocators.ArrayLayout | src/utility/init_allocator.rs:68-72 | `Layout::array` succeeds exactly when `count` elements, rounded up to the alignment, fit `isize::MAX`, and then has size `size * count` |
| InitAllocators.LowBits | src/utility/init_allocator.rs:50 | `addr & (align - 1)` is below the alignment and no more than `addr` |
| InitAllocators.AlignDown | src/utility/init_allocator.rs:50 | `addr & !(align - 1)` is the largest multiple of the alignment not above `addr` |
| InitAllocators.BumpAsWritten | src/utility/init_allocator.rs:47-59 | as written, any address handed out lies below the alignment |
| InitAllocators.AsWrittenAlwaysFails | src/utility/init_allocator.rs:50-54 | as written, once `base` is at least the alignment every allocation fails |
| InitAllocators.AsWrittenRefusesFirstAllocation | src/utility/init_allocator.rs:47-59 | as written, 16 bytes from 1 MiB at 0x10_0000 fail; corrected, they are at 0x1F_FFF0 |
| InitAllocators.BumpFits | src/utility/init_allocator.rs:47-59 | an allocation is an aligned block of `size` bytes inside `[base, top)`, refused exactly when none fits |
| InitAllocators.BumpDisjoint | src/utility/init_allocator.rs:47-59 | two allocations in a row do not overlap |
| InitAllocators.InitAllocator.constructor | src/utility/init_allocator.rs:38-40 | the allocator owns `[base, top)` |
| InitAllocators.InitAllocator.AllocateRaw | src/utility/init_allocator.rs:47-59 | `allocate_raw` (corrected, rounding down to the alignment): the block handed out becomes the new `top`; on `oom()` nothing changes |
| InitAllocators.InitAllocator.AllocateSlice | src/utility/init_allocator.rs:68-72 | over the corrected `allocate_raw`: `oom()` exactly when the array layout overflows or no room is left; otherwise room for exactly `count` elements at the new `top` |
| ArrayVecs.ArrayVec.Contents | src/utility/array_vec.rs:271-278 | `deref` is the first `len` elements, at most the capacity |
| ArrayVecs.ArrayVec.constructor | src/utility/array_vec.rs:11-20 | a new vector is empty, with capacity `N <= 255` |
| ArrayVecs.ArrayVec.Pop | src/utility/array_vec.rs:56-64 | None exactly on an empty vector; otherwise removes and returns the last element |
| ArrayVecs.ArrayVec.PushUnchecked | src/utility/array_vec.rs:71-75 | appends to a vector that is not full |
| ArrayVecs.ArrayVec.TryPush | src/utility/array_vec.rs:83-93 | a full vector hands the value back unchanged; otherwise it is appended |
| ArrayVecs.ArrayVec.Push | src/utility/array_vec.rs:102-106 | appends, and panics when full |
| ArrayVecs.ArrayVec.InsertUnchecked | src/utility/array_vec.rs:114-128 | the value is inserted at `index` and the rest shift up |
| ArrayVecs.ArrayVec.TryInsert | src/utility/array_vec.rs:142-154 | `index <= len` is required; a full vector hands the value back unchanged; otherwise it is inserted at `index` |
| ArrayVecs.ArrayVec.RemoveUnchecked | src/utility/array_vec.rs:161-174 | returns element `index` and closes the gap |
| ArrayVecs.ArrayVec.RemoveRangeUnchecked | src/utility/array_vec.rs:180-195 | removes `[start, end)` and closes the gap |
| ArrayVecs.ArrayVec.RemoveRange | src/utility/array_vec.rs:199-230 | the bounds must lie within the vector; removes that range and closes the gap |
| ArrayVecs.ArrayVec.ExtendFromSliceUnchecked | src/utility/array_vec.rs:237-248 | appends the slice, which must fit |
| ArrayVecs.ArrayVec.ExtendFromSlice | src/utility/array_vec.rs:256-268 | appends the slice, and panics unless it fits |
| ArrayVecs.ArrayVec.Clear | src/utility/array_vec.rs:42-44 | leaves the vector empty |
| ArrayVecs.PushThenPop | src/utility/array_vec.rs:56-106 | pushing then popping returns the value and restores the vector |
| KeyModifiers.FlagsAreTheEightBits | src/terminal/layouts/mod.rs:12-32 | the eight flags are the eight distinct bits of the byte |
| KeyModifiers.PredicatesReadTheirBits | src/terminal/layouts/mod.rs:38-68 | `has_shift`, `has_control` and `has_alt` hold iff either key of the pair is held; `shifted` is `has_shift` XOR CAPS LOCK; `num_locked` is bit 7 |
| KeyModifiers.CapsLockInvertsShifted | src/terminal/layouts/mod.rs:38-40 | toggling CAPS LOCK inverts `shifted` and leaves `has_shift` and `num_locked` alone |
| QwertyLayout.ApplyChangesOnlyItsFlag | src/terminal/layouts/qwerty.rs:61-119 | a modifier press sets its flag, a release clears it, and no other flag moves |
| QwertyLayout.ModifierKeysAreTheirSide | src/terminal/layouts/qwerty.rs:61-119 | the plain codes are the left keys and right shift; after 0xE0 they are right control and right alt |
| QwertyLayout.LetterPairsDifferInCase | src/terminal/layouts/qwerty.rs:132-226 | each letter key pairs a lower-case letter with its upper-case form |
| QwertyLayout.ShiftPairIsPrintable | src/terminal/layouts/qwerty.rs:132-226 | both characters of every key pair are printable ASCII |
| QwertyLayout.LettersFollowShift | src/terminal/layouts/qwerty.rs:132-226 | letter keys give lower case when not `shifted` and upper case when `shifted` |
| QwertyLayout.KeypadNeedsNumLock | src/terminal/layouts/qwerty.rs:227-243 | keypad codes give a digit or '.' exactly when NUM LOCK is on |
| QwertyLayout.ExtendedCodesYieldLittle | src/terminal/layouts/qwerty.rs:225-243 | after 0xE0 only keypad '/' and keypad Enter give a character |
| QwertyLayout.ControlCodesAreNotCharacters | src/terminal/layouts/qwerty.rs:61-131 | no modifier or lock code gives a character |
| QwertyLayout.StepTracksEscape | src/terminal/layouts/qwerty.rs:54-57 | the next state is E0 exactly after 0xE0 in Neutral |
| QwertyLayout.ModifierKeysSetTheirFlag | src/terminal/layouts/qwerty.rs:61-119 | a modifier code applies its event, keeps the locks and gives no character |
| QwertyLayout.LocksToggleOncePerPress | src/terminal/layouts/qwerty.rs:85-95 | CAPS LOCK and NUM LOCK toggle on their first make code only; the break code re-arms them |
| QwertyLayout.CharacterKeysKeepModifiers | src/terminal/layouts/qwerty.rs:132-243 | other codes leave modifiers and locks alone and give the key's character |
| QwertyLayout.KeyCharIsAscii | src/terminal/layouts/qwerty.rs:132-243 | every character a key gives is printable ASCII, backspace, line feed or tab |
| QwertyLayout.Qwerty.constructor | src/terminal/layouts/qwerty.rs:29-36 | Neutral, no modifier, neither lock key held |
| QwertyLayout.Qwerty.Advance | src/terminal/layouts/qwerty.rs:48-245 | one scancode updates the fields and gives a character, as `Step` says |
| QwertyLayout.HoldCapsLock | src/terminal/layouts/qwerty.rs:85-95 | two CAPS LOCK make codes in a row toggle the lock once |
| Vga.ColorCode | src/drivers/vga.rs:78-95 | every colour's discriminant is below 16 |
| Vga.ColorOf | src/drivers/vga.rs:100-102 | the `transmute` of a discriminant below 16 is the colour with that discriminant |
| Vga.ColorCodeRoundTrip | src/drivers/vga.rs:78-102 | each colour is the `transmute` of its discriminant |
| Vga.AllColors | src/drivers/vga.rs:100-102 | `Color::iter_all` yields discriminants 0 to 15 in order, so each colour exactly once |
| Vga.AllVgaChars | src/drivers/vga.rs:165-167 | `VgaChar::iter_all` yields every byte 1 to 255 in order |
| Vga.CellDecodes | src/drivers/vga.rs:31-38 | a packed cell decodes back to its byte, foreground and background |
| Vga.ControlGlyphsRoundTrip | src/drivers/vga.rs:208-240 | `from_char(as_char(v)) == Some(v)` for bytes below 0x20 |
| Vga.AccentGlyphsRoundTrip | src/drivers/vga.rs:208-461 | the same for bytes 0x7F-0x9F |
| Vga.PunctuationGlyphsRoundTrip | src/drivers/vga.rs:208-461 | the same for bytes 0xA0-0xBF |
| Vga.BoxGlyphsRoundTrip | src/drivers/vga.rs:208-461 | the same for bytes 0xC0-0xDF |
| Vga.MathGlyphsRoundTrip | src/drivers/vga.rs:208-461 | the same for bytes 0xE0-0xFE |
| Vga.FromCharAsChar | src/drivers/vga.rs:189-461 | every byte below 0xFF shows a character that converts back to it; 0xFF shows '\0', which converts to nothing |
| Vga.Latin1LowRoundTrip | src/drivers/vga.rs:189-202 | `as_char(from_char(c)) == c` for U+0080-U+00BF |
| Vga.Latin1HighRoundTrip | src/drivers/vga.rs:189-202 | the same for U+00C0-U+00FF |
| Vga.GreekRoundTrip | src/drivers/vga.rs:189-202 | the same for U+0100-U+1FFF |
| Vga.PunctuationRoundTrip | src/drivers/vga.rs:189-202 | the same for U+2000-U+24FF |
| Vga.SingleBoxRoundTrip | src/drivers/vga.rs:189-202 | the same for U+2500-U+254F |
| Vga.DoubleBoxRoundTrip | src/drivers/vga.rs:189-202 | the same for U+2550-U+257F |
| Vga.ShapesRoundTrip | src/drivers/vga.rs:189-202 | the same from U+2580 on |
| Vga.AsCharFromChar | src/drivers/vga.rs:189-461 | every character `from_char` converts shows again as itself, never via byte 0xFF |
| Vga.PutWritesOneCell | src/drivers/vga.rs:46-52 | `putc` touches only cell `y * 80 + x`, which decodes to the character and colours, and nothing when out of bounds |
| Vga.VgaBuffer.constructor | src/drivers/vga.rs:19-21 | the buffer's 2000 cells hold what video memory holds |
| Vga.VgaBuffer.PutcUnchecked | src/drivers/vga.rs:31-38 | writes the packed cell at `y * 80 + x`, on the screen |
| Vga.VgaBuffer.Putc | src/drivers/vga.rs:46-52 | the same, and nothing when out of bounds; `putc` and `putc_unchecked` of the older `src/vga.rs` (lines 30-51) are the same code |
| LegacyVga.FromCharIsPrintableAscii | src/vga.rs:144-163 | exactly the printable ASCII characters, space included, convert, each to its own non-zero code |
| LegacyVga.CurrentTableExtendsLegacy | src/drivers/vga.rs:189-202 | where the older table converts a character, the current one gives the same byte, which shows that character |
| TerminalModel.Blank | src/terminal/mod.rs:258 | `n` cells of CLEAR_VALUE |
| TerminalModel.Scrolled | src/terminal/mod.rs:75-81 | scrolling keeps the screen's 2000 cells |
| TerminalModel.ScrollMovesRowsUp | src/terminal/mod.rs:75-81 | rows 1-23 move up one row, row 23 is blanked and row 24 is kept |
| TerminalModel.Glyph | src/terminal/mod.rs:119-135 | the glyph drawn for a command-line byte shows that byte |
| TerminalModel.CmdlineRow | src/terminal/mod.rs:119-135 | the redrawn command-line row is one row wide |
| TerminalModel.CmdlineRowShowsText | src/terminal/mod.rs:119-135 | cell `i` of the row shows byte `i` of the line, white on black, and blanks follow |
| TerminalModel.EmptyCmdlineRowIsBlank | src/terminal/mod.rs:119-135 | an empty line redraws as a blank row |
| TerminalModel.WriteVgaCharLandsOnOutputRow | src/terminal/mod.rs:96-106 | a character lands on row 23 at the cursor (0 after a pending line) in the foreground colour, the cursor moves past it and stays within WIDTH, and the command-line row is untouched |
| TerminalModel.LinefeedOnlyScrolls | src/terminal/mod.rs:87-93 | a line feed scrolls exactly when a line was already pending, and leaves the cursor at WIDTH |
| TerminalModel.WriteStrKeepsValid | src/terminal/mod.rs:240-254 | writing keeps the terminal valid and the command line alone, and fails exactly when a character other than a line feed has no glyph |
| TerminalModel.TrimmedLength | src/terminal/mod.rs:263-283 | the length without trailing spaces: only spaces follow it, and a non-space ends it |
| TerminalModel.WordStart | src/terminal/mod.rs:263-283 | the start of the run of non-spaces ending at `e` follows a space, or is 0 |
| TerminalModel.LastWordStartIsTheLastWord | src/terminal/mod.rs:263-283 | `s[r..]` is one word followed only by spaces, `r` is 0 or follows a space, and `r` is below the length of any non-empty `s` |
| TerminalModel.ResetAsWrittenStrandsCursor | src/terminal/mod.rs:56-61 | as written, a reset after typing "ab" leaves the command-line cursor at 2 on an empty line |
| TerminalModel.ResetKeepsValid | src/terminal/mod.rs:56-61 | the corrected reset leaves a valid terminal: blank screen, empty line shown, cursor home |
| TerminalModel.TypeInKeepsValid | src/terminal/mod.rs:142-155 | typing keeps the line within its row and the cursor within the line, and the row shows the line |
| TerminalModel.TypeOutKeepsValid | src/terminal/mod.rs:160-177 | erasing keeps the terminal valid, and the row shows the line |
| TerminalModel.ClearCmdlineKeepsValid | src/terminal/mod.rs:63-72 | clearing empties the line and its cursor, blanks the last row and nothing above it |
| TerminalModel.TypeInThenTypeOut | src/terminal/mod.rs:142-177 | typing a character and erasing it restores the line, its cursor and the shown row; typing into a full line returns false and changes nothing |
| TerminalModel.TypeOutRemovesBeforeCursor | src/terminal/mod.rs:160-177 | backspace removes the one byte before the cursor; a word deletion removes the last word before the cursor and the spaces after it; at the start of the line nothing changes |
| TerminalModel.LayoutCharactersAreDisplayable | src/terminal/mod.rs:196-215 | every character the layout gives, other than the control characters `take_scancode` handles, can be typed in |
| TerminalModel.TakeScancode | src/terminal/mod.rs:196-215 | with the corrected reset on CONTROL-L, taking a scancode keeps the terminal valid, the line shown and the queue as it was |
| TerminalModel.TakeAll | src/terminal/mod.rs:218-224 | with the corrected reset on CONTROL-L, taking a run of scancodes in order keeps the terminal valid and the line shown |
| TerminalModel.TakeBufferedScancodes | src/terminal/mod.rs:218-224 | with the corrected reset on CONTROL-L, every queued code is taken, the queue ends empty, and the terminal stays valid |
| Terminals.Fill | src/terminal/mod.rs:70 | cells `[from, to)` become CLEAR_VALUE and all others are kept |
| Terminals.FindStartOfLastWord | src/terminal/mod.rs:263-283 | the loops compute the start of the last word |
| Terminals.DrawCmdline | src/terminal/mod.rs:119-133 | the loop of `putc` calls and the fill leave the last row showing the line, white on black, then blanks, and nothing above it changes |
| Terminals.Terminal.constructor | src/terminal/mod.rs:40-53 | an empty terminal, white text, on whatever the screen holds |
| Terminals.Terminal.Reset | src/terminal/mod.rs:56-61 | the corrected reset: blank screen, empty line, both cursors home |
| Terminals.Terminal.ClearCmdline | src/terminal/mod.rs:63-72 | computes `clear_cmdline` |
| Terminals.Terminal.ScrollOnce | src/terminal/mod.rs:75-81 | `copy_within` and fill compute the scroll |
| Terminals.Terminal.InsertLinefeed | src/terminal/mod.rs:87-93 | computes `insert_linefeed` |
| Terminals.Terminal.WriteVgaChar | src/terminal/mod.rs:96-106 | computes `write_vga_char` |
| Terminals.Terminal.SetColor | src/terminal/mod.rs:112-114 | only the foreground colour changes |
| Terminals.Terminal.RefreshCmdline | src/terminal/mod.rs:119-135 | the last row becomes the redrawn command line, and the rest of the state is unchanged |
| Terminals.Terminal.TypeIn | src/terminal/mod.rs:142-155 | computes `type_in`, failing when the line is full |
| Terminals.Terminal.TypeOut | src/terminal/mod.rs:160-177 | computes `type_out` |
| Terminals.Terminal.BufferScancode | src/terminal/mod.rs:189-191 | returns false and changes nothing when 8 codes are queued; otherwise the code is appended |
| Terminals.Terminal.TakeScancode | src/terminal/mod.rs:196-215 | computes `take_scancode` (corrected: CONTROL-L runs the corrected reset) |
| Terminals.Terminal.TakeBufferedScancodes | src/terminal/mod.rs:218-224 | with the corrected reset on CONTROL-L, takes the queued codes in order, then empties the queue |
| Terminals.Terminal.WriteChar | src/terminal/mod.rs:240-249 | computes `write_char`, failing for a character without a glyph |
| Terminals.Terminal.WriteStr | src/terminal/mod.rs:251-254 | computes `write_str`, stopping at the first failure |
| LegacyTerminals.Written | src/terminal.rs:87-89 | writing bytes keeps the screen's 2000 cells and, from a cursor within WIDTH, leaves the cursor within WIDTH |
| LegacyTerminals.WriteByteAgrees | src/terminal.rs:69-84 | the older `write_char` puts a byte where the newer `insert_linefeed` or `write_vga_char` does |
| LegacyTerminals.WriteBytesKeepsCursorAndCmdline | src/terminal.rs:69-89 | writing keeps the cursor within WIDTH and never touches the command-line row |
| LegacyTerminals.Terminal.constructor | src/terminal.rs:30-39 | cursor 0, white text, an empty command line of zero bytes |
| LegacyTerminals.Terminal.Clear | src/terminal.rs:55-57 | blanks everything above the last row and keeps the last row |
| LegacyTerminals.Terminal.ScrollOnce | src/terminal.rs:60-66 | rows move up, row 23 is blanked, the last row is kept |
| LegacyTerminals.Terminal.RefreshCmdline | src/terminal.rs:102-114 | as written, the last row ends blank whatever the line holds |
| LegacyTerminals.Terminal.Reset | src/terminal.rs:42-48 | the line length and cursor become 0 and the whole screen is blank |
| LegacyTerminals.Terminal.WriteChar | src/terminal.rs:69-84 | computes `write_char` on the screen and cursor; the colour, the command line and its cursor are unchanged |
| LegacyTerminals.Terminal.WriteBytes | src/terminal.rs:87-89 | `write_char` on each byte in turn; the colour, the command line and its cursor are unchanged |
| LegacyTerminals.Terminal.SetColor | src/terminal.rs:95-97 | only the foreground colour changes: both cursors and the command line are kept, and the terminal stays valid |
| Idt.LowFields | src/cpu/idt/mod.rs:102-112 | the low fields of the descriptor lie below bit 48 |
| Idt.HighField | src/cpu/idt/mod.rs:114 | the high field is the handler's upper half, below 2^16 |
| Idt.LowHalf | src/cpu/idt/mod.rs:102 | bits 0-15 are `handler & 0xFFFF` |
| Idt.HighHalf | src/cpu/idt/mod.rs:114 | bits 48-63 are `handler >> 16` |
| Idt.HandlerHalves | src/cpu/idt/mod.rs:102-114 | the two halves rebuild the 32-bit handler address |
| Idt.SelectsKernelCode | src/cpu/idt/mod.rs:104 | bits 16-31 are KERNEL_CODE_SEGMENT, 0x08 |
| Idt.AccessBits | src/cpu/idt/mod.rs:106-112 | bits 32-39 are zero, bits 40-43 are 0xE for an interrupt gate and 0xF for a trap gate, DPL is 0, and bit 47 (present) is set |
| Multiboot.NewHeader | src/multiboot.rs:27-33 | the header carries the magic 0x1BADB002 and the given flags |
| Multiboot.ChecksumCancels | src/multiboot.rs:15-33 | magic + flags + checksum is 0 modulo 2^32, for every set of flags |
| Multiboot.BothFlagsHeader | src/multiboot.rs:27-45 | the two flags are distinct bits, and with both the header is 0x1BADB002, 3, 0xE4524FFB, a worked instance of `ChecksumCancels` |
| Pit.DivideRounded | src/drivers/pit.rs:61-65 | rounds to nearest: `r * d <= n + d / 2 < r * d + d`, so `2rd` lies within `d` of `2n` |
| Pit.RoundingIsUnique | src/drivers/pit.rs:61-65 | that bracket determines the rounded quotient |
| Pit.ReloadValueInRange | src/drivers/pit.rs:79-91 | every reload value lies in `[1, 0x10000]`, the bounds of the two clamps |
| Pit.ReloadValueIsNearest | src/drivers/pit.rs:79-91 | between the clamps, the reload value is the whole count nearest to 3579545 / (3 · `freq`): the distance between r · 3 · `freq` and 3579545 is at most 3 · `freq` / 2 (the nearest count, not always the nearest frequency) |
| Pit.ReloadValueToNs | src/drivers/pit.rs:100-115 | when defined, the tick length fits a `u32` and is the rounded nanosecond count |
| Pit.TickLengthFits | src/drivers/pit.rs:100-115 | for every reload value in `[1, 0x10000]` the tick length fits a `u32` |
| Pit.InitReloadValue | src/drivers/pit.rs:135-158 | for 1000 Hz the reload value is 1193, within `init`'s assertion of 0x1000, and the tick lasts 999848 ns |
| Pit.RegisterCountsReloadValue | src/drivers/pit.rs:157 | the 16-bit register counts exactly the reload value, with 0 for 0x10000 |
| Pit.ReloadBytesRoundTrip | src/drivers/pit.rs:48-53 | the low and high bytes sent rebuild the 16-bit value |
| Format.Digits | src/utility/format.rs:14-23 | an integer prints as decimal digits with no leading zero, at most two below 100 |
| Format.DigitsRoundTrip | src/utility/format.rs:14-23 | the printed digits read back as the integer |
| Format.DigitsInjective | src/utility/format.rs:14-23 | different integers print differently |
| Format.FractionOf | src/utility/format.rs:10 | the hundredths are below 100 |
| Format.WithPointAsWritten | src/utility/format.rs:9-18 | as written, the fraction is printed without zero padding |
| Format.AsWrittenDropsTheTensZero | src/utility/format.rs:14 | as written, 1076 bytes print as "1.5 KiB" and 1536 bytes as "1.50 KiB", so both read as 1.50 KiB although 1076 bytes is 1.05 KiB |
| Format.AsWrittenParts | src/utility/format.rs:9-18 | as written, 1076 bytes give the parts 1, 5, KiB and 1536 bytes give 1, 50, KiB |
| Format.TwoDigits | src/utility/format.rs:14 | `{:02}`: exactly two digits, which read back as the value |
| Format.WithPoint | src/utility/format.rs:9-18 | the corrected `write_with_point` keeps the unit, and prints at most two fraction digits |
| Format.WithPointReadsBack | src/utility/format.rs:9-18 | the corrected output reads back as `x * 100 / 1024` hundredths of the unit |
| Format.UnitIndex | src/utility/format.rs:26-35 | the unit chosen is the largest power of 1024 not above the size, with PiB for everything from 2^50 on |
| Format.ShowsTheLargestUnit | src/utility/format.rs:20-35 | over the corrected `write_with_point`: from 1024 bytes on, the output is the size divided down to the largest unit it reaches, rendered with its hundredths |
| Format.Fmt | src/utility/format.rs:8-36 | `fmt` (corrected, the fraction padded to two digits): the loop, dividing by 1024 per unit, prints `HumanBytes(n)`: "{n} B" below 1024 |
| ProcessState.Index | src/state/process.rs:96-103 | every signal's index is below `Signal::COUNT` |
| ProcessState.ScheduleStoresOnce | src/state/process.rs:74-83 | `schedule` succeeds exactly when the signal's slot is empty and stores the signal there; otherwise it returns false and changes nothing |
| ProcessState.ScheduleTwiceRefuses | src/state/process.rs:74-83 | a second `schedule` of the same signal returns false |
| ProcessState.Signals.Default | src/state/process.rs:62-66 | no signal is scheduled |
| ProcessState.Signals.Schedule | src/state/process.rs:74-83 | computes `schedule` on the slots in place |
| ProcessState.Process.constructor | src/state/process.rs:52-58 | keeps the parent and owner, and starts with no signal scheduled |
| ProcessState.Processes.constructor | src/state/process.rs:21-34 | 1024 slots, slot 0 holds `init`, every other slot is empty, and `current` is 0 |
| ProcessState.NewProcesses | src/state/process.rs:21-34 | over the corrected `allocate_raw`: `oom()` exactly when the table's layout overflows or the bump allocator has no room; otherwise the table above, and `top` moves down by at least the table's size |

## Left out

- Port I/O and inline assembly:
  - the VGA `cursor_show`, `cursor_hide` and `cursor_move`, including the `cursor_move` at
    the end of both `refresh_cmdline`s;
  - the PIT command and data port writes;
  - the IDT's `lidt` and the handler table `idt::init` fills.
  - The bytes `set_reload_value` sends are modelled (`Pit.ReloadBytes`); the writes are not.
- Raw-pointer mechanics:
  - `Context::map` casts and the TLB;
  - `MaybeUninit`;
  - `slice::from_raw_parts` and `write_bytes`.
  - Memory is a map from frame addresses to tables, and the uninitialised slots of a
    buffer hold a filler value.
- `AddressSpaces.AddressSpace.Translate` has no contract of its own. It is `Mappings.Walk`
  on the address space's memory, and its behaviour is stated through `Mappings.Walk` in the
  `MappingProperties` lemmas.
- `Pit.FreqToReloadValue` has no contract of its own. Its properties are
  `Pit.ReloadValueInRange` and `Pit.ReloadValueIsNearest`.
- `reload_value_to_freq`, which works in floating point.
- `reload_value_to_ns`: only the debug build is modelled. There, overflow panics, shown
  as `None`. The release build's wrap-around and `as u32` truncation are not modelled.
- `usize` overflow in the address arithmetic of the allocators and `ArrayVec`:
  - the integers are unbounded;
  - addresses are kept within 32 bits by their types or by preconditions.
- `InitAllocator::allocate<T>`. It is `allocate_raw` with `T`'s layout, and generic layouts
  are not modelled apart from `Layout` values.
- `UserId`. It is an unconstrained number, because `src/state/user.rs` is not part of this
  model.
- Corrected code in operations beyond the Findings' own members. These members compute the
  corrected behaviour of the Findings below, not the code as written:
  - `InitAllocators.InitAllocator.AllocateRaw`, `InitAllocators.InitAllocator.AllocateSlice`
    and `ProcessState.NewProcesses` round down to the alignment. As written, every
    allocation from a base at least the alignment fails (`InitAllocators.AsWrittenAlwaysFails`).
  - `Format.Fmt` and `Format.ShowsTheLargestUnit` pad the fraction to two digits. As
    written, 1076 bytes print as "1.5 KiB".
  - `AddressSpaces.AddressSpace.MapRange`, `AddressSpaces.AddressSpace.MapRangeNext`,
    `AddressSpaces.AddressSpace.MapRangeHuge`, `AddressSpaces.AddressSpace.MapRangeSmall`,
    `MappingProperties.MapRangeMaps`, `MappingProperties.MapRangeHugeMaps` and
    `MappingProperties.MapRangeSmallMaps` run the corrected `map_4kib` for their 4 KiB
    pages. As written, a range whose page needs a fresh table loses that page
    (`MappingProperties.MapRangeAsWrittenLosesPage`).
  - `TerminalModel.TakeScancode`, `TerminalModel.TakeAll`, `TerminalModel.TakeBufferedScancodes`,
    `Terminals.Terminal.TakeScancode` and `Terminals.Terminal.TakeBufferedScancodes` run the
    corrected reset on CONTROL-L. Their validity claims rest on that correction.
- MapRangeHugeMaps: proved over the corrected `map_4kib`. After the first 4 MiB page, the
  rest of the range may take 4 KiB steps that, as written, lose a page needing a fresh table.
- MapRangeSmallMaps: proved over the corrected `map_4kib`. As written, the first 4 KiB step
  loses its page when it needs a fresh table.
- MapRangeNext: one iteration through the corrected `map_4kib`, not the code as written.
- MapRangeHuge: continues into the rest of the range under the corrected `map_4kib`.
- MapRangeSmall: its `map_4kib` call is the corrected one, not the code as written.
- Reference definitions without a contract of their own. Each is the function that a
  method is proved equal to, and its properties are stated by the lemmas named here:
  - `Idt.GateDescriptor` (`create_gate_descriptor`): `Idt.LowHalf`, `Idt.HighHalf`,
    `Idt.HandlerHalves`, `Idt.SelectsKernelCode` and `Idt.AccessBits`;
  - `Vga.AsChar` and `Vga.FromChar`: `Vga.FromCharAsChar`, `Vga.AsCharFromChar` and the
    per-range round-trip lemmas;
  - `LegacyVga.FromChar`: `LegacyVga.FromCharIsPrintableAscii` and
    `LegacyVga.CurrentTableExtendsLegacy`;
  - `QwertyLayout.Step` (`Qwerty::advance`): the `QwertyLayout` lemmas from
    `QwertyLayout.StepTracksEscape` to `QwertyLayout.KeyCharIsAscii`;
  - `Mappings.Map4MiBSpec`, `Mappings.Map4KiBSpec` and `Mappings.MapRangeSpec`:
    `MappingProperties.Map4MiBMaps`, `MappingProperties.Map4MiBFrame`,
    `MappingProperties.Map4KiBMaps`, `MappingProperties.MapRangeMaps` and the
    `Mappings` step lemmas;
  - `TerminalModel.ScrollOnce`, `TerminalModel.InsertLinefeed`, `TerminalModel.WriteVgaChar`,
    `TerminalModel.WriteChar`, `TerminalModel.WriteStr`, `TerminalModel.TypeIn`,
    `TerminalModel.TypeOut`, `TerminalModel.ClearCmdline`, `TerminalModel.Reset` and
    `TerminalModel.BufferScancode`: `TerminalModel.ScrollMovesRowsUp`,
    `TerminalModel.WriteVgaCharLandsOnOutputRow`, `TerminalModel.LinefeedOnlyScrolls`,
    `TerminalModel.WriteStrKeepsValid`, `TerminalModel.TypeInKeepsValid`,
    `TerminalModel.TypeOutKeepsValid`, `TerminalModel.TypeOutRemovesBeforeCursor`,
    `TerminalModel.TypeInThenTypeOut`, `TerminalModel.ClearCmdlineKeepsValid`,
    `TerminalModel.ResetKeepsValid` and the `Terminals.Terminal.BufferScancode` method;
  - `Format.HumanBytes`: `Format.ShowsTheLargestUnit` and `Format.Fmt`;
  - `Pit.ReloadRegister` and `Pit.ReloadBytes`: `Pit.RegisterCountsReloadValue` and
    `Pit.ReloadBytesRoundTrip`;
  - `ProcessState.Scheduled`: `ProcessState.ScheduleStoresOnce` and
    `ProcessState.ScheduleTwiceRefuses`.
- MapRange: `Mappings.RangeArgs` requires both ranges to end below 2^32, because in a debug
  build advancing `virt` or `phys` past a last page at the top of the address space
  overflows and panics. A range ending exactly at 2^32 whose mapping fails before its last
  page returns the error in the source, but it is outside the model.
- `ProcessState.NewProcesses`: `Processes::new` writes its table at the address the bump
  allocator returned. The model allocates that address, then builds the table as a fresh
  Dafny array.
- The `ReadLine` callbacks of `take_scancode`:
  - `submit` and `auto_complete` are treated as doing nothing;
  - the `cmdline` and `cmdline_mut` accessors, through which a callback would read or
    replace the line, are not modelled.
- `Terminals.Terminal.TypeIn` requires the byte to have a glyph. `refresh_cmdline` calls
  `expect` on the conversion and panics otherwise.
- The older terminal's `fmt::Write` (the UTF-8 encoding of `char`s into bytes).
- `write_char` and `refresh_cmdline` of the older terminal hand a `u8` to `putc`, which
  takes a `VgaChar`. The model passes `VgaChar`s, the non-zero bytes.
- Interrupt handlers, the PIC, PS/2, serial, the GDT, the mutex, `OnceCell`, the shell, and
  boot and panic plumbing. These are I/O, concurrency or glue.

## Findings

| source | as written | input that shows it | evidently intended | confidence | as-written member | corrected member |
|---|---|---|---|---|---|---|
| src/cpu/paging/address_space.rs:133 | the fresh-table path of `map_4kib` stores `phys` in the new directory entry | empty directory at 0, pool holding 0x2000, map virtual 0 to 0x5000 | the entry records the page table just allocated (`pta`), so the page translates to `phys` | not executed | MappingProperties.Map4KiBAsWrittenLosesPage | MappingProperties.Map4KiBMaps |
| src/utility/init_allocator.rs:50 | `addr &= align - 1` keeps the low bits instead of clearing them | `[0x10_0000, 0x20_0000)`, 16 bytes aligned to 8: out of memory | `addr &= !(align - 1)`, rounding down to the alignment | not executed | InitAllocators.AsWrittenRefusesFirstAllocation | InitAllocators.BumpFits |
| src/cpu/paging/model.rs:124-126 | `extract_offset` builds a `PageTableIndex` from `v & 0xFFF`, which `PageTableIndex::new` asserts is below 1024 | any `v` with `v & 0xFFF >= 1024`, such as 0x400 | the offset as a plain number below 4096 | not executed | PagingModel.ExtractOffsetRejectsLargeOffsets | PagingModel.Extract4KiBOffset |
| src/terminal/mod.rs:56-61 | `reset` empties the command line but keeps `cmdline_cursor` | type "ab", then CONTROL-L: the cursor stays at 2 on an empty line, and the next `type_in` trips `try_insert`'s assertion | the cursor goes back to 0 with the line | not executed | TerminalModel.ResetAsWrittenStrandsCursor | TerminalModel.ResetKeepsValid |
| src/utility/format.rs:14 | the fraction is printed with `{frac}`, without zero padding | 1076 bytes print as "1.5 KiB" (1.05 KiB) | `{frac:02}`, so 1076 bytes print as "1.05 KiB" | not executed | Format.AsWrittenDropsTheTensZero | Format.WithPointReadsBack |
