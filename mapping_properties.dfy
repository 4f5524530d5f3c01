/**
 * What the address-space operations of `Mappings` achieve, stated through `Walk` (the
 * model of `translate`): a fresh directory maps nothing, a successful `map_4kib`,
 * `map_4mib` or `map_range` makes its pages translate to the requested frames, every
 * other translation is left alone, and a failure changes no translation.
 *
 * These hold for address spaces that are `Separated`: the directory, the page tables it
 * refers to and the free frames are pairwise distinct. Every operation keeps that
 * invariant, and `AddressSpace::new` establishes it.
 */
module MappingProperties {
  import opened Wrappers
  import opened Addresses
  import opened PagingModel
  import opened Mappings

  /** No frame appears twice in the pool. */
  predicate Distinct(free: seq<FrameAddr>) {
    forall i, j :: 0 <= i < j < |free| ==> free[i] != free[j]
  }

  /**
   * The directory at `root`, the page tables its entries refer to and the free frames are
   * pairwise distinct frames, and no two directory entries share a page table.
   */
  predicate Separated(s: MemState, root: nat) {
    var dir := Frame(s.memory, root);
    && root !in s.free
    && Distinct(s.free)
    && (forall d: PageTableIndex :: IsTable(dir[d]) ==> Address4KiB(dir[d]) != root)
    && (forall d: PageTableIndex :: IsTable(dir[d]) ==> Address4KiB(dir[d]) !in s.free)
    && (forall d1: PageTableIndex, d2: PageTableIndex ::
          d1 != d2 && IsTable(dir[d1]) && IsTable(dir[d2]) ==> Address4KiB(dir[d1]) != Address4KiB(dir[d2]))
  }

  // ---------------------------------------------------------------------------------
  // Address arithmetic.

  /** The addresses of the 4 KiB page at `v` are those with `v`'s two table indices. */
  lemma {:induction false} SamePage(v: VirtAddr, w: VirtAddr)
    requires v % 0x1000 == 0
    ensures (v <= w < v + 0x1000)
        <==> (ExtractPageDirectoryIndex(w) == ExtractPageDirectoryIndex(v)
              && ExtractPageTableIndex(w) == ExtractPageTableIndex(v))
    ensures v <= w < v + 0x1000 ==> Extract4KiBOffset(w) == w - v
  {
    Decompose(v);
    Decompose(w);
  }

  /** The addresses of the 4 MiB page at `v` are those with `v`'s directory index. */
  lemma {:induction false} SameRegion(v: VirtAddr, w: VirtAddr)
    requires v % 0x40_0000 == 0
    ensures (v <= w < v + 0x40_0000) <==> ExtractPageDirectoryIndex(w) == ExtractPageDirectoryIndex(v)
    ensures v <= w < v + 0x40_0000 ==> Extract4MiBOffset(w) == w - v
  {
  }

  // ---------------------------------------------------------------------------------
  // `AddressSpace::new`.

  /** A zero-filled directory translates no address at all. */
  lemma {:induction false} EmptyDirectoryMapsNothing(m: PhysMemory, root: nat)
    requires Frame(m, root) == EmptyTable()
    ensures forall v: VirtAddr :: Walk(m, root, v) == None
  {
    forall v: VirtAddr ensures Walk(m, root, v) == None {
      assert DirEntry(m, root, v) == EmptyTable()[ExtractPageDirectoryIndex(v)] == NULL_ENTRY;
    }
  }

  /**
   * The state `AddressSpace::new` leaves, the top frame of a duplicate-free pool taken and
   * zero-filled as the directory, is separated and translates nothing.
   */
  lemma {:induction false} NewIsSeparated(s: MemState)
    requires s.free != [] && Distinct(s.free)
    ensures var root := s.free[|s.free| - 1];
            var s1 := MemState(s.memory[root := EmptyTable()], s.free[..|s.free| - 1]);
            Separated(s1, root) && forall v: VirtAddr :: Walk(s1.memory, root, v) == None
  {
    var root := s.free[|s.free| - 1];
    var s1 := MemState(s.memory[root := EmptyTable()], s.free[..|s.free| - 1]);
    assert Frame(s1.memory, root) == EmptyTable();
    EmptyDirectoryMapsNothing(s1.memory, root);
    assert root !in s1.free by {
      forall i | 0 <= i < |s1.free| ensures s1.free[i] != root {
        assert s1.free[i] == s.free[i];
      }
    }
    assert forall d: PageTableIndex :: !IsTable(Frame(s1.memory, root)[d]);
  }

  // ---------------------------------------------------------------------------------
  // `map_4mib`.

  /** Reading a frame after frame `a` was overwritten. */
  lemma FrameAfterWrite(m: PhysMemory, a: nat, t: PageTable, b: nat)
    ensures Frame(m[a := t], b) == if a == b then t else Frame(m, b)
  {
  }

  /**
   * `map_4mib` fails exactly when the directory entry is present, and then changes
   * nothing; on success every address of the 4 MiB page at `v` translates to the
   * address at the same offset from `p`, and the pool is untouched.
   */
  lemma {:induction false} Map4MiBMaps(s: MemState, root: nat, v: VirtAddr, p: PhysAddr, f: set<Flag>)
    requires Map4MiBArgs(v, p, f)
    ensures var (r, s1) := Map4MiBSpec(s, root, v, p, f);
            && (r.Err? <==> IsPresent(DirEntry(s.memory, root, v)))
            && (r.Err? ==> r.error == AlreadyMapped && s1 == s)
            && s1.free == s.free
            && (r.Ok? ==> forall w: VirtAddr :: v <= w < v + 0x40_0000 ==> Walk(s1.memory, root, w) == Some(p + (w - v)))
  {
    var (r, s1) := Map4MiBSpec(s, root, v, p, f);
    if r.Ok? {
      var e := MakeEntry(f + {Present, HugePage}, p);
      assert Address4MiB(e) == p;
      forall w: VirtAddr | v <= w < v + 0x40_0000
        ensures Walk(s1.memory, root, w) == Some(p + (w - v))
      {
        SameRegion(v, w);
        assert DirEntry(s1.memory, root, w) == e;
      }
    }
  }

  /**
   * `map_4mib` leaves every translation outside its 4 MiB page as it was, and keeps a
   * separated address space separated.
   */
  lemma {:induction false} Map4MiBFrame(s: MemState, root: nat, v: VirtAddr, p: PhysAddr, f: set<Flag>)
    requires Map4MiBArgs(v, p, f) && Separated(s, root)
    ensures var (r, s1) := Map4MiBSpec(s, root, v, p, f);
            && Separated(s1, root)
            && forall w: VirtAddr :: !(v <= w < v + 0x40_0000) ==> Walk(s1.memory, root, w) == Walk(s.memory, root, w)
  {
    var (r, s1) := Map4MiBSpec(s, root, v, p, f);
    if r.Ok? {
      var d := ExtractPageDirectoryIndex(v);
      var dir := Frame(s.memory, root);
      var dir1 := Frame(s1.memory, root);
      assert dir1 == dir[d := MakeEntry(f + {Present, HugePage}, p)];
      forall w: VirtAddr | !(v <= w < v + 0x40_0000)
        ensures Walk(s1.memory, root, w) == Walk(s.memory, root, w)
      {
        SameRegion(v, w);
        var pde := DirEntry(s.memory, root, w);
        assert DirEntry(s1.memory, root, w) == pde;
        if IsTable(pde) {
          FrameAfterWrite(s.memory, root, dir1, Address4KiB(pde));
        }
      }
    }
  }

  // ---------------------------------------------------------------------------------
  // `map_4kib`, with the fresh-table path corrected (`recordPhys` false).

  /** The frames the fresh-table path writes: the directory and the pool's top frame. */
  lemma {:induction false} FreshTableWrites(s: MemState, root: nat, v: VirtAddr, p: PhysAddr, f: set<Flag>)
    requires Map4KiBArgs(v, p, f) && Separated(s, root)
    requires !IsPresent(DirEntry(s.memory, root, v)) && s.free != []
    ensures var (r, s1) := Map4KiBSpec(s, root, v, p, f, false);
            var pta := s.free[|s.free| - 1];
            && r.Ok? && s1.free == s.free[..|s.free| - 1]
            && Frame(s1.memory, root)
               == Frame(s.memory, root)[ExtractPageDirectoryIndex(v) := MakeEntry(f + {Present}, pta)]
            && Frame(s1.memory, pta) == EmptyTable()[ExtractPageTableIndex(v) := MakeEntry(f + {Present}, p)]
            && forall a :: a != root && a != pta ==> Frame(s1.memory, a) == Frame(s.memory, a)
  {
    var d := ExtractPageDirectoryIndex(v);
    var t := ExtractPageTableIndex(v);
    var pta := s.free[|s.free| - 1];
    assert pta in s.free;
    var m0 := s.memory[pta := EmptyTable()];
    var m1 := WriteEntry(m0, root, d, MakeEntry(f + {Present}, pta));
    assert Frame(m0, root) == Frame(s.memory, root);
    assert Frame(m1, pta) == EmptyTable();
    FreshTablePath(s, root, v, p, f, false);
  }

  /**
   * The fresh-table path with a frame to spare: it succeeds, maps the 4 KiB page at `v`
   * to `p`, changes no other translation, uses up the top frame of the pool and keeps the
   * address space separated.
   */
  lemma {:induction false} FreshTableMaps(s: MemState, root: nat, v: VirtAddr, p: PhysAddr, f: set<Flag>)
    requires Map4KiBArgs(v, p, f) && Separated(s, root)
    requires !IsPresent(DirEntry(s.memory, root, v)) && s.free != []
    ensures var (r, s1) := Map4KiBSpec(s, root, v, p, f, false);
            && r.Ok? && s1.free == s.free[..|s.free| - 1] && Separated(s1, root)
            && forall w: VirtAddr :: Walk(s1.memory, root, w)
                 == if v <= w < v + 0x1000 then Some(p + (w - v)) else Walk(s.memory, root, w)
  {
    var d := ExtractPageDirectoryIndex(v);
    var pta := s.free[|s.free| - 1];
    var dir := Frame(s.memory, root);
    var pde := MakeEntry(f + {Present}, pta);
    FreshTableWrites(s, root, v, p, f);
    var (r, s1) := Map4KiBSpec(s, root, v, p, f, false);
    var m2 := s1.memory;
    forall w: VirtAddr
      ensures Walk(m2, root, w) == if v <= w < v + 0x1000 then Some(p + (w - v)) else Walk(s.memory, root, w)
    {
      SamePage(v, w);
      var dw := ExtractPageDirectoryIndex(w);
      if dw == d {
        assert DirEntry(m2, root, w) == pde;
        if !(v <= w < v + 0x1000) {
          assert Get(Frame(m2, pta), ExtractPageTableIndex(w)) == NULL_ENTRY;
        }
      } else {
        var e := dir[dw];
        assert DirEntry(m2, root, w) == e;
        if IsTable(e) {
          assert pta in s.free;
          assert Frame(m2, Address4KiB(e)) == Frame(s.memory, Address4KiB(e));
        }
      }
    }
    SeparatedAfterFresh(s, root, d, pde, s1);
  }

  /** Directory entry `d` now refers to the pool's top frame, which the pool gave up. */
  lemma {:induction false} SeparatedAfterFresh(s: MemState, root: nat, d: PageTableIndex, pde: Entry, s1: MemState)
    requires Separated(s, root) && s.free != []
    requires !IsPresent(Frame(s.memory, root)[d])
    requires Address4KiB(pde) == s.free[|s.free| - 1]
    requires s1.free == s.free[..|s.free| - 1] && Frame(s1.memory, root) == Frame(s.memory, root)[d := pde]
    ensures Separated(s1, root)
  {
    var pta := s.free[|s.free| - 1];
    var dir := Frame(s.memory, root);
    var dir1 := Frame(s1.memory, root);
    assert pta in s.free;
    assert forall a :: a in s1.free ==> a in s.free && a != pta by {
      forall a | a in s1.free ensures a in s.free && a != pta {
        var i :| 0 <= i < |s1.free| && s1.free[i] == a;
        assert s.free[i] == a;
      }
    }
    assert Distinct(s1.free) by {
      forall i, j | 0 <= i < j < |s1.free| ensures s1.free[i] != s1.free[j] {
        assert s1.free[i] == s.free[i] && s1.free[j] == s.free[j];
      }
    }
    forall d1: PageTableIndex, d2: PageTableIndex | d1 != d2 && IsTable(dir1[d1]) && IsTable(dir1[d2])
      ensures Address4KiB(dir1[d1]) != Address4KiB(dir1[d2])
    {
      if d1 != d && d2 != d {
        assert dir1[d1] == dir[d1] && dir1[d2] == dir[d2];
      }
    }
  }

  /** The frames the path through an existing table writes: the directory and that table. */
  lemma {:induction false} ExistingTableWrites(s: MemState, root: nat, v: VirtAddr, p: PhysAddr, f: set<Flag>)
    requires Map4KiBArgs(v, p, f) && Separated(s, root)
    requires IsTable(DirEntry(s.memory, root, v))
    ensures var pde := DirEntry(s.memory, root, v);
            var pta := Address4KiB(pde);
            var t := ExtractPageTableIndex(v);
            var (r, s1) := Map4KiBSpec(s, root, v, p, f, false);
            && (r.Err? <==> IsPresent(Get(Frame(s.memory, pta), t)))
            && (r.Err? ==> r.error == AlreadyMapped)
            && s1.free == s.free
            && Frame(s1.memory, root) == Frame(s.memory, root)[ExtractPageDirectoryIndex(v) := WithFlags(pde, f)]
            && Frame(s1.memory, pta)
               == (if r.Ok? then Frame(s.memory, pta)[t := MakeEntry(f + {Present}, p)] else Frame(s.memory, pta))
            && forall a :: a != root && a != pta ==> Frame(s1.memory, a) == Frame(s.memory, a)
  {
    var d := ExtractPageDirectoryIndex(v);
    var pde := Frame(s.memory, root)[d];
    var pta := Address4KiB(pde);
    var m1 := WriteEntry(s.memory, root, d, WithFlags(pde, f));
    assert Frame(m1, pta) == Frame(s.memory, pta);
    ExistingTablePath(s, root, v, p, f, false);
  }

  /**
   * The path through an existing page table: the directory entry gains `f` and keeps its
   * table; the call fails exactly when the page's entry is present, and then no
   * translation changes; on success the page at `v` maps to `p` and nothing else changes.
   */
  lemma {:induction false} ExistingTableMaps(s: MemState, root: nat, v: VirtAddr, p: PhysAddr, f: set<Flag>)
    requires Map4KiBArgs(v, p, f) && Separated(s, root)
    requires IsTable(DirEntry(s.memory, root, v))
    ensures var pde := DirEntry(s.memory, root, v);
            var (r, s1) := Map4KiBSpec(s, root, v, p, f, false);
            && (r.Err? <==> IsPresent(Get(Frame(s.memory, Address4KiB(pde)), ExtractPageTableIndex(v))))
            && (r.Err? ==> r.error == AlreadyMapped)
            && s1.free == s.free && Separated(s1, root)
            && forall w: VirtAddr :: Walk(s1.memory, root, w)
                 == if r.Ok? && v <= w < v + 0x1000 then Some(p + (w - v)) else Walk(s.memory, root, w)
  {
    var d := ExtractPageDirectoryIndex(v);
    var dir := Frame(s.memory, root);
    var pde := dir[d];
    var pde1 := WithFlags(pde, f);
    ExistingTableWrites(s, root, v, p, f);
    var (r, s1) := Map4KiBSpec(s, root, v, p, f, false);
    var m2 := s1.memory;
    forall w: VirtAddr
      ensures Walk(m2, root, w) == if r.Ok? && v <= w < v + 0x1000 then Some(p + (w - v)) else Walk(s.memory, root, w)
    {
      SamePage(v, w);
      var dw := ExtractPageDirectoryIndex(w);
      if dw == d {
        assert DirEntry(m2, root, w) == pde1;
      } else {
        var e := dir[dw];
        assert DirEntry(m2, root, w) == e;
      }
    }
  }

  /**
   * `map_4kib` on a separated address space: it runs out of memory exactly when it needs
   * a page table and the pool is empty; it refuses exactly when a 4 MiB page or a present
   * page-table entry already covers `v`; on success the 4 KiB page at `v` translates to
   * `p`; no other translation changes, a failure changes none, and the address space
   * stays separated.
   */
  lemma {:induction false} Map4KiBMaps(s: MemState, root: nat, v: VirtAddr, p: PhysAddr, f: set<Flag>)
    requires Map4KiBArgs(v, p, f) && Separated(s, root)
    ensures var pde := DirEntry(s.memory, root, v);
            var (r, s1) := Map4KiBSpec(s, root, v, p, f, false);
            && (r == Err(OutOfMemory) <==> !IsPresent(pde) && s.free == [])
            && (r == Err(AlreadyMapped) <==>
                  IsPresent(pde)
                  && (IsHugePage(pde) || IsPresent(Get(Frame(s.memory, Address4KiB(pde)), ExtractPageTableIndex(v)))))
            && Separated(s1, root)
            && forall w: VirtAddr :: Walk(s1.memory, root, w)
                 == if r.Ok? && v <= w < v + 0x1000 then Some(p + (w - v)) else Walk(s.memory, root, w)
  {
    var pde := DirEntry(s.memory, root, v);
    if !IsPresent(pde) {
      if s.free != [] {
        FreshTableMaps(s, root, v, p, f);
      }
    } else if IsHugePage(pde) {
    } else {
      ExistingTableMaps(s, root, v, p, f);
    }
  }

  /**
   * The code as written loses the page: from an empty directory at 0 and a pool holding
   * 0x2000, mapping virtual 0 to 0x5000 succeeds, yet virtual 0 translates to nothing,
   * because the new directory entry points at 0x5000 instead of the table at 0x2000. The
   * corrected code maps it to 0x5000.
   */
  lemma Map4KiBAsWrittenLosesPage()
    ensures var s := MemState(map[0 := EmptyTable()], [0x2000]);
            var (r, s1) := Map4KiBSpec(s, 0, 0, 0x5000, {}, true);
            var (r', s1') := Map4KiBSpec(s, 0, 0, 0x5000, {}, false);
            && Separated(s, 0)
            && r.Ok? && Walk(s1.memory, 0, 0) == None
            && r'.Ok? && Walk(s1'.memory, 0, 0) == Some(0x5000)
  {
    var s := MemState(map[0 := EmptyTable()], [0x2000]);
    assert Frame(s.memory, 0) == EmptyTable();
    assert forall d: PageTableIndex :: !IsTable(Frame(s.memory, 0)[d]);
    assert Separated(s, 0);
    var (r, s1) := Map4KiBSpec(s, 0, 0, 0x5000, {}, true);
    assert ExtractPageDirectoryIndex(0) == 0 && ExtractPageTableIndex(0) == 0;
    assert 0x5000 !in s1.memory;
    Map4KiBMaps(s, 0, 0, 0x5000, {});
  }

  // ---------------------------------------------------------------------------------
  // `map_range`.

  /** A 4 KiB page whose first address translates to nothing translates nothing at all. */
  lemma {:induction false} PageUnmapped(m: PhysMemory, root: nat, v: VirtAddr)
    requires v % 0x1000 == 0 && Walk(m, root, v) == None
    ensures forall w: VirtAddr :: v <= w < v + 0x1000 ==> Walk(m, root, w) == None
  {
    forall w: VirtAddr | v <= w < v + 0x1000 ensures Walk(m, root, w) == None {
      SamePage(v, w);
    }
  }

  /** A 4 MiB region whose directory entry is not present translates nothing. */
  lemma {:induction false} RegionUnmapped(m: PhysMemory, root: nat, v: VirtAddr)
    requires v % 0x40_0000 == 0 && !IsPresent(DirEntry(m, root, v))
    ensures forall w: VirtAddr :: v <= w < v + 0x40_0000 ==> Walk(m, root, w) == None
  {
    forall w: VirtAddr | v <= w < v + 0x40_0000 ensures Walk(m, root, w) == None {
      SameRegion(v, w);
    }
  }

  /**
   * `map_range` on a separated address space: on success every address of the range
   * translates to the address at the same offset from `phys`, and none of it translated
   * before, so a range any part of which is already mapped fails; success or not, nothing
   * outside the range changes and the address space stays separated.
   */
  lemma {:induction false} MapRangeMaps(s: MemState, root: nat, virt: int, phys: int, length: nat, f: set<Flag>)
    requires RangeArgs(virt, phys, length) && IsMappingFlags(f) && Separated(s, root)
    ensures var (r, s1) := MapRangeSpec(s, root, virt, phys, length, f, false);
            && Separated(s1, root)
            && (forall w: VirtAddr :: !(virt <= w < virt + length) ==> Walk(s1.memory, root, w) == Walk(s.memory, root, w))
            && (r.Ok? ==> forall w: VirtAddr :: virt <= w < virt + length ==> Walk(s1.memory, root, w) == Some(phys + (w - virt)))
            && (r.Ok? ==> forall w: VirtAddr :: virt <= w < virt + length ==> Walk(s.memory, root, w) == None)
    decreases length, 1
  {
    if length == 0 {
    } else if HugeStep(virt, phys, length) {
      MapRangeHugeMaps(s, root, virt, phys, length, f);
    } else {
      MapRangeSmallMaps(s, root, virt, phys, length, f);
    }
  }

  /** `MapRangeMaps` when the range starts with a 4 MiB page. */
  lemma {:induction false} MapRangeHugeMaps(s: MemState, root: nat, virt: int, phys: int, length: nat, f: set<Flag>)
    requires RangeArgs(virt, phys, length) && IsMappingFlags(f) && Separated(s, root)
    requires length != 0 && HugeStep(virt, phys, length)
    ensures var (r, s1) := MapRangeSpec(s, root, virt, phys, length, f, false);
            && Separated(s1, root)
            && (forall w: VirtAddr :: !(virt <= w < virt + length) ==> Walk(s1.memory, root, w) == Walk(s.memory, root, w))
            && (r.Ok? ==> forall w: VirtAddr :: virt <= w < virt + length ==> Walk(s1.memory, root, w) == Some(phys + (w - virt)))
            && (r.Ok? ==> forall w: VirtAddr :: virt <= w < virt + length ==> Walk(s.memory, root, w) == None)
    decreases length, 0
  {
    RangeStep(virt, phys, length);
    var (r0, s0) := Map4MiBSpec(s, root, virt, phys, f);
    Map4MiBMaps(s, root, virt, phys, f);
    Map4MiBFrame(s, root, virt, phys, f);
    if r0.Err? {
      MapRangeStopsAt(s, root, virt, phys, length, f, false, r0, s0);
    } else {
      RegionUnmapped(s.memory, root, virt);
      MapRangeHugeStep(s, root, virt, phys, length, f, false, s0);
      MapRangeMaps(s0, root, virt + 0x40_0000, phys + 0x40_0000, length - 0x40_0000, f);
      var (r, s1) := MapRangeSpec(s0, root, virt + 0x40_0000, phys + 0x40_0000, length - 0x40_0000, f, false);
      MapRangeCompose(s.memory, s0.memory, s1.memory, root, virt, phys, length, 0x40_0000, r0.Ok?, r.Ok?);
    }
  }

  /** `MapRangeMaps` when the range starts with a 4 KiB page. */
  lemma {:induction false} MapRangeSmallMaps(s: MemState, root: nat, virt: int, phys: int, length: nat, f: set<Flag>)
    requires RangeArgs(virt, phys, length) && IsMappingFlags(f) && Separated(s, root)
    requires length != 0 && !HugeStep(virt, phys, length)
    ensures var (r, s1) := MapRangeSpec(s, root, virt, phys, length, f, false);
            && Separated(s1, root)
            && (forall w: VirtAddr :: !(virt <= w < virt + length) ==> Walk(s1.memory, root, w) == Walk(s.memory, root, w))
            && (r.Ok? ==> forall w: VirtAddr :: virt <= w < virt + length ==> Walk(s1.memory, root, w) == Some(phys + (w - virt)))
            && (r.Ok? ==> forall w: VirtAddr :: virt <= w < virt + length ==> Walk(s.memory, root, w) == None)
    decreases length, 0
  {
    RangeStep(virt, phys, length);
    var (r0, s0) := Map4KiBSpec(s, root, virt, phys, f, false);
    Map4KiBMaps(s, root, virt, phys, f);
    if r0.Err? {
      MapRangeStopsAt(s, root, virt, phys, length, f, false, r0, s0);
    } else {
      PageUnmapped(s.memory, root, virt);
      MapRangeSmallStep(s, root, virt, phys, length, f, false, s0);
      MapRangeMaps(s0, root, virt + 0x1000, phys + 0x1000, length - 0x1000, f);
      var (r, s1) := MapRangeSpec(s0, root, virt + 0x1000, phys + 0x1000, length - 0x1000, f, false);
      MapRangeCompose(s.memory, s0.memory, s1.memory, root, virt, phys, length, 0x1000, r0.Ok?, r.Ok?);
    }
  }

  /**
   * Gluing a mapped first page to a mapped rest: what changed only inside the first page
   * and then only inside the rest changed only inside the range, and a range whose first
   * page and rest were unmapped was unmapped as a whole.
   */
  lemma {:induction false} MapRangeCompose(m: PhysMemory, m0: PhysMemory, m1: PhysMemory, root: nat,
                                           virt: int, phys: int, length: nat, n: nat, ok0: bool, ok: bool)
    requires n <= length && ok0
    requires forall w: VirtAddr :: Walk(m0, root, w)
               == if ok0 && virt <= w < virt + n then Some(phys + (w - virt)) else Walk(m, root, w)
    requires forall w: VirtAddr :: !(virt + n <= w < virt + length) ==> Walk(m1, root, w) == Walk(m0, root, w)
    requires ok ==> forall w: VirtAddr :: virt + n <= w < virt + length ==> Walk(m1, root, w) == Some(phys + n + (w - (virt + n)))
    requires forall w: VirtAddr :: virt <= w < virt + n ==> Walk(m, root, w) == None
    requires ok ==> forall w: VirtAddr :: virt + n <= w < virt + length ==> Walk(m0, root, w) == None
    ensures forall w: VirtAddr :: !(virt <= w < virt + length) ==> Walk(m1, root, w) == Walk(m, root, w)
    ensures ok ==> forall w: VirtAddr :: virt <= w < virt + length ==> Walk(m1, root, w) == Some(phys + (w - virt))
    ensures ok ==> forall w: VirtAddr :: virt <= w < virt + length ==> Walk(m, root, w) == None
  {
  }

  /**
   * As written, `map_range` inherits the lost page of `map_4kib`: mapping the single page
   * at virtual 0 to 0x5000 in an empty directory succeeds and leaves virtual 0 unmapped.
   */
  lemma MapRangeAsWrittenLosesPage()
    ensures var s := MemState(map[0 := EmptyTable()], [0x2000]);
            var (r, s1) := MapRangeSpec(s, 0, 0, 0x5000, 0x1000, {}, true);
            r.Ok? && Walk(s1.memory, 0, 0) == None
  {
    var s := MemState(map[0 := EmptyTable()], [0x2000]);
    Map4KiBAsWrittenLosesPage();
    var (r0, s0) := Map4KiBSpec(s, 0, 0, 0x5000, {}, true);
    RangeStep(0, 0x5000, 0x1000);
    MapRangeSmallStep(s, 0, 0, 0x5000, 0x1000, {}, true, s0);
    assert MapRangeSpec(s0, 0, 0x1000, 0x6000, 0, {}, true) == (Ok(Unit), s0);
  }
}
