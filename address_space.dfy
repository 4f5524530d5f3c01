/**
 * The imperative model of `src/cpu/paging/address_space.rs`: the `Context` that owns physical
 * memory and its frame pool, and the `AddressSpace` operations, each proved to compute
 * the function of the same name in `Mappings`.
 */
module AddressSpaces {
  import opened Wrappers
  import opened Addresses
  import opened PagingModel
  import opened Mappings
  import opened MappingProperties
  import FrameAllocator

  /** A `Context`: physical memory plus the pool its frames are allocated from. */
  class Context {
    var memory: PhysMemory
    const frames: FrameAllocator.Allocator

    /** The pool is a valid allocator holding frame addresses (4 KiB-aligned). */
    ghost predicate Valid()
      reads this, frames, frames.pages
    {
      frames.Valid() && forall a <- frames.Contents() :: a % 0x1000 == 0
    }

    /** The memory and the free frames, as the specification functions see them. */
    ghost function State(): MemState
      reads this, frames, frames.pages
      requires Valid()
    {
      var free := frames.Contents();
      assert forall i :: 0 <= i < |free| ==> free[i] % 0x1000 == 0 by {
        forall i | 0 <= i < |free| ensures free[i] % 0x1000 == 0 {
          assert free[i] in free;
        }
      }
      MemState(memory, free)
    }

    constructor (memory: PhysMemory, frames: FrameAllocator.Allocator)
      requires frames.Valid() && forall a <- frames.Contents() :: a % 0x1000 == 0
      ensures Valid() && this.memory == memory && this.frames == frames
    {
      this.memory := memory;
      this.frames := frames;
    }

    /** `Context::allocate`: takes the most recently freed frame of the pool. */
    method Allocate() returns (r: Result<FrameAddr, FrameAllocator.OutOfMemory>)
      requires Valid()
      modifies frames
      ensures Valid() && memory == old(memory)
      ensures r.Err? <==> old(frames.Contents()) == []
      ensures r.Err? ==> frames.Contents() == old(frames.Contents())
      ensures r.Ok? ==> var old_free := old(frames.Contents());
                        r.value == old_free[|old_free| - 1]
                        && frames.Contents() == old_free[..|old_free| - 1]
    {
      ghost var free := frames.Contents();
      var page := frames.Allocate();
      if page.Err? {
        return Err(page.error);
      }
      assert free[|free| - 1] in free;
      var frame: FrameAddr := page.value;
      assert forall a <- frames.Contents() :: a in free;
      return Ok(frame);
    }

    /** `Context::map`, the identity mapping: the table held in frame `a`. */
    function Map(a: nat): PageTable
      reads this
    {
      Frame(memory, a)
    }

    /** A store through a pointer obtained from `Map`: frame `a` now holds `t`. */
    method Write(a: nat, t: PageTable)
      modifies this
      ensures memory == old(memory)[a := t]
    {
      memory := memory[a := t];
    }
  }

  /** `AddressSpace`: a context and the physical address of its page directory. */
  class AddressSpace {
    const context: Context
    /** The page directory; a `const`, so no operation ever changes it. */
    const root: PhysAddr

    ghost predicate Valid()
      reads this, context, context.frames, context.frames.pages
    {
      context.Valid()
    }

    constructor Wrap(context: Context, root: PhysAddr)
      requires context.Valid()
      ensures Valid() && this.context == context && this.root == root
    {
      this.context := context;
      this.root := root;
    }

    /**
     * `AddressSpace::new`: takes one frame from the context and zero-fills it as the page
     * directory, so nothing is mapped yet; fails with OutOfMemory when the pool is empty.
     */
    static method New(context: Context) returns (r: Result<AddressSpace, FrameAllocator.OutOfMemory>)
      requires context.Valid()
      modifies context, context.frames
      ensures context.Valid()
      ensures r.Err? <==> old(context.frames.Contents()) == []
      ensures r.Err? ==> context.State() == old(context.State())
      ensures r.Ok? ==>
        var old_free := old(context.frames.Contents());
        && r.value.Valid() && r.value.context == context
        && r.value.root == old_free[|old_free| - 1]
        && context.frames.Contents() == old_free[..|old_free| - 1]
        && context.memory == old(context.memory)[r.value.root := EmptyTable()]
        && (forall v: VirtAddr :: Walk(context.memory, r.value.root, v) == None)
        && (Distinct(old(context.State()).free) ==> Separated(context.State(), r.value.root))
    {
      ghost var s := context.State();
      var frame := context.Allocate();
      if frame.Err? {
        return Err(FrameAllocator.OutOfMemory);
      }
      context.Write(frame.value, EmptyTable());
      if Distinct(s.free) {
        NewIsSeparated(s);
      }
      EmptyDirectoryMapsNothing(context.memory, frame.value);
      var space := new AddressSpace.Wrap(context, frame.value);
      return Ok(space);
    }

    /** `page_directory`. */
    function PageDirectory(): (a: PhysAddr)
      ensures a == root
    {
      root
    }

    /** `translate`: the physical address `v` maps to, if any. */
    function Translate(v: VirtAddr): Option<nat>
      reads this, context
    {
      Walk(context.memory, root, v)
    }

    /**
     * `map_4kib`, with the fresh-table path corrected: the new directory entry records the
     * page table just allocated (see `Map4KiBSpec`; the code as written records `phys`).
     */
    method Map4KiB(v: VirtAddr, phys: PhysAddr, flags: set<Flag>) returns (r: Result<Unit, MappingError>)
      requires Valid()
      requires Map4KiBArgs(v, phys, flags)
      modifies context, context.frames
      ensures Valid()
      ensures (r, context.State()) == Map4KiBSpec(old(context.State()), root, v, phys, flags, false)
    {
      ghost var s := context.State();
      var d := ExtractPageDirectoryIndex(v);
      var pde := Get(context.Map(root), d);
      if !IsPresent(pde) {
        FreshTablePath(s, root, v, phys, flags, false);
        r := MapFreshTable(d, v, phys, flags);
      } else if IsHugePage(pde) {
        r := Err(AlreadyMapped);
      } else {
        // `update_flags` on the existing directory entry, then the page table it points to.
        ExistingTablePath(s, root, v, phys, flags, false);
        r := Install(d, WithFlags(pde, flags), Address4KiB(pde), v, phys, flags);
      }
    }

    /** The fresh-table path of `map_4kib`, corrected (see `MapFresh`). */
    method MapFreshTable(d: PageTableIndex, v: VirtAddr, phys: PhysAddr, flags: set<Flag>)
      returns (r: Result<Unit, MappingError>)
      requires Valid() && phys % 0x1000 == 0
      modifies context, context.frames
      ensures Valid()
      ensures (r, context.State()) == MapFresh(old(context.State()), root, d, v, phys, flags, false)
    {
      ghost var s := context.State();
      var frame := context.Allocate();
      if frame.Err? {
        return Err(OutOfMemory);
      }
      context.Write(frame.value, EmptyTable());
      assert context.State() == MemState(s.memory[frame.value := EmptyTable()], s.free[..|s.free| - 1]);
      r := Install(d, MakeEntry(flags + {Present}, frame.value), frame.value, v, phys, flags);
    }

    /**
     * The tail of `map_4kib`: directory entry `d` becomes `pde`, then the page-table entry
     * for `v` in the table at `pta` is refused if present and written otherwise.
     */
    method Install(d: PageTableIndex, pde: Entry, pta: nat, v: VirtAddr, phys: PhysAddr, flags: set<Flag>)
      returns (r: Result<Unit, MappingError>)
      requires Valid() && phys % 0x1000 == 0
      modifies context
      ensures Valid()
      ensures (r, context.State()) == InstallPage(old(context.State()), root, d, pde, pta, v, phys, flags)
    {
      context.Write(root, Put(context.Map(root), d, pde));
      var t := ExtractPageTableIndex(v);
      if IsPresent(Get(context.Map(pta), t)) {
        return Err(AlreadyMapped);
      }
      context.Write(pta, Put(context.Map(pta), t, MakeEntry(flags + {Present}, phys)));
      r := Ok(Unit);
    }

    /** `map_4mib` (see `Map4MiBSpec`). */
    method Map4MiB(v: VirtAddr, phys: PhysAddr, flags: set<Flag>) returns (r: Result<Unit, MappingError>)
      requires Valid()
      requires Map4MiBArgs(v, phys, flags)
      modifies context
      ensures Valid()
      ensures (r, context.State()) == Map4MiBSpec(old(context.State()), root, v, phys, flags)
    {
      var d := ExtractPageDirectoryIndex(v);
      if IsPresent(Get(context.Map(root), d)) {
        return Err(AlreadyMapped);
      }
      context.Write(root, Put(context.Map(root), d, MakeEntry(flags + {Present, HugePage}, phys)));
      r := Ok(Unit);
    }

    /** `map_range` (see `MapRangeSpec`): `virt`, `phys` and `length` advance together. */
    method MapRange(virt0: VirtAddr, phys0: PhysAddr, length0: nat, flags: set<Flag>)
      returns (r: Result<Unit, MappingError>)
      requires Valid() && RangeArgs(virt0, phys0, length0) && IsMappingFlags(flags)
      modifies context, context.frames
      ensures Valid()
      ensures (r, context.State()) == MapRangeSpec(old(context.State()), root, virt0, phys0, length0, flags, false)
    {
      ghost var goal := MapRangeSpec(context.State(), root, virt0, phys0, length0, flags, false);
      var virt: int, phys: int, length := virt0, phys0, length0;
      while length != 0
        invariant Valid() && RangeArgs(virt, phys, length)
        invariant MapRangeSpec(context.State(), root, virt, phys, length, flags, false) == goal
        decreases length
      {
        r, virt, phys, length := MapRangeNext(virt, phys, length, flags);
        if r.Err? {
          return;
        }
      }
      r := Ok(Unit);
    }

    /**
     * One iteration of `map_range`'s loop (see `MapRangeStep`): the page it maps and where
     * the rest of the range starts.
     */
    method MapRangeNext(virt: int, phys: int, length: nat, flags: set<Flag>)
      returns (r: Result<Unit, MappingError>, virt': int, phys': int, length': nat)
      requires Valid() && RangeArgs(virt, phys, length) && IsMappingFlags(flags) && length != 0
      modifies context, context.frames
      ensures Valid() && RangeArgs(virt', phys', length') && length' < length
      ensures r.Err? ==>
        (r, context.State()) == MapRangeSpec(old(context.State()), root, virt, phys, length, flags, false)
      ensures r.Ok? ==>
        MapRangeSpec(context.State(), root, virt', phys', length', flags, false)
        == MapRangeSpec(old(context.State()), root, virt, phys, length, flags, false)
    {
      if length >= 0x40_0000 && virt % 0x40_0000 == 0 && phys % 0x40_0000 == 0 {
        r := MapRangeHuge(virt, phys, length, flags);
        virt', phys', length' := virt + 0x40_0000, phys + 0x40_0000, length - 0x40_0000;
      } else {
        r := MapRangeSmall(virt, phys, length, flags);
        virt', phys', length' := virt + 0x1000, phys + 0x1000, length - 0x1000;
      }
    }

    /** A 4 MiB step of `map_range`: a failure ends the range, a success leaves the rest. */
    method MapRangeHuge(virt: int, phys: int, length: nat, flags: set<Flag>)
      returns (r: Result<Unit, MappingError>)
      requires Valid() && RangeArgs(virt, phys, length) && IsMappingFlags(flags)
      requires length != 0 && HugeStep(virt, phys, length)
      modifies context
      ensures Valid() && RangeArgs(virt + 0x40_0000, phys + 0x40_0000, length - 0x40_0000)
      ensures r.Err? ==>
        (r, context.State()) == MapRangeSpec(old(context.State()), root, virt, phys, length, flags, false)
      ensures r.Ok? ==>
        MapRangeSpec(context.State(), root, virt + 0x40_0000, phys + 0x40_0000, length - 0x40_0000, flags, false)
        == MapRangeSpec(old(context.State()), root, virt, phys, length, flags, false)
    {
      ghost var s := context.State();
      RangeStep(virt, phys, length);
      r := Map4MiB(virt, phys, flags);
      if r.Err? {
        MapRangeStopsAt(s, root, virt, phys, length, flags, false, r, context.State());
      } else {
        MapRangeHugeStep(s, root, virt, phys, length, flags, false, context.State());
      }
    }

    /** A 4 KiB step of `map_range`: a failure ends the range, a success leaves the rest. */
    method MapRangeSmall(virt: int, phys: int, length: nat, flags: set<Flag>)
      returns (r: Result<Unit, MappingError>)
      requires Valid() && RangeArgs(virt, phys, length) && IsMappingFlags(flags)
      requires length != 0 && !HugeStep(virt, phys, length)
      modifies context, context.frames
      ensures Valid() && length >= 0x1000 && RangeArgs(virt + 0x1000, phys + 0x1000, length - 0x1000)
      ensures r.Err? ==>
        (r, context.State()) == MapRangeSpec(old(context.State()), root, virt, phys, length, flags, false)
      ensures r.Ok? ==>
        MapRangeSpec(context.State(), root, virt + 0x1000, phys + 0x1000, length - 0x1000, flags, false)
        == MapRangeSpec(old(context.State()), root, virt, phys, length, flags, false)
    {
      ghost var s := context.State();
      RangeStep(virt, phys, length);
      r := Map4KiB(virt, phys, flags);
      if r.Err? {
        MapRangeStopsAt(s, root, virt, phys, length, flags, false, r, context.State());
      } else {
        MapRangeSmallStep(s, root, virt, phys, length, flags, false, context.State());
      }
    }
  }
}
