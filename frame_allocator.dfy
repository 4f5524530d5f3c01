/**
 * The steady-state physical frame allocator: a LIFO stack of free 4 KiB frame addresses
 * kept in a fixed backing array whose first `len` slots hold the free frames.
 */
module FrameAllocator {
  import opened Wrappers
  import opened Addresses

  /** The error returned when no frame is left. */
  datatype OutOfMemory = OutOfMemory

  /** The size of one frame, in bytes. */
  const FRAME_SIZE: nat := 0x1000

  class Allocator {
    /** The backing storage; only `pages[..len]` is initialised. */
    const pages: array<PhysAddr>
    /** The number of free frames held. */
    var len: nat

    /** The capacity invariant: the stack never outgrows its storage. */
    ghost predicate Valid()
      reads this
    {
      len <= pages.Length
    }

    /** The free frames, bottom of the stack first. */
    ghost function Contents(): seq<PhysAddr>
      reads this, pages
      requires Valid()
    {
      pages[..len]
    }

    /** `Allocator::new`: an empty stack over the given storage. */
    constructor (storage: array<PhysAddr>)
      ensures Valid() && pages == storage && len == 0 && Contents() == []
    {
      pages := storage;
      len := 0;
    }

    /**
     * `deallocate`: pushes a frame. The source panics when the storage is full, so a
     * non-full stack is required. Only slot `len` of the storage is written.
     */
    method Deallocate(page: PhysAddr)
      requires Valid() && len < pages.Length
      modifies this, pages
      ensures Valid()
      ensures len == old(len) + 1
      ensures Contents() == old(Contents()) + [page]
      ensures forall i :: 0 <= i < pages.Length && i != old(len) ==> pages[i] == old(pages[i])
    {
      pages[len] := page;
      len := len + 1;
    }

    /**
     * `allocate`: pops the most recently freed frame, or fails with OutOfMemory, leaving
     * the allocator unchanged, exactly when none is left.
     */
    method Allocate() returns (r: Result<PhysAddr, OutOfMemory>)
      requires Valid()
      modifies this
      ensures Valid()
      ensures r.Err? <==> old(len) == 0
      ensures r.Err? ==> len == old(len)
      ensures r.Ok? ==> len == old(len) - 1 && r.value == old(Contents())[old(len) - 1]
                        && Contents() == old(Contents())[..old(len) - 1]
    {
      if len == 0 {
        return Err(OutOfMemory);
      }
      len := len - 1;
      r := Ok(pages[len]);
    }

    /** `remaining_memory`: the bytes held by the free frames. */
    function RemainingMemory(): (bytes: nat)
      reads this, pages
      requires Valid()
      ensures bytes == |Contents()| * FRAME_SIZE
    {
      len * FRAME_SIZE
    }
  }

  /**
   * Stack discipline: freeing a frame and allocating again returns that same frame and
   * restores the allocator's contents.
   */
  method DeallocateThenAllocate(a: Allocator, page: PhysAddr) returns (r: Result<PhysAddr, OutOfMemory>)
    requires a.Valid() && a.len < a.pages.Length
    modifies a, a.pages
    ensures a.Valid()
    ensures r == Ok(page)
    ensures a.Contents() == old(a.Contents())
  {
    a.Deallocate(page);
    r := a.Allocate();
  }

  /**
   * Three frames deposited in order come back in reverse order, and a fourth request
   * fails with OutOfMemory.
   */
  method DepositThreeFrames() returns (x: Result<PhysAddr, OutOfMemory>, y: Result<PhysAddr, OutOfMemory>,
                                       z: Result<PhysAddr, OutOfMemory>, w: Result<PhysAddr, OutOfMemory>)
    ensures x == Ok(0x10_2000) && y == Ok(0x10_1000) && z == Ok(0x10_0000)
    ensures w == Err(OutOfMemory)
  {
    var storage := new PhysAddr[3](_ => 0);
    var a := new Allocator(storage);
    a.Deallocate(0x10_0000);
    a.Deallocate(0x10_1000);
    a.Deallocate(0x10_2000);
    x := a.Allocate();
    y := a.Allocate();
    z := a.Allocate();
    w := a.Allocate();
    assert w.Err?;
    assert w.error == OutOfMemory;
  }
}
