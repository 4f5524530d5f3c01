/**
 * `ArrayVec<T, N>` of `src/utility/array_vec.rs`: a vector of at most `N` elements kept in
 * a fixed buffer, with the length in a `u8` (so `N <= 255`). The elements are the first
 * `len` slots of the buffer; `ptr::copy` moves are loops over those slots.
 */
module ArrayVecs {
  import opened Wrappers

  /** A bound of `RangeBounds<usize>`. */
  datatype Bound = Included(n: nat) | Excluded(n: nat) | Unbounded

  /** The first index a start bound takes in. */
  function RangeStart(b: Bound): nat {
    match b
    case Included(s) => s
    case Excluded(s) => s + 1
    case Unbounded => 0
  }

  /** The index just past what an end bound takes in; an unbounded end is the length. */
  function RangeEnd(b: Bound, len: nat): nat {
    match b
    case Included(e) => e + 1
    case Excluded(e) => e
    case Unbounded => len
  }

  class ArrayVec<T> {
    /** The `[MaybeUninit<T>; N]` buffer; slots at `len` and beyond hold no element. */
    const data: array<T>
    var len: nat

    ghost predicate Valid()
      reads this
    {
      data.Length <= 255 && len <= data.Length
    }

    /** `deref`: the elements, the first `len` slots of the buffer. */
    function Contents(): (s: seq<T>)
      reads this, data
      requires Valid()
      ensures |s| == len <= Capacity()
    {
      data[..len]
    }

    /** `capacity`: `N`. */
    function Capacity(): nat
      reads this
    {
      data.Length
    }

    /** `is_empty`. */
    predicate IsEmpty()
      reads this, data
      requires Valid()
    {
      len == 0
    }

    /** `is_full`. */
    predicate IsFull()
      reads this, data
      requires Valid()
    {
      len == data.Length
    }

    /**
     * `ArrayVec::new`, with capacity `n`; `filler` stands for the uninitialised slots. The
     * capacity check `N <= 255` is the precondition.
     */
    constructor (n: nat, filler: T)
      requires n <= 255
      ensures Valid() && Contents() == [] && Capacity() == n && fresh(data)
    {
      data := new T[n](_ => filler);
      len := 0;
    }

    /** `pop`: `None` on an empty vector; otherwise the last element, which is removed. */
    method Pop() returns (r: Option<T>)
      requires Valid()
      modifies this
      ensures Valid()
      ensures r.None? <==> old(Contents()) == []
      ensures r.None? ==> Contents() == old(Contents())
      ensures r.Some? ==> r.value == old(Contents())[old(len) - 1] && Contents() == old(Contents())[..old(len) - 1]
    {
      if len == 0 {
        return None;
      }
      len := len - 1;
      return Some(data[len]);
    }

    /** `push_unchecked`: the vector must not be full; `value` becomes the last element. */
    method PushUnchecked(value: T)
      requires Valid() && !IsFull()
      modifies this, data
      ensures Valid() && Contents() == old(Contents()) + [value]
    {
      data[len] := value;
      len := len + 1;
    }

    /** `try_push`: a full vector hands `value` back and is unchanged; otherwise it is appended. */
    method TryPush(value: T) returns (r: Result<Unit, T>)
      requires Valid()
      modifies this, data
      ensures Valid()
      ensures r.Err? <==> old(IsFull())
      ensures r.Err? ==> r.error == value && Contents() == old(Contents())
      ensures r.Ok? ==> Contents() == old(Contents()) + [value]
    {
      if IsFull() {
        return Err(value);
      }
      PushUnchecked(value);
      return Ok(Unit);
    }

    /** `push`: panics when full, hence the precondition. */
    method Push(value: T)
      requires Valid() && !IsFull()
      modifies this, data
      ensures Valid() && Contents() == old(Contents()) + [value]
    {
      var r := TryPush(value);
    }

    /**
     * `insert_unchecked`: shifts the elements from `index` one slot up, last first, then
     * writes `value` into the hole.
     */
    method InsertUnchecked(index: nat, value: T)
      requires Valid() && !IsFull() && index <= len
      modifies this, data
      ensures Valid() && Contents() == old(Contents())[..index] + [value] + old(Contents())[index..]
    {
      ghost var before := Contents();
      var i := len;
      while i > index
        invariant Valid() && !IsFull() && len == |before| && index <= i <= len
        invariant forall j :: 0 <= j < i ==> data[j] == before[j]
        invariant forall j :: i < j <= len ==> data[j] == before[j - 1]
        decreases i
      {
        data[i] := data[i - 1];
        i := i - 1;
      }
      data[index] := value;
      len := len + 1;
      assert Contents() == before[..index] + [value] + before[index..];
    }

    /**
     * `try_insert`: `index` beyond the length panics (the precondition); a full vector
     * hands `value` back unchanged; otherwise it is inserted at `index`.
     */
    method TryInsert(index: nat, value: T) returns (r: Result<Unit, T>)
      requires Valid() && index <= len
      modifies this, data
      ensures Valid()
      ensures r.Err? <==> old(IsFull())
      ensures r.Err? ==> r.error == value && Contents() == old(Contents())
      ensures r.Ok? ==> Contents() == old(Contents())[..index] + [value] + old(Contents())[index..]
    {
      if IsFull() {
        return Err(value);
      }
      InsertUnchecked(index, value);
      return Ok(Unit);
    }

    /** `remove_unchecked`: returns element `index` and shifts the rest down over it. */
    method RemoveUnchecked(index: nat) returns (r: T)
      requires Valid() && index < len
      modifies this, data
      ensures Valid()
      ensures r == old(Contents())[index]
      ensures Contents() == old(Contents())[..index] + old(Contents())[index + 1..]
    {
      ghost var before := Contents();
      r := data[index];
      var i := index;
      while i < len - 1
        invariant Valid() && len == |before| && index <= i <= len - 1
        invariant forall j :: 0 <= j < index ==> data[j] == before[j]
        invariant forall j :: index <= j < i ==> data[j] == before[j + 1]
        invariant forall j :: i <= j < len ==> data[j] == before[j]
        decreases len - i
      {
        data[i] := data[i + 1];
        i := i + 1;
      }
      len := len - 1;
      assert Contents() == before[..index] + before[index + 1..];
    }

    /** `remove_range_unchecked`: the elements from `end` on move down to `start`. */
    method RemoveRangeUnchecked(start: nat, end: nat)
      requires Valid() && start <= end <= len
      modifies this, data
      ensures Valid() && Contents() == old(Contents())[..start] + old(Contents())[end..]
    {
      ghost var before := Contents();
      var count := end - start;
      var i := start;
      while i < len - count
        invariant Valid() && len == |before| && start <= i <= len - count
        invariant forall j :: 0 <= j < start ==> data[j] == before[j]
        invariant forall j :: start <= j < i ==> data[j] == before[j + count]
        invariant forall j :: i + count <= j < len ==> data[j] == before[j]
        decreases len - count - i
      {
        data[i] := data[i + count];
        i := i + 1;
      }
      len := len - count;
      assert Contents() == before[..start] + before[end..];
    }

    /**
     * `remove_range`: the range must lie within the vector (both assertions become the
     * precondition); its elements are removed and the rest closes up.
     */
    method RemoveRange(startBound: Bound, endBound: Bound)
      requires Valid() && RangeStart(startBound) <= RangeEnd(endBound, len) <= len
      modifies this, data
      ensures Valid()
      ensures Contents() == old(Contents())[..RangeStart(startBound)] + old(Contents())[old(RangeEnd(endBound, len))..]
    {
      var start := RangeStart(startBound);
      var end := RangeEnd(endBound, len);
      RemoveRangeUnchecked(start, end);
    }

    /** `extend_from_slice_unchecked`: copies `slice` after the last element. */
    method ExtendFromSliceUnchecked(slice: seq<T>)
      requires Valid() && len + |slice| <= Capacity()
      modifies this, data
      ensures Valid() && Contents() == old(Contents()) + slice
    {
      ghost var before := Contents();
      var k := 0;
      while k < |slice|
        invariant Valid() && len == |before| && len + |slice| <= Capacity() && 0 <= k <= |slice|
        invariant forall j :: 0 <= j < len ==> data[j] == before[j]
        invariant forall j :: 0 <= j < k ==> data[len + j] == slice[j]
        decreases |slice| - k
      {
        data[len + k] := slice[k];
        k := k + 1;
      }
      len := len + |slice|;
      assert Contents() == before + slice;
    }

    /** `extend_from_slice`: panics unless the slice fits, hence the precondition. */
    method ExtendFromSlice(slice: seq<T>)
      requires Valid() && len + |slice| <= Capacity()
      modifies this, data
      ensures Valid() && Contents() == old(Contents()) + slice
    {
      ExtendFromSliceUnchecked(slice);
    }

    /** `clear`: pops until `pop` reports an empty vector. */
    method Clear()
      requires Valid()
      modifies this
      ensures Valid() && Contents() == []
    {
      var r := Pop();
      while r.Some?
        invariant Valid()
        invariant r.None? ==> len == 0
        decreases len + if r.Some? then 1 else 0
      {
        r := Pop();
      }
    }
  }

  /** Pushing a value and popping it back returns it and restores the vector. */
  method PushThenPop<T>(v: ArrayVec<T>, value: T) returns (r: Option<T>)
    requires v.Valid() && !v.IsFull()
    modifies v, v.data
    ensures v.Valid() && r == Some(value) && v.Contents() == old(v.Contents())
  {
    v.Push(value);
    r := v.Pop();
  }
}
