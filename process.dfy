/**
 * The process table of `src/state/process.rs`: a table of 1024 process slots carved out of
 * the boot allocator, with the `init` process in slot 0, and per process one slot for each
 * kind of signal, which holds at most one pending signal.
 *
 * `UserId` is defined in `src/state/user.rs`, which is not part of this model; it is taken
 * as a natural number.
 */
module ProcessState {
  import opened Wrappers
  import opened InitAllocators

  /** `ProcessId`, a `u32`. */
  type ProcessId = x: nat | x < 0x1_0000_0000

  type UserId = nat

  /** The number of process slots `Processes::new` allocates. */
  const PROCESS_SLOTS: nat := 1024

  /** `Signal`: only SIGINT so far. */
  datatype Signal = Int

  /** `Signal::COUNT`. */
  const SIGNAL_COUNT: nat := 1

  /** `signal as usize`: the slot of a signal in `Signals`. */
  function Index(s: Signal): (i: nat)
    ensures i < SIGNAL_COUNT
  {
    match s
    case Int => 0
  }

  /** `ReceivedSignal`: who sent the signal; `None` for the kernel. */
  datatype ReceivedSignal = ReceivedSignal(sentBy: Option<ProcessId>)

  /**
   * `Signals::schedule` on the slots: a signal whose slot is taken is refused and nothing
   * changes; otherwise it is stored in its slot.
   */
  function Scheduled(received: seq<Option<ReceivedSignal>>, s: Signal, r: ReceivedSignal)
    : (result: (seq<Option<ReceivedSignal>>, bool))
    requires |received| == SIGNAL_COUNT
  {
    if received[Index(s)].Some? then (received, false)
    else (received[Index(s) := Some(r)], true)
  }

  /**
   * A signal is scheduled exactly when its slot was free; then its slot holds it, and
   * otherwise nothing changes. (With a single kind of signal there are no other slots.)
   */
  lemma ScheduleStoresOnce(received: seq<Option<ReceivedSignal>>, s: Signal, r: ReceivedSignal)
    requires |received| == SIGNAL_COUNT
    ensures var (after, ok) := Scheduled(received, s, r);
            && (ok <==> received[Index(s)].None?)
            && |after| == SIGNAL_COUNT
            && (ok ==> after[Index(s)] == Some(r))
            && (!ok ==> after == received)
  {
  }

  /** Scheduling the same kind of signal a second time is refused, whoever sends it. */
  lemma ScheduleTwiceRefuses(received: seq<Option<ReceivedSignal>>, s: Signal, r: ReceivedSignal, r': ReceivedSignal)
    requires |received| == SIGNAL_COUNT
    ensures var (after, _) := Scheduled(received, s, r);
            Scheduled(after, s, r') == (after, false)
  {
  }

  /** `Signals`: the pending signal of each kind, if any. */
  class Signals {
    const received: array<Option<ReceivedSignal>>

    ghost predicate Valid()
      reads this
    {
      received.Length == SIGNAL_COUNT
    }

    /** `Signals::default`: no signal pending. */
    constructor Default()
      ensures Valid() && fresh(received)
      ensures forall i | 0 <= i < SIGNAL_COUNT :: received[i].None?
    {
      received := new Option<ReceivedSignal>[SIGNAL_COUNT](_ => None);
    }

    /** `Signals::schedule`: whether the signal was scheduled. */
    method Schedule(s: Signal, r: ReceivedSignal) returns (ok: bool)
      requires Valid()
      modifies received
      ensures Valid()
      ensures (received[..], ok) == Scheduled(old(received[..]), s, r)
    {
      var idx := Index(s);
      if received[idx].Some? {
        return false;
      }
      received[idx] := Some(r);
      return true;
    }
  }

  /** `Process`: its parent, its pending signals and the user that created it. */
  class Process {
    var parent: ProcessId
    const signals: Signals
    var owner: UserId

    /** `Process::new`: the parent and owner given, and no signal pending. */
    constructor (parent: ProcessId, owner: UserId)
      ensures this.parent == parent && this.owner == owner
      ensures signals.Valid() && fresh(signals) && fresh(signals.received)
      ensures forall i | 0 <= i < SIGNAL_COUNT :: signals.received[i].None?
    {
      this.parent := parent;
      signals := new Signals.Default();
      this.owner := owner;
    }
  }

  /** `Processes`: the process slots, indexed by process ID, and the running process. */
  class Processes {
    const processes: array<Option<Process>>
    var current: ProcessId

    /** The running process is always in the table. */
    ghost predicate Valid()
      reads this, processes
    {
      current < processes.Length && processes[current].Some?
    }

    /**
     * The table `Processes::new` builds once its slots are allocated: every slot empty but
     * slot 0, which holds `init`, and `init` running.
     */
    constructor (init: Process)
      ensures Valid() && fresh(processes)
      ensures processes.Length == PROCESS_SLOTS && current == 0
      ensures processes[0] == Some(init)
      ensures forall i | 1 <= i < PROCESS_SLOTS :: processes[i].None?
    {
      var slots := new Option<Process>[PROCESS_SLOTS];
      var i := 0;
      while i < PROCESS_SLOTS
        invariant 0 <= i <= PROCESS_SLOTS
        invariant forall j | 0 <= j < i :: slots[j].None?
      {
        slots[i] := None;
        i := i + 1;
      }
      slots[0] := Some(init);
      processes := slots;
      current := 0;
    }
  }

  /**
   * `Processes::new`: room for 1024 slots of layout `slot` is taken from the boot
   * allocator; `None` where it calls `oom()`.
   */
  method NewProcesses(allocator: InitAllocator, slot: Layout, init: Process) returns (r: Option<Processes>)
    requires ValidLayout(slot)
    modifies allocator
    ensures r.None? <==> ArrayLayout(slot, PROCESS_SLOTS).None?
                         || Bump(old(allocator.top), allocator.base, ArrayLayout(slot, PROCESS_SLOTS).value).None?
    ensures r.None? ==> allocator.top == old(allocator.top)
    ensures r.Some? ==> var t := r.value;
                        && t.Valid() && fresh(t.processes)
                        && t.processes.Length == PROCESS_SLOTS && t.current == 0
                        && t.processes[0] == Some(init)
                        && (forall i | 1 <= i < PROCESS_SLOTS :: t.processes[i].None?)
                        && allocator.base <= allocator.top
                        && allocator.top + slot.size * PROCESS_SLOTS <= old(allocator.top)
  {
    var room := allocator.AllocateSlice(slot, PROCESS_SLOTS);
    if room.None? {
      return None;
    }
    var table := new Processes(init);
    return Some(table);
  }
}
