/**
 * SharedSemaphore: a counting semaphore whose record lives in a one-page shared-memory
 * segment. Modelled sequentially as its counter: the creator sets it, an opener sees the
 * value already there, `post` adds one and `wait` takes one away when it is not zero.
 */
module Semaphores {
  import opened Base
  import opened Kernel
  import opened SharedMemory

  /** The semaphore record gets one page of shared memory. */
  const SegmentSize: nat := 4096

  /** Whether the constructor gets a mapped record (otherwise it throws). */
  predicate SetupSucceeds(create: bool, calls: ShmCalls, len: nat)
  {
    if create then CreateSucceeds(calls, SegmentSize) else OpenSucceeds(calls, len, SegmentSize)
  }

  /** The namespace after the member channel is created or opened and, if that failed, closed again. */
  function SegmentsAfterSetup(segments: map<string, nat>, name: string, create: bool, calls: ShmCalls): map<string, nat>
  {
    if calls.openFd == -1 then segments
    else if !SetupSucceeds(create, calls, LengthOf(segments, name)) then segments - {name}
    else if create then segments[name := SegmentSize]
    else segments[name := if LengthOf(segments, name) < SegmentSize then SegmentSize else LengthOf(segments, name)]
  }

  /** The namespace once a channel holding descriptor `fd` for `name` is closed. */
  function SegmentsAfterClose(segments: map<string, nat>, fd: int, name: string): map<string, nat>
  {
    if fd != -1 then segments - {name} else segments
  }

  class SharedSemaphore {
    /** The segment that holds the record. */
    var shm: SharedMemoryChannel
    /** `data != nullptr`: the record is mapped. */
    var attached: bool
    var creator: bool
    /** `data->value`, the counter in the shared record. */
    var value: int

    /** The member channel is well formed, and `attached` means that the record is mapped. */
    ghost predicate Valid()
      reads this, shm
    {
      shm.Valid() && (attached ==> shm.buffer != null)
    }

    /** The default constructor: no record, not the creator. */
    constructor ()
      ensures Valid() && fresh(shm)
      ensures !attached && !creator && shm.buffer == null && shm.fd == -1
    {
      shm := new SharedMemoryChannel();
      attached, creator, value := false, false, 0;
    }

    /**
     * The body of `SharedSemaphore(name, create, initialValue)` on a fresh member channel:
     * the creator creates the segment and sets the counter to `initialValue`; an opener
     * opens it and performs no initialisation, so it sees `existingValue`, the counter
     * already stored there. When the segment cannot be created or opened the constructor
     * throws, and unwinding destroys the member channel (`close`, which unlinks the name
     * if a descriptor was obtained).
     */
    method Setup(ns: ShmNamespace, fds: Descriptors, name: string, create: bool, initialValue: int,
                 existing: Bytes, existingValue: int, calls: ShmCalls) returns (ok: bool)
      requires Valid() && shm.buffer == null && !attached && !creator
      requires |existing| == LengthOf(ns.segments, name)
      requires |existing| == 0 ==> existingValue == 0
      requires calls.openFd >= -1 && (calls.openFd != -1 ==> calls.openFd !in fds.open)
      modifies this, shm, ns, fds
      ensures Valid() && shm == old(shm)
      ensures ok == SetupSucceeds(create, calls, |existing|)
      ensures ok ==> attached && creator == create && value == (if create then initialValue else existingValue)
      ensures ok ==> shm.buffer != null && shm.name == name && shm.fd == calls.openFd
      ensures !ok ==> !attached && !creator && shm.buffer == null && shm.fd == -1
      ensures ns.segments == SegmentsAfterSetup(old(ns.segments), name, create, calls)
      ensures fds.open == if calls.openFd == -1 then old(fds.open) else old(fds.open) + {calls.openFd}
    {
      if create {
        ok := shm.Create(ns, fds, name, SegmentSize, existing, calls);
      } else {
        ok := shm.Open(ns, fds, name, SegmentSize, existing, calls);
      }
      if !ok {
        shm.Close(ns);
        return;
      }
      creator := create;
      attached := true;
      if creator {
        value := initialValue;
      } else {
        value := existingValue;
      }
    }

    /** `SharedSemaphore(name, create, initialValue)`: a semaphore, or `None` where the constructor throws. */
    static method Construct(ns: ShmNamespace, fds: Descriptors, name: string, create: bool, initialValue: int,
                            existing: Bytes, existingValue: int, calls: ShmCalls) returns (r: Option<SharedSemaphore>)
      requires |existing| == LengthOf(ns.segments, name)
      requires |existing| == 0 ==> existingValue == 0
      requires calls.openFd >= -1 && (calls.openFd != -1 ==> calls.openFd !in fds.open)
      modifies ns, fds
      ensures r.Some? == SetupSucceeds(create, calls, |existing|)
      ensures r.Some? ==> fresh(r.value) && fresh(r.value.shm) && r.value.Valid()
      ensures r.Some? ==> r.value.attached && r.value.creator == create
      ensures r.Some? ==> r.value.value == if create then initialValue else existingValue
      ensures r.Some? ==> r.value.shm.buffer != null && r.value.shm.name == name && r.value.shm.fd == calls.openFd
      ensures ns.segments == SegmentsAfterSetup(old(ns.segments), name, create, calls)
      ensures fds.open == if calls.openFd == -1 then old(fds.open) else old(fds.open) + {calls.openFd}
    {
      var s := new SharedSemaphore();
      var ok := s.Setup(ns, fds, name, create, initialValue, existing, existingValue, calls);
      r := if ok then Some(s) else None;
    }

    /**
     * `init(name, create, initialValue)`: destroy this semaphore (closing its segment) and
     * construct it again in place, with the same outcome as the constructor. Closing the
     * segment never closes its descriptor, so the descriptor table only grows: every
     * `init` leaves the old descriptor open.
     */
    method Init(ns: ShmNamespace, fds: Descriptors, name: string, create: bool, initialValue: int,
                existing: Bytes, existingValue: int, calls: ShmCalls) returns (ok: bool)
      requires Valid()
      requires |existing| == LengthOf(SegmentsAfterClose(ns.segments, shm.fd, shm.name), name)
      requires |existing| == 0 ==> existingValue == 0
      requires calls.openFd >= -1 && (calls.openFd != -1 ==> calls.openFd !in fds.open)
      modifies this, shm, ns, fds
      ensures Valid() && fresh(shm)
      ensures ok == SetupSucceeds(create, calls, |existing|)
      ensures ok ==> attached && creator == create && value == (if create then initialValue else existingValue)
      ensures ok ==> shm.buffer != null && shm.name == name && shm.fd == calls.openFd
      ensures !ok ==> !attached && !creator && shm.buffer == null && shm.fd == -1
      ensures ns.segments ==
                SegmentsAfterSetup(SegmentsAfterClose(old(ns.segments), old(shm.fd), old(shm.name)), name, create, calls)
      ensures fds.open == if calls.openFd == -1 then old(fds.open) else old(fds.open) + {calls.openFd}
    {
      shm.Close(ns);
      shm := new SharedMemoryChannel();
      attached, creator := false, false;
      ok := Setup(ns, fds, name, create, initialValue, existing, existingValue, calls);
    }

    /** The destructor: close the segment. */
    method Destroy(ns: ShmNamespace)
      requires Valid()
      modifies shm, ns
      ensures shm.Valid() && shm.buffer == null && shm.fd == -1
      ensures ns.segments == SegmentsAfterClose(old(ns.segments), old(shm.fd), old(shm.name))
    {
      shm.Close(ns);
    }

    /** `post()`: add one to the counter (and wake one waiter). */
    method Post()
      requires Valid() && attached
      modifies this`value
      ensures Valid()
      ensures value == old(value) + 1
    {
      value := value + 1;
    }

    /**
     * `wait()`: take one from the counter. The source blocks while the counter is 0; in a
     * sequential run nobody could post meanwhile, so the model requires a non-zero counter.
     */
    method Wait()
      requires Valid() && attached && value != 0
      modifies this`value
      ensures Valid()
      ensures value == old(value) - 1
    {
      value := value - 1;
    }
  }

  // ----- sequences of operations on the counter -----

  datatype SemOp = PostOp | WaitOp

  /** The counter after `ops`, starting from `v`; `None` when a `wait` finds 0 and would block for ever. */
  function Run(v: int, ops: seq<SemOp>): (r: Option<int>)
    ensures v >= 0 && r.Some? ==> r.value >= 0
    ensures r.Some? ==> r.value >= v - |ops|
    decreases |ops|
  {
    if ops == [] then Some(v)
    else match ops[0]
      case PostOp => Run(v + 1, ops[1..])
      case WaitOp => if v == 0 then None else Run(v - 1, ops[1..])
  }

  function Count(ops: seq<SemOp>, op: SemOp): nat
    decreases |ops|
  {
    if ops == [] then 0 else (if ops[0] == op then 1 else 0) + Count(ops[1..], op)
  }

  /** A run that completes ends at the start value plus the posts minus the waits. */
  lemma {:induction false} RunBalance(v: int, ops: seq<SemOp>)
    requires Run(v, ops).Some?
    ensures Run(v, ops).value == v + Count(ops, PostOp) - Count(ops, WaitOp)
    decreases |ops|
  {
    if ops != [] {
      match ops[0]
      case PostOp => RunBalance(v + 1, ops[1..]);
      case WaitOp => RunBalance(v - 1, ops[1..]);
    }
  }

  /**
   * Starting from a non-negative value, a run that completes never goes negative at any
   * point: the `== 0` guard of `wait` keeps a non-negative counter non-negative.
   */
  lemma {:induction false} RunStaysNonNegative(v: int, ops: seq<SemOp>, k: nat)
    requires v >= 0 && Run(v, ops).Some? && k <= |ops|
    ensures Run(v, ops[..k]).Some? && Run(v, ops[..k]).value >= 0
    decreases |ops|
  {
    if k > 0 {
      assert ops[..k][1..] == ops[1..][..k - 1];
      match ops[0]
      case PostOp => RunStaysNonNegative(v + 1, ops[1..], k - 1);
      case WaitOp => RunStaysNonNegative(v - 1, ops[1..], k - 1);
    }
  }

  /** The guard is `== 0`, not `<= 0`: a negative counter does not block a `wait`; it goes further down. */
  lemma NegativeCounterDoesNotBlock(v: int)
    requires v < 0
    ensures Run(v, [WaitOp]) == Some(v - 1)
  {
  }

  function Repeat(op: SemOp, n: nat): (r: seq<SemOp>)
    ensures |r| == n
    ensures forall i :: 0 <= i < n ==> r[i] == op
  {
    seq(n, _ => op)
  }

  lemma {:induction false} RunPosts(v: int, n: nat, rest: seq<SemOp>)
    ensures Run(v, Repeat(PostOp, n) + rest) == Run(v + n, rest)
    decreases n
  {
    if n > 0 {
      var ops := Repeat(PostOp, n) + rest;
      assert ops[0] == PostOp;
      assert ops[1..] == Repeat(PostOp, n - 1) + rest;
      RunPosts(v + 1, n - 1, rest);
    } else {
      assert Repeat(PostOp, 0) + rest == rest;
    }
  }

  lemma {:induction false} RunWaits(v: int, n: nat)
    requires v >= n
    ensures Run(v, Repeat(WaitOp, n)) == Some(v - n)
    decreases n
  {
    if n > 0 {
      assert Repeat(WaitOp, n)[1..] == Repeat(WaitOp, n - 1);
      RunWaits(v - 1, n - 1);
    }
  }

  /** N posts followed by N waits never block and restore the starting value. */
  lemma PostsThenWaits(v: int, n: nat)
    requires v >= 0
    ensures Run(v, Repeat(PostOp, n) + Repeat(WaitOp, n)) == Some(v)
  {
    RunPosts(v, n, Repeat(WaitOp, n));
    RunWaits(v + n, n);
  }

  /** Performing `ops` with `post` and `wait` leaves the counter where `Run` says. */
  method Perform(s: SharedSemaphore, ops: seq<SemOp>)
    requires s.Valid() && s.attached && Run(s.value, ops).Some?
    modifies s`value
    ensures s.Valid()
    ensures s.value == Run(old(s.value), ops).value
  {
    var i := 0;
    while i < |ops|
      invariant 0 <= i <= |ops|
      invariant s.Valid()
      invariant Run(s.value, ops[i..]) == Run(old(s.value), ops)
    {
      assert ops[i..][1..] == ops[i + 1..];
      if ops[i] == PostOp {
        s.Post();
      } else {
        s.Wait();
      }
      i := i + 1;
    }
  }

  /** The semaphore tests: a creator initialised to 0, three posts, three waits: back at 0. */
  method MultiplePostsScenario(fd: nat) returns (final: int)
    ensures final == 0
  {
    var ns := new ShmNamespace(map[]);
    var fds := new Descriptors({});
    var r := SharedSemaphore.Construct(ns, fds, "/test_sem", true, 0, [], 0, ShmCalls(fd, true, true));
    var sem := r.value;
    sem.Post();
    sem.Post();
    sem.Post();
    sem.Wait();
    sem.Wait();
    sem.Wait();
    final := sem.value;
  }
}
