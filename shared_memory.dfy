/**
 * SharedMemoryChannel: a named, fixed-size byte region with last-writer-wins contents.
 * `write` stores at most `size - 1` bytes followed by a NUL; `read` returns the bytes
 * before the first NUL. The kernel's shared-memory namespace is an explicit object.
 */
module SharedMemory {
  import opened Base
  import opened Kernel

  /** The kernel's namespace of named shared-memory objects: each name with its length in bytes. */
  class ShmNamespace {
    var segments: map<string, nat>

    constructor (initial: map<string, nat>)
      ensures segments == initial
    {
      segments := initial;
    }
  }

  /** Results the kernel gives, in order, to `shm_open` (a descriptor or -1), `ftruncate` and `mmap`. */
  datatype ShmCalls = ShmCalls(openFd: int, truncateOk: bool, mapOk: bool)

  /** Length of the segment called `n`; a name that does not exist yet is created empty by `O_CREAT`. */
  function LengthOf(segments: map<string, nat>, n: string): nat
  {
    if n in segments then segments[n] else 0
  }

  /**
   * What a mapping of `sz` bytes shows of a segment that held `existing`, once the segment is
   * at least `sz` bytes long: the old bytes where they exist, zeros where `ftruncate` grew it.
   */
  function Resized(existing: Bytes, sz: nat): (r: Bytes)
    ensures |r| == sz
    ensures forall i :: 0 <= i < sz && i < |existing| ==> r[i] == existing[i]
    ensures forall i :: |existing| <= i < sz ==> r[i] == 0
  {
    if |existing| < sz then existing + Zeros(sz - |existing|) else existing[..sz]
  }

  /** `create` maps a region: `shm_open`, `ftruncate` and `mmap` all succeed (`mmap` of 0 bytes fails). */
  predicate CreateSucceeds(calls: ShmCalls, sz: nat)
  {
    calls.openFd != -1 && calls.truncateOk && calls.mapOk && sz > 0
  }

  /** `open` maps a region: `ftruncate` is only called, and can only fail, when the segment is shorter than `sz`. */
  predicate OpenSucceeds(calls: ShmCalls, len: nat, sz: nat)
  {
    calls.openFd != -1 && (len < sz ==> calls.truncateOk) && calls.mapOk && sz > 0
  }

  /** Number of bytes `write` copies into a region of `size` bytes: `std::min(size - 1, data.size())`. */
  function CopySize(size: nat, data: Bytes): (k: nat)
    requires size >= 1
    ensures k < size && k <= |data|
    ensures k == |data| || k == size - 1
  {
    if size - 1 < |data| then size - 1 else |data|
  }

  /** The region after `write(data)`: the copied prefix, a NUL, and the old bytes beyond it. */
  function Stored(region: Bytes, data: Bytes): (r: Bytes)
    requires |region| >= 1
    ensures |r| == |region|
    ensures forall i :: 0 <= i < CopySize(|region|, data) ==> r[i] == data[i]
    ensures r[CopySize(|region|, data)] == 0
    ensures forall i :: CopySize(|region|, data) < i < |region| ==> r[i] == region[i]
  {
    var k := CopySize(|region|, data);
    data[..k] + [0] + region[k + 1..]
  }

  /** The C string a region holds: the bytes before the first NUL (all of them if there is none). */
  function UntilNul(s: Bytes): (r: Bytes)
    ensures |r| <= |s| && r == s[..|r|]
    ensures ZeroFree(r)
    ensures |r| < |s| ==> s[|r|] == 0
    decreases |s|
  {
    if s == [] || s[0] == 0 then [] else [s[0]] + UntilNul(s[1..])
  }

  class SharedMemoryChannel {
    var name: string
    var size: nat
    var fd: int
    var buffer: array?<byte>

    /** A mapped region is exactly `size` bytes long, and a non-empty mapping is the only kind `mmap` makes. */
    ghost predicate Valid()
      reads this
    {
      fd >= -1 && (buffer != null ==> buffer.Length == size && size >= 1)
    }

    constructor ()
      ensures Valid()
      ensures name == "" && size == 0 && fd == -1 && buffer == null
    {
      name, size, fd, buffer := "", 0, -1, null;
    }

    /**
     * `create(n, sz)`: `shm_open` with `O_CREAT` (an existing segment is reused, not
     * replaced), `ftruncate` to exactly `sz` bytes, then map `sz` bytes.
     */
    method Create(ns: ShmNamespace, fds: Descriptors, n: string, sz: nat, existing: Bytes, calls: ShmCalls)
      returns (ok: bool)
      requires Valid() && buffer == null
      requires |existing| == LengthOf(ns.segments, n)
      requires calls.openFd >= -1 && (calls.openFd != -1 ==> calls.openFd !in fds.open)
      modifies this, ns, fds
      ensures Valid() && name == n && size == sz && fd == calls.openFd
      ensures ok == CreateSucceeds(calls, sz)
      ensures ok ==> fresh(buffer) && buffer[..] == Resized(existing, sz)
      ensures !ok ==> buffer == null
      ensures fds.open == if calls.openFd == -1 then old(fds.open) else old(fds.open) + {calls.openFd}
      ensures ns.segments == if calls.openFd == -1 then old(ns.segments)
                             else old(ns.segments)[n := if calls.truncateOk then sz else LengthOf(old(ns.segments), n)]
    {
      name := n;
      size := sz;
      fd := calls.openFd;
      if fd == -1 {
        return false;
      }
      fds.open := fds.open + {fd};
      ns.segments := ns.segments[n := LengthOf(ns.segments, n)];
      if !calls.truncateOk {
        return false;
      }
      ns.segments := ns.segments[n := sz];
      ok := Map(existing, calls.mapOk);
    }

    /**
     * `open(n, sz)`: `shm_open` with `O_CREAT`, grow the segment to `sz` bytes only when it
     * is shorter (it is never shrunk and its contents are kept), then map `sz` bytes.
     */
    method Open(ns: ShmNamespace, fds: Descriptors, n: string, sz: nat, existing: Bytes, calls: ShmCalls)
      returns (ok: bool)
      requires Valid() && buffer == null
      requires |existing| == LengthOf(ns.segments, n)
      requires calls.openFd >= -1 && (calls.openFd != -1 ==> calls.openFd !in fds.open)
      modifies this, ns, fds
      ensures Valid() && name == n && size == sz && fd == calls.openFd
      ensures ok == OpenSucceeds(calls, |existing|, sz)
      ensures ok ==> fresh(buffer) && buffer[..] == Resized(existing, sz)
      ensures !ok ==> buffer == null
      ensures fds.open == if calls.openFd == -1 then old(fds.open) else old(fds.open) + {calls.openFd}
      ensures ns.segments == if calls.openFd == -1 then old(ns.segments)
                             else old(ns.segments)[n := if |existing| < sz && calls.truncateOk then sz else |existing|]
      ensures calls.openFd != -1 ==> LengthOf(ns.segments, n) >= LengthOf(old(ns.segments), n)
    {
      name := n;
      size := sz;
      fd := calls.openFd;
      if fd == -1 {
        return false;
      }
      fds.open := fds.open + {fd};
      ns.segments := ns.segments[n := LengthOf(ns.segments, n)];
      var len := ns.segments[n];
      if len < sz {
        if !calls.truncateOk {
          return false;
        }
        ns.segments := ns.segments[n := sz];
      }
      ok := Map(existing, calls.mapOk);
    }

    /** The `mmap` step shared by `create` and `open`; a failed mapping leaves `buffer` null. */
    method Map(existing: Bytes, mapOk: bool) returns (ok: bool)
      requires Valid() && buffer == null
      modifies this`buffer
      ensures Valid()
      ensures ok == (mapOk && size > 0)
      ensures ok ==> fresh(buffer) && buffer[..] == Resized(existing, size)
      ensures !ok ==> buffer == null
    {
      if !mapOk || size == 0 {
        return false;
      }
      var n := size;
      var content := Resized(existing, n);
      buffer := new byte[n](i requires 0 <= i < n => content[i]);
      ok := true;
    }

    /** `write(data)`: copy `min(size - 1, |data|)` bytes to offset 0 and a NUL after them. */
    method Write(data: Bytes) returns (ok: bool)
      requires Valid()
      modifies buffer
      ensures ok == (buffer != null)
      ensures buffer != null ==> buffer[..] == Stored(old(buffer[..]), data)
    {
      if buffer == null {
        return false;
      }
      ghost var before := buffer[..];
      var copySize := CopySize(size, data);
      forall i | 0 <= i < copySize {
        buffer[i] := data[i];
      }
      buffer[copySize] := 0;
      assert buffer[..] == Stored(before, data) by {
        forall i | 0 <= i < size ensures buffer[i] == Stored(before, data)[i] {
        }
      }
      ok := true;
    }

    /** `read()`: the bytes before the first NUL of the mapped region; nothing when no region is mapped. */
    function Read(): (r: Bytes)
      requires Valid()
      reads this, buffer
      ensures ZeroFree(r)
      ensures buffer == null ==> r == []
      ensures buffer != null ==> |r| <= size && r == buffer[..|r|] && (|r| < size ==> buffer[|r|] == 0)
    {
      if buffer == null then [] else UntilNul(buffer[..])
    }

    /**
     * `close()`: unmap the region, and whenever a descriptor is held, unlink the name
     * (for an opener as much as for the creator). The descriptor itself is not closed.
     */
    method Close(ns: ShmNamespace)
      requires Valid()
      modifies this, ns
      ensures Valid()
      ensures buffer == null && fd == -1 && name == old(name) && size == old(size)
      ensures ns.segments == if old(fd) != -1 then old(ns.segments) - {old(name)} else old(ns.segments)
    {
      if buffer != null {
        buffer := null;
      }
      if fd != -1 {
        ns.segments := ns.segments - {name};
        fd := -1;
      }
    }
  }
  /** A NUL right after `a` ends the C string there, whatever follows it. */
  lemma {:induction false} UntilNulStopsAtTerminator(a: Bytes, rest: Bytes)
    ensures UntilNul(a + [0] + rest) == UntilNul(a)
    decreases |a|
  {
    if a != [] && a[0] != 0 {
      assert (a + [0] + rest)[1..] == a[1..] + [0] + rest;
      UntilNulStopsAtTerminator(a[1..], rest);
    }
  }

  /** `read` after `write(data)` yields the copied bytes up to their own first NUL, if any. */
  lemma ReadAfterWrite(region: Bytes, data: Bytes)
    requires |region| >= 1
    ensures UntilNul(Stored(region, data)) == UntilNul(data[..CopySize(|region|, data)])
  {
    var k := CopySize(|region|, data);
    assert Stored(region, data) == data[..k] + [0] + region[k + 1..];
    UntilNulStopsAtTerminator(data[..k], region[k + 1..]);
  }

  /** Round trip: zero-free data that fits in `size - 1` bytes is read back exactly. */
  lemma RoundTrip(region: Bytes, data: Bytes)
    requires |region| >= 1
    requires ZeroFree(data) && |data| <= |region| - 1
    ensures UntilNul(Stored(region, data)) == data
  {
    ReadAfterWrite(region, data);
    assert data[..CopySize(|region|, data)] == data;
  }

  /** Truncation: longer zero-free data is read back as its first `size - 1` bytes. */
  lemma Truncation(region: Bytes, data: Bytes)
    requires |region| >= 1
    requires ZeroFree(data) && |data| > |region| - 1
    ensures UntilNul(Stored(region, data)) == data[..|region| - 1]
  {
    ReadAfterWrite(region, data);
    assert ZeroFree(data[..|region| - 1]);
  }

  /** Whatever was written, what `read` returns afterwards is at most `size - 1` bytes long. */
  lemma ReadAfterWriteBounded(region: Bytes, data: Bytes)
    requires |region| >= 1
    ensures |UntilNul(Stored(region, data))| <= |region| - 1
  {
    ReadAfterWrite(region, data);
  }

  /** Last writer wins: a second write hides the first, however long the first one was. */
  lemma LastWriterWins(region: Bytes, first: Bytes, second: Bytes)
    requires |region| >= 1
    requires ZeroFree(second) && |second| <= |region| - 1
    ensures UntilNul(Stored(Stored(region, first), second)) == second
  {
    RoundTrip(Stored(region, first), second);
  }

  /** A region created under a new name is all zeros, so reading it gives the empty string. */
  lemma {:induction false} CreatedRegionReadsEmpty(sz: nat)
    requires sz >= 1
    ensures UntilNul(Resized([], sz)) == []
  {
    assert Resized([], sz)[0] == 0;
  }

  /**
   * Persistence across `open`: mapping a segment whose stored C string ends within the
   * mapped size shows the same string that the last writer stored.
   */
  lemma ReopenReadsStored(region: Bytes, sz: nat)
    requires |UntilNul(region)| < |region| && |UntilNul(region)| < sz
    ensures UntilNul(Resized(region, sz)) == UntilNul(region)
  {
    var u := UntilNul(region);
    var k := |u|;
    var mapped := Resized(region, sz);
    assert mapped[..k] == u by {
      forall i | 0 <= i < k ensures mapped[i] == u[i] {
        assert u[i] == region[i];
      }
    }
    assert mapped[k] == 0;
    SplitAt(mapped, k);
    UntilNulStopsAtTerminator(u, mapped[k + 1..]);
    SplitAt(region, k);
    UntilNulStopsAtTerminator(u, region[k + 1..]);
  }

  lemma SplitAt(s: Bytes, k: nat)
    requires k < |s|
    ensures s == s[..k] + [s[k]] + s[k + 1..]
  {
  }

  /** The first scenario of the channel's own tests: create a 4096-byte segment, write "hello", read it back. */
  method CreateWriteReadScenario(fd: nat) returns (out: Bytes)
    ensures out == Ascii("hello")
  {
    var ns := new ShmNamespace(map[]);
    var fds := new Descriptors({});
    var shm := new SharedMemoryChannel();
    var ok := shm.Create(ns, fds, "/test_shm_channel", 4096, [], ShmCalls(fd, true, true));
    var hello := Ascii("hello");
    ghost var region := shm.buffer[..];
    ok := shm.Write(hello);
    RoundTrip(region, hello);
    out := shm.Read();
  }

  /** What `buffer` holds after the `mmap` call of `create`/`open`, as the source stores it. */
  datatype MappedPointer = NullPointer | MapFailedPointer | RegionPointer

  /** As written: the result of `mmap` is stored unconditionally, so a failure leaves `MAP_FAILED` behind. */
  function PointerAfterMapAsWritten(mapOk: bool): (p: MappedPointer)
    ensures p != NullPointer
    ensures p == RegionPointer <==> mapOk
  {
    if mapOk then RegionPointer else MapFailedPointer
  }

  /** The `if (!buffer)` test with which `write`, `read` and `close` decide that a region is mapped. */
  predicate PassesMappedGuard(p: MappedPointer): (passes: bool)
    ensures p == RegionPointer ==> passes
    ensures passes ==> p == RegionPointer || p == MapFailedPointer
  {
    p != NullPointer
  }

  /** After a failed `mmap`, the guard of `write`/`read` lets through a pointer that maps nothing. */
  lemma MapFailureEscapesGuard()
    ensures PassesMappedGuard(PointerAfterMapAsWritten(false))
    ensures PointerAfterMapAsWritten(false) != RegionPointer
  {
  }
}
