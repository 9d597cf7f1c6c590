/**
 * Pipe: an anonymous pipe with two independently closable ends (-1 = absent) over the
 * kernel's byte queue. `readAll` drains the queue in chunks; `write` is one `write` call.
 */
module Pipes {
  import opened Base
  import opened Kernel

  /** No descriptor. */
  const Absent: int := -1

  class Pipe {
    var fdRead: int
    var fdWrite: int
    /** Bytes written into the kernel pipe and not read yet. */
    var queue: Bytes

    constructor ()
      ensures fdRead == Absent && fdWrite == Absent && queue == []
    {
      fdRead, fdWrite, queue := Absent, Absent, [];
    }

    /**
     * `create()`: `pipe()` either fails, leaving everything as it was, or hands out two new
     * descriptors (`rd`, `wr`) for an empty kernel pipe. `O_NONBLOCK` is folded into the
     * results that later reads report.
     */
    method Create(fds: Descriptors, pipeOk: bool, rd: int, wr: int) returns (ok: bool)
      requires pipeOk ==> 0 <= rd && 0 <= wr && rd != wr && rd !in fds.open && wr !in fds.open
      modifies this, fds
      ensures ok == pipeOk
      ensures ok ==> fdRead == rd && fdWrite == wr && queue == [] && fds.open == old(fds.open) + {rd, wr}
      ensures !ok ==> unchanged(this) && unchanged(fds)
    {
      if !pipeOk {
        return false;
      }
      fdRead, fdWrite := rd, wr;
      queue := [];
      fds.open := fds.open + {rd, wr};
      ok := true;
    }

    /** `closeRead()`: release the read end if it is held; the write end is untouched. */
    method CloseRead(fds: Descriptors)
      modifies this`fdRead, fds
      ensures fdRead == Absent
      ensures fds.open == if old(fdRead) != Absent then old(fds.open) - {old(fdRead)} else old(fds.open)
    {
      if fdRead != Absent {
        fds.open := fds.open - {fdRead};
        fdRead := Absent;
      }
    }

    /** `closeWrite()`: release the write end if it is held; the read end is untouched. */
    method CloseWrite(fds: Descriptors)
      modifies this`fdWrite, fds
      ensures fdWrite == Absent
      ensures fds.open == if old(fdWrite) != Absent then old(fds.open) - {old(fdWrite)} else old(fds.open)
    {
      if fdWrite != Absent {
        fds.open := fds.open - {fdWrite};
        fdWrite := Absent;
      }
    }

    /**
     * `readAll()`: with no read end, the empty string; otherwise append chunk after chunk
     * from the queue until a `read` returns `<= 0`.
     */
    method ReadAll(results: seq<int>) returns (data: Bytes)
      requires fdRead != Absent ==> DrainScript(results, |queue|)
      modifies this`queue
      ensures fdRead == Absent ==> data == [] && queue == old(queue)
      ensures fdRead != Absent ==> data == old(queue)[..Drained(results, |old(queue)|)]
      ensures data + queue == old(queue)
    {
      data := [];
      if fdRead == Absent {
        return;
      }
      var i := 0;
      while results[i] > 0
        invariant 0 <= i < |results|
        invariant DrainScript(results[i..], |queue|)
        invariant data + queue == old(queue)
        invariant |data| + Drained(results[i..], |queue|) == Drained(results, |old(queue)|)
        decreases |queue|
      {
        var n := results[i];
        assert results[i..][1..] == results[i + 1..];
        data := data + queue[..n];
        queue := queue[n..];
        i := i + 1;
      }
    }

    /**
     * `write(data)`: a single `write` call that accepts `accepted` bytes (`<= 0`: none);
     * a partial result is not retried. Without a write end nothing happens.
     */
    method Write(data: Bytes, accepted: int)
      requires accepted <= |data|
      modifies this`queue
      ensures queue == if fdWrite != Absent && accepted > 0 then old(queue) + data[..accepted] else old(queue)
    {
      if fdWrite == Absent {
        return;
      }
      if accepted > 0 {
        queue := queue + data[..accepted];
      }
    }

    /** The destructor: release both ends. */
    method Destroy(fds: Descriptors)
      modifies this`fdRead, this`fdWrite, fds
      ensures fdRead == Absent && fdWrite == Absent
      ensures fds.open == old(fds.open) - (if old(fdRead) != Absent then {old(fdRead)} else {})
                                        - (if old(fdWrite) != Absent then {old(fdWrite)} else {})
    {
      CloseRead(fds);
      CloseWrite(fds);
    }
  }

  /** The bytes of `chunks`, one after the other. */
  function Concat(chunks: seq<Bytes>): (r: Bytes)
    decreases |chunks|
  {
    if chunks == [] then [] else Concat(chunks[..|chunks| - 1]) + chunks[|chunks| - 1]
  }

  /**
   * Writes that the kernel accepts in full, followed by `closeWrite` and a `readAll` that
   * is not cut short (`results` stops only once the pipe is empty), return everything
   * written, in order.
   */
  method WritesThenReadAll(p: Pipe, fds: Descriptors, chunks: seq<Bytes>, results: seq<int>) returns (out: Bytes)
    requires p.fdRead != Absent && p.fdWrite != Absent && p.queue == []
    requires DrainScript(results, |Concat(chunks)|) && StopsOnlyWhenEmpty(results, |Concat(chunks)|)
    modifies p, fds
    ensures out == Concat(chunks)
    ensures p.fdWrite == Absent && p.queue == []
  {
    var i := 0;
    while i < |chunks|
      invariant 0 <= i <= |chunks|
      invariant p.fdRead != Absent && p.fdWrite != Absent
      invariant p.queue == Concat(chunks[..i])
    {
      assert chunks[..i + 1][..i] == chunks[..i];
      p.Write(chunks[i], |chunks[i]|);
      assert chunks[i][..|chunks[i]|] == chunks[i];
      i := i + 1;
    }
    assert chunks[..|chunks|] == chunks;
    p.CloseWrite(fds);
    DrainedAllIff(results, |p.queue|);
    out := p.ReadAll(results);
  }

  /** The pipe tests: "A", "B", "C" written, the write end closed, and "ABC" read back. */
  method MultipleWritesScenario(rd: nat, wr: nat) returns (out: Bytes)
    requires rd != wr
    ensures out == Ascii("ABC")
  {
    var fds := new Descriptors({});
    var p := new Pipe();
    var ok := p.Create(fds, true, rd, wr);
    var chunks := [Ascii("A"), Ascii("B"), Ascii("C")];
    assert Concat(chunks) == Ascii("ABC") by {
      assert chunks[..2] == [Ascii("A"), Ascii("B")];
      assert [Ascii("A"), Ascii("B")][..1] == [Ascii("A")];
      assert [Ascii("A")][..0] == [];
    }
    var results := FullChunks(3);
    FullChunksDrainAll(3);
    DrainedAllIff(results, 3);
    out := WritesThenReadAll(p, fds, chunks, results);
  }

  /** The pipe tests: closing the write end of a fresh pipe and reading gives the empty string. */
  method EmptyAfterCloseWriteScenario(rd: nat, wr: nat, results: seq<int>) returns (out: Bytes)
    requires rd != wr && DrainScript(results, 0)
    ensures out == []
  {
    var fds := new Descriptors({});
    var p := new Pipe();
    var ok := p.Create(fds, true, rd, wr);
    p.CloseWrite(fds);
    out := p.ReadAll(results);
  }

  /** A pipe that was never created reads as the empty string and ignores writes. */
  method FreshPipeScenario(data: Bytes, accepted: int, results: seq<int>) returns (out: Bytes)
    requires accepted <= |data|
    ensures out == []
  {
    var p := new Pipe();
    p.Write(data, accepted);
    out := p.ReadAll(results);
  }
}
