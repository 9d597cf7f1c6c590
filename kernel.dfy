/**
 * What the channels need from the operating system, stated abstractly: the calling
 * process's descriptor table, and the results of successive `read`/`recv` calls.
 */
module Kernel {
  import opened Base

  /** The calling process's table of open file descriptors (and socket handles). */
  class Descriptors {
    var open: set<int>

    constructor (initial: set<int>)
      ensures open == initial
    {
      open := initial;
    }
  }

  /** Size of the stack buffer that `readAll` passes to each `read`/`recv` call. */
  const ReadBufferSize: nat := 4096

  /**
   * `results` is a possible sequence of results of successive `read`/`recv` calls on a
   * stream whose kernel buffer holds `avail` bytes: a positive result never exceeds the
   * buffer size or what is available, and sooner or later a call returns `<= 0` (end of
   * stream, `EAGAIN` on a non-blocking descriptor, or an error). Results after that
   * call are never consulted.
   */
  predicate DrainScript(results: seq<int>, avail: nat)
    decreases |results|
  {
    && |results| > 0
    && (results[0] > 0 ==>
          && results[0] <= ReadBufferSize
          && results[0] <= avail
          && DrainScript(results[1..], avail - results[0]))
  }

  /** Number of bytes a draining loop obtains before the first result `<= 0`. */
  function Drained(results: seq<int>, avail: nat): (n: nat)
    requires DrainScript(results, avail)
    ensures n <= avail
    decreases |results|
  {
    if results[0] <= 0 then 0 else results[0] + Drained(results[1..], avail - results[0])
  }

  /**
   * The script stops only once nothing is left: the first non-positive result comes
   * when the kernel buffer is empty (the writer has closed its end, or no more data).
   */
  predicate StopsOnlyWhenEmpty(results: seq<int>, avail: nat)
    requires DrainScript(results, avail)
    decreases |results|
  {
    if results[0] <= 0 then avail == 0 else StopsOnlyWhenEmpty(results[1..], avail - results[0])
  }

  /** A draining loop obtains everything exactly when it is never cut short before the end. */
  lemma {:induction false} DrainedAllIff(results: seq<int>, avail: nat)
    requires DrainScript(results, avail)
    ensures Drained(results, avail) == avail <==> StopsOnlyWhenEmpty(results, avail)
    decreases |results|
  {
    if results[0] > 0 {
      DrainedAllIff(results[1..], avail - results[0]);
    }
  }

  /** Whatever is available, the kernel can deliver it all in full-buffer chunks and then report the end. */
  lemma {:induction false} FullChunksDrainAll(avail: nat)
    ensures DrainScript(FullChunks(avail), avail)
    ensures Drained(FullChunks(avail), avail) == avail
    decreases avail
  {
    if avail > 0 {
      var n := if avail < ReadBufferSize then avail else ReadBufferSize;
      FullChunksDrainAll(avail - n);
      assert FullChunks(avail)[1..] == FullChunks(avail - n);
    }
  }

  /** The results of reading `avail` bytes through a `ReadBufferSize` buffer, then end of stream. */
  function FullChunks(avail: nat): (results: seq<int>)
    decreases avail
  {
    if avail == 0 then [0]
    else
      var n := if avail < ReadBufferSize then avail else ReadBufferSize;
      [n] + FullChunks(avail - n)
  }
}
