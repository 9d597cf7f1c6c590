/**
 * Process (pipe mode): the bookkeeping of launching a child with its standard streams
 * wired to three pipes. `start` creates the pipes, forks, and keeps in the parent only
 * the stdin write end and the stdout/stderr read ends; `wait` decodes the child's wait
 * status; the stream operations delegate to the pipes; `terminate` kills a started child.
 * The argv handed to `execvp` and the Windows command line are modelled as data.
 */
module Processes {
  import opened Base
  import opened Kernel
  import opened Pipes

  // ----- the argv vector -----

  predicate NoNul(s: string)
  {
    forall i :: 0 <= i < |s| ==> s[i] != '\0'
  }

  /** The C string a `c_str()` pointer denotes: the characters of `s` before its first NUL. */
  function CString(s: string): (r: string)
    ensures |r| <= |s| && r == s[..|r|]
    ensures NoNul(r)
    ensures |r| < |s| ==> s[|r|] == '\0'
    decreases |s|
  {
    if s == [] || s[0] == '\0' then [] else [s[0]] + CString(s[1..])
  }

  /** A NUL-free string is seen whole through its `c_str()` pointer. */
  lemma CStringOfNulFree(s: string)
    requires NoNul(s)
    ensures CString(s) == s
  {
  }

  /** A NUL right after a NUL-free prefix ends the C string there, whatever follows it. */
  lemma {:induction false} CStringStopsAtNul(a: string, rest: string)
    requires NoNul(a)
    ensures CString(a + "\0" + rest) == a
    decreases |a|
  {
    if a == [] {
      assert a + "\0" + rest == "\0" + rest;
    } else {
      assert (a + "\0" + rest)[0] == a[0];
      assert (a + "\0" + rest)[1..] == a[1..] + "\0" + rest;
      CStringStopsAtNul(a[1..], rest);
      assert [a[0]] + a[1..] == a;
    }
  }

  /** The C strings of a sequence of `c_str()` pointers, one by one. */
  function CStrings(ss: seq<string>): (r: seq<string>)
    ensures |r| == |ss|
    ensures forall i :: 0 <= i < |ss| ==> r[i] == CString(ss[i])
  {
    seq(|ss|, i requires 0 <= i < |ss| => CString(ss[i]))
  }

  lemma CStringsOfNulFree(ss: seq<string>)
    requires forall k :: 0 <= k < |ss| ==> NoNul(ss[k])
    ensures CStrings(ss) == ss
  {
    forall k | 0 <= k < |ss|
      ensures CStrings(ss)[k] == ss[k]
    {
      CStringOfNulFree(ss[k]);
    }
  }

  /** An entry of a `char*` vector: a pointer to the characters of a string, or the null pointer that ends the vector. */
  datatype CStr = Null | Str(s: string)

  /** What `execvp` reads from a vector: the C strings of the entries before the first null pointer. */
  function UntilNull(argv: seq<CStr>): (r: seq<string>)
    ensures |r| <= |argv|
    ensures forall i :: 0 <= i < |r| ==> argv[i].Str? && r[i] == CString(argv[i].s)
    ensures |r| < |argv| ==> argv[|r|] == Null
    decreases |argv|
  {
    if argv == [] || argv[0].Null? then [] else [CString(argv[0].s)] + UntilNull(argv[1..])
  }

  predicate NoNull(argv: seq<CStr>)
  {
    forall i :: 0 <= i < |argv| ==> argv[i].Str?
  }

  /** Appending to a vector without a null pointer extends what `execvp` reads; appending a null ends it. */
  lemma {:induction false} UntilNullAppend(argv: seq<CStr>, e: CStr)
    requires NoNull(argv)
    ensures UntilNull(argv + [e]) == UntilNull(argv) + (if e.Str? then [CString(e.s)] else [])
    decreases |argv|
  {
    if argv == [] {
      assert argv + [e] == [e];
    } else {
      assert (argv + [e])[1..] == argv[1..] + [e];
      UntilNullAppend(argv[1..], e);
    }
  }

  /**
   * The vector the child builds before `execvp`: the `c_str()` of the executable, then
   * of each argument in order (pushed back one by one), then the null pointer. `execvp`
   * reads each string only up to its first NUL.
   */
  method ExecArgv(executable: string, arguments: seq<string>) returns (argv: seq<CStr>)
    ensures |argv| == |arguments| + 2
    ensures argv[0] == Str(executable) && argv[|argv| - 1] == Null
    ensures forall i :: 0 <= i < |arguments| ==> argv[i + 1] == Str(arguments[i])
    ensures NoNull(argv[..|argv| - 1])
    ensures UntilNull(argv) == [CString(executable)] + CStrings(arguments)
    ensures NoNul(executable) && (forall k :: 0 <= k < |arguments| ==> NoNul(arguments[k])) ==>
              UntilNull(argv) == [executable] + arguments
  {
    argv := [];
    UntilNullAppend(argv, Str(executable));
    argv := argv + [Str(executable)];
    var i := 0;
    while i < |arguments|
      invariant 0 <= i <= |arguments|
      invariant |argv| == i + 1 && argv[0] == Str(executable)
      invariant forall k :: 0 <= k < i ==> argv[k + 1] == Str(arguments[k])
      invariant NoNull(argv)
      invariant UntilNull(argv) == [CString(executable)] + CStrings(arguments[..i])
    {
      UntilNullAppend(argv, Str(arguments[i]));
      assert CStrings(arguments[..i + 1]) == CStrings(arguments[..i]) + [CString(arguments[i])];
      argv := argv + [Str(arguments[i])];
      i := i + 1;
    }
    assert arguments[..i] == arguments;
    UntilNullAppend(argv, Null);
    assert (argv + [Null])[..|argv|] == argv;
    argv := argv + [Null];
    if NoNul(executable) && (forall k :: 0 <= k < |arguments| ==> NoNul(arguments[k])) {
      CStringOfNulFree(executable);
      CStringsOfNulFree(arguments);
    }
  }

  // ----- the Windows command line -----

  /** `" " + a` for each argument, in order, with no quoting. */
  function Tail(arguments: seq<string>): string
    decreases |arguments|
  {
    if arguments == [] then "" else " " + arguments[0] + Tail(arguments[1..])
  }

  /** The command line handed to `CreateProcessA`: the quoted executable, then the unquoted arguments. */
  function CommandLine(executable: string, arguments: seq<string>): (line: string)
    ensures |line| >= |executable| + 2 && line[..|executable| + 2] == "\"" + executable + "\""
    ensures arguments == [] ==> |line| == |executable| + 2
    ensures arguments != [] ==> |line| > |executable| + 2 && line[|executable| + 2] == ' '
  {
    "\"" + executable + "\"" + Tail(arguments)
  }

  /** The stream insertion loop adds one argument at a time to the end of the line. */
  lemma {:induction false} CommandLineAppend(executable: string, arguments: seq<string>, a: string)
    ensures CommandLine(executable, arguments + [a]) == CommandLine(executable, arguments) + " " + a
  {
    TailAppend(arguments, a);
  }

  lemma {:induction false} TailAppend(arguments: seq<string>, a: string)
    ensures Tail(arguments + [a]) == Tail(arguments) + " " + a
    decreases |arguments|
  {
    if arguments == [] {
      assert arguments + [a] == [a];
      assert [a][1..] == [];
    } else {
      assert (arguments + [a])[1..] == arguments[1..] + [a];
      TailAppend(arguments[1..], a);
    }
  }

  predicate NoSpace(s: string)
  {
    forall i :: 0 <= i < |s| ==> s[i] != ' '
  }

  predicate NoQuote(s: string)
  {
    forall i :: 0 <= i < |s| ==> s[i] != '\"'
  }

  /** The characters of `s` before the first space, and the rest of `s` from that space on. */
  function TakeWord(s: string): (r: (string, string))
    ensures r.0 + r.1 == s && NoSpace(r.0) && (r.1 != [] ==> r.1[0] == ' ')
    decreases |s|
  {
    if s == [] || s[0] == ' ' then ("", s)
    else var (w, rest) := TakeWord(s[1..]); ([s[0]] + w, rest)
  }

  /** Split `" a1 a2 ..."` back into the words `a1, a2, ...`; `None` if it does not start with a space. */
  function Words(s: string): Option<seq<string>>
    decreases |s|
  {
    if s == [] then Some([])
    else if s[0] != ' ' then None
    else
      var (w, rest) := TakeWord(s[1..]);
      match Words(rest)
      case None => None
      case Some(ws) => Some([w] + ws)
  }

  /** The characters of `s` before the first double quote, and what follows that quote. */
  function TakeQuoted(s: string): Option<(string, string)>
    decreases |s|
  {
    if s == [] then None
    else if s[0] == '\"' then Some(("", s[1..]))
    else match TakeQuoted(s[1..])
      case None => None
      case Some((w, rest)) => Some(([s[0]] + w, rest))
  }

  datatype Command = Command(executable: string, arguments: seq<string>)

  /** How a receiver splits a command line: a quoted program name, then space-separated words. */
  function ParseCommandLine(line: string): Option<Command>
  {
    if line == [] || line[0] != '\"' then None
    else match TakeQuoted(line[1..])
      case None => None
      case Some((exe, rest)) =>
        match Words(rest)
        case None => None
        case Some(ws) => Some(Command(exe, ws))
  }

  lemma {:induction false} TakeWordOf(w: string, rest: string)
    requires NoSpace(w) && (rest == [] || rest[0] == ' ')
    ensures TakeWord(w + rest) == (w, rest)
    decreases |w|
  {
    if w == [] {
      assert w + rest == rest;
    } else {
      assert (w + rest)[0] == w[0];
      assert (w + rest)[1..] == w[1..] + rest;
      TakeWordOf(w[1..], rest);
      assert [w[0]] + w[1..] == w;
    }
  }

  lemma {:induction false} WordsOfTail(arguments: seq<string>)
    requires forall k :: 0 <= k < |arguments| ==> NoSpace(arguments[k])
    ensures Words(Tail(arguments)) == Some(arguments)
    decreases |arguments|
  {
    if arguments != [] {
      var t := Tail(arguments[1..]);
      assert t == [] || t[0] == ' ';
      var s := " " + arguments[0] + t;
      assert s == Tail(arguments);
      assert s[1..] == arguments[0] + t;
      TakeWordOf(arguments[0], t);
      WordsOfTail(arguments[1..]);
      assert [arguments[0]] + arguments[1..] == arguments;
    }
  }

  lemma {:induction false} TakeQuotedOf(exe: string, rest: string)
    requires NoQuote(exe)
    ensures TakeQuoted(exe + "\"" + rest) == Some((exe, rest))
    decreases |exe|
  {
    if exe == [] {
      assert exe + "\"" + rest == "\"" + rest;
    } else {
      assert (exe + "\"" + rest)[0] == exe[0];
      assert (exe + "\"" + rest)[1..] == exe[1..] + "\"" + rest;
      TakeQuotedOf(exe[1..], rest);
      assert [exe[0]] + exe[1..] == exe;
    }
  }

  /**
   * When the program name has no double quote and no argument has a space, the receiver
   * recovers exactly the program name and the arguments from the command line.
   */
  lemma CommandLineRoundTrip(executable: string, arguments: seq<string>)
    requires NoQuote(executable)
    requires forall k :: 0 <= k < |arguments| ==> NoSpace(arguments[k])
    ensures ParseCommandLine(CommandLine(executable, arguments)) == Some(Command(executable, arguments))
  {
    var line := CommandLine(executable, arguments);
    assert line[1..] == executable + "\"" + Tail(arguments);
    TakeQuotedOf(executable, Tail(arguments));
    WordsOfTail(arguments);
  }

  /**
   * Arguments are not quoted: an argument holding a space gives the same command line as
   * the two arguments on either side of it, so the receiver cannot tell them apart.
   */
  lemma SpaceInArgumentIsAmbiguous(executable: string, a: string, b: string)
    ensures CommandLine(executable, [a + " " + b]) == CommandLine(executable, [a, b])
    ensures [a + " " + b] != [a, b]
  {
    assert [a + " " + b][1..] == [];
    assert [a, b][1..] == [b];
    assert [b][1..] == [];
    assert Tail([a + " " + b]) == " " + (a + " " + b);
    assert Tail([a, b]) == " " + a + (" " + b);
    assert " " + (a + " " + b) == " " + a + (" " + b);
  }

  lemma {:induction false} TailNulFree(arguments: seq<string>)
    requires forall k :: 0 <= k < |arguments| ==> NoNul(arguments[k])
    ensures NoNul(Tail(arguments))
    decreases |arguments|
  {
    if arguments != [] {
      TailNulFree(arguments[1..]);
      var t := Tail(arguments[1..]);
      assert Tail(arguments) == " " + arguments[0] + t;
      assert NoNul(arguments[0]);
      forall i | 0 <= i < |Tail(arguments)|
        ensures Tail(arguments)[i] != '\0'
      {
        if i == 0 {
        } else if i < 1 + |arguments[0]| {
          assert Tail(arguments)[i] == arguments[0][i - 1];
        } else {
          assert Tail(arguments)[i] == t[i - 1 - |arguments[0]|];
        }
      }
    }
  }

  /**
   * `CreateProcessA` receives the line through `c_str()`. Without a NUL in the program
   * name or in any argument, it receives the whole command line.
   */
  lemma CommandLinePassedWhole(executable: string, arguments: seq<string>)
    requires NoNul(executable)
    requires forall k :: 0 <= k < |arguments| ==> NoNul(arguments[k])
    ensures CString(CommandLine(executable, arguments)) == CommandLine(executable, arguments)
  {
    TailNulFree(arguments);
    var line := CommandLine(executable, arguments);
    forall i | 0 <= i < |line|
      ensures line[i] != '\0'
    {
      if 1 <= i <= |executable| {
        assert line[i] == executable[i - 1];
      } else if i > |executable| + 1 {
        assert line[i] == Tail(arguments)[i - |executable| - 2];
      }
    }
    CStringOfNulFree(line);
  }

  /** A NUL inside an argument cuts the command line that `CreateProcessA` receives there. */
  lemma NulInArgumentCutsCommandLine(executable: string, a: string, b: string)
    requires NoNul(executable) && NoNul(a)
    ensures CString(CommandLine(executable, [a + "\0" + b])) == CommandLine(executable, [a])
  {
    CommandLinePassedWhole(executable, [a]);
    assert [a + "\0" + b][1..] == [];
    assert [a][1..] == [];
    assert Tail([a + "\0" + b]) == " " + (a + "\0" + b);
    assert Tail([a]) == " " + a;
    assert "\"" + executable + "\"" + (" " + (a + "\0" + b)) == "\"" + executable + "\"" + (" " + a) + "\0" + b;
    CStringStopsAtNul(CommandLine(executable, [a]), b);
  }

  // ----- wait statuses -----

  /** How a child ends: it exits with a code, or a signal kills it (perhaps dumping core). */
  datatype Termination = Exited(code: int) | Signalled(signal: int, core: bool)

  predicate ValidTermination(t: Termination)
  {
    match t
    case Exited(code) => 0 <= code < 256
    case Signalled(signal, _) => 1 <= signal < 127
  }

  /** The child side of `start` after `fork`: if `execvp` fails the child calls `_exit(127)`. */
  function ChildTermination(execOk: bool, program: Termination): (t: Termination)
    ensures ValidTermination(program) ==> ValidTermination(t)
    ensures !execOk ==> t == Exited(127)
    ensures execOk ==> t == program
  {
    if execOk then program else Exited(127)
  }

  /** The status word `waitpid` stores, in the Linux layout: the exit code in bits 8-15, or the signal in bits 0-6 with the core flag in bit 7. */
  function RawStatus(t: Termination): (raw: nat)
    requires ValidTermination(t)
    ensures raw < 0x1_0000
  {
    match t
    case Exited(code) => code * 256
    case Signalled(signal, core) => signal + (if core then 128 else 0)
  }

  /** `WIFEXITED(status) ? WEXITSTATUS(status) : -1`. */
  function DecodeStatus(raw: nat): (code: int)
    ensures code == -1 || 0 <= code < 256
    ensures raw < 0x1_0000 && raw % 128 == 0 ==> code == raw / 256
    ensures raw % 128 != 0 ==> code == -1
  {
    if raw % 128 == 0 then (raw / 256) % 256 else -1
  }

  /** Decoding undoes the layout: the exit code of an exited child, -1 for a signalled one. */
  lemma DecodeRawStatus(t: Termination)
    requires ValidTermination(t)
    ensures DecodeStatus(RawStatus(t)) == if t.Exited? then t.code else -1
  {
    match t
    case Exited(code) =>
      assert code * 256 == (code * 2) * 128;
      assert (code * 256) / 256 == code;
    case Signalled(signal, core) =>
      assert RawStatus(t) % 128 == signal;
  }

  /** Different endings give different status words. */
  lemma RawStatusInjective(t: Termination, u: Termination)
    requires ValidTermination(t) && ValidTermination(u)
    requires RawStatus(t) == RawStatus(u)
    ensures t == u
  {
    DecodeRawStatus(t);
    DecodeRawStatus(u);
    match t
    case Exited(_) =>
    case Signalled(signal, core) =>
      var r := RawStatus(t);
      assert r % 128 == signal && r / 128 == (if core then 1 else 0);
      assert u.Signalled?;
      assert u.signal == r % 128 && u.core == (r / 128 == 1);
  }

  /**
   * `wait` as written: `status` starts at 0 and only a successful `waitpid` overwrites it,
   * so a failed `waitpid` decodes as a normal exit with code 0.
   */
  function WaitAsWritten(waitOk: bool, child: Termination): (code: int)
    requires ValidTermination(child)
    ensures waitOk ==> code == if child.Exited? then child.code else -1
    ensures !waitOk ==> code == 0
  {
    DecodeRawStatus(child);
    DecodeStatus(if waitOk then RawStatus(child) else 0)
  }

  /** A failed `waitpid` cannot be told apart from a child that exited with 0. */
  lemma WaitFailureReadsAsCleanExit(child: Termination)
    requires ValidTermination(child)
    ensures WaitAsWritten(false, child) == 0
    ensures WaitAsWritten(false, child) == WaitAsWritten(true, Exited(0))
  {
    assert RawStatus(Exited(0)) == 0;
  }

  // ----- the process object -----

  /** How `start` ends: it returns true, or throws because a pipe or `fork` failed. */
  datatype StartResult = Started | PipeCreationFailed | ForkFailed

  /** The result of one `pipe()` call: success, and the read and write descriptors it hands out. */
  datatype PipeCall = PipeCall(ok: bool, readFd: int, writeFd: int)

  function Ends(c: PipeCall): set<int>
  {
    if c.ok then {c.readFd, c.writeFd} else {}
  }

  /** A successful `pipe()` hands out two new, distinct descriptors. */
  predicate FreshCall(c: PipeCall, open: set<int>)
  {
    c.ok ==> 0 <= c.readFd && 0 <= c.writeFd && c.readFd != c.writeFd && c.readFd !in open && c.writeFd !in open
  }

  /** The three `pipe()` calls of `start`, each handing out descriptors not open before it. */
  predicate FreshCalls(open: set<int>, inCall: PipeCall, outCall: PipeCall, errCall: PipeCall)
  {
    && FreshCall(inCall, open)
    && FreshCall(outCall, open + Ends(inCall))
    && FreshCall(errCall, open + Ends(inCall) + Ends(outCall))
  }

  function StartOutcome(inOk: bool, outOk: bool, errOk: bool, forkResult: int): StartResult
  {
    if !inOk || !outOk || !errOk then PipeCreationFailed
    else if forkResult < 0 then ForkFailed
    else Started
  }

  class Process {
    const executable: string
    const arguments: seq<string>
    /** The child's pid; -1 until `start` stores the result of `fork`. */
    var pid: int
    const stdinPipe: Pipe
    const stdoutPipe: Pipe
    const stderrPipe: Pipe

    /** The three pipes are separate members. */
    ghost predicate Valid()
    {
      stdinPipe != stdoutPipe && stdinPipe != stderrPipe && stdoutPipe != stderrPipe
    }

    constructor (path: string, args: seq<string>)
      ensures Valid() && executable == path && arguments == args && pid == -1
      ensures fresh(stdinPipe) && fresh(stdoutPipe) && fresh(stderrPipe)
      ensures stdinPipe.fdRead == Absent && stdinPipe.fdWrite == Absent && stdinPipe.queue == []
      ensures stdoutPipe.fdRead == Absent && stdoutPipe.fdWrite == Absent && stdoutPipe.queue == []
      ensures stderrPipe.fdRead == Absent && stderrPipe.fdWrite == Absent && stderrPipe.queue == []
    {
      executable, arguments, pid := path, args, -1;
      stdinPipe := new Pipe();
      stdoutPipe := new Pipe();
      stderrPipe := new Pipe();
    }

    /**
     * `start()` in the parent. The pipes are created stdin, stdout, stderr, and the first
     * failure stops the chain (`||` short-circuits), so later pipes are not created.
     * `fork`'s result is stored in `pid` before it is checked. On success the parent
     * closes the stdout and stderr write ends and the stdin read end. `forkResult` is what
     * `fork` returns in the parent: -1 or the child's pid.
     */
    method Start(fds: Descriptors, inCall: PipeCall, outCall: PipeCall, errCall: PipeCall, forkResult: int)
      returns (r: StartResult)
      requires Valid()
      requires FreshCalls(fds.open, inCall, outCall, errCall)
      requires forkResult == -1 || forkResult > 0
      modifies this, stdinPipe, stdoutPipe, stderrPipe, fds
      ensures r == StartOutcome(inCall.ok, outCall.ok, errCall.ok, forkResult)
      ensures pid == if r == PipeCreationFailed then old(pid) else forkResult
      ensures !inCall.ok ==> unchanged(stdinPipe)
      ensures inCall.ok ==>
                stdinPipe.queue == [] && stdinPipe.fdWrite == inCall.writeFd &&
                stdinPipe.fdRead == (if r == Started then Absent else inCall.readFd)
      ensures !(inCall.ok && outCall.ok) ==> unchanged(stdoutPipe)
      ensures inCall.ok && outCall.ok ==>
                stdoutPipe.queue == [] && stdoutPipe.fdRead == outCall.readFd &&
                stdoutPipe.fdWrite == (if r == Started then Absent else outCall.writeFd)
      ensures !(inCall.ok && outCall.ok && errCall.ok) ==> unchanged(stderrPipe)
      ensures inCall.ok && outCall.ok && errCall.ok ==>
                stderrPipe.queue == [] && stderrPipe.fdRead == errCall.readFd &&
                stderrPipe.fdWrite == (if r == Started then Absent else errCall.writeFd)
      ensures r == Started ==> fds.open == old(fds.open) + {inCall.writeFd, outCall.readFd, errCall.readFd}
      ensures r == ForkFailed ==> fds.open == old(fds.open) + Ends(inCall) + Ends(outCall) + Ends(errCall)
      ensures r == PipeCreationFailed ==>
                fds.open == old(fds.open) + Ends(inCall) + (if inCall.ok then Ends(outCall) else {})
    {
      var ok := stdinPipe.Create(fds, inCall.ok, inCall.readFd, inCall.writeFd);
      if !ok {
        return PipeCreationFailed;
      }
      ok := stdoutPipe.Create(fds, outCall.ok, outCall.readFd, outCall.writeFd);
      if !ok {
        return PipeCreationFailed;
      }
      ok := stderrPipe.Create(fds, errCall.ok, errCall.readFd, errCall.writeFd);
      if !ok {
        return PipeCreationFailed;
      }
      pid := forkResult;
      if pid < 0 {
        return ForkFailed;
      }
      stdoutPipe.CloseWrite(fds);
      stderrPipe.CloseWrite(fds);
      stdinPipe.CloseRead(fds);
      r := Started;
    }

    /**
     * `wait()`: reap the child and decode its status. `waitOk` is whether `waitpid`
     * succeeds and `child` how the child ended. A failed `waitpid` gives -1 here (see
     * `WaitAsWritten` for the code as written).
     */
    method Wait(waitOk: bool, child: Termination) returns (code: int)
      requires ValidTermination(child)
      ensures code == if waitOk && child.Exited? then child.code else -1
    {
      DecodeRawStatus(child);
      code := if waitOk then DecodeStatus(RawStatus(child)) else -1;
    }

    /** `writeStdin(input)`: the stdin pipe's `write`. */
    method WriteStdin(data: Bytes, accepted: int)
      requires accepted <= |data|
      modifies stdinPipe`queue
      ensures stdinPipe.queue ==
                if stdinPipe.fdWrite != Absent && accepted > 0 then old(stdinPipe.queue) + data[..accepted]
                else old(stdinPipe.queue)
    {
      stdinPipe.Write(data, accepted);
    }

    /** `closeStdin()`: the stdin pipe's `closeWrite`. */
    method CloseStdin(fds: Descriptors)
      modifies stdinPipe`fdWrite, fds
      ensures stdinPipe.fdWrite == Absent
      ensures fds.open == if old(stdinPipe.fdWrite) != Absent then old(fds.open) - {old(stdinPipe.fdWrite)} else old(fds.open)
    {
      stdinPipe.CloseWrite(fds);
    }

    /** `readStdout()`: the stdout pipe's `readAll`. */
    method ReadStdout(results: seq<int>) returns (data: Bytes)
      requires stdoutPipe.fdRead != Absent ==> DrainScript(results, |stdoutPipe.queue|)
      modifies stdoutPipe`queue
      ensures stdoutPipe.fdRead == Absent ==> data == [] && stdoutPipe.queue == old(stdoutPipe.queue)
      ensures stdoutPipe.fdRead != Absent ==> data == old(stdoutPipe.queue)[..Drained(results, |old(stdoutPipe.queue)|)]
      ensures data + stdoutPipe.queue == old(stdoutPipe.queue)
    {
      data := stdoutPipe.ReadAll(results);
    }

    /** `readStderr()`: the stderr pipe's `readAll`. */
    method ReadStderr(results: seq<int>) returns (data: Bytes)
      requires stderrPipe.fdRead != Absent ==> DrainScript(results, |stderrPipe.queue|)
      modifies stderrPipe`queue
      ensures stderrPipe.fdRead == Absent ==> data == [] && stderrPipe.queue == old(stderrPipe.queue)
      ensures stderrPipe.fdRead != Absent ==> data == old(stderrPipe.queue)[..Drained(results, |old(stderrPipe.queue)|)]
      ensures data + stderrPipe.queue == old(stderrPipe.queue)
    {
      data := stderrPipe.ReadAll(results);
    }

    /** `terminate()`: send `SIGKILL` to the child, only when there is one (`pid > 0`); `killSent` reports the `kill` call. */
    method Terminate() returns (killSent: bool)
      ensures killSent <==> pid > 0
    {
      killSent := pid > 0;
    }
  }

  /** After `closeStdin`, `writeStdin` adds nothing to the child's input. */
  method WriteAfterCloseStdin(p: Process, fds: Descriptors, data: Bytes, accepted: int)
    requires p.Valid() && accepted <= |data|
    modifies p.stdinPipe, fds
    ensures p.stdinPipe.queue == old(p.stdinPipe.queue) && p.stdinPipe.fdWrite == Absent
  {
    p.CloseStdin(fds);
    p.WriteStdin(data, accepted);
  }

  /** A process that was never started sends no kill. */
  method UnstartedTerminateScenario(path: string, args: seq<string>) returns (killSent: bool)
    ensures !killSent
  {
    var p := new Process(path, args);
    killSent := p.Terminate();
  }

  /**
   * The process tests: a program that cannot be executed is still started (the failure
   * happens in the child, after `fork` succeeded), and `wait` returns 127.
   */
  method LaunchFailureScenario(rd: nat, program: Termination, childPid: nat) returns (r: StartResult, code: int)
    requires ValidTermination(program) && childPid > 0
    ensures r == Started && code == 127
  {
    var fds := new Descriptors({});
    var p := new Process("/bin/nonexistentcmd", []);
    r := p.Start(fds, PipeCall(true, rd, rd + 1), PipeCall(true, rd + 2, rd + 3), PipeCall(true, rd + 4, rd + 5), childPid);
    code := p.Wait(true, ChildTermination(false, program));
  }

  /** The process tests: `cat` fed two writes on stdin, then `closeStdin`, holds both in order. */
  method CatInputScenario(rd: nat, childPid: nat) returns (input: Bytes)
    requires childPid > 0
    ensures input == Ascii("Line1\nLine2\n") + Ascii("Line3\n")
  {
    var fds := new Descriptors({});
    var p := new Process("/bin/cat", []);
    var r := p.Start(fds, PipeCall(true, rd, rd + 1), PipeCall(true, rd + 2, rd + 3), PipeCall(true, rd + 4, rd + 5), childPid);
    var first := Ascii("Line1\nLine2\n");
    var second := Ascii("Line3\n");
    p.WriteStdin(first, |first|);
    p.WriteStdin(second, |second|);
    p.CloseStdin(fds);
    assert first[..|first|] == first && second[..|second|] == second;
    input := p.stdinPipe.queue;
  }
}
