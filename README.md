# OS-project IPC library: a Dafny model

This project models the core of a small C++ library for launching a child process and
talking to it. The model covers these parts:

- **SharedMemoryChannel**: a named, fixed-size region. `write` stores a NUL-terminated
  string of at most `size - 1` bytes. `read` returns the bytes before the first NUL.
- **Pipe**: an anonymous pipe whose two ends close independently. `readAll` drains the
  pipe in 4096-byte chunks. `write` makes one `write` call.
- **SocketChannel**: a single-owner socket handle, Unix-domain or IPv4. It has move
  semantics and an idempotent `close`. `bindAndListen` and `connectTo` choose their
  address by socket type. `readAll` drains the socket. `write` retries short sends.
- **SharedSemaphore**: a counting semaphore whose record lives in a one-page
  shared-memory segment. It is modelled as its counter.
- **Process** in pipe mode:
  - the argv vector and the Windows command line;
  - which pipe ends the parent keeps after `start`;
  - decoding the wait status;
  - delegating the stream operations to the pipes;
  - the `pid > 0` guard of `terminate`.

The operating system appears only through explicit values:

- **Descriptor table.** `Kernel.Descriptors` holds the calling process's open
  descriptors. Every create, accept and close adds or removes entries, so ownership and
  leaks are visible.
- **Shared-memory namespace.** `SharedMemory.ShmNamespace` maps each segment name to
  its length.
- **System call results.** `pipe`, `socket`, `accept`, `shm_open`, `ftruncate`, `mmap`,
  `fork`, `execvp`, `waitpid`, `bind`, `listen`, `connect` and `inet_pton` become
  parameters: a success flag or the descriptor returned.
- **Chunked reads and sends.** These are scripts of results:
  - `Kernel.DrainScript` holds successive `read`/`recv` results;
  - `Sockets.SendScript` holds successive `send` results.

Modules:

- `Base` (bytes, options)
- `Kernel` (descriptor table, draining reads)
- `SharedMemory` (shared_memory.dfy)
- `Pipes` (pipe.dfy)
- `Sockets` (socket_channel.dfy)
- `Semaphores` (shared_semaphore.dfy)
- `Processes` (process.dfy)

The model follows what the code does, also where that may be unexpected:

- `create` on a name that already exists reuses the segment, because `shm_open` is
  called with `O_CREAT` but without `O_EXCL`. Its old bytes stay visible. They are not
  zero-initialised.
- `close` of a shared-memory channel unlinks the name whenever a descriptor is held,
  for an opener as well as for the creator. The descriptor itself is never closed.
- Pipe `write` is a single `write` call, and a short write is not retried.
- Both pipe ends are `O_NONBLOCK`, so `readAll` can stop early at `EAGAIN` before the
  writer closes. The draining-read script allows a non-positive result at any point.
  `Kernel.DrainedAllIff` states exactly when a read obtains everything.
- `acceptClient` has no timeout.
- Windows command-line arguments are not quoted. `Processes.SpaceInArgumentIsAmbiguous`
  shows the consequence.

Apart from what "## Left out" lists, the model departs from the code only for the two
bugs listed under "Findings". There the members the rest of the model uses give the
corrected behaviour, and separate members state the code as written:

- A failed `waitpid` makes the code's `wait` return 0, not a failure code.
  `Processes.WaitAsWritten` states that, and `Processes.WaitFailureReadsAsCleanExit` shows
  that the failure reads as a clean exit. `Processes.Process.Wait` returns -1 instead.
- A failed `mmap` leaves `MAP_FAILED` in `buffer`. `SharedMemory.PointerAfterMapAsWritten`
  states that, and `SharedMemory.MapFailureEscapesGuard` shows that the `!buffer` guards let
  it through. `SharedMemory.SharedMemoryChannel.Map`, and so `Create` and `Open`, leave no
  mapping instead.

## Model

| member | source | states |
|---|---|---|
| Kernel.Drained | Process-dir/src/Pipe.cpp:86-87 | the number of bytes the chunked read loop obtains before the first result `<= 0` never exceeds what is available |
| Kernel.DrainedAllIff | Process-dir/src/Pipe.cpp:84-87 | a chunked read obtains every available byte iff its first non-positive result comes only once the buffer is empty |
| Kernel.FullChunksDrainAll | Process-dir/src/Pipe.cpp:84-87 | whatever is available can be delivered in chunks of at most 4096 bytes followed by end of stream, and the read loop then obtains all of it |
| SharedMemory.Resized | Process-dir/src/SharedMemoryChannel.cpp:36-45 | a mapping of `sz` bytes shows the segment's old bytes where they exist and zeros where `ftruncate` grew it |
| SharedMemory.CopySize | Process-dir/src/SharedMemoryChannel.cpp:57 | `write` copies fewer bytes than the region holds and no more than the data has, and copies either all of the data or exactly `size - 1` bytes |
| SharedMemory.Stored | Process-dir/src/SharedMemoryChannel.cpp:57-60 | after `write` the copied prefix equals the data, a NUL sits at index `copySize` and every byte beyond it is unchanged |
| SharedMemory.UntilNul | Process-dir/src/SharedMemoryChannel.cpp:67 | the C-string view is a NUL-free prefix of the region, followed by a NUL when it ends before the region does |
| SharedMemory.SharedMemoryChannel.constructor | Process-dir/include/SharedMemoryChannel.h:25-30 | a new channel has no descriptor, no mapping, size 0 and an empty name |
| SharedMemory.SharedMemoryChannel.Create | Process-dir/src/SharedMemoryChannel.cpp:13-24 | success iff `shm_open`, `ftruncate` and `mmap` all succeed; the segment gets exactly `sz` bytes; the mapping shows the old contents resized; the descriptor is added to the table; the fields are set before any failure |
| SharedMemory.SharedMemoryChannel.Open | Process-dir/src/SharedMemoryChannel.cpp:26-52 | `ftruncate` is needed only for a segment shorter than `sz`; a segment is never shrunk or cleared; success, contents, descriptor table and namespace as for create |
| SharedMemory.SharedMemoryChannel.Map | Process-dir/src/SharedMemoryChannel.cpp:45-49 | a successful `mmap` gives a fresh region of `size` bytes holding the segment's contents; a failed one leaves no pointer |
| SharedMemory.SharedMemoryChannel.Write | Process-dir/src/SharedMemoryChannel.cpp:54-63 | with no mapping it returns false and changes nothing; otherwise it returns true and the region becomes `Stored(old region, data)` |
| SharedMemory.SharedMemoryChannel.Read | Process-dir/src/SharedMemoryChannel.cpp:65-68 | the empty string with no mapping; otherwise the NUL-free prefix of the region that ends at its first NUL |
| SharedMemory.SharedMemoryChannel.Close | Process-dir/src/SharedMemoryChannel.cpp:70-79 | afterwards there is no mapping and no descriptor; the name is unlinked exactly when a descriptor was held; a second close changes nothing |
| SharedMemory.UntilNulStopsAtTerminator | Process-dir/src/SharedMemoryChannel.cpp:60 | a NUL right after a prefix ends the C string there, whatever bytes follow it |
| SharedMemory.ReadAfterWrite | Process-dir/src/SharedMemoryChannel.cpp:57-67 | `read` after `write(data)` gives the copied bytes up to their own first NUL |
| SharedMemory.RoundTrip | Process-dir/src/SharedMemoryChannel.cpp:57-67 | zero-free data of at most `size - 1` bytes is read back exactly |
| SharedMemory.Truncation | Process-dir/src/SharedMemoryChannel.cpp:57-67 | longer zero-free data is read back as its first `size - 1` bytes |
| SharedMemory.ReadAfterWriteBounded | Process-dir/src/SharedMemoryChannel.cpp:57-67 | whatever was written, a following `read` returns at most `size - 1` bytes |
| SharedMemory.LastWriterWins | Process-dir/src/SharedMemoryChannel.cpp:58-60 | after two writes, `read` returns the second, short zero-free data, however long the first was |
| SharedMemory.CreatedRegionReadsEmpty | Process-dir/src/SharedMemoryChannel.cpp:20-22 | a segment created under a new name reads as the empty string |
| SharedMemory.ReopenReadsStored | Process-dir/src/SharedMemoryChannel.cpp:36-45 | opening a segment shows the C string stored in it, as long as that string ends within the mapped size |
| SharedMemory.CreateWriteReadScenario | Process-dir/tests/final_tests_shared_memmory.cpp:15-20 | creating a 4096-byte segment, writing "hello" and reading gives "hello" |
| SharedMemory.PointerAfterMapAsWritten | Process-dir/src/SharedMemoryChannel.cpp:22 | as written, the pointer stored after `mmap` is never null: the region when `mmap` succeeds, `MAP_FAILED` when it fails |
| SharedMemory.PassesMappedGuard | Process-dir/src/SharedMemoryChannel.cpp:55 | the `!buffer` test of `write`, `read` and `close` lets a mapped region through, and lets through nothing but a mapped region or `MAP_FAILED` |
| SharedMemory.MapFailureEscapesGuard | Process-dir/src/SharedMemoryChannel.cpp:22-23 | as written, a failed `mmap` leaves `MAP_FAILED` in `buffer`, which passes the `!buffer` guard although it maps nothing |
| Pipes.Pipe.constructor | Process-dir/include/Pipe.h:33-34 | a new pipe has both ends absent |
| Pipes.Pipe.Create | Process-dir/src/Pipe.cpp:35-42 | success iff `pipe()` succeeds; then both ends are the new descriptors, added to the table; on failure nothing changes |
| Pipes.Pipe.CloseRead | Process-dir/src/Pipe.cpp:53-56 | afterwards the read end is absent, its descriptor is released if it was held, and the write end is untouched |
| Pipes.Pipe.CloseWrite | Process-dir/src/Pipe.cpp:67-70 | afterwards the write end is absent, its descriptor is released if it was held, and the read end is untouched |
| Pipes.Pipe.ReadAll | Process-dir/src/Pipe.cpp:83-89 | nothing without a read end; otherwise exactly the first `Drained` bytes of the pipe, in order, which are removed from it |
| Pipes.Pipe.Write | Process-dir/src/Pipe.cpp:100-101 | without a write end nothing happens; otherwise exactly the bytes the single `write` call accepts are appended |
| Pipes.Pipe.Destroy | Process-dir/src/Pipe.cpp:14-17 | both ends are absent and both held descriptors are released |
| Pipes.WritesThenReadAll | Process-dir/src/Pipe.cpp:86-101 | writes accepted in full, then `closeWrite` and any `readAll` that stops only once the pipe is empty, return the concatenation of the writes in order |
| Pipes.MultipleWritesScenario | Process-dir/tests/test_pipe.cpp:48-52 | writing "A", "B", "C", closing the write end and reading gives "ABC" |
| Pipes.EmptyAfterCloseWriteScenario | Process-dir/tests/test_pipe.cpp:33-34 | closing the write end of a fresh pipe and reading gives the empty string |
| Pipes.FreshPipeScenario | Process-dir/src/Pipe.cpp:83-100 | a pipe that was never created ignores writes and reads as the empty string |
| Sockets.DecimalString | Process-dir/src/SocketChannel.cpp:57 | `std::to_string` of a port is a non-empty digit string with a leading 0 only for 0 |
| Sockets.DecimalRoundTrip | Process-dir/src/SocketChannel.cpp:57 | the decimal digits of a number denote that number |
| Sockets.MakeUnixPath | Process-dir/src/SocketChannel.cpp:53-59 | the path is "/tmp/osproj_sock_" followed by nothing but digits |
| Sockets.UnixPathNamesPort | Process-dir/src/SocketChannel.cpp:57 | the digits after the prefix denote the port |
| Sockets.UnixPathInjective | Process-dir/src/SocketChannel.cpp:53-59 | two ports give the same path iff they are equal |
| Sockets.BindAddress | Process-dir/src/SocketChannel.cpp:137-167 | a Unix socket binds a path, an IPv4 socket INADDR_ANY on the port; the path is the fixed prefix and digits that denote the port |
| Sockets.SentLength | Process-dir/src/SocketChannel.cpp:292-302 | the send loop never gets out more bytes than it was given |
| Sockets.SentAllIff | Process-dir/src/SocketChannel.cpp:292-302 | the send loop delivers every byte iff no `send` returns `<= 0` before the end |
| Sockets.SocketChannel.constructor | Process-dir/src/SocketChannel.cpp:61-62 | a new channel has the invalid handle and type Unix |
| Sockets.SocketChannel.Move | Process-dir/src/SocketChannel.cpp:68-72 | the new channel takes the handle and type; the source keeps its type and is left with the invalid handle |
| Sockets.SocketChannel.MoveAssign | Process-dir/src/SocketChannel.cpp:74-82 | a self-move changes nothing; otherwise the target's old handle is released first, then the target takes the handle and type and the source is invalidated |
| Sockets.SocketChannel.Create | Process-dir/src/SocketChannel.cpp:84-126 | the type is always recorded; success iff `socket()` gives a handle, which is then held and added to the table; on failure the old handle is kept |
| Sockets.SocketChannel.BindAndListen | Process-dir/src/SocketChannel.cpp:128-201 | refused without a handle; otherwise it binds the port's Unix path or INADDR_ANY on the port, and succeeds iff both bind and listen succeed |
| Sockets.SocketChannel.ConnectTo | Process-dir/src/SocketChannel.cpp:222-251 | refused without a handle; a Unix socket dials the port's path; an IPv4 socket dials host:port only when the host parses; success iff an address was dialled and connect succeeded |
| Sockets.SocketChannel.AcceptClient | Process-dir/src/SocketChannel.cpp:203-220 | a fresh channel of the listener's type that holds the accepted handle, or the invalid handle when the listener has none or accept fails; the listener is unchanged |
| Sockets.SocketChannel.Close | Process-dir/src/SocketChannel.cpp:253-266 | afterwards the handle is invalid and a held handle is released; closing twice changes nothing more |
| Sockets.SocketChannel.ReadAll | Process-dir/src/SocketChannel.cpp:268-284 | nothing without a handle; otherwise exactly the first `Drained` bytes of the peer's data, in order |
| Sockets.SocketChannel.Write | Process-dir/src/SocketChannel.cpp:286-303 | nothing is sent without a handle; otherwise the peer receives the prefix of the data of length `SentLength`, in order |
| Sockets.InvalidChannelScenario | Process-dir/src/SocketChannel.cpp:132-135 | a default-constructed channel refuses to bind and to connect, reads nothing and sends nothing |
| Semaphores.SharedSemaphore.constructor | Process-dir/src/SharedSemaphore.cpp:6-7 | the default semaphore has no record and is not the creator |
| Semaphores.SharedSemaphore.Setup | Process-dir/src/SharedSemaphore.cpp:9-55 | success iff the segment is created or opened; then `creator == create` and the counter is `initialValue` for the creator and the stored value for an opener; on failure the member channel is closed, which unlinks the name if a descriptor was obtained |
| Semaphores.SharedSemaphore.Construct | Process-dir/src/SharedSemaphore.cpp:9-55 | the constructor yields a semaphore exactly when setup succeeds, with the creator flag and counter as above and its member channel mapped under `name` with the new descriptor; the namespace and the descriptor table change as for setup |
| Semaphores.SharedSemaphore.Init | Process-dir/src/SharedSemaphore.cpp:57-61 | `init` closes the old segment and then has the same outcome as the constructor with the same arguments; on failure the member channel is left without a mapping or descriptor; the old descriptor is never closed, so the table only grows |
| Semaphores.SharedSemaphore.Destroy | Process-dir/src/SharedSemaphore.cpp:63-65 | the destructor closes the segment and unlinks its name if a descriptor was held |
| Semaphores.SharedSemaphore.Post | Process-dir/src/SharedSemaphore.cpp:79-86 | the counter grows by exactly 1 |
| Semaphores.SharedSemaphore.Wait | Process-dir/src/SharedSemaphore.cpp:68-77 | with a non-zero counter, the counter shrinks by exactly 1 |
| Semaphores.Run | Process-dir/src/SharedSemaphore.cpp:68-86 | sequential posts and waits, with `None` where a wait finds 0: a completed run from a non-negative value stays non-negative, and each operation lowers the counter by at most 1 |
| Semaphores.RunBalance | Process-dir/src/SharedSemaphore.cpp:71-82 | a run that does not block ends at the start value plus the posts minus the waits |
| Semaphores.RunStaysNonNegative | Process-dir/src/SharedSemaphore.cpp:71-74 | from a non-negative start, every prefix of a run that does not block ends at a non-negative value |
| Semaphores.NegativeCounterDoesNotBlock | Process-dir/src/SharedSemaphore.cpp:71-74 | the guard is `== 0`: a negative counter does not block a wait and goes further down |
| Semaphores.RunPosts | Process-dir/src/SharedSemaphore.cpp:82 | n posts raise the counter by n before the rest of a run |
| Semaphores.RunWaits | Process-dir/src/SharedSemaphore.cpp:71-74 | n waits from a counter of at least n do not block and lower it by n |
| Semaphores.PostsThenWaits | Process-dir/tests/final_tests_shared_symophore.cpp:31-39 | n posts followed by n waits never block and restore the starting value |
| Semaphores.Perform | Process-dir/src/SharedSemaphore.cpp:68-86 | performing a sequence of posts and waits with the methods leaves the counter where `Run` says |
| Semaphores.MultiplePostsScenario | Process-dir/tests/final_tests_shared_symophore.cpp:31-39 | a creator set to 0, three posts and three waits end at 0 |
| Processes.CString | Process-dir/src/Process.cpp:101-103 | the string a `c_str()` pointer denotes: a NUL-free prefix of the `std::string`, ended by a NUL when it is shorter |
| Processes.CStringStopsAtNul | Process-dir/src/Process.cpp:101-103 | a NUL after a NUL-free prefix ends the C string there, whatever follows |
| Processes.UntilNull | Process-dir/src/Process.cpp:106 | what `execvp` reads from argv: the C strings of the entries before the first null pointer, which ends them when it is present |
| Processes.UntilNullAppend | Process-dir/src/Process.cpp:100-106 | appending a string to a vector without a null extends what `execvp` reads by that string up to its first NUL; appending the null adds nothing |
| Processes.ExecArgv | Process-dir/src/Process.cpp:100-104 | argv is the executable, then the arguments in order, then a single null at the end; `execvp` reads each of them up to its first NUL, so exactly `[executable] + arguments` when none holds a NUL |
| Processes.CommandLine | Process-dir/src/Process.cpp:24-27 | the command line starts with the executable in double quotes; with no arguments that is all of it, otherwise a space follows |
| Processes.CommandLineAppend | Process-dir/src/Process.cpp:24-27 | each argument adds `" " + a` at the end of the command line |
| Processes.TailAppend | Process-dir/src/Process.cpp:26-27 | the argument part grows by `" " + a` for an argument appended at the end |
| Processes.CommandLineRoundTrip | Process-dir/src/Process.cpp:24-27 | a receiver that splits on the quotes and on spaces recovers the executable and the arguments, when the executable has no quote and no argument has a space |
| Processes.CommandLinePassedWhole | Process-dir/src/Process.cpp:24-31 | `CreateProcessA` receives the whole command line through `c_str()` when neither the executable nor an argument holds a NUL |
| Processes.NulInArgumentCutsCommandLine | Process-dir/src/Process.cpp:24-31 | a NUL inside an argument cuts the line `CreateProcessA` receives at that NUL |
| Processes.SpaceInArgumentIsAmbiguous | Process-dir/src/Process.cpp:26-27 | unquoted, the argument "a b" gives the same command line as the two arguments "a" and "b" |
| Processes.ChildTermination | Process-dir/src/Process.cpp:106-109 | a child whose `execvp` fails exits with code 127; otherwise it ends as the program does |
| Processes.RawStatus | Process-dir/src/Process.cpp:126 | the wait status fits in 16 bits |
| Processes.DecodeStatus | Process-dir/src/Process.cpp:127 | the decoded status is -1 or an 8-bit exit code; an exited status gives its bits 8-15, any other gives -1 |
| Processes.DecodeRawStatus | Process-dir/src/Process.cpp:127 | decoding the status gives the exit code of an exited child and -1 for a signalled one |
| Processes.RawStatusInjective | Process-dir/src/Process.cpp:126-127 | different endings give different status words |
| Processes.WaitAsWritten | Process-dir/src/Process.cpp:125-127 | as written, `wait` gives the exit code of an exited child and -1 for a signalled one after a successful `waitpid`, and 0 after a failed one |
| Processes.WaitFailureReadsAsCleanExit | Process-dir/src/Process.cpp:125-127 | as written, a failed `waitpid` leaves status 0 and decodes as a normal exit with code 0 |
| Processes.Process.constructor | Process-dir/include/Process.h:34-38 | a new process has pid -1 and three distinct pipes with both ends absent |
| Processes.Process.Start | Process-dir/src/Process.cpp:83-122 | pipes are created stdin, stdout, stderr and the first failure stops the chain; `pid` takes `fork`'s result; on success the parent holds exactly the stdin write end and the stdout/stderr read ends, and the descriptor table says so |
| Processes.Process.Wait | Process-dir/src/Process.cpp:124-128 | the exit code of a child that exited normally; -1 when it was signalled or `waitpid` fails |
| Processes.Process.WriteStdin | Process-dir/src/Process.cpp:132 | the stdin pipe's write: the accepted bytes are appended only while its write end is held |
| Processes.Process.CloseStdin | Process-dir/src/Process.cpp:133 | the stdin pipe's write end is absent afterwards and its descriptor is released |
| Processes.Process.ReadStdout | Process-dir/src/Process.cpp:130 | the stdout pipe's `readAll` |
| Processes.Process.ReadStderr | Process-dir/src/Process.cpp:131 | the stderr pipe's `readAll` |
| Processes.Process.Terminate | Process-dir/src/Process.cpp:135-137 | a kill is sent iff `pid > 0` |
| Processes.WriteAfterCloseStdin | Process-dir/src/Process.cpp:132-133 | after `closeStdin`, `writeStdin` adds nothing to the child's input |
| Processes.UnstartedTerminateScenario | Process-dir/include/Process.h:34 | a process that was never started sends no kill |
| Processes.LaunchFailureScenario | Process-dir/src/Process.cpp:106-109 | an executable that cannot be exec'd still starts, and `wait` returns 127 |
| Processes.CatInputScenario | Process-dir/tests/test_process.cpp:83-87 | two stdin writes to `cat` followed by `closeStdin` leave both writes queued, in order |

## Left out

- Real system calls are not executed. Their results are parameters of the model.
- Pipe `Create`: `fcntl(O_NONBLOCK)` on both ends is not modelled as a separate step. Its only visible effect is when `read` returns `<= 0`, and the draining-read script covers that.
- Concurrency is not modelled: the mutex and condition variable of the semaphore, blocking in `pthread_cond_wait`, interleavings of processes.
- Semaphores.SharedSemaphore.Wait: requires a non-zero counter instead of blocking. Run sequentially, a wait on 0 cannot be woken.
- Sharing a mapping between participants is not modelled. A `create` or `open` receives the segment's current bytes as `existing`.
- The semaphore counter is a field, not bytes inside the shared record. The `memset` of the record and the 32-bit range of `int value` are not modelled.
- Semaphores.SharedSemaphore.Setup: always takes a fresh member channel. Calling the constructor in place over a live mapping is only reached through `init`, which closes first.
- SharedMemory.SharedMemoryChannel.Create and SharedMemory.SharedMemoryChannel.Open: require that no region is mapped yet. Calling them again on a mapped channel leaks the old mapping; no caller does so.
- SharedMemory.SharedMemoryChannel.Read: stops at the end of the region when there is no NUL. The C code would read on past the mapping.
- SharedMemory.SharedMemoryChannel.Close: the `munmap` call is modelled only as dropping the region.
- Socket address structures, `htons`/`inet_pton` internals, `snprintf` into `sun_path`, the `unlink` of an old socket path, `SO_REUSEADDR`, the listen backlog and WinSock start-up are left out. They are foreign library calls.
- The `_WIN32` branches of every file are left out, except the pure command-line builder of `Process::start`.
- The child side of `start` after `fork` is left out: `dup2`, the closes in the child and the `exec` itself. Two parts are kept: the argv vector the child builds (`Processes.ExecArgv`) and the child's exit code 127 on an exec failure (`Processes.ChildTermination`). After `exec` the child is another program.
- Processes.Process.Start: requires `fork` to return -1 or a positive pid. The child branch (0) is left out as above.
- Processes.Process.Wait: gives the corrected behaviour of the `waitpid` row under "Findings": -1 when `waitpid` fails, where the code returns 0 (`Processes.WaitAsWritten`).
- Processes.Process.Wait: does not model `waitpid(-1, …)` reaping any child when `start` was never called. The call's result is a parameter.
- Processes.Process.Terminate: the model does not track whether the child was already reaped. `wait` leaves `pid` positive, so a later `terminate` still sends `SIGKILL` to that pid, which the system may by then have given to another process. Pid allocation is not modelled.
- SharedMemory.SharedMemoryChannel.Map: gives the corrected behaviour of the `mmap` row under "Findings": no mapping after a failed `mmap`, where the code stores `MAP_FAILED` (`SharedMemory.PointerAfterMapAsWritten`). `Create` and `Open` use it.
- Semaphores.SharedSemaphore.Setup: the counter an opener sees is a parameter, not read from the record's bytes. It is 0 when `open` has just created the segment.
- `startSockets` and `startSharedMemory` are declared in Process.h but have no definition in the repository. They are not part of this model.
- The copy of the Process class at Process-dir/Process.cpp and Process-dir/Process.h is an earlier version. It is not part of this model.
- The self-assignments `this->stdinPipe = stdinPipe` at the end of `start` change nothing and are not modelled.
- Logging to `std::cerr` and `perror` is left out.
- Processes.ExecArgv: the vector holds each string whole; `execvp` sees it only up to its first NUL, through `Processes.CString` in `Processes.UntilNull`. What the child does with the strings is not modelled.
- Processes.CommandLine: is the string `cmd.str()` builds. `CreateProcessA` receives it through `c_str()`, so only up to its first NUL: `Processes.CommandLinePassedWhole` and `Processes.NulInArgumentCutsCommandLine` state when that matters. `Processes.CommandLineRoundTrip` is about the built string.
- Pipes.Pipe.Write: a `write` to a pipe whose read end is closed everywhere raises `SIGPIPE`. No file of the library ignores that signal, so by default it ends the calling process. The model treats this case as an ordinary result `<= 0`.
- Sockets.SocketChannel.Write: `send` is called with flags 0, so a peer that has closed its end raises `SIGPIPE` and by default ends the calling process. The model treats this case as an ordinary result `<= 0`.
- Processes.Process.WriteStdin: after the child has exited and its stdin read end is gone, the write raises `SIGPIPE` (see `Pipes.Pipe.Write`). The model does not end the caller.

## Findings

| source | as written | input that shows it | evidently intended | confidence | as-written member | corrected member |
|---|---|---|---|---|---|---|
| Process-dir/src/SharedMemoryChannel.cpp:22-23 | `buffer` is assigned the result of `mmap` unconditionally, so after a failed `mmap` it holds `MAP_FAILED`; `write`, `read` and `close` test `!buffer`, which `MAP_FAILED` passes (the same holds for `open`, lines 45-49; `SharedMemory.PointerAfterMapAsWritten` states the stored pointer) | `create("/x", 4096)` where `mmap` fails: `create` returns false, and a later `write` copies through `MAP_FAILED` | a failed mapping leaves no pointer, so the guards see an unmapped channel | not executed | SharedMemory.MapFailureEscapesGuard | SharedMemory.SharedMemoryChannel.Map |
| Process-dir/src/Process.cpp:125-127 | `status` starts at 0 and the result of `waitpid` is ignored, so a failed `waitpid` decodes as a normal exit with code 0 (`Processes.WaitAsWritten` states the whole as-written `wait`) | `wait()` called a second time on the same process: `waitpid` fails with `ECHILD` and `wait` returns 0 | a failed wait returns the failure code -1 | not executed | Processes.WaitFailureReadsAsCleanExit | Processes.Process.Wait |
