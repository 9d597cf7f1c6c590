/**
 * SocketChannel: a single-owner socket handle (Unix-domain or IPv4) with move semantics,
 * an idempotent `close`, a draining `readAll` and a `write` loop that retries short sends.
 */
module Sockets {
  import opened Base
  import opened Kernel

  /** `unsigned short`, the type of a port number. */
  newtype u16 = x: int | 0 <= x < 65536

  datatype SocketType = Unix | IPv4

  /** `INVALID_SOCKET_HANDLE` on POSIX. */
  const InvalidHandle: int := -1

  /** The address a socket is bound or connected to. */
  datatype Address =
    | UnixPath(path: string)            // a filesystem path (AF_UNIX)
    | AnyIPv4(port: u16)                // INADDR_ANY on a port (AF_INET)
    | IPv4At(host: string, port: u16)   // a dotted-quad host on a port (AF_INET)

  /** The descriptor table once `handle` is closed (nothing happens for the invalid handle). */
  function Released(open: set<int>, handle: int): set<int>
  {
    if handle == InvalidHandle then open else open - {handle}
  }

  // ----- make_unix_path -----

  const UnixPathPrefix: string := "/tmp/osproj_sock_"

  predicate IsDigit(c: char)
  {
    '0' <= c <= '9'
  }

  predicate AllDigits(s: string)
  {
    forall i :: 0 <= i < |s| ==> IsDigit(s[i])
  }

  function Digit(d: nat): (c: char)
    requires d < 10
    ensures IsDigit(c) && c as int - '0' as int == d
  {
    ('0' as int + d) as char
  }

  function DigitValue(c: char): nat
    requires IsDigit(c)
  {
    c as int - '0' as int
  }

  /** `std::to_string(n)`: decimal digits, most significant first, with no leading zero. */
  function DecimalString(n: nat): (s: string)
    ensures |s| > 0 && AllDigits(s)
    ensures s[0] == '0' <==> n == 0
    decreases n
  {
    if n < 10 then [Digit(n)] else DecimalString(n / 10) + [Digit(n % 10)]
  }

  /** The number a string of decimal digits denotes. */
  function ParseDecimal(s: string): nat
    requires AllDigits(s)
    decreases |s|
  {
    if s == [] then 0 else 10 * ParseDecimal(s[..|s| - 1]) + DigitValue(s[|s| - 1])
  }

  lemma {:induction false} DecimalRoundTrip(n: nat)
    ensures ParseDecimal(DecimalString(n)) == n
    decreases n
  {
    if n >= 10 {
      var s := DecimalString(n);
      assert s[..|s| - 1] == DecimalString(n / 10);
      DecimalRoundTrip(n / 10);
    }
  }

  /** `make_unix_path(port)`: the fixed prefix followed by the decimal digits of `port`. */
  function MakeUnixPath(port: u16): (path: string)
    ensures |path| > |UnixPathPrefix| && path[..|UnixPathPrefix|] == UnixPathPrefix
    ensures AllDigits(path[|UnixPathPrefix|..])
  {
    UnixPathPrefix + DecimalString(port as nat)
  }

  /** The port can be read back from the path: the digits after the prefix denote it. */
  lemma UnixPathNamesPort(port: u16)
    ensures ParseDecimal(MakeUnixPath(port)[|UnixPathPrefix|..]) == port as nat
  {
    assert MakeUnixPath(port)[|UnixPathPrefix|..] == DecimalString(port as nat);
    DecimalRoundTrip(port as nat);
  }

  /** Distinct ports give distinct paths, so the three stream listeners never share a path. */
  lemma UnixPathInjective(a: u16, b: u16)
    ensures MakeUnixPath(a) == MakeUnixPath(b) <==> a == b
  {
    if MakeUnixPath(a) == MakeUnixPath(b) {
      UnixPathNamesPort(a);
      UnixPathNamesPort(b);
    }
  }

  /**
   * What `bindAndListen` binds to for each socket type: a Unix socket a filesystem path,
   * an IPv4 socket every local address; either way the address names the port.
   */
  function BindAddress(t: SocketType, port: u16): (a: Address)
    ensures a.UnixPath? <==> t == Unix
    ensures a.UnixPath? ==>
              && |a.path| > |UnixPathPrefix| && a.path[..|UnixPathPrefix|] == UnixPathPrefix
              && AllDigits(a.path[|UnixPathPrefix|..])
              && ParseDecimal(a.path[|UnixPathPrefix|..]) == port as nat
    ensures !a.UnixPath? ==> a == AnyIPv4(port)
  {
    match t
    case Unix => UnixPathNamesPort(port); UnixPath(MakeUnixPath(port))
    case IPv4 => AnyIPv4(port)
  }

  // ----- the send loop of write -----

  /**
   * `sends` is a possible sequence of results of successive `send` calls while `left`
   * bytes remain: a positive result never exceeds what was offered, and the calls go on
   * until nothing is left or one returns `<= 0`.
   */
  predicate SendScript(sends: seq<int>, left: nat)
    decreases |sends|
  {
    left == 0 ||
    (|sends| > 0 && (sends[0] > 0 ==> sends[0] <= left && SendScript(sends[1..], left - sends[0])))
  }

  /** How many of `left` bytes the send loop gets out. */
  function SentLength(sends: seq<int>, left: nat): (n: nat)
    requires SendScript(sends, left)
    ensures n <= left
    decreases |sends|
  {
    if left == 0 || sends[0] <= 0 then 0 else sends[0] + SentLength(sends[1..], left - sends[0])
  }

  /** Every `send` succeeds until the data is used up. */
  predicate SendsAll(sends: seq<int>, left: nat)
    requires SendScript(sends, left)
    decreases |sends|
  {
    left == 0 || (sends[0] > 0 && SendsAll(sends[1..], left - sends[0]))
  }

  /** The loop delivers all bytes exactly when no `send` fails before the end. */
  lemma {:induction false} SentAllIff(sends: seq<int>, left: nat)
    requires SendScript(sends, left)
    ensures SentLength(sends, left) == left <==> SendsAll(sends, left)
    decreases |sends|
  {
    if left > 0 && sends[0] > 0 {
      SentAllIff(sends[1..], left - sends[0]);
    }
  }

  class SocketChannel {
    var sock: int
    var sockType: SocketType

    /** The default constructor: no handle, Unix type. */
    constructor ()
      ensures sock == InvalidHandle && sockType == Unix
    {
      sock, sockType := InvalidHandle, Unix;
    }

    /** The move constructor: take over the handle and the type; the source is left without a handle. */
    constructor Move(other: SocketChannel)
      modifies other
      ensures sock == old(other.sock) && sockType == old(other.sockType)
      ensures other.sock == InvalidHandle && other.sockType == old(other.sockType)
    {
      sock, sockType := other.sock, other.sockType;
      new;
      other.sock := InvalidHandle;
    }

    /**
     * Move assignment: unless it is a self-move (a no-op), close the old handle first, then
     * take over the other's handle and type and leave the other without a handle.
     */
    method MoveAssign(other: SocketChannel, fds: Descriptors)
      modifies this, other, fds
      ensures other == this ==> sock == old(sock) && sockType == old(sockType) && fds.open == old(fds.open)
      ensures other != this ==> sock == old(other.sock) && sockType == old(other.sockType)
      ensures other != this ==> other.sock == InvalidHandle && other.sockType == old(other.sockType)
      ensures other != this ==> fds.open == Released(old(fds.open), old(sock))
    {
      if this != other {
        Close(fds);
        sock := other.sock;
        sockType := other.sockType;
        other.sock := InvalidHandle;
      }
    }

    /**
     * `create(type)`: record the type, then `socket()` either fails (-1, the old handle is
     * kept) or gives a new handle `s`. `SO_REUSEADDR` on IPv4 is not modelled.
     */
    method Create(fds: Descriptors, t: SocketType, s: int) returns (ok: bool)
      requires s >= -1 && (s != -1 ==> s !in fds.open)
      modifies this, fds
      ensures sockType == t
      ensures ok == (s != -1)
      ensures ok ==> sock == s && fds.open == old(fds.open) + {s}
      ensures !ok ==> sock == old(sock) && fds.open == old(fds.open)
    {
      sockType := t;
      if s == -1 {
        return false;
      }
      sock := s;
      fds.open := fds.open + {s};
      ok := true;
    }

    /**
     * `bindAndListen(port)`: refused without a handle; otherwise bind to the address the
     * type dictates (`attempted`), then listen. `bound`/`listening` are the kernel's answers.
     */
    method BindAndListen(port: u16, bound: bool, listening: bool) returns (ok: bool, attempted: Option<Address>)
      ensures sock == InvalidHandle ==> !ok && attempted == None
      ensures sock != InvalidHandle ==> attempted == Some(BindAddress(sockType, port))
      ensures ok <==> sock != InvalidHandle && bound && listening
    {
      if sock == InvalidHandle {
        return false, None;
      }
      attempted := Some(BindAddress(sockType, port));
      if !bound {
        return false, attempted;
      }
      ok := listening;
    }

    /**
     * `connectTo(host, port)`: refused without a handle; a Unix socket dials the port's path,
     * an IPv4 socket dials `host:port` once `inet_pton` accepts the host (`hostParses`).
     */
    method ConnectTo(host: string, port: u16, hostParses: bool, connected: bool)
      returns (ok: bool, attempted: Option<Address>)
      ensures sock == InvalidHandle ==> !ok && attempted == None
      ensures sock != InvalidHandle && sockType == Unix ==> attempted == Some(UnixPath(MakeUnixPath(port)))
      ensures sock != InvalidHandle && sockType == IPv4 ==>
                attempted == if hostParses then Some(IPv4At(host, port)) else None
      ensures ok <==> attempted.Some? && connected
    {
      if sock == InvalidHandle {
        return false, None;
      }
      if sockType == Unix {
        attempted := Some(UnixPath(MakeUnixPath(port)));
      } else if hostParses {
        attempted := Some(IPv4At(host, port));
      } else {
        return false, None;
      }
      ok := connected;
    }

    /**
     * `acceptClient()`: a new channel of the listener's type that owns the accepted handle,
     * or has none when the listener has no handle or `accept` fails. The listener is unchanged.
     */
    method AcceptClient(fds: Descriptors, accepted: int) returns (c: SocketChannel)
      requires accepted >= -1 && (accepted != -1 ==> accepted !in fds.open)
      modifies fds
      ensures fresh(c) && c.sockType == sockType
      ensures c.sock == if sock == InvalidHandle || accepted == -1 then InvalidHandle else accepted
      ensures fds.open == if c.sock == InvalidHandle then old(fds.open) else old(fds.open) + {accepted}
    {
      c := new SocketChannel();
      c.sockType := sockType;
      if sock == InvalidHandle {
        return;
      }
      if accepted == -1 {
        return;
      }
      c.sock := accepted;
      fds.open := fds.open + {accepted};
    }

    /** `close()`: release the handle if there is one; afterwards there is none. */
    method Close(fds: Descriptors)
      modifies this`sock, fds
      ensures sock == InvalidHandle
      ensures fds.open == Released(old(fds.open), old(sock))
    {
      if sock == InvalidHandle {
        return;
      }
      fds.open := fds.open - {sock};
      sock := InvalidHandle;
    }

    /**
     * `readAll()`: receive chunk after chunk of the peer's bytes `incoming` until `recv`
     * returns `<= 0`; nothing without a handle.
     */
    method ReadAll(incoming: Bytes, results: seq<int>) returns (data: Bytes)
      requires sock != InvalidHandle ==> DrainScript(results, |incoming|)
      ensures sock == InvalidHandle ==> data == []
      ensures sock != InvalidHandle ==> data == incoming[..Drained(results, |incoming|)]
    {
      data := [];
      if sock == InvalidHandle {
        return;
      }
      var rest := incoming;
      var i := 0;
      while results[i] > 0
        invariant 0 <= i < |results|
        invariant DrainScript(results[i..], |rest|)
        invariant data + rest == incoming
        invariant |data| + Drained(results[i..], |rest|) == Drained(results, |incoming|)
        decreases |rest|
      {
        var n := results[i];
        assert results[i..][1..] == results[i + 1..];
        data := data + rest[..n];
        rest := rest[n..];
        i := i + 1;
      }
    }

    /**
     * `write(data)`: offer the `left` bytes from offset `p` to `send` until none are left
     * or a `send` returns `<= 0`. `sent` is what the peer receives: always a prefix of `data`.
     */
    method Write(data: Bytes, sends: seq<int>) returns (sent: Bytes)
      requires sock != InvalidHandle ==> SendScript(sends, |data|)
      ensures sock == InvalidHandle ==> sent == []
      ensures sock != InvalidHandle ==> sent == data[..SentLength(sends, |data|)]
    {
      sent := [];
      if sock == InvalidHandle {
        return;
      }
      var p: nat := 0;
      var left: nat := |data|;
      var i := 0;
      while left > 0
        invariant p + left == |data|
        invariant 0 <= i <= |sends|
        invariant sent == data[..p]
        invariant SendScript(sends[i..], left)
        invariant p + SentLength(sends[i..], left) == SentLength(sends, |data|)
        decreases left
      {
        var n := sends[i];
        if n <= 0 {
          break;
        }
        assert sends[i..][1..] == sends[i + 1..];
        sent := sent + data[p..p + n];
        left := left - n;
        p := p + n;
        i := i + 1;
      }
    }
  }

  /** A default-constructed channel refuses to bind or connect, reads nothing and sends nothing. */
  method InvalidChannelScenario(port: u16, data: Bytes, sends: seq<int>, results: seq<int>)
    returns (bound: bool, connected: bool, read: Bytes, sent: Bytes)
    ensures !bound && !connected && read == [] && sent == []
  {
    var c := new SocketChannel();
    var attempted;
    bound, attempted := c.BindAndListen(port, true, true);
    connected, attempted := c.ConnectTo("127.0.0.1", port, true, true);
    read := c.ReadAll(data, results);
    sent := c.Write(data, sends);
  }
}
