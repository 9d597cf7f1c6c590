/** Values shared by every channel: bytes, byte strings and an optional value. */
module Base {

  /** One byte of a `std::string` or of a mapped memory region. */
  newtype byte = b: int | 0 <= b < 256

  /** The contents of a `std::string` used as a byte buffer. */
  type Bytes = seq<byte>

  datatype Option<T> = None | Some(value: T)

  /** `n` zero bytes: what the kernel puts in a region that is grown by `ftruncate`. */
  function Zeros(n: nat): (r: Bytes)
    ensures |r| == n
    ensures forall i :: 0 <= i < n ==> r[i] == 0
  {
    seq(n, _ => 0)
  }

  /** The byte string holds no NUL byte, so a C-string view of it ends where it ends. */
  predicate ZeroFree(s: Bytes)
  {
    forall i :: 0 <= i < |s| ==> s[i] != 0
  }

  /** The bytes of a string literal whose characters are all Latin-1 (used for concrete scenarios). */
  function Ascii(s: string): (r: Bytes)
    requires forall i :: 0 <= i < |s| ==> s[i] as int < 256
    ensures |r| == |s|
    ensures forall i :: 0 <= i < |s| ==> r[i] as int == s[i] as int
  {
    seq(|s|, i requires 0 <= i < |s| => s[i] as int as byte)
  }
}
