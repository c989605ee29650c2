/**
 Bytes, 32-bit words in the little-endian order of the adb wire formats, and byte streams read and
 written in pieces of any size.
 */
module Octets {

  type Byte = b: nat | b < 256

  type Bytes = seq<Byte>

  const WORD_SIZE: nat := 0x1_0000_0000

  type Word = w: nat | w < 0x1_0000_0000

  /** The bytes of an ASCII text. */
  function Ascii(s: string): (b: Bytes)
    ensures |b| == |s|
  {
    seq(|s|, i requires 0 <= i < |s| => s[i] as int % 256)
  }

  /** The pieces of a stream joined. */
  function Concat(cs: seq<Bytes>): Bytes {
    if cs == [] then [] else cs[0] + Concat(cs[1..])
  }

  /** The most that an adb packet carries. */
  const MAX_PAYLOAD: nat := 4096

  function Le32(w: Word): (b: Bytes)
    ensures |b| == 4
  {
    [w % 0x100, w / 0x100 % 0x100, w / 0x1_0000 % 0x100, w / 0x100_0000]
  }

  function FromLe32(b: Bytes): Word
    requires |b| == 4
  {
    b[0] as int + b[1] as int * 0x100 + b[2] as int * 0x1_0000 + b[3] as int * 0x100_0000
  }

  lemma WordRoundTrip(w: Word)
    ensures FromLe32(Le32(w)) == w
  {
    var a, b, c := w as int / 0x100, w as int / 0x1_0000, w as int / 0x100_0000;
    assert b == a / 0x100 && c == b / 0x100;
    assert w == w % 0x100 + 0x100 * a && a == a % 0x100 + 0x100 * b && b == b % 0x100 + 0x100 * c;
  }

  lemma BytesRoundTrip(b: Bytes)
    requires |b| == 4
    ensures Le32(FromLe32(b)) == b
  {
    var w := FromLe32(b);
    assert w / 0x100 == b[1] as int + b[2] as int * 0x100 + b[3] as int * 0x1_0000;
    assert w / 0x1_0000 == b[2] as int + b[3] as int * 0x100;
    assert w / 0x100_0000 == b[3];
  }

  /** The reading end of a connection whose bytes arrive in any fragmentation. */
  class Reader {
    var rest: Bytes

    constructor (s: Bytes)
      ensures rest == s
    {
      rest := s;
    }

    /** adb_read: at least one byte unless the stream has ended. */
    method AdbRead(len: nat) returns (x: Bytes)
      requires len > 0
      modifies this
      ensures |x| <= len && x + rest == old(rest) && (x == [] <==> old(rest) == [])
    {
      if rest == [] { return []; }
      var r: nat :| 0 < r <= len && r <= |rest|;
      x, rest := rest[..r], rest[r..];
    }

    /** readx: all of `len` bytes, or failure at the end of the stream. */
    method Readx(len: nat) returns (ok: bool, buf: Bytes)
      modifies this
      ensures ok <==> len <= |old(rest)|
      ensures ok ==> buf == old(rest)[..len] && rest == old(rest)[len..]
      ensures !ok ==> rest == []
    {
      buf := [];
      while |buf| < len
        invariant |buf| <= len && buf + rest == old(rest)
        decreases len - |buf|
      {
        var x := AdbRead(len - |buf|);
        if x == [] { return false, buf; }
        buf := buf + x;
      }
      ok := true;
    }
  }

  /** The writing end of a connection that accepts bytes in pieces of any size. */
  class Writer {
    var done: Bytes

    constructor ()
      ensures done == []
    {
      done := [];
    }

    method AdbWrite(p: Bytes) returns (r: nat)
      requires p != []
      modifies this
      ensures 0 < r <= |p| && done == old(done) + p[..r]
    {
      r :| 0 < r <= |p|;
      done := done + p[..r];
    }

    /** writex on a connection that stays up */
    method Writex(p: Bytes)
      modifies this
      ensures done == old(done) + p
    {
      var n := 0;
      while n < |p|
        invariant 0 <= n <= |p| && done == old(done) + p[..n]
      {
        var r := AdbWrite(p[n..]);
        assert p[..n] + p[n..][..r] == p[..n + r];
        n := n + r;
      }
      assert p[..n] == p;
    }
  }
}
