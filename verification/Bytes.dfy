/** Bytes, little-endian integers and the C string conventions the modules share. */
module Bytes {
  type byte = x: int | 0 <= x < 256

  const TWO_32 := 0x1_0000_0000
  const TWO_64 := 0x1_0000_0000_0000_0000

  function Min(a: int, b: int): (r: int)
  {
    if a < b then a else b
  }

  /** The value of a little-endian byte string. */
  function FromLittleEndian(b: seq<byte>): (n: nat)
  {
    if b == [] then 0 else b[0] + 256 * FromLittleEndian(b[1..])
  }

  lemma TwoBytes(b: seq<byte>)
    requires |b| == 2
    ensures var w: seq<int> := b; FromLittleEndian(b) == w[0] + 256 * w[1]
  {
    assert FromLittleEndian(b[1..]) == b[1] + 256 * FromLittleEndian(b[1..][1..]);
  }

  lemma FourBytes(b: seq<byte>)
    requires |b| == 4
    ensures var w: seq<int> := b; FromLittleEndian(b) == w[0] + 0x100 * w[1] + 0x1_0000 * w[2] + 0x100_0000 * w[3]
  {
    assert FromLittleEndian(b[1..]) == b[1] + 256 * FromLittleEndian(b[1..][1..]);
    assert FromLittleEndian(b[1..][1..]) == b[2] + 256 * FromLittleEndian(b[1..][1..][1..]);
    assert FromLittleEndian(b[1..][1..][1..]) == b[3];
  }

  /** Reinterprets an unsigned 32-bit value as int32_t. */
  function ToSigned32(n: nat): int
  {
    if n % TWO_32 >= 0x8000_0000 then n % TWO_32 - TWO_32 else n % TWO_32
  }

  function Zeros(n: nat): (z: seq<byte>)
    ensures |z| == n && forall i :: 0 <= i < n ==> z[i] == 0
  {
    seq(n, i => 0)
  }

  /** `b` cut to its first `n` bytes: what snprintf("%s") leaves in a buffer of n + 1. */
  function Cut(b: seq<byte>, n: nat): seq<byte>
  {
    if |b| <= n then b else b[..n]
  }

  /** The C string a buffer holds: the bytes before the first NUL. */
  function CString(b: seq<byte>): (s: seq<byte>)
  {
    if b == [] || b[0] == 0 then [] else [b[0]] + CString(b[1..])
  }

  lemma {:induction false} CStringPrefix(b: seq<byte>)
    ensures CString(b) <= b
    ensures 0 !in CString(b)
    ensures |CString(b)| < |b| ==> b[|CString(b)|] == 0
  {
    if b != [] && b[0] != 0 {
      CStringPrefix(b[1..]);
      assert b == [b[0]] + b[1..];
    }
  }

  /** A NUL-free prefix followed by a NUL, or reaching the end, is the C string. */
  lemma {:induction false} CStringIs(b: seq<byte>, s: seq<byte>)
    requires s <= b && 0 !in s
    requires |s| < |b| ==> b[|s|] == 0
    ensures CString(b) == s
  {
    if s != [] {
      CStringIs(b[1..], s[1..]);
    }
  }
}
