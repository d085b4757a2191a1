/** Concrete memories, given by the aligned words of eight bytes that are mapped. */
module SampleMemory {
  import opened Bytes
  import opened Wrappers
  import opened RemoteMemory

  const LIMIT := 0x10_0000

  type Word = b: seq<byte> | |b| == 8 witness Zeros(8)

  /** The word at an address, if one is mapped there. */
  type Words = nat -> Option<Word>

  ghost predicate Proper(ws: Words)
  {
    forall k: nat :: ws(k).Some? ==> k % 8 == 0 && k + 8 <= LIMIT
  }

  predicate InWords(ws: Words, a: int)
  {
    a >= 0 && ws(a / 8 * 8).Some?
  }

  function ByteAt(ws: Words, a: int): byte
    requires InWords(ws, a)
  {
    ws(a / 8 * 8).value[a % 8]
  }

  function MemoryOf(ws: Words): Memory
  {
    map a | 0 <= a < LIMIT && InWords(ws, a) :: ByteAt(ws, a)
  }

  lemma Byte(ws: Words, k: nat, i: nat)
    requires Proper(ws) && ws(k).Some? && i < 8
    ensures k + i in MemoryOf(ws) && MemoryOf(ws)[k + i] == ws(k).value[i]
  {
    assert (k + i) / 8 * 8 == k && (k + i) % 8 == i;
    assert InWords(ws, k + i);
  }

  lemma Unmapped(ws: Words, k: nat)
    requires k % 8 == 0 && ws(k).None?
    ensures k !in MemoryOf(ws)
  {
    assert k / 8 * 8 == k;
    assert !InWords(ws, k);
  }

  // ---------- What is read ----------

  /** A part of a word. */
  lemma ReadPart(ws: Words, k: nat, i: nat, n: nat)
    requires Proper(ws) && ws(k).Some? && n > 0 && i + n <= 8
    ensures Read(MemoryOf(ws), k + i, n) == Some(ws(k).value[i..i + n])
  {
    var m := MemoryOf(ws);
    hide MemoryOf, Proper;
    forall a | k + i <= a < k + i + n
      ensures a in m && m[a] == ws(k).value[i..i + n][a - k - i]
    {
      Byte(ws, k, a - k);
    }
    assert Readable(m, k + i, n);
    var b := Read(m, k + i, n).value;
    forall j | 0 <= j < n ensures b[j] == ws(k).value[i..i + n][j] {
      assert k + i <= k + i + j < k + i + n;
    }
    assert b == ws(k).value[i..i + n];
  }

  lemma ReadWord(ws: Words, k: nat)
    requires Proper(ws) && ws(k).Some?
    ensures ReadPtr(MemoryOf(ws), k) == FromLittleEndian(ws(k).value)
  {
    hide MemoryOf, Proper, FromLittleEndian;
    ReadPart(ws, k, 0, 8);
    assert ws(k).value[0..8] == ws(k).value;
  }

  lemma ReadNothing(ws: Words, k: nat)
    requires k % 8 == 0 && ws(k).None?
    ensures ReadPtr(MemoryOf(ws), k) == 0
  {
    hide MemoryOf, FromLittleEndian;
    Unmapped(ws, k);
    assert !Readable(MemoryOf(ws), k, 8);
  }

  lemma ReadHalves(ws: Words, k: nat)
    requires Proper(ws) && ws(k).Some?
    ensures ReadI32(MemoryOf(ws), k) == Some(ToSigned32(FromLittleEndian(ws(k).value[..4])))
    ensures ReadI32(MemoryOf(ws), k + 4) == Some(ToSigned32(FromLittleEndian(ws(k).value[4..])))
  {
    hide MemoryOf, Proper, FromLittleEndian, ToSigned32;
    ReadPart(ws, k, 0, 4);
    ReadPart(ws, k, 4, 4);
    assert ws(k).value[0..4] == ws(k).value[..4] && ws(k).value[4..8] == ws(k).value[4..];
  }

  lemma ReadShort(ws: Words, k: nat)
    requires Proper(ws) && ws(k).Some?
    ensures ReadU16(MemoryOf(ws), k) == Some(FromLittleEndian(ws(k).value[..2]))
  {
    hide MemoryOf, Proper, FromLittleEndian;
    ReadPart(ws, k, 0, 2);
    assert ws(k).value[0..2] == ws(k).value[..2];
  }

  /** A text laid out over consecutive words. */
  ghost predicate HoldsText(ws: Words, base: nat, text: seq<byte>)
  {
    forall i :: 0 <= i < |text| ==> HasByte(ws, base + i, text[i])
  }

  predicate HasByte(ws: Words, a: nat, b: byte)
  {
    ws(a / 8 * 8).Some? && ws(a / 8 * 8).value[a % 8] == b
  }

  lemma ReadText(ws: Words, base: nat, text: seq<byte>, from: nat, n: nat)
    requires Proper(ws) && HoldsText(ws, base, text) && n > 0 && from + n <= |text|
    ensures Read(MemoryOf(ws), base + from, n) == Some(text[from..from + n])
  {
    var m := MemoryOf(ws);
    hide MemoryOf, Proper;
    forall a | base + from <= a < base + from + n
      ensures a in m && m[a] == text[from..from + n][a - base - from]
    {
      assert HasByte(ws, base + (a - base), text[a - base]);
      Byte(ws, a / 8 * 8, a % 8);
    }
    assert Readable(m, base + from, n);
    var b := Read(m, base + from, n).value;
    forall j | 0 <= j < n ensures b[j] == text[from..from + n][j] {
      assert base + from <= base + from + j < base + from + n;
    }
    assert b == text[from..from + n];
  }

  // ---------- Values ----------

  /** A word holding a number below 2^24. */
  function W(v: nat): (w: Word)
    requires v < 0x100_0000
  {
    [v % 256, v / 256 % 256, v / 0x1_0000, 0, 0, 0, 0, 0]
  }

  lemma Value(v: nat)
    requires v < 0x100_0000
    ensures FromLittleEndian(W(v)) == v && FromLittleEndian(W(v)[..4]) == v
  {
    FourBytes(W(v)[..4]);
    ZeroTail(W(v), 4);
  }

  lemma {:induction false} ZerosAreZero(b: seq<byte>)
    requires forall i :: 0 <= i < |b| ==> b[i] == 0
    ensures FromLittleEndian(b) == 0
  {
    if b != [] { ZerosAreZero(b[1..]); }
  }

  lemma {:induction false} ZeroTail(b: seq<byte>, n: nat)
    requires n <= |b| && forall i :: n <= i < |b| ==> b[i] == 0
    ensures FromLittleEndian(b) == FromLittleEndian(b[..n])
  {
    if n == 0 {
      ZerosAreZero(b);
    } else {
      ZeroTail(b[1..], n - 1);
      assert b[..n][1..] == b[1..][..n - 1];
    }
  }
}
