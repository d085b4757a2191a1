/** What pointers and integers look like in the target's memory, byte by byte. */
module ByteLayout {
  import opened Bytes
  import opened Wrappers
  import opened RemoteMemory

  predicate Mapped(m: Memory, a: int, n: nat)
  {
    forall k: int | a <= k < a + n :: k in m
  }

  function U8(m: Memory, a: int): (v: int)
    requires a in m
    ensures 0 <= v < 256
  {
    m[a]
  }

  function U16(m: Memory, a: int): (v: int)
    requires Mapped(m, a, 2)
    ensures 0 <= v < 0x1_0000
  {
    U8(m, a) + 0x100 * U8(m, a + 1)
  }

  function U32(m: Memory, a: int): (v: int)
    requires Mapped(m, a, 4)
    ensures 0 <= v < 0x1_0000_0000
  {
    U8(m, a) + 0x100 * U8(m, a + 1) + 0x1_0000 * U8(m, a + 2) + 0x100_0000 * U8(m, a + 3)
  }

  function U64(m: Memory, a: int): (v: nat)
    requires Mapped(m, a, 8)
  {
    U32(m, a) + 0x1_0000_0000 * U32(m, a + 4)
  }

  /** A pointer stored at an address; 0 where it cannot be read. */
  function Ptr(m: Memory, a: int): nat
  {
    if Mapped(m, a, 8) then U64(m, a) else 0
  }

  predicate IsPtr(p: int)
  {
    4096 < p < 281474976710656
  }

  // ---------- The reads of the model ----------

  lemma EightBytes(b: seq<byte>)
    requires |b| == 8
    ensures FromLittleEndian(b) == FromLittleEndian(b[..4]) + 0x1_0000_0000 * FromLittleEndian(b[4..])
  {
    FourBytes(b[..4]);
    var b1, b2, b3, b4 := b[1..], b[1..][1..], b[1..][1..][1..], b[1..][1..][1..][1..];
    assert b4 == b[4..];
    assert FromLittleEndian(b) == b[0] + 256 * FromLittleEndian(b1);
    assert FromLittleEndian(b1) == b[1] + 256 * FromLittleEndian(b2);
    assert FromLittleEndian(b2) == b[2] + 256 * FromLittleEndian(b3);
    assert FromLittleEndian(b3) == b[3] + 256 * FromLittleEndian(b4);
  }

  lemma ReadsPtr(m: Memory, a: int)
    ensures ReadPtr(m, a) == Ptr(m, a)
    ensures forall p: int :: ValidPtr(p) <==> IsPtr(p)
  {
    hide FromLittleEndian;
    if Mapped(m, a, 8) {
      assert Readable(m, a, 8);
      var b := Read(m, a, 8).value;
      EightBytes(b);
      FourBytes(b[..4]);
      FourBytes(b[4..]);
    } else {
      assert !Readable(m, a, 8);
    }
  }

  lemma ReadsI32(m: Memory, a: int)
    ensures ReadI32(m, a) ==
      if !Mapped(m, a, 4) then None
      else Some(if U32(m, a) < 0x8000_0000 then U32(m, a) else U32(m, a) - 0x1_0000_0000)
  {
    hide FromLittleEndian;
    if Mapped(m, a, 4) {
      assert Readable(m, a, 4);
      FourBytes(Read(m, a, 4).value);
    } else {
      assert !Readable(m, a, 4);
    }
  }

  lemma ReadsU16(m: Memory, a: int)
    ensures ReadU16(m, a) == if !Mapped(m, a, 2) then None else Some(U16(m, a))
  {
    hide FromLittleEndian;
    if Mapped(m, a, 2) {
      assert Readable(m, a, 2);
      TwoBytes(Read(m, a, 2).value);
    } else {
      assert !Readable(m, a, 2);
    }
  }
}
