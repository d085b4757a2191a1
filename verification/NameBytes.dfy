/** What name resolution answers, by the bytes of the target's memory: the layouts of the name tables
 * and blocks and the number behind a name, in source/daemon/ue4_reflection.c. */
module NameBytes {
  import opened Bytes
  import opened Wrappers
  import opened RemoteMemory
  import opened ByteLayout
  import opened NameCache
  import Decimal

  // ---------- Where a name can be ----------

  /** A text and a NUL, with the rest of the last 64-byte chunk mapped. */
  predicate TextAt(m: Memory, a: int, s: seq<byte>)
  {
    && Mapped(m, a, |s| + 64) && 0 !in s
    && (forall i :: 0 <= i < |s| ==> m[a + i] == s[i]) && m[a + |s|] == 0
  }

  /** The low bytes of UTF-16 units, up to 256 of them. */
  predicate WideTextAt(m: Memory, a: int, s: seq<byte>)
  {
    && Mapped(m, a, 512) && |s| <= 256 && 0 !in s
    && (forall i :: 0 <= i < |s| ==> m[a + 2 * i] == s[i]) && (|s| < 256 ==> m[a + 2 * |s|] == 0)
  }

  /** A table entry: bit 0 of the flags at 8 says whether the text at 12 is wide. */
  predicate EntryHolds(m: Memory, entry: nat, s: seq<byte>)
  {
    && 0 < |s| < 1023
    && if Mapped(m, entry + 8, 2) && U8(m, entry + 8) % 2 == 1
       then WideTextAt(m, entry + 12, s) else TextAt(m, entry + 12, s)
  }

  /** The entry pointer of an index in a table of chunks of 16384 pointers each, or 0. */
  function EntryIn(m: Memory, table: nat, index: nat): nat
  {
    var chunk := Ptr(m, table + 8 * (index / 16384));
    if IsPtr(table) && IsPtr(chunk) then Ptr(m, chunk + 8 * (index % 16384)) else 0
  }

  /** The tables in the order they are tried; the first serves 32 chunks only. */
  function NthTable(m: Memory, pool: Pool, k: nat): nat
  {
    if k == 0 then pool.chunkTable
    else if k == 1 then pool.gnamepool
    else if k == 2 then Ptr(m, pool.gnamepool)
    else Ptr(m, pool.gnamepool + 8)
  }

  predicate Tried(k: nat, index: nat)
  {
    k > 0 || index < 32 * 16384
  }

  /** The first k tables have no entry for an index. */
  predicate NoneBefore(m: Memory, pool: Pool, index: nat, k: nat)
  {
    forall j: nat | j < k :: Tried(j, index) ==> !IsPtr(EntryIn(m, NthTable(m, pool, j), index))
  }

  predicate InTable(m: Memory, pool: Pool, index: nat, k: nat, s: seq<byte>)
  {
    && k < 4 && Tried(k, index) && NoneBefore(m, pool, index, k)
    && IsPtr(EntryIn(m, NthTable(m, pool, k), index)) && EntryHolds(m, EntryIn(m, NthTable(m, pool, k), index), s)
  }

  /** In no table, but in a block: a header with the length above six bits, bit 0 clear, then the text. */
  predicate InBlock(m: Memory, pool: Pool, index: nat, max: nat, s: seq<byte>)
    requires max > 0
  {
    && NoneBefore(m, pool, index, 4)
    && var block := Ptr(m, pool.gnamepool + 0x40 + 8 * (index / 65536));
      var entry := block + 2 * (index % 65536);
      && IsPtr(block) && Mapped(m, entry, 2) && U16(m, entry) % 2 == 0 && 0 < U16(m, entry) / 64 <= 1024
      && var n := Min(Min(U16(m, entry) / 64, max - 1), 1023);
        && n > 0 && Mapped(m, entry + 2, n) && |s| <= n && 0 !in s
        && (forall i :: 0 <= i < |s| ==> m[entry + 2 + i] == s[i])
        && (|s| < n ==> m[entry + 2 + |s|] == 0)
  }

  ghost predicate IsBase(m: Memory, pool: Pool, index: nat, max: nat, s: seq<byte>)
    requires max > 0
  {
    InBlock(m, pool, index, max, s) || exists k: nat :: InTable(m, pool, index, k, s)
  }

  // ---------- What is read there ----------

  lemma EntryReads(m: Memory, entry: nat, s: seq<byte>)
    requires EntryHolds(m, entry, s)
    ensures EntryName(m, entry) == s
  {
    hide CString, StringAt, FromLittleEndian;
    ReadsU16(m, entry + 8);
    if Mapped(m, entry + 8, 2) && U8(m, entry + 8) % 2 == 1 {
      assert IsWide(m, entry);
      assert Readable(m, entry + 12, 512);
      var low := LowBytes(Read(m, entry + 12, 512).value);
      CStringIs(low, s);
    } else {
      assert !IsWide(m, entry);
      WholeStrings(m, entry + 12, NAME_BUF, s);
    }
  }

  lemma TableReads(m: Memory, table: nat, index: nat)
    ensures TableName(m, table, index) ==
      var e := EntryIn(m, table, index); if IsPtr(e) then EntryName(m, e) else []
  {
    hide ReadPtr, EntryName, Ptr;
    ReadsPtr(m, table + 8 * (index / 16384));
    assert table + 8 * (index / 16384) == table + index / 16384 * 8;
    var chunk := Ptr(m, table + 8 * (index / 16384));
    ReadsPtr(m, chunk + 8 * (index % 16384));
  }

  lemma TablesAre(m: Memory, pool: Pool, k: nat)
    requires k < 3
    ensures Table(m, pool, k) == NthTable(m, pool, k + 1)
  {
    hide ReadPtr, Ptr;
    ReadsPtr(m, pool.gnamepool);
    ReadsPtr(m, pool.gnamepool + 8);
  }

  /** Which of the other three tables answers. */
  lemma {:induction false} OtherTablesRead(m: Memory, pool: Pool, index: nat, t: nat, k: nat, s: seq<byte>)
    requires 1 <= t <= 3 && NoneBefore(m, pool, index, if k <= 3 then k else 4)
    requires t <= k && (k <= 3 ==> InTable(m, pool, index, k, s)) && (k > 3 ==> s == [])
    ensures FirstTableName(m, pool, index, t - 1) == s
    decreases 3 - t
  {
    hide TableName, EntryName, EntryIn, NthTable, EntryHolds;
    TablesAre(m, pool, t - 1);
    TableReads(m, NthTable(m, pool, t), index);
    if t == k {
      EntryReads(m, EntryIn(m, NthTable(m, pool, k), index), s);
      NotEmpty(m, EntryIn(m, NthTable(m, pool, k), index), s);
    } else {
      assert TableName(m, Table(m, pool, t - 1), index) == [];
      if t < 3 {
        OtherTablesRead(m, pool, index, t + 1, k, s);
      }
    }
  }

  lemma BlockReads(m: Memory, pool: Pool, index: nat, max: nat, s: seq<byte>)
    requires max > 0 && InBlock(m, pool, index, max, s)
    ensures BlockName(m, pool, index, max) == Some(s)
  {
    hide ReadPtr, Ptr, CString, NoneBefore, U16;
    var at := pool.gnamepool + 0x40 + index / 65536 * 8;
    assert at == pool.gnamepool + 0x40 + 8 * (index / 65536);
    ReadsPtr(m, at);
    var entry := Ptr(m, at) + 2 * (index % 65536);
    assert entry == Ptr(m, at) + index % 0x1_0000 * 2;
    ReadsU16(m, entry);
    var n := NameCap(U16(m, entry) / 64, max);
    assert Readable(m, entry + 2, n);
    CStringIs(Read(m, entry + 2, n).value, s);
  }

  /** The layouts are those resolution knows. */
  lemma BaseReads(m: Memory, pool: Pool, index: nat, max: nat, s: seq<byte>)
    requires max > 0 && IsBase(m, pool, index, max, s)
    ensures Base(m, pool, index, max) == Some(s)
  {
    hide TableName, FirstTableName, BlockName, EntryIn, InBlock, EntryHolds;
    TableReads(m, pool.chunkTable, index);
    assert Tried(0, index) <==> index / 16384 < CHUNKS;
    if InBlock(m, pool, index, max, s) {
      BlockReads(m, pool, index, max, s);
      NotInTables(m, pool, index, max, s);
      assert Tried(0, index) ==> !IsPtr(EntryIn(m, NthTable(m, pool, 0), index));
      OtherTablesRead(m, pool, index, 1, 4, []);
    } else {
      var k: nat :| InTable(m, pool, index, k, s);
      if k == 0 {
        EntryReads(m, EntryIn(m, pool.chunkTable, index), s);
        NotEmpty(m, EntryIn(m, pool.chunkTable, index), s);
      } else {
        assert Tried(0, index) ==> !IsPtr(EntryIn(m, NthTable(m, pool, 0), index));
        NotEmpty(m, EntryIn(m, NthTable(m, pool, k), index), s);
        OtherTablesRead(m, pool, index, 1, k, s);
      }
    }
  }

  lemma NotEmpty(m: Memory, entry: nat, s: seq<byte>)
    requires EntryHolds(m, entry, s)
    ensures s != []
  {
  }

  lemma NotInTables(m: Memory, pool: Pool, index: nat, max: nat, s: seq<byte>)
    requires max > 0 && InBlock(m, pool, index, max, s)
    ensures NoneBefore(m, pool, index, 4)
  {
  }

  // ---------- The answer ----------

  /** An FName: a non-negative index, and behind it the instance number. */
  predicate FNameHolds(m: Memory, addr: int, index: nat, number: nat)
  {
    && IsPtr(addr) && Mapped(m, addr, 8) && index < 0x8000_0000 && U32(m, addr) == index
    && U32(m, addr + 4) == number
  }

  /** A numeral in bytes, without a leading zero. */
  ghost predicate IsNumeral(b: seq<byte>, n: nat)
  {
    exists d: string ::
      && |d| == |b| > 0 && Decimal.AllDigits(d) && Decimal.ValueOf(d) == n && (d[0] == '0' ==> n == 0)
      && forall i :: 0 <= i < |d| ==> b[i] == d[i] as int
  }

  lemma SuffixIsNumeral(number: nat)
    requires 0 < number < 0x8000_0000
    ensures var s := Suffix(number);
      0 < |s| <= 11 && s[0] == 95 && IsNumeral(s[1..], number - 1)
  {
    SuffixLength(number);
    Decimal.DigitsDenote(number - 1);
    var d := Decimal.Digits(number - 1);
    DigitsAreBytes(d);
    assert Suffix(number)[1..] == Ascii(d);
  }

  lemma DigitsAreBytes(d: string)
    requires Decimal.AllDigits(d)
    ensures forall i :: 0 <= i < |d| ==> Ascii(d)[i] == d[i] as int
  {
    forall i | 0 <= i < |d| ensures Ascii(d)[i] == d[i] as int {
      assert Decimal.IsDigit(d[i]);
    }
  }

  /**
   * After any lookups into buffers of 60 bytes or more, a name of at most 59 bytes and, where it has an
   * instance number, an underscore and the numeral of the number less one. A first lookup answers longer
   * names so as well, as long as they fit.
   */
  lemma NameIs(m: Memory, pool: Pool, before: seq<Request>, addr: int, max: nat, index: nat, number: nat,
        base: seq<byte>)
    requires forall r :: r in before ==> r.max >= 60
    requires FNameHolds(m, addr, index, number) && |base| + 12 <= max && |base| + 12 <= 1024
    requires IsBase(m, pool, index, max, base)
    requires before == [] || (|base| <= 59 && max >= 60)
    ensures var name := Lookup(m, pool, AfterLookups(m, pool, InitialCaches(), before), addr, max).name;
      && name.Some? && base <= name.value
      && if 0 < number < 0x8000_0000
         then |name.value| > |base| && name.value[|base|] == 95 && IsNumeral(name.value[|base| + 1..], number - 1)
         else name.value == base
  {
    hide Base, Suffix, IsNumeral, IsBase, Lookup, AfterLookups;
    BaseReads(m, pool, index, max, base);
    FNameReads(m, addr, index, number);
    var signed := if number < 0x8000_0000 then number else number - 0x1_0000_0000;
    var c := AfterLookups(m, pool, InitialCaches(), before);
    if before == [] {
      assert c == InitialCaches() by { NoLookups(m, pool); }
      FirstLookupIsUncached(m, pool, addr, max);
    } else {
      ShortNamesAlike(m, pool, index, 60, max);
      CachesTransparent(m, pool, before, addr, 60, max);
    }
    assert Uncached(m, pool, addr, max) == Some(Fresh(base, signed, max));
    FreshIs(base, signed, max);
  }

  lemma NoLookups(m: Memory, pool: Pool)
    ensures AfterLookups(m, pool, InitialCaches(), []) == InitialCaches()
  {
  }

  lemma FNameReads(m: Memory, addr: int, index: nat, number: nat)
    requires FNameHolds(m, addr, index, number)
    ensures FName(m, addr) == Some((index, if number < 0x8000_0000 then number else number - 0x1_0000_0000))
  {
    hide ReadI32, U32;
    ReadsPtr(m, addr);
    ReadsI32(m, addr);
    ReadsI32(m, addr + 4);
  }

  lemma FreshIs(base: seq<byte>, number: int, max: nat)
    requires number < 0x8000_0000 && |base| + 12 <= max && |base| + 12 <= 1024
    ensures var name := Fresh(base, number, max);
      && base <= name
      && if number > 0 then |name| > |base| && name[|base|] == 95 && IsNumeral(name[|base| + 1..], number - 1)
         else name == base
  {
    hide IsNumeral;
    if number > 0 {
      SuffixIsNumeral(number);
      var s := Suffix(number);
      assert Fresh(base, number, max) == base + s by { hide Suffix; }
      assert (base + s)[|base| + 1..] == s[1..];
    } else {
      assert Suffix(number) == [] && base + [] == base;
    }
  }
}
