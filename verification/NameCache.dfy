/** FName resolution with its two caches: ue4r_resolve_name in source/daemon/ue4_reflection.c. */
module NameCache {
  import opened Bytes
  import opened Wrappers
  import opened RemoteMemory
  import Decimal

  const SLOTS := 8192
  const CHUNKS := 32
  const STORED := 59     // name_cache[].name without its NUL
  const NAME_BUF := 1024

  /** The two addresses resolution starts from. */
  datatype Pool = Pool(gnamepool: nat, chunkTable: nat)

  // ---------- Resolution without caches ----------

  /** The low bytes of 256 UTF-16 units. */
  function LowBytes(b: seq<byte>): (s: seq<byte>)
    requires |b| == 512
  {
    seq(256, i requires 0 <= i < 256 => b[2 * i])
  }

  predicate IsWide(m: Memory, entry: nat)
  {
    var flags := ReadU16(m, entry + 8);
    flags.Some? && flags.value % 2 == 1
  }

  /** The text of an FNameEntry; empty when there is none. */
  function EntryName(m: Memory, entry: nat): seq<byte>
  {
    if IsWide(m, entry) then
      match Read(m, entry + 0x0c, 512)
      case Some(b) => CString(LowBytes(b))
      case None => []
    else
      match StringAt(m, entry + 0x0c, NAME_BUF)
      case Some(s) => s
      case None => []
  }

  function ChunkName(m: Memory, chunk: nat, index: nat): seq<byte>
  {
    if !ValidPtr(chunk) then []
    else
      var entry := ReadPtr(m, chunk + index % 16384 * 8);
      if ValidPtr(entry) then EntryName(m, entry) else []
  }

  function ChunkPtr(m: Memory, table: nat, k: nat): nat
  {
    ReadPtr(m, table + k * 8)
  }

  function TableName(m: Memory, table: nat, index: nat): seq<byte>
  {
    if ValidPtr(table) then ChunkName(m, ChunkPtr(m, table, index / 16384), index) else []
  }

  /** The three tables tried after the known one. */
  function Table(m: Memory, pool: Pool, t: nat): nat
  {
    if t == 0 then pool.gnamepool
    else if t == 1 then ReadPtr(m, pool.gnamepool)
    else ReadPtr(m, pool.gnamepool + 8)
  }

  function FirstTableName(m: Memory, pool: Pool, index: nat, t: nat): seq<byte>
    requires t <= 3
    decreases 3 - t
  {
    if t == 3 then []
    else
      var name := TableName(m, Table(m, pool, t), index);
      if name != [] then name else FirstTableName(m, pool, index, t + 1)
  }

  /** The block-based layout: how much is read depends on the caller's buffer. */
  function BlockName(m: Memory, pool: Pool, index: nat, max: nat): Option<seq<byte>>
    requires max > 0
  {
    var block := ReadPtr(m, pool.gnamepool + 0x40 + index / 0x1_0000 * 8);
    if !ValidPtr(block) then None
    else
      var entry := block + index % 0x1_0000 * 2;
      match ReadU16(m, entry)
      case None => None
      case Some(header) =>
        var len := header / 64;
        if 0 < len <= 1024 && header % 2 == 0 then
          match Read(m, entry + 2, NameCap(len, max))
          case Some(b) => Some(CString(b))
          case None => None
        else None
  }

  function NameCap(len: nat, max: nat): nat
    requires max > 0
  {
    Min(Min(len, max - 1), NAME_BUF - 1)
  }

  /** The name of entry `index` as a fresh context resolves it for a buffer of `max` bytes. */
  function Base(m: Memory, pool: Pool, index: nat, max: nat): Option<seq<byte>>
    requires max > 0
  {
    var known := if index / 16384 < CHUNKS then TableName(m, pool.chunkTable, index) else [];
    BaseAfter(m, pool, index, max, known)
  }

  /** What the later strategies make of the first one's answer. */
  function BaseAfter(m: Memory, pool: Pool, index: nat, max: nat, known: seq<byte>): Option<seq<byte>>
    requires max > 0
  {
    if known != [] then Some(known)
    else
      var other := FirstTableName(m, pool, index, 0);
      if other != [] then Some(other) else BlockName(m, pool, index, max)
  }

  /** printf("_%d", number - 1), or nothing. */
  function Suffix(number: int): (s: seq<byte>)
  {
    if number > 0 then [95] + Ascii(Decimal.Digits(number - 1)) else []
  }

  function Ascii(s: string): (b: seq<byte>)
    ensures |b| == |s|
  {
    seq(|s|, i requires 0 <= i < |s| => if s[i] as int < 256 then s[i] as int else 63)
  }

  /** An instance number has at most ten digits. */
  lemma SuffixLength(number: int)
    requires number < 0x8000_0000
    ensures |Suffix(number)| <= 11
    ensures number > 0 ==> |Suffix(number)| >= 2
  {
    if number > 0 {
      assert Decimal.Power10(10) == 10 * Decimal.Power10(9) == 100 * Decimal.Power10(8) == 1000 * Decimal.Power10(7);
      assert Decimal.Power10(7) == 10 * Decimal.Power10(6) == 100 * Decimal.Power10(5) == 1000 * Decimal.Power10(4);
      assert Decimal.Power10(4) == 10 * Decimal.Power10(3) == 100 * Decimal.Power10(2) == 1000 * Decimal.Power10(1);
      Decimal.DigitsLength(number - 1, 10);
      Decimal.DigitsDenote(number - 1);
    }
  }

  /** The text a fresh resolution leaves in a buffer of `max` bytes. */
  function Fresh(base: seq<byte>, number: int, max: nat): seq<byte>
    requires max > 0
  {
    var suffix := Suffix(number);
    Cut(if |base| + |suffix| < NAME_BUF then base + suffix else base, max - 1)
  }

  /** The text a cache hit leaves there. */
  function Hit(stored: seq<byte>, number: int, max: nat): seq<byte>
    requires max > 0
  {
    Cut(stored + Suffix(number), max - 1)
  }

  /** The FName at an address: its index and its number, when the index can be used. */
  function FName(m: Memory, addr: int): (f: Option<(nat, int)>)
  {
    if !ValidPtr(addr) then None
    else
      match ReadI32(m, addr)
      case None => None
      case Some(index) =>
        if index < 0 then None
        else
          var number := ReadI32(m, addr + 4);
          Some((index, if number.Some? then number.value else 0))
  }

  /** ue4r_resolve_name with both caches taken out. */
  function Uncached(m: Memory, pool: Pool, addr: int, max: nat): Option<seq<byte>>
  {
    if max == 0 || FName(m, addr).None? then None
    else
      var (index, number) := FName(m, addr).value;
      match Base(m, pool, index, max)
      case None => None
      case Some(base) => Some(Fresh(base, number, max))
  }

  // ---------- Resolution with caches ----------

  datatype Slot = Slot(index: int, name: seq<byte>)
  datatype Caches = Caches(slots: seq<Slot>, chunks: seq<nat>)

  predicate Sized(c: Caches)
  {
    |c.slots| == SLOTS && |c.chunks| == CHUNKS
  }

  function InitialCaches(): (c: Caches)
    ensures Sized(c)
  {
    Caches(seq(SLOTS, i => Slot(-1, [])), seq(CHUNKS, i => 0))
  }

  predicate HitSlot(c: Caches, index: nat)
    requires Sized(c)
  {
    c.slots[index % SLOTS].index == index && c.slots[index % SLOTS].name != []
  }

  /** The chunk cache after entry `index` was looked for in the known table. */
  function Warm(m: Memory, pool: Pool, chunks: seq<nat>, index: nat): (w: seq<nat>)
    requires |chunks| == CHUNKS
    ensures |w| == CHUNKS
  {
    var k := index / 16384;
    if ValidPtr(pool.chunkTable) && k < CHUNKS && chunks[k] == 0 then
      chunks[k := ChunkPtr(m, pool.chunkTable, k)]
    else chunks
  }

  function KnownName(m: Memory, pool: Pool, chunks: seq<nat>, index: nat): seq<byte>
    requires |chunks| == CHUNKS
  {
    var k := index / 16384;
    if ValidPtr(pool.chunkTable) && k < CHUNKS then ChunkName(m, chunks[k], index) else []
  }

  datatype Outcome = Outcome(caches: Caches, name: Option<seq<byte>>)

  /** One call of ue4r_resolve_name. */
  function Lookup(m: Memory, pool: Pool, c: Caches, addr: int, max: nat): (o: Outcome)
    requires Sized(c)
    ensures Sized(o.caches)
  {
    if max == 0 || FName(m, addr).None? then Outcome(c, None)
    else
      var (index, number) := FName(m, addr).value;
      if HitSlot(c, index) then Outcome(c, Some(Hit(c.slots[index % SLOTS].name, number, max)))
      else
        var chunks := Warm(m, pool, c.chunks, index);
        match BaseAfter(m, pool, index, max, KnownName(m, pool, chunks, index))
        case None => Outcome(c.(chunks := chunks), None)
        case Some(base) =>
          Outcome(Caches(c.slots[index % SLOTS := Slot(index, Cut(base, STORED))], chunks),
                  Some(Fresh(base, number, max)))
  }

  // ---------- What the caches hold ----------

  predicate HonestSlot(m: Memory, pool: Pool, s: Slot, size: nat)
    requires size > 0
  {
    s.index >= 0 ==>
      Base(m, pool, s.index, size).Some? && s.name == Cut(Base(m, pool, s.index, size).value, STORED)
  }

  /** Every slot and every chunk pointer holds what memory says to a buffer of `size` bytes. */
  ghost predicate Honest(m: Memory, pool: Pool, c: Caches, size: nat)
  {
    && Sized(c) && size > STORED
    && (forall i :: 0 <= i < SLOTS ==> HonestSlot(m, pool, c.slots[i], size))
    && (forall k :: 0 <= k < CHUNKS && c.chunks[k] != 0 ==> c.chunks[k] == ChunkPtr(m, pool.chunkTable, k))
  }

  lemma InitiallyHonest(m: Memory, pool: Pool, size: nat)
    requires size > STORED
    ensures Honest(m, pool, InitialCaches(), size)
  {
  }

  /** No entry that a buffer of `size` bytes can read is out of reach for one of `max` bytes. */
  ghost predicate NoEntryCutOff(m: Memory, pool: Pool, size: nat, max: nat)
    requires 0 < size && 0 < max
  {
    forall index: nat :: Base(m, pool, index, size).Some? ==> Base(m, pool, index, max).Some?
  }

  /** Then caches filled for smaller buffers serve larger ones just as well. */
  lemma HonestForLarger(m: Memory, pool: Pool, c: Caches, size: nat, max: nat)
    requires Honest(m, pool, c, size) && size <= max && NoEntryCutOff(m, pool, size, max)
    ensures Honest(m, pool, c, max)
  {
    hide Base;
    forall i | 0 <= i < SLOTS
      ensures HonestSlot(m, pool, c.slots[i], max)
    {
      assert HonestSlot(m, pool, c.slots[i], size);
      if c.slots[i].index >= 0 {
        StoredPart(m, pool, c.slots[i].index, size, max);
      }
    }
  }

  lemma CutPrefix(b: seq<byte>, n: nat, k: nat)
    requires k <= n <= |b|
    ensures Cut(CString(b), k) == Cut(CString(b[..n]), k)
  {
    CStringPrefix(b);
    CStringPrefix(b[..n]);
    var s := CString(b);
    if |s| < n {
      CStringIs(b[..n], s);
    } else {
      assert 0 !in s[..n];
      CStringIs(b[..n], s[..n]);
    }
  }

  /** The first 59 bytes of a name do not depend on the buffer it was resolved for. */
  lemma StoredPart(m: Memory, pool: Pool, index: nat, size: nat, max: nat)
    requires STORED < size <= max
    requires Base(m, pool, index, max).Some?
    ensures Base(m, pool, index, size).Some?
    ensures Cut(Base(m, pool, index, size).value, STORED) == Cut(Base(m, pool, index, max).value, STORED)
  {
    hide TableName, FirstTableName;
    if BaseAfter(m, pool, index, max, []) == BlockName(m, pool, index, max) && BlockName(m, pool, index, max).Some? {
      StoredBlockPart(m, pool, index, size, max);
    }
  }

  lemma StoredBlockPart(m: Memory, pool: Pool, index: nat, size: nat, max: nat)
    requires STORED < size <= max
    requires BlockName(m, pool, index, max).Some?
    ensures BlockName(m, pool, index, size).Some?
    ensures Cut(BlockName(m, pool, index, size).value, STORED) == Cut(BlockName(m, pool, index, max).value, STORED)
  {
    var block := ReadPtr(m, pool.gnamepool + 0x40 + index / 0x1_0000 * 8);
    var entry := block + index % 0x1_0000 * 2;
    var len := ReadU16(m, entry).value / 64;
    var few, many := NameCap(len, size), NameCap(len, max);
    assert Readable(m, entry + 2, few);
    var all, some := Read(m, entry + 2, many).value, Read(m, entry + 2, few).value;
    assert all[..few] == some;
    if few < STORED {
      assert all == some;
    } else {
      CutPrefix(all, few, STORED);
    }
  }

  /** A warm chunk cache gives the first strategy the answer memory gives. */
  lemma WarmIsRight(m: Memory, pool: Pool, c: Caches, index: nat, size: nat)
    requires Honest(m, pool, c, size)
    ensures var w := Warm(m, pool, c.chunks, index);
      && Honest(m, pool, c.(chunks := w), size)
      && KnownName(m, pool, w, index) == if index / 16384 < CHUNKS then TableName(m, pool.chunkTable, index) else []
  {
    hide ChunkName, HonestSlot, ChunkPtr;
  }

  /** Every call keeps the caches honest, whatever it looks up. */
  lemma LookupHonest(m: Memory, pool: Pool, c: Caches, addr: int, size: nat, max: nat)
    requires Honest(m, pool, c, size) && max >= size
    ensures Honest(m, pool, Lookup(m, pool, c, addr, max).caches, size)
  {
    hide Base, BaseAfter, KnownName, Warm, Fresh, Hit;
    if FName(m, addr).Some? {
      var (index, number) := FName(m, addr).value;
      if !HitSlot(c, index) {
        WarmIsRight(m, pool, c, index, size);
        MissIsBase(m, pool, c, index, size, max);
        if Base(m, pool, index, max).Some? {
          StoredPart(m, pool, index, size, max);
        }
      }
    }
  }

  lemma MissIsBase(m: Memory, pool: Pool, c: Caches, index: nat, size: nat, max: nat)
    requires Honest(m, pool, c, size) && max > 0
    ensures BaseAfter(m, pool, index, max, KnownName(m, pool, Warm(m, pool, c.chunks, index), index))
      == Base(m, pool, index, max)
  {
    hide TableName, BaseAfter, KnownName, Warm;
    WarmIsRight(m, pool, c, index, size);
  }

  /** The name has at most 59 bytes; one that cannot be resolved is not half seen by `size` bytes either. */
  predicate Short(m: Memory, pool: Pool, index: nat, size: nat, max: nat)
    requires size > 0 && max > 0
  {
    && (max > STORED || Base(m, pool, index, max) == Base(m, pool, index, size))
    && match Base(m, pool, index, max)
       case Some(base) => |base| <= STORED
       case None => NotCutOff(m, pool, index, size)
  }

  /** A buffer of `size` bytes gets nothing that could be stored and hit. */
  predicate NotCutOff(m: Memory, pool: Pool, index: nat, size: nat)
    requires size > 0
  {
    Base(m, pool, index, size).None? || Base(m, pool, index, size).value == []
  }

  /** A resolved name of at most 59 bytes is the same for every buffer of at least 60 bytes. */
  lemma ShortNamesAlike(m: Memory, pool: Pool, index: nat, size: nat, max: nat)
    requires STORED < size <= max
    requires Base(m, pool, index, max).Some? && |Base(m, pool, index, max).value| <= STORED
    ensures Base(m, pool, index, size) == Base(m, pool, index, max)
  {
    hide TableName, FirstTableName;
    if BlockName(m, pool, index, max).Some? && |BlockName(m, pool, index, max).value| <= STORED {
      ShortBlockNames(m, pool, index, size, max);
    }
  }

  lemma ShortBlockNames(m: Memory, pool: Pool, index: nat, size: nat, max: nat)
    requires STORED < size <= max
    requires BlockName(m, pool, index, max).Some? && |BlockName(m, pool, index, max).value| <= STORED
    ensures BlockName(m, pool, index, size) == BlockName(m, pool, index, max)
  {
    StoredBlockPart(m, pool, index, size, max);
    var entry := ReadPtr(m, pool.gnamepool + 0x40 + index / 0x1_0000 * 8) + index % 0x1_0000 * 2;
    var len := ReadU16(m, entry).value / 64;
    var few := NameCap(len, size);
    var all := Read(m, entry + 2, NameCap(len, max)).value;
    assert all[..few] == Read(m, entry + 2, few).value;
    CutPrefix(all, few, few);
    CStringPrefix(all[..few]);
  }

  lemma StoredEither(m: Memory, pool: Pool, index: nat, size: nat, max: nat)
    requires STORED < size && STORED < max
    ensures max < size && Base(m, pool, index, size).Some? ==> Base(m, pool, index, max).Some?
    ensures Base(m, pool, index, size).Some? && Base(m, pool, index, max).Some? ==>
      Cut(Base(m, pool, index, size).value, STORED) == Cut(Base(m, pool, index, max).value, STORED)
  {
    hide Base;
    if size <= max && Base(m, pool, index, max).Some? {
      StoredPart(m, pool, index, size, max);
    } else if max < size && Base(m, pool, index, size).Some? {
      StoredPart(m, pool, index, max, size);
    }
  }

  lemma NumberBound(m: Memory, addr: int)
    requires FName(m, addr).Some?
    ensures FName(m, addr).value.1 < 0x8000_0000
  {
  }

  /** One lookup of a short name: the caches are invisible. */
  lemma LookupTransparent(m: Memory, pool: Pool, c: Caches, addr: int, size: nat, max: nat)
    requires Honest(m, pool, c, size) && max > 0
    requires FName(m, addr).Some? ==> Short(m, pool, FName(m, addr).value.0, size, max)
    ensures Lookup(m, pool, c, addr, max).name == Uncached(m, pool, addr, max)
  {
    hide Base, BaseAfter, KnownName, Warm, FName;
    if FName(m, addr).Some? {
      var (index, number) := FName(m, addr).value;
      if HitSlot(c, index) {
        NumberBound(m, addr);
        SuffixLength(number);
        assert HonestSlot(m, pool, c.slots[index % SLOTS], size);
        if max > STORED {
          StoredEither(m, pool, index, size, max);
        }
      } else {
        MissIsBase(m, pool, c, index, size, max);
      }
    }
  }

  /** The uncached lookup is the first one a new context makes, whatever it is asked for. */
  lemma FirstLookupIsUncached(m: Memory, pool: Pool, addr: int, max: nat)
    ensures Lookup(m, pool, InitialCaches(), addr, max).name == Uncached(m, pool, addr, max)
  {
    hide Base, BaseAfter, KnownName, Warm, FName;
    InitiallyHonest(m, pool, STORED + 1);
    if max > 0 && FName(m, addr).Some? {
      var index := FName(m, addr).value.0;
      assert !HitSlot(InitialCaches(), index);
      MissIsBase(m, pool, InitialCaches(), index, STORED + 1, max);
    }
  }

  // ---------- Runs ----------

  datatype Request = Request(addr: int, max: nat)

  function AfterLookups(m: Memory, pool: Pool, c: Caches, reqs: seq<Request>): (c': Caches)
    requires Sized(c)
    ensures Sized(c')
  {
    if reqs == [] then c
    else
      var last := reqs[|reqs| - 1];
      Lookup(m, pool, AfterLookups(m, pool, c, reqs[..|reqs| - 1]), last.addr, last.max).caches
  }

  lemma {:induction false} RunHonest(m: Memory, pool: Pool, reqs: seq<Request>, size: nat)
    requires size > STORED && forall r :: r in reqs ==> r.max >= size
    ensures Honest(m, pool, AfterLookups(m, pool, InitialCaches(), reqs), size)
  {
    hide Lookup;
    InitiallyHonest(m, pool, size);
    if reqs != [] {
      var last := reqs[|reqs| - 1];
      RunHonest(m, pool, reqs[..|reqs| - 1], size);
      LookupHonest(m, pool, AfterLookups(m, pool, InitialCaches(), reqs[..|reqs| - 1]), last.addr, size, last.max);
    }
  }

  /**
   * After any lookups whatever, into buffers of `size` bytes or more (60 or more), a lookup of a
   * name of at most 59 bytes gives what an uncached one gives, suffix and failure included. A failure
   * must not be that of an entry cut off between the two buffer sizes.
   */
  lemma CachesTransparent(m: Memory, pool: Pool, before: seq<Request>, addr: int, size: nat, max: nat)
    requires STORED < size <= max && forall r :: r in before ==> r.max >= size
    requires FName(m, addr).Some? ==> Short(m, pool, FName(m, addr).value.0, size, max)
    ensures Lookup(m, pool, AfterLookups(m, pool, InitialCaches(), before), addr, max).name
      == Uncached(m, pool, addr, max)
  {
    hide Lookup, Uncached, Honest, AfterLookups;
    RunHonest(m, pool, before, size);
    LookupTransparent(m, pool, AfterLookups(m, pool, InitialCaches(), before), addr, size, max);
  }

  // ---------- Where the caches show ----------

  ghost predicate HitEqualsFresh(n: nat, max: nat)
    requires max > 0
  {
    forall base: seq<byte>, number: int :: |base| == n && number < 0x8000_0000 ==>
      Hit(Cut(base, STORED), number, max) == Fresh(base, number, max)
  }

  /** A hit and a miss agree on all names of a length exactly when the stored part is enough. */
  lemma ExactlyShortNames(n: nat, max: nat)
    requires n < NAME_BUF && max > 0
    ensures HitEqualsFresh(n, max) <==> n <= 59 || max <= 60
  {
    hide Suffix;
    if n <= STORED || max <= STORED + 1 {
      forall base: seq<byte>, number: int | |base| == n && number < 0x8000_0000
        ensures Hit(Cut(base, STORED), number, max) == Fresh(base, number, max)
      {
        SuffixLength(number);
        if n > STORED {
          assert (base + Suffix(number))[..max - 1] == base[..max - 1];
          assert (base[..STORED] + Suffix(number))[..max - 1] == base[..max - 1];
        }
      }
    } else {
      var base: seq<byte> := seq(n, i => 97);
      NoSuffix();
      assert |Hit(Cut(base, STORED), 0, max)| == STORED;
      assert |Fresh(base, 0, max)| > STORED;
    }
  }

  lemma NoSuffix()
    ensures Suffix(0) == []
  {
  }

  /** A hit on a name's stored part shows nothing: it is all stored, or cut off, or ends as the suffix does. */
  predicate StoredPartWillDo(base: seq<byte>, number: int, max: nat)
  {
    || |base| <= STORED || max <= STORED + 1
    || (&& number > 0 && max - 1 <= STORED + |Suffix(number)|
        && (base + Suffix(number))[STORED..max - 1] == Suffix(number)[..max - 1 - STORED])
  }

  lemma HitIsFresh(base: seq<byte>, number: int, max: nat)
    requires max > 0 && number < 0x8000_0000
    ensures Hit(Cut(base, STORED), number, max) == Fresh(base, number, max) <==> StoredPartWillDo(base, number, max)
  {
    hide Suffix;
    SuffixLength(number);
    if |base| > STORED && max > STORED + 1 {
      if number <= 0 { EmptySuffix(number); }
      LongHitIsFresh(base, Suffix(number), max - 1);
    } else if |base| > STORED {
      assert (base + Suffix(number))[..max - 1] == base[..max - 1];
      assert (base[..STORED] + Suffix(number))[..max - 1] == base[..max - 1];
    }
  }

  lemma EmptySuffix(number: int)
    requires number <= 0
    ensures Suffix(number) == []
  {
  }

  lemma LongHitIsFresh(base: seq<byte>, suffix: seq<byte>, n: nat)
    requires |base| > STORED && n > STORED && |suffix| <= 11
    ensures Cut(base[..STORED] + suffix, n) == Cut(if |base| + |suffix| < NAME_BUF then base + suffix else base, n)
      <==> n <= STORED + |suffix| && (base + suffix)[STORED..n] == suffix[..n - STORED]
  {
    var hit, long := base[..STORED] + suffix, base + suffix;
    var text := if |base| + |suffix| < NAME_BUF then long else base;
    assert |text| > STORED + |suffix|;
    if n <= STORED + |suffix| {
      assert text[..n] == long[..n];
      assert hit[..n] == base[..STORED] + suffix[..n - STORED];
      assert long[..n] == base[..STORED] + long[STORED..n];
    }
  }

  /** The text a hit gives for an FName, were its entry stored. */
  function StoredText(m: Memory, pool: Pool, addr: int, max: nat): seq<byte>
    requires max > 0
  {
    if FName(m, addr).None? then []
    else
      match Base(m, pool, FName(m, addr).value.0, max)
      case Some(base) => Hit(Cut(base, STORED), FName(m, addr).value.1, max)
      case None => []
  }

  /** From honest caches a lookup gives the uncached text or that of a hit, and fails as an uncached one does. */
  lemma LookupIsEither(m: Memory, pool: Pool, c: Caches, addr: int, max: nat)
    requires Honest(m, pool, c, max)
    ensures Sized(c)
    ensures var name := Lookup(m, pool, c, addr, max).name;
      && name.Some? == Uncached(m, pool, addr, max).Some?
      && (name.Some? ==> name == Uncached(m, pool, addr, max) || name.value == StoredText(m, pool, addr, max))
    ensures Honest(m, pool, Lookup(m, pool, c, addr, max).caches, max)
  {
    hide Base, BaseAfter, KnownName, Warm, FName, Hit, Fresh;
    LookupHonest(m, pool, c, addr, max, max);
    if FName(m, addr).Some? {
      var index := FName(m, addr).value.0;
      if HitSlot(c, index) {
        assert HonestSlot(m, pool, c.slots[index % SLOTS], max);
      } else {
        MissIsBase(m, pool, c, index, max, max);
      }
    }
  }

  /** Names of at most 59 bytes give the same text either way. */
  lemma ShortStoredText(m: Memory, pool: Pool, addr: int, max: nat)
    requires max > STORED && Uncached(m, pool, addr, max).Some?
    requires |Base(m, pool, FName(m, addr).value.0, max).value| <= STORED
    ensures Uncached(m, pool, addr, max) == Some(StoredText(m, pool, addr, max))
  {
    hide Base, FName, Hit, Fresh;
    NumberBound(m, addr);
    HitIsFresh(Base(m, pool, FName(m, addr).value.0, max).value, FName(m, addr).value.1, max);
  }

  /** When no history at all can make a lookup differ from an uncached one. */
  predicate CachesCannotShow(m: Memory, pool: Pool, index: nat, number: int, size: nat, max: nat)
    requires size > 0 && max > 0
  {
    match Base(m, pool, index, max)
    case Some(base) => StoredPartWillDo(base, number, max)
    case None => NotCutOff(m, pool, index, size)
  }

  lemma CannotShow(m: Memory, pool: Pool, c: Caches, addr: int, size: nat, max: nat)
    requires Honest(m, pool, c, size) && STORED < size <= max && FName(m, addr).Some?
    requires CachesCannotShow(m, pool, FName(m, addr).value.0, FName(m, addr).value.1, size, max)
    ensures Lookup(m, pool, c, addr, max).name == Uncached(m, pool, addr, max)
  {
    hide Base, BaseAfter, KnownName, Warm, FName, Hit, Fresh, StoredPartWillDo;
    var (index, number) := FName(m, addr).value;
    NumberBound(m, addr);
    if HitSlot(c, index) {
      assert HonestSlot(m, pool, c.slots[index % SLOTS], size);
      StoredEither(m, pool, index, size, max);
      if Base(m, pool, index, max).Some? {
        HitIsFresh(Base(m, pool, index, max).value, number, max);
      }
    } else {
      MissIsBase(m, pool, c, index, size, max);
    }
  }

  /** The one earlier lookup after which the caches do show. */
  function Telltale(m: Memory, pool: Pool, addr: int, size: nat, max: nat): (r: Request)
    requires 0 < size <= max && FName(m, addr).Some?
    ensures r.max >= size
  {
    Request(addr, if Base(m, pool, FName(m, addr).value.0, max).Some? then max else size)
  }

  lemma TelltaleShows(m: Memory, pool: Pool, addr: int, size: nat, max: nat)
    requires STORED < size <= max && FName(m, addr).Some?
    requires !CachesCannotShow(m, pool, FName(m, addr).value.0, FName(m, addr).value.1, size, max)
    ensures var c := AfterLookups(m, pool, InitialCaches(), [Telltale(m, pool, addr, size, max)]);
      Lookup(m, pool, c, addr, max).name != Uncached(m, pool, addr, max)
  {
    hide Base, BaseAfter, KnownName, Warm, FName, Hit, Fresh;
    var (index, number) := FName(m, addr).value;
    NumberBound(m, addr);
    var r := Telltale(m, pool, addr, size, max);
    var c := AfterLookups(m, pool, InitialCaches(), [r]);
    RunOne(m, pool, InitialCaches(), r);
    InitiallyHonest(m, pool, size);
    MissIsBase(m, pool, InitialCaches(), index, size, r.max);
    var base := Base(m, pool, index, r.max).value;
    assert c == Lookup(m, pool, InitialCaches(), addr, r.max).caches;
    assert c.slots[index % SLOTS] == Slot(index, Cut(base, STORED));
    assert base != [] && HitSlot(c, index);
    if Base(m, pool, index, max).Some? {
      HitIsFresh(base, number, max);
    }
  }

  /** An entry cut off by unmapped memory: after a lookup into a small buffer a large one succeeds
   * where it would have failed. */
  lemma CutOffEntryShows(m: Memory, pool: Pool, addr: int, size: nat, max: nat)
    requires STORED < size <= max && FName(m, addr).Some?
    requires Base(m, pool, FName(m, addr).value.0, max).None?
    requires !NotCutOff(m, pool, FName(m, addr).value.0, size)
    ensures Uncached(m, pool, addr, max).None?
    ensures Lookup(m, pool, AfterLookups(m, pool, InitialCaches(), [Request(addr, size)]), addr, max).name.Some?
  {
    hide Base, FName, AfterLookups, Lookup;
    TelltaleShows(m, pool, addr, size, max);
  }

  lemma RunOne(m: Memory, pool: Pool, c: Caches, r: Request)
    requires Sized(c)
    ensures AfterLookups(m, pool, c, [r]) == Lookup(m, pool, c, r.addr, r.max).caches
  {
    hide Lookup;
    assert [r][..0] == [];
    assert AfterLookups(m, pool, c, []) == c;
  }

  /** No history of lookups into buffers of `size` bytes or more makes this lookup differ. */
  ghost predicate AlwaysTransparent(m: Memory, pool: Pool, addr: int, size: nat, max: nat)
  {
    forall before: seq<Request> :: (forall r :: r in before ==> r.max >= size) ==>
      Lookup(m, pool, AfterLookups(m, pool, InitialCaches(), before), addr, max).name == Uncached(m, pool, addr, max)
  }

  /**
   * Over all histories: the caches never show in a lookup exactly when its name is short or hidden by
   * the cut, or it cannot be resolved and a smaller buffer could not either.
   */
  lemma ExactlyTransparent(m: Memory, pool: Pool, addr: int, size: nat, max: nat)
    requires STORED < size <= max
    ensures AlwaysTransparent(m, pool, addr, size, max) <==>
      (FName(m, addr).Some? ==>
        CachesCannotShow(m, pool, FName(m, addr).value.0, FName(m, addr).value.1, size, max))
  {
    hide Lookup, Uncached, Honest, AfterLookups, FName, CachesCannotShow;
    if FName(m, addr).Some? && !CachesCannotShow(m, pool, FName(m, addr).value.0, FName(m, addr).value.1, size, max) {
      TelltaleShows(m, pool, addr, size, max);
      assert forall r :: r in [Telltale(m, pool, addr, size, max)] ==> r.max >= size;
    } else {
      forall before: seq<Request> | forall r :: r in before ==> r.max >= size
        ensures Lookup(m, pool, AfterLookups(m, pool, InitialCaches(), before), addr, max).name
          == Uncached(m, pool, addr, max)
      {
        RunHonest(m, pool, before, size);
        if FName(m, addr).Some? {
          CannotShow(m, pool, AfterLookups(m, pool, InitialCaches(), before), addr, size, max);
        } else {
          NoFName(m, pool, AfterLookups(m, pool, InitialCaches(), before), addr, max);
        }
      }
    }
  }

  lemma NoFName(m: Memory, pool: Pool, c: Caches, addr: int, max: nat)
    requires Sized(c) && FName(m, addr).None?
    ensures Lookup(m, pool, c, addr, max).name == Uncached(m, pool, addr, max)
  {
  }

  /**
   * Resolving an unnumbered name twice in a row: the answers agree exactly when the name fits
   * the slot or the buffer is no larger than one.
   */
  lemma AskedTwice(m: Memory, pool: Pool, c: Caches, addr: int, size: nat, max: nat)
    requires Honest(m, pool, c, size) && max > 0
    requires FName(m, addr).Some? && FName(m, addr).value.1 <= 0
    requires !HitSlot(c, FName(m, addr).value.0)
    requires Base(m, pool, FName(m, addr).value.0, max).Some?
    ensures var first := Lookup(m, pool, c, addr, max);
      var second := Lookup(m, pool, first.caches, addr, max);
      first.name == second.name <==>
        |Base(m, pool, FName(m, addr).value.0, max).value| <= 59 || max <= 60
  {
    hide Base, BaseAfter, KnownName, Warm, FName;
    var (index, number) := FName(m, addr).value;
    MissIsBase(m, pool, c, index, size, max);
    var base := Base(m, pool, index, max).value;
    var first := Lookup(m, pool, c, addr, max);
    assert first.name == Some(Fresh(base, number, max));
    assert Fresh(base, number, max) == Cut(base, max - 1) by {
      assert Suffix(number) == [] && base + [] == base;
    }
    if base != [] {
      assert HitSlot(first.caches, index);
      assert Lookup(m, pool, first.caches, addr, max).name == Some(Hit(Cut(base, STORED), number, max));
      assert Hit(Cut(base, STORED), number, max) == Cut(Cut(base, STORED), max - 1) by {
        assert Suffix(number) == [] && Cut(base, STORED) + [] == Cut(base, STORED);
      }
      CutsAgree(base, max - 1);
    } else {
      EmptyAgain(m, pool, c, addr, size, max);
    }
  }

  lemma CutsAgree(b: seq<byte>, n: nat)
    ensures Cut(Cut(b, STORED), n) == Cut(b, n) <==> |b| <= STORED || n <= STORED
  {
    if |b| > STORED && n > STORED {
      assert |Cut(b, n)| > STORED >= |Cut(Cut(b, STORED), n)|;
    }
  }

  /** An entry whose text is empty is stored but never hit; it is resolved anew each time. */
  lemma EmptyAgain(m: Memory, pool: Pool, c: Caches, addr: int, size: nat, max: nat)
    requires Sized(c) && Honest(m, pool, c, size) && max > 0
    requires FName(m, addr).Some?
    requires !HitSlot(c, FName(m, addr).value.0)
    requires Base(m, pool, FName(m, addr).value.0, max) == Some([])
    ensures var first := Lookup(m, pool, c, addr, max);
      Lookup(m, pool, first.caches, addr, max).name == first.name
  {
    hide Base, BaseAfter, FName, Honest, ChunkName, ChunkPtr, Fresh;
    var index := FName(m, addr).value.0;
    MissIsBase(m, pool, c, index, size, max);
    var first := Lookup(m, pool, c, addr, max);
    var w := Warm(m, pool, c.chunks, index);
    assert first.caches.chunks == w;
    assert Warm(m, pool, w, index) == w;
    assert !HitSlot(first.caches, index);
  }

  // ---------- Comparing with a wanted name ----------

  /** For a wanted name below 59 bytes, comparing the cached text is comparing the uncached one. */
  lemma CandidateMatches(m: Memory, pool: Pool, c: Caches, addr: int, wanted: seq<byte>, max: nat)
    requires Honest(m, pool, c, max) && |wanted| < STORED
    ensures Lookup(m, pool, c, addr, max).name == Some(wanted) <==> Uncached(m, pool, addr, max) == Some(wanted)
  {
    hide Base, BaseAfter, KnownName, Warm, FName;
    if FName(m, addr).Some? {
      var (index, number) := FName(m, addr).value;
      if !HitSlot(c, index) {
        MissIsBase(m, pool, c, index, max, max);
      } else {
        assert HonestSlot(m, pool, c.slots[index % SLOTS], max);
        var base := Base(m, pool, index, max).value;
        if |base| <= STORED {
          LookupTransparent(m, pool, c, addr, max, max);
        }
      }
    }
  }

  ghost predicate SameVerdict(wanted: seq<byte>, max: nat)
    requires max > 0
  {
    forall base: seq<byte>, number: int :: number < 0x8000_0000 ==>
      (Hit(Cut(base, STORED), number, max) == wanted <==> Fresh(base, number, max) == wanted)
  }

  /** Hits and misses agree about a wanted name exactly when it is below 59 bytes or cannot fit at all. */
  lemma ExactlyTheseNames(wanted: seq<byte>, max: nat)
    requires 60 < max <= 1024
    ensures SameVerdict(wanted, max) <==> |wanted| < 59 || |wanted| >= max
  {
    hide Suffix;
    NoSuffix();
    if |wanted| < STORED || |wanted| >= max {
      forall base: seq<byte>, number: int | number < 0x8000_0000
        ensures Hit(Cut(base, STORED), number, max) == wanted <==> Fresh(base, number, max) == wanted
      {
        SuffixLength(number);
      }
    } else if |wanted| == STORED {
      var base := wanted + [97];
      assert Hit(Cut(base, STORED), 0, max) == wanted;
      assert |Fresh(base, 0, max)| == STORED + 1;
    } else {
      assert Fresh(wanted, 0, max) == wanted by { assert wanted + [] == wanted; }
      assert |Hit(Cut(wanted, STORED), 0, max)| == STORED;
    }
  }
}
