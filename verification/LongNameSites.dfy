/** Ready sites with a name too long for a cache slot, and a memory with one that unmapped memory cuts off. */
module LongNameSites {
  import opened Bytes
  import opened Wrappers
  import opened RemoteMemory
  import opened NameCache
  import opened ObjectWalk
  import opened ReflectionInit
  import opened SampleMemory
  import opened ObjectSites

  // ---------- The memory ----------

  /** An entry header, and the letters it promises or fewer of them. */
  function Text(len: nat, letters: seq<byte>): (t: seq<byte>)
    requires len < 0x100
  {
    [64 * len % 256, 64 * len / 256] + letters
  }

  function TextWord(t: seq<byte>, at: nat): Word
  {
    seq(8, i requires 0 <= i < 8 => if at + i < |t| then t[at + i] else 0)
  }

  /** A class with that entry for its name in front of the metaclass, and its one instance behind it. */
  function WordAt(t: seq<byte>, k: nat): Option<Word>
  {
    if 0x3000 <= k < 0x3000 + |t| && k < 0x3080 then (if k % 8 == 0 then Some(TextWord(t, k - 0x3000)) else None)
    else if k == 0x2040 then Some(W(0x3000))
    else if k == 0x3080 then Some(EntryWord(META_NAME))
    else if k == GUOBJ + 0x10 then Some(W(ITEMS))
    else if k == GUOBJ + 0x20 then Some([0, 0, 0, 0, 3, 0, 0, 0])
    else if k == ITEMS then Some(W(CLASS_A))
    else if k == ITEMS + 24 then Some(W(METACLASS))
    else if k == ITEMS + 48 then Some(W(AN_A))
    else if k == CLASS_A + 16 || k == METACLASS + 16 then Some(W(METACLASS))
    else if k == METACLASS + 24 then Some(W(META_INDEX))
    else if k == AN_A + 16 then Some(W(CLASS_A))
    else if k == CLASS_A || k == CLASS_A + 8 || k == CLASS_A + 24 || k == AN_A || k == AN_A + 8 then Some(W(0))
    else if k == METACLASS || k == METACLASS + 8 then Some(W(0))
    else None
  }

  function WordsOf(t: seq<byte>): Words
  {
    k => WordAt(t, k)
  }

  ghost predicate HasOneClass(ws: Words)
  {
    && Proper(ws) && HasMeta(ws) && HasArray(ws, 3)
    && Holds(ws, ITEMS, CLASS_A) && Holds(ws, ITEMS + 24, METACLASS) && Holds(ws, ITEMS + 48, AN_A)
    && IsObject(ws, CLASS_A, METACLASS) && IsObject(ws, AN_A, CLASS_A) && Holds(ws, CLASS_A + 0x18, 0)
    && ws(CLASS_A + 0x30).None?
  }

  lemma OneClass(t: seq<byte>)
    requires |t| <= 0x80
    ensures HasOneClass(WordsOf(t)) && HoldsText(WordsOf(t), 0x3000, t)
  {
    hide W, EntryWord;
    forall i | 0 <= i < |t| ensures HasByte(WordsOf(t), 0x3000 + i, t[i]) {
      assert (0x3000 + i) / 8 * 8 - 0x3000 + (0x3000 + i) % 8 == i;
    }
  }

  /** The entry, as far as a buffer of `max` bytes asks for it. */
  lemma ReadsText(ws: Words, len: nat, letters: seq<byte>, max: nat)
    requires 0 < len < 0x100 && max > 1 && NameCap(len, max) <= |letters|
    requires Proper(ws) && NamePool(ws) && HoldsText(ws, 0x3000, Text(len, letters))
    ensures Base(MemoryOf(ws), POOL, 0, max) == Some(CString(letters[..NameCap(len, max)]))
  {
    hide MemoryOf, Proper, FirstTableName, ReadPtr, HoldsText, CString, Read;
    var m := MemoryOf(ws);
    var n := NameCap(len, max);
    var t := Text(len, letters);
    EntryHeader(ws, len, letters);
    ReadText(ws, 0x3000, t, 2, n);
    assert t[2..2 + n] == letters[..n];
    assert BlockName(m, POOL, 0, max) == Some(CString(letters[..n]));
  }

  lemma EntryHeader(ws: Words, len: nat, letters: seq<byte>)
    requires len < 0x100 && Proper(ws) && NamePool(ws) && HoldsText(ws, 0x3000, Text(len, letters))
    ensures ReadU16(MemoryOf(ws), 0x3000) == Some(64 * len) && ReadPtr(MemoryOf(ws), 0x2040) == 0x3000
    ensures FirstTableName(MemoryOf(ws), POOL, 0, 0) == []
  {
    hide MemoryOf, Proper, FirstTableName, ReadPtr, HoldsText, FromLittleEndian;
    var t := Text(len, letters);
    NoTables(ws, 0);
    ReadsValue(ws, 0x2040, 0x3000);
    ReadText(ws, 0x3000, t, 0, 2);
    TwoBytes(t[0..2]);
  }

  // ---------- A cut-off entry ----------

  function Letters(n: nat): (b: seq<byte>)
    ensures |b| == n && 0 !in b
  {
    seq(n, i => 97)
  }

  function CutOffMemory(): Memory
  {
    MemoryOf(WordsOf(Text(100, Letters(70))))
  }

  /** Of 100 letters 70 are mapped: a buffer of 60 bytes resolves the name, one of 256 does not. */
  lemma CutOffEntry()
    ensures FName(CutOffMemory(), CLASS_A + 0x18) == Some((0, 0))
    ensures Base(CutOffMemory(), POOL, 0, STORED + 1) == Some(Letters(STORED))
    ensures Base(CutOffMemory(), POOL, 0, CANDIDATE) == None
  {
    hide MemoryOf, CString, HoldsText, WordAt, FirstTableName, Proper;
    var t := Text(100, Letters(70));
    var ws := WordsOf(t);
    OneClass(t);
    ReadsValue(ws, CLASS_A + 0x18, 0);
    ReadsText(ws, 100, Letters(70), STORED + 1);
    assert Letters(70)[..STORED] == Letters(STORED);
    CStringIs(Letters(STORED), Letters(STORED));
    EntryHeader(ws, 100, Letters(70));
    EndOfText();
    assert !Readable(MemoryOf(ws), 0x3002, 100);
  }

  lemma EndOfText()
    ensures 0x3048 !in CutOffMemory()
  {
    hide MemoryOf;
    Unmapped(WordsOf(Text(100, Letters(70))), 0x3048);
  }

  /** So on that memory the small lookup makes the later, larger one succeed. */
  lemma CutOffShows()
    ensures var m, addr := CutOffMemory(), CLASS_A + 0x18;
      && Uncached(m, POOL, addr, CANDIDATE).None?
      && var c := AfterLookups(m, POOL, InitialCaches(), [Request(addr, STORED + 1)]);
        Lookup(m, POOL, c, addr, CANDIDATE).name.Some?
  {
    hide CutOffMemory, Lookup, AfterLookups, FName, Base;
    CutOffEntry();
    CutOffEntryShows(CutOffMemory(), POOL, CLASS_A + 0x18, STORED + 1, CANDIDATE);
  }

  // ---------- Names of 59 to 63 bytes ----------

  predicate TooLong(name: seq<byte>)
  {
    STORED <= |name| < LOOKUP_NAME && 0 !in name
  }

  /** A name whose stored part is the wanted one though it is longer, or the wanted one, which is cut. */
  function Decoy(name: seq<byte>): (b: seq<byte>)
    requires TooLong(name)
    ensures STORED < |b| < LOOKUP_NAME && 0 !in b
  {
    if |name| == STORED then name + [97] else name
  }

  function SiteFor(name: seq<byte>): Site
    requires TooLong(name)
  {
    SiteOf(WordsOf(Text(|Decoy(name)|, Decoy(name))))
  }

  function WorldFor(name: seq<byte>): World
    requires TooLong(name)
  {
    World(SiteFor(name).m, POOL, METACLASS, ITEMS, 3)
  }

  /** The three entries, their classes, and which of them derive from the first. */
  predicate Entries(g: World)
  {
    && ObjectAt(g.m, ITEMS, 0) == CLASS_A && ReadHeader(g.m, CLASS_A) == Some(Header(0, METACLASS))
    && ObjectAt(g.m, ITEMS, 1) == METACLASS && ReadHeader(g.m, METACLASS) == Some(Header(0, METACLASS))
    && ObjectAt(g.m, ITEMS, 2) == AN_A && ReadHeader(g.m, AN_A) == Some(Header(0, CLASS_A))
    && !Reaches(g.m, METACLASS, CLASS_A, MAX_SUPERS) && Reaches(g.m, CLASS_A, CLASS_A, MAX_SUPERS)
  }

  lemma EntriesFor(name: seq<byte>)
    requires TooLong(name)
    ensures Entries(WorldFor(name))
    ensures Searchable(SiteFor(name)) && Scene(SiteFor(name)) == WorldFor(name)
  {
    hide MemoryOf, ReadPtr, ReadHeader, Proper, HoldsText, WordAt, Reaches, ObjectsInfo, EntryWord, HasArray;
    var t := Text(|Decoy(name)|, Decoy(name));
    var ws := WordsOf(t);
    OneClass(t);
    ReadsArray(ws, 3);
    ReadsValue(ws, ITEMS, CLASS_A);
    ReadsValue(ws, ITEMS + 24, METACLASS);
    ReadsValue(ws, ITEMS + 48, AN_A);
    ReadsHeader(ws, CLASS_A, 0, METACLASS);
    ReadsHeader(ws, METACLASS, 0, METACLASS);
    ReadsHeader(ws, AN_A, 0, CLASS_A);
    NoSuper(ws, METACLASS, CLASS_A);
    NoSuper(ws, CLASS_A, CLASS_A);
  }

  /** The names of the decoy and of the metaclass. */
  predicate Names(m: Memory, decoy: seq<byte>)
  {
    && FName(m, CLASS_A + 0x18) == Some((0, 0)) && FName(m, METACLASS + 0x18) == Some((META_INDEX, 0))
    && Base(m, POOL, 0, CANDIDATE) == Some(decoy)
    && Uncached(m, POOL, CLASS_A + 0x18, CANDIDATE) == Some(decoy)
    && Uncached(m, POOL, METACLASS + 0x18, CANDIDATE) == Some(META_NAME)
  }

  lemma NamesFor(name: seq<byte>)
    requires TooLong(name)
    ensures Names(SiteFor(name).m, Decoy(name))
  {
    hide MemoryOf, HoldsText, WordAt, Proper, CString, Base, ReadI32, Suffix, HasArray, EntryWord;
    var b := Decoy(name);
    var ws := WordsOf(Text(|b|, b));
    OneClass(Text(|b|, b));
    ReadsValue(ws, CLASS_A + 0x18, 0);
    ReadsValue(ws, METACLASS + 0x18, META_INDEX);
    ReadsText(ws, |b|, b, CANDIDATE);
    assert b[..|b|] == b;
    CStringIs(b, b);
    NoSuffix();
    assert b + [] == b;
    ReadsName(ws, METACLASS, META_INDEX, META_NAME, CANDIDATE);
  }

  // ---------- What initialisation leaves ----------

  /** The scan passes the decoy and settles on the metaclass behind it. */
  lemma ReadyFor(name: seq<byte>)
    requires TooLong(name)
    ensures Ready(SiteFor(name)) && Honest(SiteFor(name).m, POOL, InitCaches(SiteFor(name)), CANDIDATE)
  {
    hide MemoryOf, HoldsText, WordAt, Proper, Uncached, ReadHeader, Reaches, ObjectAt, ReadPtr, Base, FName, HasMeta;
    hide HasArray, Ready, Honest;
    var s := SiteFor(name);
    var t := Text(|Decoy(name)|, Decoy(name));
    OneClass(t);
    EntriesFor(name);
    NamesFor(name);
    MetaIs(WordsOf(t));
    assert MetaOf(s.m, POOL, CLASS_A) == 0;
    assert FirstMeta(s.m, POOL, ITEMS, 3, 1) == METACLASS;
    assert FirstMeta(s.m, POOL, ITEMS, 3, 0) == METACLASS;
    ReadyWhere(WordsOf(t), 3);
  }

  /** A lookup leaves the slots of other entries alone. */
  lemma OtherSlots(m: Memory, pool: Pool, c: Caches, addr: int, max: nat, slot: nat)
    requires Sized(c) && slot < SLOTS
    requires FName(m, addr).Some? ==> FName(m, addr).value.0 % SLOTS != slot
    ensures Lookup(m, pool, c, addr, max).caches.slots[slot] == c.slots[slot]
  {
    hide FName, BaseAfter, Warm, KnownName;
  }

  lemma DecoyStored(m: Memory, decoy: seq<byte>)
    requires Names(m, decoy) && |decoy| > STORED
    ensures var o := Lookup(m, POOL, InitialCaches(), CLASS_A + 0x18, CANDIDATE);
      && Honest(m, POOL, o.caches, CANDIDATE) && o.caches.slots[0] == Slot(0, decoy[..STORED])
      && o.name == Some(decoy)
  {
    hide Base, BaseAfter, KnownName, Warm, FName, Suffix;
    InitiallyHonest(m, POOL, CANDIDATE);
    LookupHonest(m, POOL, InitialCaches(), CLASS_A + 0x18, CANDIDATE, CANDIDATE);
    MissIsBase(m, POOL, InitialCaches(), 0, CANDIDATE, CANDIDATE);
    FirstLookupIsUncached(m, POOL, CLASS_A + 0x18, CANDIDATE);
  }

  /** Initialisation has stored the front of the decoy's name. */
  lemma InitStores(name: seq<byte>)
    requires TooLong(name)
    ensures InitCaches(SiteFor(name)).slots[0] == Slot(0, Decoy(name)[..STORED])
  {
    hide MemoryOf, WordAt, Lookup, FName, Uncached, ObjectAt, ReadHeader, Reaches, ReadPtr, Honest;
    hide InitialCaches, ObjectsInfo, Base;
    var m, c := SiteFor(name).m, InitialCaches();
    EntriesFor(name);
    NamesFor(name);
    DecoyStored(m, Decoy(name));
    var own := Lookup(m, POOL, c, CLASS_A + 0x18, CANDIDATE);
    assert TryObject(m, POOL, c, CLASS_A) == Meta(own.caches, 0);
    MetaTried(name, own.caches);
    OtherSlots(m, POOL, own.caches, METACLASS + 0x18, CANDIDATE, 0);
    assert MetaScan(m, POOL, own.caches, ITEMS, 3, 1) == TryObject(m, POOL, own.caches, METACLASS);
    assert MetaScan(m, POOL, c, ITEMS, 3, 0) == MetaScan(m, POOL, own.caches, ITEMS, 3, 1);
  }

  lemma MetaTried(name: seq<byte>, c: Caches)
    requires TooLong(name) && Honest(SiteFor(name).m, POOL, c, CANDIDATE)
    ensures Sized(c)
    ensures TryObject(SiteFor(name).m, POOL, c, METACLASS)
      == Meta(Lookup(SiteFor(name).m, POOL, c, METACLASS + 0x18, CANDIDATE).caches, METACLASS)
  {
    hide MemoryOf, WordAt, Lookup, FName, Uncached, ReadPtr, Honest, HasArray, HoldsText, Proper, EntryWord;
    SizedHonest(SiteFor(name).m, POOL, c);
    NamesFor(name);
    CandidateMatches(SiteFor(name).m, POOL, c, METACLASS + 0x18, META_NAME, CANDIDATE);
    OneClass(Text(|Decoy(name)|, Decoy(name)));
    ReadsValue(WordsOf(Text(|Decoy(name)|, Decoy(name))), METACLASS + 0x10, METACLASS);
  }

  /** The walk the first search of a ready context starts with. */
  function StartFor(name: seq<byte>): (w: Walk)
    requires TooLong(name)
    ensures SizedWalk(w)
  {
    Turned(FreshWalk(InitCaches(SiteFor(name))), name)
  }

  /** That search's lookups: the decoy is hit and cut, the metaclass has its own name. */
  predicate Lookups(m: Memory, c: Caches, name: seq<byte>)
    requires TooLong(name) && Sized(c)
  {
    && Lookup(m, POOL, c, CLASS_A + 0x18, CANDIDATE) == Outcome(c, Some(Decoy(name)[..STORED]))
    && Lookup(m, POOL, c, METACLASS + 0x18, CANDIDATE).name == Some(META_NAME)
  }

  lemma LookupsFor(name: seq<byte>)
    requires TooLong(name)
    ensures Lookups(SiteFor(name).m, InitCaches(SiteFor(name)), name)
  {
    hide SiteFor, Base, BaseAfter, KnownName, Warm, FName, Decoy, Suffix, Metaclass, Honest, Uncached;
    var m, c := SiteFor(name).m, InitCaches(SiteFor(name));
    NamesFor(name);
    ReadyFor(name);
    InitStores(name);
    CandidateMatches(m, POOL, c, METACLASS + 0x18, META_NAME, CANDIDATE);
    NoSuffix();
    assert Decoy(name)[..STORED] + [] == Decoy(name)[..STORED];
  }

  // ---------- The search there ----------

  lemma WantedFor(name: seq<byte>)
    requires TooLong(name)
    ensures Wanted(WorldFor(name), name) == if |name| == STORED then [] else [AN_A]
  {
    hide SiteFor, ObjectAt, ReadHeader, Reaches, Uncached;
    var g := WorldFor(name);
    EntriesFor(name);
    NamesFor(name);
    assert FirstClass(g, name, 2) == 0 && FirstClass(g, name, 1) == 0;
    assert Instances(g, CLASS_A, 3) == [];
    assert Instances(g, CLASS_A, 2) == [AN_A];
    assert Instances(g, CLASS_A, 1) == [AN_A];
    assert Instances(g, CLASS_A, 0) == [AN_A];
  }

  /** The first turn takes the stored part for the name, or the name for another. */
  lemma FirstTurn(name: seq<byte>)
    requires TooLong(name)
    ensures var w := StartFor(name);
      Visit(WorldFor(name), w, name)
      == Hunt(if |name| == STORED then w.(cls := CLASS_A) else w.(cursor := 1), 0, 1)
  {
    hide SiteFor, ObjectAt, ReadHeader, Reaches, Lookup, Metaclass;
    EntriesFor(name);
    LookupsFor(name);
    if |name| == STORED {
      assert Decoy(name)[..STORED] == name;
    }
  }

  /** With the decoy taken for the class, its instance is delivered. */
  lemma TakenForTheClass(name: seq<byte>)
    requires TooLong(name)
    ensures Search(WorldFor(name), StartFor(name).(cls := CLASS_A), name, BUDGET - 1).found == AN_A
  {
    hide SiteFor, ObjectAt, ReadHeader, Reaches, Lookup, Metaclass, Search;
    var g := WorldFor(name);
    var w := StartFor(name).(cls := CLASS_A);
    EntriesFor(name);
    assert KeySlot(METACLASS) == 0x85 && KeySlot(CLASS_A) == 0;
    hide KeySlot;
    SearchStep(g, w, name, BUDGET - 1);
    var first := Visit(g, w, name);
    assert first.found == 0 && first.walk.cursor == 1 && first.walk.keys[0] == 0 && first.walk.cls == CLASS_A;
    assert first.walk.keys[0x85] == METACLASS && !first.walk.matches[0x85];
    SearchStep(g, first.walk, name, BUDGET - 2);
    var second := Visit(g, first.walk, name);
    assert second == Hunt(first.walk.(cursor := 2), 0, 1);
    SearchStep(g, second.walk, name, BUDGET - 3);
    assert Visit(g, second.walk, name).found == AN_A;
  }

  /** With the class missed, the end is reached without a result. */
  lemma Missed(name: seq<byte>)
    requires TooLong(name) && |name| > STORED
    ensures var h := Search(WorldFor(name), StartFor(name).(cursor := 1), name, BUDGET - 1);
      h.found == 0 && h.walk.cursor == 3
  {
    hide SiteFor, ObjectAt, ReadHeader, Reaches, Lookup, Metaclass, Search;
    var g := WorldFor(name);
    var w := StartFor(name).(cursor := 1);
    EntriesFor(name);
    LookupsFor(name);
    SearchStep(g, w, name, BUDGET - 1);
    var first := Visit(g, w, name);
    assert first.found == 0 && first.walk.cursor == 2 && first.walk.cls == 0;
    SearchStep(g, first.walk, name, BUDGET - 2);
    assert Visit(g, first.walk, name) == Hunt(first.walk.(cursor := 3), 0, 1);
    SearchStops(g, first.walk.(cursor := 3), name, BUDGET - 3);
  }

  lemma FirstCall(name: seq<byte>)
    requires TooLong(name)
    ensures var f := Call(SiteFor(name), FreshWalk(InitCaches(SiteFor(name))), name);
      if |name| == STORED then f.obj == AN_A else f.obj == 0 && f.walk.cursor == -1
  {
    hide MemoryOf, WordAt, Visit, ObjectsInfo, Search, Entries, InitCaches, Turned, FreshWalk, Text, WordsOf;
    var g := WorldFor(name);
    EntriesFor(name);
    assert StartFor(name).cursor == 0 by { StartsAtZero(name); }
    FirstTurn(name);
    SearchStep(g, StartFor(name), name, BUDGET);
    if |name| == STORED {
      TakenForTheClass(name);
    } else {
      Missed(name);
    }
    CallIs(name);
  }

  lemma StartsAtZero(name: seq<byte>)
    requires TooLong(name)
    ensures StartFor(name).cursor == 0
  {
    hide SiteFor, InitCaches;
  }

  lemma CallIs(name: seq<byte>)
    requires TooLong(name)
    ensures StartFor(name).cursor == 0
    ensures Call(SiteFor(name), FreshWalk(InitCaches(SiteFor(name))), name)
      == Closed(WorldFor(name), Search(WorldFor(name), StartFor(name), name, BUDGET))
  {
    hide MemoryOf, WordAt, ObjectsInfo, Search, Entries, InitCaches, Turned, Text, WordsOf;
    EntriesFor(name);
    StartsAtZero(name);
  }

  lemma Misled(name: seq<byte>)
    requires TooLong(name)
    ensures var s := SiteFor(name);
      Ready(s) && Run(s, FreshWalk(InitCaches(s)), name).objs != Wanted(WorldFor(name), name)
  {
    hide MemoryOf, WordAt, ObjectsInfo, Metaclass, PoolAt, Call, Text, WordsOf;
    ReadyFor(name);
    WantedFor(name);
    FirstCall(name);
  }

  /** On every ready site the first search of a new context for that name is exact. */
  ghost predicate AlwaysExact(name: seq<byte>)
    requires |name| < LOOKUP_NAME
  {
    forall s: Site :: Ready(s) && Searchable(s) ==> Exact(s, name)
  }

  predicate Exact(s: Site, name: seq<byte>)
    requires Ready(s) && Searchable(s) && |name| < LOOKUP_NAME
  {
    Run(s, FreshWalk(InitCaches(s)), name).objs == Wanted(Scene(s), name)
  }

  /** Of the names for which runs end, those below 59 bytes are the ones always searched for exactly. */
  lemma ExactlyBelow59(name: seq<byte>)
    requires |name| < 64 && 0 !in name
    ensures AlwaysExact(name) <==> |name| < 59
  {
    hide SiteFor, Searchable, Honest, Run, Wanted, Scene, Metaclass, PoolAt;
    if |name| < STORED {
      forall s: Site | Ready(s) && Searchable(s)
        ensures Exact(s, name)
      {
        MetaclassIsFirst(s.m, s.pool, s.guobj);
        FindsExactlyTheInstances(s, InitCaches(s), name);
      }
    } else {
      EntriesFor(name);
      Misled(name);
      assert !Exact(SiteFor(name), name);
    }
  }
}
