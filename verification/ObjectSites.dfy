/** Sites that ue4r_init makes ready and on which the object search goes wrong, and for which names a
 * run always ends. */
module ObjectSites {
  import opened Bytes
  import opened Wrappers
  import opened RemoteMemory
  import opened NameCache
  import opened ObjectWalk
  import opened ReflectionInit
  import opened SampleMemory

  const POOL := Pool(0x2000, 0)
  const GUOBJ := 0x4000
  const ITEMS := 0x5000
  const METACLASS := 0x20850
  const META_INDEX := 0x40

  // ---------- Objects and names, as words ----------

  predicate Holds(ws: Words, k: nat, v: nat)
  {
    v < 0x100_0000 && ws(k) == Some(W(v))
  }

  lemma ReadsValue(ws: Words, k: nat, v: nat)
    requires Proper(ws) && Holds(ws, k, v)
    ensures ReadPtr(MemoryOf(ws), k) == v
    ensures ReadI32(MemoryOf(ws), k) == Some(v) && ReadI32(MemoryOf(ws), k + 4) == Some(0)
  {
    hide MemoryOf, Proper, FromLittleEndian;
    ReadWord(ws, k);
    ReadHalves(ws, k);
    Value(v);
    ZerosAreZero(W(v)[4..]);
  }

  /** An object header with these flags. */
  predicate IsFlagged(ws: Words, obj: nat, flags: nat, cls: nat)
  {
    ValidPtr(obj) && Holds(ws, obj, 0) && Holds(ws, obj + 8, flags) && Holds(ws, obj + 16, cls)
  }

  predicate IsObject(ws: Words, obj: nat, cls: nat)
  {
    IsFlagged(ws, obj, 0, cls)
  }

  lemma ReadsHeader(ws: Words, obj: nat, flags: nat, cls: nat)
    requires Proper(ws) && IsFlagged(ws, obj, flags, cls)
    ensures ReadHeader(MemoryOf(ws), obj) == Some(Header(flags, cls))
  {
    hide MemoryOf, Proper, FromLittleEndian;
    var m := MemoryOf(ws);
    ReadPart(ws, obj, 0, 8);
    ReadPart(ws, obj + 8, 0, 8);
    ReadPart(ws, obj + 16, 0, 8);
    assert Readable(m, obj, 8) && Readable(m, obj + 8, 8) && Readable(m, obj + 16, 8);
    assert Readable(m, obj, 24);
    var b := Read(m, obj, 24).value;
    assert b[8..12] == Read(m, obj + 8, 8).value[..4] == W(flags)[..4];
    assert b[16..24] == Read(m, obj + 16, 8).value == W(cls);
    Value(flags);
    Value(cls);
  }

  /** A block of names, and no table that gives one. */
  predicate NamePool(ws: Words)
  {
    ws(0x2000).None? && ws(0x2008).None? && Holds(ws, 0x2040, 0x3000)
  }

  /** An entry of one word: header, letters, zeros. */
  function EntryWord(name: seq<byte>): (w: Word)
    requires |name| <= 6
  {
    [64 * |name| % 256, 64 * |name| / 256] + name + Zeros(6 - |name|)
  }

  predicate IsEntry(ws: Words, index: nat, name: seq<byte>)
  {
    && index % 4 == 0 && index < 0x100 && 0 < |name| <= 6 && 0 !in name
    && ws(0x3000 + 2 * index) == Some(EntryWord(name))
  }

  lemma NoTables(ws: Words, index: nat)
    requires Proper(ws) && NamePool(ws) && index < 0x100
    ensures FirstTableName(MemoryOf(ws), POOL, index, 0) == []
  {
    hide MemoryOf, Proper, FromLittleEndian, EntryName, ReadPtr;
    var m := MemoryOf(ws);
    ReadNothing(ws, 0x2000);
    ReadNothing(ws, 0x2008);
    assert ChunkPtr(m, 0x2000, 0) == ReadPtr(m, 0x2000);
    assert TableName(m, Table(m, POOL, 0), index) == [];
    assert TableName(m, Table(m, POOL, 1), index) == [];
    assert TableName(m, Table(m, POOL, 2), index) == [];
    assert FirstTableName(m, POOL, index, 2) == FirstTableName(m, POOL, index, 3) == [];
    assert FirstTableName(m, POOL, index, 1) == [];
  }

  lemma ReadsEntry(ws: Words, index: nat, name: seq<byte>, max: nat)
    requires Proper(ws) && NamePool(ws) && IsEntry(ws, index, name) && max > |name|
    ensures Base(MemoryOf(ws), POOL, index, max) == Some(name)
  {
    hide MemoryOf, Proper, FirstTableName, ReadPtr, ReadU16, Read;
    var m := MemoryOf(ws);
    var entry := 0x3000 + 2 * index;
    NoTables(ws, index);
    ReadsValue(ws, 0x2040, 0x3000);
    ReadShort(ws, entry);
    assert FromLittleEndian(ws(entry).value[..2]) == 64 * |name| by { TwoBytes(ws(entry).value[..2]); }
    ReadPart(ws, entry, 2, |name|);
    assert ws(entry).value[2..2 + |name|] == name;
    assert CString(name) == name by { CStringIs(name, name); }
    assert NameCap(|name|, max) == |name|;
    assert BlockName(m, POOL, index, max) == Some(name);
  }

  /** An object whose unnumbered FName is such an entry. */
  lemma ReadsName(ws: Words, obj: nat, index: nat, name: seq<byte>, max: nat)
    requires Proper(ws) && NamePool(ws) && IsEntry(ws, index, name) && max > |name|
    requires ValidPtr(obj + 0x18) && Holds(ws, obj + 0x18, index)
    ensures Uncached(MemoryOf(ws), POOL, obj + 0x18, max) == Some(name)
  {
    hide MemoryOf, Proper, Base, ReadI32, Suffix, EntryWord;
    ReadsValue(ws, obj + 0x18, index);
    ReadsEntry(ws, index, name, max);
    NoSuffix();
    assert name + [] == name;
  }

  /** A class without a super class derives from itself only. */
  lemma NoSuper(ws: Words, cls: nat, target: nat)
    requires Proper(ws) && cls % 8 == 0 && ws(cls + 0x30).None?
    ensures Reaches(MemoryOf(ws), cls, target, MAX_SUPERS) <==> ValidPtr(cls) && cls == target
  {
    hide MemoryOf, Proper, ReadPtr;
    ReadNothing(ws, cls + 0x30);
  }

  predicate HasArray(ws: Words, count: nat)
  {
    && count < 0x8000
    && Holds(ws, GUOBJ + 0x10, ITEMS)
    && ws(GUOBJ + 0x20) == Some([0, 0, 0, 0, count % 256, count / 256, 0, 0])
  }

  lemma ReadsArray(ws: Words, count: nat)
    requires Proper(ws) && HasArray(ws, count) && count > 0
    ensures ObjectsInfo(MemoryOf(ws), GUOBJ) == Some((ITEMS, count))
  {
    hide MemoryOf, Proper, FromLittleEndian, ReadPtr, ReadI32;
    ReadsValue(ws, GUOBJ + 0x10, ITEMS);
    ReadHalves(ws, GUOBJ + 0x20);
    FourBytes(ws(GUOBJ + 0x20).value[4..]);
  }

  // ---------- Ready sites ----------

  function SiteOf(ws: Words): Site
  {
    Site(MemoryOf(ws), POOL, METACLASS, GUOBJ)
  }

  /** The metaclass: an object named "Class" that is its own class and has no super class. */
  predicate HasMeta(ws: Words)
  {
    && NamePool(ws) && IsEntry(ws, META_INDEX, META_NAME)
    && IsObject(ws, METACLASS, METACLASS) && Holds(ws, METACLASS + 0x18, META_INDEX)
    && ws(METACLASS + 0x30).None?
  }

  lemma PoolIs(ws: Words)
    requires Proper(ws) && NamePool(ws)
    ensures PoolAt(MemoryOf(ws), POOL.gnamepool) == Some(POOL)
  {
    hide MemoryOf, FromLittleEndian, Proper, ReadPtr;
    Unmapped(ws, 0x2000);
    assert !Readable(MemoryOf(ws), 0x2000, 4);
    ReadNothing(ws, 0x2000);
    ReadNothing(ws, 0x2008);
  }

  lemma MetaIs(ws: Words)
    requires Proper(ws) && HasMeta(ws)
    ensures MetaOf(MemoryOf(ws), POOL, METACLASS) == METACLASS
    ensures Uncached(MemoryOf(ws), POOL, METACLASS + 0x18, CANDIDATE) == Some(META_NAME)
  {
    hide MemoryOf, Proper, Uncached, ReadPtr, EntryWord;
    ReadsName(ws, METACLASS, META_INDEX, META_NAME, CANDIDATE);
    ReadsValue(ws, METACLASS + 0x10, METACLASS);
  }

  /** Where the scan for the metaclass settles on it, the site is ready. */
  lemma ReadyWhere(ws: Words, count: nat)
    requires Proper(ws) && HasMeta(ws) && HasArray(ws, count) && count > 0
    requires FirstMeta(MemoryOf(ws), POOL, ITEMS, Min(count, MAX_INIT_SCAN), 0) == METACLASS
    ensures Ready(SiteOf(ws))
    ensures Honest(MemoryOf(ws), POOL, InitCaches(SiteOf(ws)), CANDIDATE)
  {
    hide MemoryOf, Proper, Metaclass, FirstMeta, ObjectsInfo, Honest, PoolAt, EntryWord;
    PoolIs(ws);
    ReadsArray(ws, count);
    MetaclassIsFirst(MemoryOf(ws), POOL, GUOBJ);
  }

  // ---------- A stale match, from ue4r_init on ----------

  const CLASS_A := 0x10000   // its key belongs in slot 0
  const CLASS_B := 0x11010
  const CLASSLESS := 0x12000
  const AN_A := 0x13000
  const A: seq<byte> := [65]
  const B: seq<byte> := [66]

  /** The object of each index and its class: the metaclass, two classes, an object without a class, an
   * instance of A. */
  function ObjectOf(i: nat): nat
  {
    if i == 0 then METACLASS
    else if i == 1 then CLASS_A
    else if i == 2 then CLASS_B
    else if i == 3 then CLASSLESS
    else AN_A
  }

  function ClassOfObject(i: nat): nat
  {
    if i < 3 then METACLASS else if i == 3 then 0 else CLASS_A
  }

  predicate HasObject(ws: Words, i: nat)
  {
    Holds(ws, ITEMS + 24 * i, ObjectOf(i)) && IsObject(ws, ObjectOf(i), ClassOfObject(i))
  }

  predicate HasNames(ws: Words)
  {
    && HasMeta(ws) && IsEntry(ws, 0, A) && IsEntry(ws, 4, B)
    && Holds(ws, CLASS_A + 0x18, 0) && Holds(ws, CLASS_B + 0x18, 4)
  }

  ghost predicate HasFiveObjects(ws: Words)
  {
    && Proper(ws) && HasNames(ws) && HasArray(ws, 5)
    && HasObject(ws, 0) && HasObject(ws, 1) && HasObject(ws, 2) && HasObject(ws, 3) && HasObject(ws, 4)
    && ws(CLASS_A + 0x30).None?
  }

  function WorldOf(ws: Words): World
  {
    World(MemoryOf(ws), POOL, METACLASS, ITEMS, 5)
  }

  lemma SceneIs(ws: Words)
    requires HasFiveObjects(ws)
    ensures Searchable(SiteOf(ws)) && Scene(SiteOf(ws)) == WorldOf(ws)
  {
    hide MemoryOf, ObjectsInfo, HasObject, HasNames, Proper;
    ReadsArray(ws, 5);
  }

  lemma Entry(ws: Words, i: nat)
    requires Proper(ws) && HasObject(ws, i)
    ensures ObjectAt(MemoryOf(ws), ITEMS, i) == ObjectOf(i)
    ensures ReadHeader(MemoryOf(ws), ObjectOf(i)) == Some(Header(0, ClassOfObject(i)))
  {
    hide MemoryOf, ReadPtr, ReadHeader, Proper;
    ReadsValue(ws, ITEMS + 24 * i, ObjectOf(i));
    ReadsHeader(ws, ObjectOf(i), 0, ClassOfObject(i));
  }

  /** The scan for the metaclass finds it at index 0. */
  lemma FiveAreReady(ws: Words)
    requires HasFiveObjects(ws)
    ensures Ready(SiteOf(ws)) && Honest(MemoryOf(ws), POOL, InitCaches(SiteOf(ws)), CANDIDATE)
  {
    hide MemoryOf, Proper, HasMeta, MetaOf, ObjectAt, Ready, HasArray, Honest;
    Entry(ws, 0);
    MetaIs(ws);
    ReadyWhere(ws, 5);
  }

  lemma Asked(ws: Words, i: nat)
    requires HasFiveObjects(ws) && i < 5
    ensures IsAsked(WorldOf(ws), i) && ClassOf(WorldOf(ws), i) == ClassOfObject(i)
    ensures ObjectAt(MemoryOf(ws), ITEMS, i) == ObjectOf(i)
  {
    hide MemoryOf, ReadHeader, ObjectAt, HasNames, Proper, HasArray;
    assert HasObject(ws, i);
    Entry(ws, i);
  }

  lemma DerivesIs(ws: Words, i: nat, target: nat)
    requires HasFiveObjects(ws) && i < 5 && (target == CLASS_A || target == CLASS_B)
    ensures IsInstance(WorldOf(ws), target, i) <==> i == 4 && target == CLASS_A
  {
    hide MemoryOf, Reaches, ReadHeader, ObjectAt, Proper, HasArray, NamePool, EntryWord;
    assert HasObject(ws, i);
    Entry(ws, i);
    NullReachesNothing(MemoryOf(ws), target);
    if i != 3 {
      NoSuper(ws, ClassOfObject(i), target);
    }
  }

  lemma InstancesAre(ws: Words, target: nat)
    requires HasFiveObjects(ws) && (target == CLASS_A || target == CLASS_B)
    ensures Instances(WorldOf(ws), target, 0) == if target == CLASS_A then [AN_A] else []
  {
    hide HasFiveObjects, IsInstance, ObjectAt, MemoryOf;
    var g := WorldOf(ws);
    DerivesIs(ws, 0, target);
    DerivesIs(ws, 1, target);
    DerivesIs(ws, 2, target);
    DerivesIs(ws, 3, target);
    DerivesIs(ws, 4, target);
    Asked(ws, 4);
    assert Instances(g, target, 5) == [];
    assert Instances(g, target, 4) == if target == CLASS_A then [AN_A] else [];
    assert Instances(g, target, 3) == Instances(g, target, 4);
    assert Instances(g, target, 2) == Instances(g, target, 3);
    assert Instances(g, target, 1) == Instances(g, target, 2);
  }

  lemma NamedClass(ws: Words, name: seq<byte>, i: nat)
    requires HasFiveObjects(ws) && i < 3 && (name == A || name == B)
    ensures IsNamedClass(WorldOf(ws), name, i) <==> name == if i == 0 then META_NAME else if i == 1 then A else B
  {
    hide MemoryOf, ReadHeader, ObjectAt, Uncached, Proper, HasArray, NamePool, EntryWord, MetaOf;
    Entry(ws, i);
    if i == 0 {
      MetaIs(ws);
    } else if i == 1 {
      ReadsName(ws, CLASS_A, 0, A, CANDIDATE);
    } else {
      ReadsName(ws, CLASS_B, 4, B, CANDIDATE);
    }
  }

  lemma ClassesAre(ws: Words)
    requires HasFiveObjects(ws)
    ensures FirstClass(WorldOf(ws), A, 0) == CLASS_A
    ensures FirstClass(WorldOf(ws), B, 0) == CLASS_B
  {
    hide HasFiveObjects, IsNamedClass, ObjectAt, MemoryOf;
    var g := WorldOf(ws);
    NamedClass(ws, A, 0);
    NamedClass(ws, A, 1);
    NamedClass(ws, B, 0);
    NamedClass(ws, B, 1);
    NamedClass(ws, B, 2);
    Asked(ws, 1);
    Asked(ws, 2);
    assert FirstClass(g, A, 1) == CLASS_A;
    assert FirstClass(g, B, 2) == CLASS_B;
    assert FirstClass(g, B, 1) == CLASS_B;
  }

  lemma FreshIsSound(g: World, c: Caches)
    requires Honest(g.m, g.pool, c, CANDIDATE)
    ensures Sized(c) && SoundWalk(g, FreshWalk(c)) && !Stale(FreshWalk(c))
  {
  }

  /** The first search delivers the instance of A, and leaves a match in slot 0. */
  lemma SearchForA(ws: Words)
    requires HasFiveObjects(ws)
    ensures var f := Call(SiteOf(ws), FreshWalk(InitCaches(SiteOf(ws))), A);
      && f.obj == AN_A && f.walk.matches[0] && f.walk.name == A && f.walk.cursor >= 0
      && SoundWalk(WorldOf(ws), f.walk) && Honest(MemoryOf(ws), POOL, f.walk.caches, CANDIDATE)
  {
    hide MemoryOf, HasFiveObjects, ObjectsInfo, FirstClass, Instances, Handed, Search, SoundWalk, ReadHeader;
    hide Metaclass, Honest;
    var s, g := SiteOf(ws), WorldOf(ws);
    var w := FreshWalk(InitCaches(s));
    SceneIs(ws);
    FiveAreReady(ws);
    FreshIsSound(g, InitCaches(s));
    TurningKeepsTheMemo(g, w, A);
    CallKeeps(s, w, A);
    ClassesAre(ws);
    InstancesAre(ws, CLASS_A);
    HandedRight(g, CLASS_A, 0);
    var t := Turned(w, A);
    assert Remaining(g, t, A) == [AN_A];
    SearchVisits(g, t, A, BUDGET);
    SearchSpent(g, t, A, BUDGET);
    SearchFound(g, t, A, BUDGET);
    SearchName(g, t, A, BUDGET);
    SearchHonest(g, t, A, BUDGET);
    var f := Call(s, w, A);
    assert f.obj != 0;
    assert ([f.obj] + Due(g, f.walk, A))[0] == f.obj;
    AnAHeader(ws);
  }

  lemma AnAHeader(ws: Words)
    requires HasFiveObjects(ws)
    ensures ReadHeader(MemoryOf(ws), AN_A) == Some(Header(0, CLASS_A)) && KeySlot(CLASS_A) == 0
  {
    hide MemoryOf, ReadHeader, Proper, HasNames, HasArray, ObjectAt;
    Entry(ws, 4);
  }

  /** The words themselves. */
  function FiveObjects(k: nat): Option<Word>
  {
    if k == 0x2040 then Some(W(0x3000))
    else if k == 0x3000 then Some(EntryWord(A))
    else if k == 0x3008 then Some(EntryWord(B))
    else if k == 0x3080 then Some(EntryWord(META_NAME))
    else if k == 0x4010 then Some(W(ITEMS))
    else if k == 0x4020 then Some([0, 0, 0, 0, 5, 0, 0, 0])
    else if k == ITEMS then Some(W(METACLASS))
    else if k == ITEMS + 24 then Some(W(CLASS_A))
    else if k == ITEMS + 48 then Some(W(CLASS_B))
    else if k == ITEMS + 72 then Some(W(CLASSLESS))
    else if k == ITEMS + 96 then Some(W(AN_A))
    else if k == METACLASS + 16 || k == CLASS_A + 16 || k == CLASS_B + 16 then Some(W(METACLASS))
    else if k == METACLASS + 24 then Some(W(META_INDEX))
    else if k == CLASS_B + 24 then Some(W(4))
    else if k == AN_A + 16 then Some(W(CLASS_A))
    else if k == METACLASS || k == METACLASS + 8 then Some(W(0))
    else if k == CLASS_A || k == CLASS_A + 8 || k == CLASS_A + 24 then Some(W(0))
    else if k == CLASS_B || k == CLASS_B + 8 then Some(W(0))
    else if k == CLASSLESS || k == CLASSLESS + 8 || k == CLASSLESS + 16 then Some(W(0))
    else if k == AN_A || k == AN_A + 8 then Some(W(0))
    else None
  }

  lemma TheWords()
    ensures HasFiveObjects(FiveObjects)
  {
    hide W, EntryWord;
  }

  lemma HandedToB(ws: Words)
    requires HasFiveObjects(ws)
    ensures Handed(WorldOf(ws), true, CLASS_B, 0) == [CLASSLESS]
  {
    hide HasFiveObjects, IsInstance, ObjectAt, MemoryOf, IsAsked, ClassOf;
    var g := WorldOf(ws);
    Asked(ws, 0);
    Asked(ws, 1);
    Asked(ws, 2);
    Asked(ws, 3);
    Asked(ws, 4);
    DerivesIs(ws, 0, CLASS_B);
    DerivesIs(ws, 1, CLASS_B);
    DerivesIs(ws, 2, CLASS_B);
    DerivesIs(ws, 3, CLASS_B);
    DerivesIs(ws, 4, CLASS_B);
    assert KeySlot(METACLASS) == 0x85 && KeySlot(0) == 0 && KeySlot(CLASS_A) == 0;
    hide KeySlot;
    assert Handed(g, false, CLASS_B, 5) == [];
    assert Handed(g, true, CLASS_B, 4) == [];
    assert Handed(g, true, CLASS_B, 3) == [CLASSLESS];
    assert Handed(g, true, CLASS_B, 2) == [CLASSLESS];
    assert Handed(g, true, CLASS_B, 1) == [CLASSLESS];
  }

  /**
   * On a memory of which ue4r_init makes a ready context, and from the caches it leaves: the search for
   * A delivers its instance. Turned to B, of which there is no instance, the same context delivers the
   * object without a class.
   */
  lemma StaleMatch()
    ensures var s := SiteOf(FiveObjects);
      var first := Call(s, FreshWalk(InitCaches(s)), A);
      && Ready(s) && Searchable(s)
      && first.obj == AN_A && first.walk.cursor >= 0
      && Wanted(Scene(s), B) == []
      && Run(s, first.walk, B).objs == [CLASSLESS]
  {
    hide MemoryOf, FiveObjects, ObjectsInfo, FirstClass, Instances, Handed, Run, Call, SoundWalk;
    hide HasFiveObjects, Metaclass, Honest, PoolAt;
    var ws := FiveObjects;
    var s, g := SiteOf(ws), WorldOf(ws);
    TheWords();
    SceneIs(ws);
    FiveAreReady(ws);
    SearchForA(ws);
    var w := Call(s, FreshWalk(InitCaches(s)), A).walk;
    ClassesAre(ws);
    InstancesAre(ws, CLASS_B);
    TurningKeepsTheMemo(g, w, B);
    RunDelivers(s, w, B);
    HandedToB(ws);
  }

  // ---------- Runs that never end ----------

  /** An array of 1000 entries of which only the first, the metaclass, can be read. */
  function LoneMeta(k: nat): Option<Word>
  {
    if k == 0x2040 then Some(W(0x3000))
    else if k == 0x3080 then Some(EntryWord(META_NAME))
    else if k == GUOBJ + 0x10 then Some(W(ITEMS))
    else if k == GUOBJ + 0x20 then Some([0, 0, 0, 0, 0xE8, 3, 0, 0])
    else if k == ITEMS || k == METACLASS + 16 then Some(W(METACLASS))
    else if k == METACLASS || k == METACLASS + 8 then Some(W(0))
    else if k == METACLASS + 24 then Some(W(META_INDEX))
    else None
  }

  lemma LoneWords()
    ensures Proper(LoneMeta) && HasMeta(LoneMeta) && HasArray(LoneMeta, 1000) && HasObject(LoneMeta, 0)
  {
    hide W, EntryWord;
  }

  lemma LoneIsReady()
    ensures Ready(SiteOf(LoneMeta)) && Honest(MemoryOf(LoneMeta), POOL, InitCaches(SiteOf(LoneMeta)), CANDIDATE)
  {
    hide MemoryOf, Proper, HasMeta, MetaOf, ObjectAt, Ready, HasArray, LoneMeta, Honest;
    LoneWords();
    Entry(LoneMeta, 0);
    MetaIs(LoneMeta);
    ReadyWhere(LoneMeta, 1000);
  }

  lemma NothingAt(i: nat)
    requires 0 < i < 1000
    ensures !ValidPtr(ObjectAt(MemoryOf(LoneMeta), ITEMS, i))
  {
    hide MemoryOf, W, ReadPtr, HasMeta, HasArray;
    LoneWords();
    ReadNothing(LoneMeta, ITEMS + i * 24);
    ReadsValue(LoneMeta, ITEMS, METACLASS);
    if i == 1 {
      ReadsValue(LoneMeta, METACLASS + 24, META_INDEX);
    } else {
      ReadNothing(LoneMeta, METACLASS + i * 24);
    }
  }

  function LoneWorld(): World
  {
    World(MemoryOf(LoneMeta), POOL, METACLASS, ITEMS, 1000)
  }

  lemma LoneScene()
    ensures Searchable(SiteOf(LoneMeta)) && Scene(SiteOf(LoneMeta)) == LoneWorld()
  {
    hide MemoryOf, ObjectsInfo, LoneMeta, HasMeta, HasObject, Proper;
    LoneWords();
    ReadsArray(LoneMeta, 1000);
  }

  lemma {:induction false} SearchNothing(w: Walk, name: seq<byte>, budget: nat)
    requires SizedWalk(w) && 0 < w.cursor && w.cursor + budget <= 1000
    ensures Search(LoneWorld(), w, name, budget) == Hunt(w.(cursor := w.cursor + budget), 0, budget)
    decreases budget
  {
    hide MemoryOf, ObjectAt, ReadHeader, Lookup, Remember;
    if budget > 0 {
      NothingAt(w.cursor);
      SearchNothing(w.(cursor := w.cursor + 1), name, budget - 1);
    }
  }

  /** The metaclass is looked at, and has another name than one of 64 bytes or more. */
  lemma VisitMeta(w: Walk, name: seq<byte>)
    requires |name| >= LOOKUP_NAME && SizedWalk(w) && w.cursor == 0 && w.cls == 0
    requires Honest(MemoryOf(LoneMeta), POOL, w.caches, CANDIDATE)
    ensures var v := Visit(LoneWorld(), w, name);
      && v.found == 0 && v.walk.cursor == 1 && v.walk.name == w.name
      && Honest(MemoryOf(LoneMeta), POOL, v.walk.caches, CANDIDATE)
  {
    hide MemoryOf, ObjectAt, ReadHeader, Lookup, Uncached, Honest, Proper, HasArray, LoneMeta, HasObject, HasMeta;
    LoneWords();
    Entry(LoneMeta, 0);
    MetaIs(LoneMeta);
    CandidateMatches(MemoryOf(LoneMeta), POOL, w.caches, METACLASS + 0x18, META_NAME, CANDIDATE);
    LookupHonest(MemoryOf(LoneMeta), POOL, w.caches, METACLASS + 0x18, CANDIDATE, CANDIDATE);
  }

  /** A context with a shorter stored name and caches that memory agrees with. */
  ghost predicate KeepsOn(w: Walk)
  {
    && SizedWalk(w) && w.cursor >= 0 && |w.name| < LOOKUP_NAME
    && Honest(MemoryOf(LoneMeta), POOL, w.caches, CANDIDATE)
  }

  lemma CallFindsNothing(w: Walk, name: seq<byte>)
    requires |name| >= LOOKUP_NAME && KeepsOn(w)
    ensures KeepsOn(Call(SiteOf(LoneMeta), w, name).walk)
  {
    hide MemoryOf, ObjectsInfo, Search, Visit, Honest, LoneMeta;
    LoneScene();
    var t := Turned(w, name);
    VisitMeta(t, name);
    var v := Visit(LoneWorld(), t, name);
    SearchStep(LoneWorld(), t, name, BUDGET);
    SearchNothing(v.walk, name, BUDGET - 1);
  }

  lemma {:induction false} NeverEnds(w: Walk, name: seq<byte>, n: nat)
    requires |name| >= LOOKUP_NAME && KeepsOn(w)
    ensures KeepsOn(Calls(SiteOf(LoneMeta), w, name, n))
  {
    hide SiteOf, Call, Honest, LoneMeta;
    if n > 0 {
      NeverEnds(w, name, n - 1);
      CallFindsNothing(Calls(SiteOf(LoneMeta), w, name, n - 1), name);
    }
  }

  /** On every ready site the first search of a new context for that name comes to an end. */
  ghost predicate EveryRunEnds(name: seq<byte>)
  {
    forall s: Site :: Ready(s) ==> RunEnds(s, FreshWalk(InitCaches(s)), name)
  }

  /**
   * Calling until the cursor is -1 comes to an end on all ready sites exactly for names below 64 bytes,
   * and for those from every state of the context.
   */
  lemma RunsEndExactlyForShortNames(name: seq<byte>)
    ensures EveryRunEnds(name) <==> |name| < 64
    ensures |name| < 64 ==>
      forall s: Site, w: Walk :: s.uclass != 0 && SizedWalk(w) && w.cursor >= -1 ==> RunEnds(s, w, name)
  {
    hide Calls, MemoryOf, Metaclass, PoolAt, LoneMeta;
    if |name| < LOOKUP_NAME {
      forall s: Site, w: Walk | s.uclass != 0 && SizedWalk(w) && w.cursor >= -1
        ensures RunEnds(s, w, name)
      {
        ShortNamesEnd(s, w, name);
      }
    } else {
      var s := SiteOf(LoneMeta);
      LoneIsReady();
      var w := FreshWalk(InitCaches(s));
      forall n: nat ensures Calls(s, w, name, n).cursor >= 0 {
        NeverEnds(w, name, n);
      }
      assert !RunEnds(s, w, name);
    }
  }
}
