/** A ready site with objects whose flags are not all clear. */
module FlagSites {
  import opened Bytes
  import opened Wrappers
  import opened RemoteMemory
  import opened NameCache
  import opened ObjectWalk
  import opened ReflectionInit
  import opened SampleMemory
  import opened ObjectSites

  const DEFAULT_A := 0x14000
  const FLAGGED_A := 0x15000

  /** The metaclass, the class A, its default object with flags 0x10, an instance with flags 0x20. */
  function Flagged(k: nat): Option<Word>
  {
    if k == 0x2040 then Some(W(0x3000))
    else if k == 0x3000 then Some(EntryWord(A))
    else if k == 0x3080 then Some(EntryWord(META_NAME))
    else if k == GUOBJ + 0x10 then Some(W(ITEMS))
    else if k == GUOBJ + 0x20 then Some([0, 0, 0, 0, 4, 0, 0, 0])
    else if k == ITEMS then Some(W(METACLASS))
    else if k == ITEMS + 24 then Some(W(CLASS_A))
    else if k == ITEMS + 48 then Some(W(DEFAULT_A))
    else if k == ITEMS + 72 then Some(W(FLAGGED_A))
    else if k == METACLASS + 16 || k == CLASS_A + 16 then Some(W(METACLASS))
    else if k == METACLASS + 24 then Some(W(META_INDEX))
    else if k == DEFAULT_A + 16 || k == FLAGGED_A + 16 then Some(W(CLASS_A))
    else if k == DEFAULT_A + 8 then Some(W(0x10))
    else if k == FLAGGED_A + 8 then Some(W(0x20))
    else if k == METACLASS || k == METACLASS + 8 then Some(W(0))
    else if k == CLASS_A || k == CLASS_A + 8 || k == CLASS_A + 24 then Some(W(0))
    else if k == DEFAULT_A || k == FLAGGED_A then Some(W(0))
    else None
  }

  function World4(): World
  {
    World(MemoryOf(Flagged), POOL, METACLASS, ITEMS, 4)
  }

  lemma FlaggedWords()
    ensures Proper(Flagged) && HasMeta(Flagged) && HasArray(Flagged, 4) && IsEntry(Flagged, 0, A)
    ensures Holds(Flagged, ITEMS, METACLASS) && Holds(Flagged, ITEMS + 24, CLASS_A)
    ensures Holds(Flagged, ITEMS + 48, DEFAULT_A) && Holds(Flagged, ITEMS + 72, FLAGGED_A)
    ensures IsFlagged(Flagged, CLASS_A, 0, METACLASS) && Holds(Flagged, CLASS_A + 0x18, 0)
    ensures IsFlagged(Flagged, DEFAULT_A, 0x10, CLASS_A) && IsFlagged(Flagged, FLAGGED_A, 0x20, CLASS_A)
    ensures Flagged(CLASS_A + 0x30).None?
  {
    hide W, EntryWord;
  }

  /** The four entries, their headers, and what derives from A. */
  predicate FourEntries(g: World)
  {
    && ObjectAt(g.m, ITEMS, 0) == METACLASS && ReadHeader(g.m, METACLASS) == Some(Header(0, METACLASS))
    && ObjectAt(g.m, ITEMS, 1) == CLASS_A && ReadHeader(g.m, CLASS_A) == Some(Header(0, METACLASS))
    && ObjectAt(g.m, ITEMS, 2) == DEFAULT_A && ReadHeader(g.m, DEFAULT_A) == Some(Header(0x10, CLASS_A))
    && ObjectAt(g.m, ITEMS, 3) == FLAGGED_A && ReadHeader(g.m, FLAGGED_A) == Some(Header(0x20, CLASS_A))
    && !Reaches(g.m, METACLASS, CLASS_A, MAX_SUPERS) && Reaches(g.m, CLASS_A, CLASS_A, MAX_SUPERS)
  }

  lemma EntriesAre()
    ensures FourEntries(World4())
    ensures Searchable(SiteOf(Flagged)) && Scene(SiteOf(Flagged)) == World4()
  {
    hide MemoryOf, ReadPtr, ReadHeader, Proper, Reaches, ObjectsInfo, EntryWord, HasArray, Flagged, W;
    FlaggedWords();
    ReadsArray(Flagged, 4);
    ReadsValue(Flagged, ITEMS, METACLASS);
    ReadsValue(Flagged, ITEMS + 24, CLASS_A);
    ReadsValue(Flagged, ITEMS + 48, DEFAULT_A);
    ReadsValue(Flagged, ITEMS + 72, FLAGGED_A);
    ReadsHeader(Flagged, METACLASS, 0, METACLASS);
    ReadsHeader(Flagged, CLASS_A, 0, METACLASS);
    ReadsHeader(Flagged, DEFAULT_A, 0x10, CLASS_A);
    ReadsHeader(Flagged, FLAGGED_A, 0x20, CLASS_A);
    NoSuper(Flagged, METACLASS, CLASS_A);
    NoSuper(Flagged, CLASS_A, CLASS_A);
  }

  lemma FlaggedIsReady()
    ensures Ready(SiteOf(Flagged)) && Honest(MemoryOf(Flagged), POOL, InitCaches(SiteOf(Flagged)), CANDIDATE)
  {
    hide MemoryOf, Proper, HasMeta, MetaOf, ObjectAt, Ready, HasArray, Flagged, Honest, ReadHeader, Reaches;
    FlaggedWords();
    EntriesAre();
    MetaIs(Flagged);
    ReadyWhere(Flagged, 4);
  }

  /** The search for A hands out the object with flags 0x20 and not the one with flags 0x10. */
  lemma DefaultsAreSkipped()
    ensures var s := SiteOf(Flagged);
      Ready(s) && Searchable(s) && Run(s, FreshWalk(InitCaches(s)), A).objs == [FLAGGED_A]
  {
    hide MemoryOf, Flagged, Run, InitCaches, Honest, Ready, FirstClass, Instances;
    EntriesAre();
    FlaggedIsReady();
    FindsExactlyTheInstances(SiteOf(Flagged), InitCaches(SiteOf(Flagged)), A);
    WantedThere();
  }

  lemma WantedThere()
    ensures Wanted(World4(), A) == [FLAGGED_A]
  {
    hide MemoryOf, Flagged, Instances, FirstClass;
    ClassThere();
    InstancesThere();
  }

  lemma ClassThere()
    ensures FirstClass(World4(), A, 0) == CLASS_A
  {
    hide MemoryOf, ObjectAt, ReadHeader, Reaches, Uncached, Flagged, Proper, HasArray, EntryWord, MetaOf, HasMeta;
    var g := World4();
    FlaggedWords();
    EntriesAre();
    MetaIs(Flagged);
    PoolThere();
    ReadsName(Flagged, CLASS_A, 0, A, CANDIDATE);
    assert FirstClass(g, A, 1) == CLASS_A;
  }

  lemma OnlyTheFlagged()
    ensures forall i: nat | i < 4 :: IsInstance(World4(), CLASS_A, i) <==> i == 3
  {
    hide MemoryOf, ObjectAt, ReadHeader, Reaches, Flagged;
    EntriesAre();
  }

  lemma InstancesThere()
    ensures Instances(World4(), CLASS_A, 0) == [FLAGGED_A]
  {
    hide MemoryOf, ObjectAt, ReadHeader, Reaches, Flagged, IsInstance;
    var g := World4();
    EntriesAre();
    OnlyTheFlagged();
    assert Instances(g, CLASS_A, 4) == [];
    assert Instances(g, CLASS_A, 3) == [FLAGGED_A];
    assert Instances(g, CLASS_A, 2) == [FLAGGED_A];
    assert Instances(g, CLASS_A, 1) == [FLAGGED_A];
  }

  lemma PoolThere()
    ensures NamePool(Flagged)
  {
    FlaggedWords();
  }
}
