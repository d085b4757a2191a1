/** The statics of source/daemon/radar_reader.c that the level scan updates. */
module LevelReader {
  import opened Bytes
  import opened Wrappers
  import opened RemoteMemory
  import opened NameCache
  import opened Reflection
  import opened LevelScan

  class Radar {
    const reflection: Context
    const classes: array<Known>
    var classCount: nat
    var characters: seq<nat>
    var vehicles: seq<nat>
    var items: seq<nat>

    ghost predicate Valid()
      reads this
    {
      reflection.Valid() && classes.Length == CLASSES && classCount <= CLASSES
    }

    ghost function Memo(): seq<Known>
      requires Valid()
      reads this, classes
    {
      classes[..classCount]
    }

    constructor (reflection: Context)
      requires reflection.Valid()
      ensures Valid() && this.reflection == reflection && fresh(classes)
      ensures Memo() == [] && characters == [] && vehicles == [] && items == []
    {
      this.reflection := reflection;
      classes := new Known[CLASSES](i => Known(0, Ignore));
      classCount, characters, vehicles, items := 0, [], [], [];
    }

    /** classify_class. */
    method ClassifyClass(m: Memory, cls: nat, actor: nat) returns (kind: Kind)
      requires Valid()
      modifies this`classCount, classes, reflection.nameCache, reflection.cachedChunks
      ensures Valid()
      ensures Classified(reflection.Names(), Memo(), kind)
        == Classify(m, reflection.pool, old(reflection.Names()), old(Memo()), cls, actor)
    {
      hide Lookup, OwnKind, SuperKind, Recall;
      if cls == 0 { return Ignore; }
      var known := Remembered(cls);
      if known.Some? { return known.value; }

      var name: seq<byte> := [];
      var own := reflection.ResolveName(m, cls + 0x18, CLASS_NAME);
      if own.Some? {
        name := own.value;
      } else if actor != 0 {
        var other := reflection.ResolveName(m, actor + 0x18, CLASS_NAME);
        if other.Some? { name := other.value; }
      }
      kind := Ignore;
      var verdict := OwnKind(name);
      if verdict.Some? {
        kind := verdict.value;
      } else {
        var super := Field(m, cls, 0x30);
        if super != 0 {
          var superName := reflection.ResolveName(m, super + 0x18, CLASS_NAME);
          if superName.Some? { kind := SuperKind(superName.value); }
        }
      }
      if classCount < CLASSES {
        ghost var before := classes[..classCount];
        classes[classCount] := Known(cls, kind);
        classCount := classCount + 1;
        assert classes[..classCount] == before + [Known(cls, kind)];
      }
    }

    /** The linear search of the memo. */
    method Remembered(cls: nat) returns (kind: Option<Kind>)
      requires Valid()
      ensures kind == Recall(Memo(), cls)
    {
      ghost var memo := Memo();
      for i := 0 to classCount
        invariant Recall(memo, cls) == Recall(memo[i..], cls)
      {
        assert memo[i..][1..] == memo[i + 1..] && memo[i..][0] == classes[i];
        if classes[i].cls == cls { return Some(classes[i].kind); }
      }
      return None;
    }

    /** scan_persistent_level. */
    method ScanPersistentLevel(m: Memory, world: nat) returns (ok: bool)
      requires Valid()
      modifies this, classes, reflection.nameCache, reflection.cachedChunks
      ensures Valid()
      ensures ok == FindLevel(m, world).Some?
      ensures ok ==>
        var l := FindLevel(m, world).value;
        Scan(reflection.Names(), Memo(), characters, vehicles, items)
        == Scanned(m, reflection.pool, l, old(reflection.Names()), old(Memo()), l.count)
      ensures !ok ==> characters == old(characters) && vehicles == old(vehicles) && items == old(items)
    {
      hide Scanned, Readable, FirstArray;
      var level := Field(m, world, 0x30);
      if level == 0 { return false; }
      var found := SearchOffsets(m, level);
      if found.None? { return false; }
      var l := found.value;
      var players, cars, loot: seq<nat> := [], [], [];
      ghost var c0, memo0 := reflection.Names(), Memo();
      NothingScanned(m, reflection.pool, l, c0, memo0);
      var start := 0;
      while start < l.count
        invariant Valid() && start % CHUNK_LENGTH == 0
        invariant Scan(reflection.Names(), Memo(), players, cars, loot)
          == Scanned(m, reflection.pool, l, c0, memo0, Min(start, l.count))
        invariant characters == old(characters) && vehicles == old(vehicles) && items == old(items)
      {
        var size: nat := l.count - start;
        if size > CHUNK_LENGTH { size := CHUNK_LENGTH; }
        var chunk := Read(m, l.data + start * 8, size * 8);
        if chunk.None? {
          assert ChunkStart(start) == start;
          UnreadableChunk(m, reflection.pool, l, c0, memo0, start, start + size);
        } else {
          players, cars, loot := ScanChunk(m, l, chunk.value, start, size, players, cars, loot, c0, memo0);
        }
        start := start + CHUNK_LENGTH;
      }
      characters, vehicles, items := players, cars, loot;
      ok := true;
    }

    /** The actors of one chunk. */
    method ScanChunk(m: Memory, l: Level, chunk: seq<byte>, start: nat, size: nat,
        players0: seq<nat>, cars0: seq<nat>, loot0: seq<nat>, ghost c0: Caches, ghost memo0: seq<Known>)
      returns (players: seq<nat>, cars: seq<nat>, loot: seq<nat>)
      requires Valid() && Sized(c0)
      requires start + size <= l.count && start % CHUNK_LENGTH == 0 && size == Min(CHUNK_LENGTH, l.count - start)
      requires Read(m, l.data + start * 8, size * 8) == Some(chunk)
      requires Scan(reflection.Names(), Memo(), players0, cars0, loot0)
        == Scanned(m, reflection.pool, l, c0, memo0, start)
      modifies this`classCount, classes, reflection.nameCache, reflection.cachedChunks
      ensures Valid()
      ensures Scan(reflection.Names(), Memo(), players, cars, loot)
        == Scanned(m, reflection.pool, l, c0, memo0, start + size)
    {
      hide Classify, Readable, InReadableChunk, ReadPtr, FromLittleEndian, Scanned;
      players, cars, loot := players0, cars0, loot0;
      for i := 0 to size
        invariant Valid()
        invariant Scan(reflection.Names(), Memo(), players, cars, loot)
          == Scanned(m, reflection.pool, l, c0, memo0, start + i)
      {
        var actor := FromLittleEndian(chunk[i * 8..i * 8 + 8]);
        ChunkItem(m, l, chunk, start, size, i);
        ScannedNext(m, reflection.pool, l, c0, memo0, start + i);
        if !ValidPtr(actor) { continue; }
        var cls := Field(m, actor, 0x10);
        if cls == 0 { continue; }
        var kind := ClassifyClass(m, cls, actor);
        if kind == Player && |players| < MAX_PLAYERS {
          players := players + [actor];
        } else if kind == Vehicle && |cars| < MAX_VEHICLES {
          cars := cars + [actor];
        } else if kind == Item && |loot| < MAX_ITEMS {
          loot := loot + [actor];
        }
      }
    }
  }

  lemma NothingScanned(m: Memory, pool: Pool, l: Level, c: Caches, memo: seq<Known>)
    requires Sized(c)
    ensures Scanned(m, pool, l, c, memo, 0) == Started(c, memo)
  {
  }

  lemma ScannedNext(m: Memory, pool: Pool, l: Level, c: Caches, memo: seq<Known>, n: nat)
    requires Sized(c) && n < l.count && InReadableChunk(m, l, n)
    ensures Scanned(m, pool, l, c, memo, n + 1) == Visit(m, pool, Scanned(m, pool, l, c, memo, n), ActorAt(m, l, n))
  {
    hide Visit;
  }

  /** The loop over the candidate offsets. */
  method SearchOffsets(m: Memory, level: nat) returns (l: Option<Level>)
    ensures l == FirstArray(m, level, 0)
  {
    hide ArrayAt;
    for k := 0 to |OFFSETS|
      invariant FirstArray(m, level, 0) == FirstArray(m, level, k)
    {
      var candidate := ArrayAt(m, level, OFFSETS[k], MAX_ACTORS);
      if candidate.Some? && candidate.value.count >= 5 { return candidate; }
    }
    return None;
  }
}
