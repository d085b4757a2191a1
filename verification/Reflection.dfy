/** The reflection context of source/daemon/ue4_reflection.c, updated in place by name lookups and
 * by the object search. What it computes is stated in NameCache and ObjectWalk. */
module Reflection {
  import opened Bytes
  import opened Wrappers
  import opened RemoteMemory
  import opened NameCache
  import opened ObjectWalk
  import opened ObjectPath
  import opened ReflectionInit

  class Context {
    const pool: Pool
    const guobj: nat
    var uclass: nat
    const nameCache: array<Slot>
    const cachedChunks: array<nat>
    const lookupKeys: array<nat>
    const lookupMatches: array<bool>
    var lookupClass: nat
    var lookupName: seq<byte>

    ghost predicate Valid()
    {
      && nameCache.Length == SLOTS && cachedChunks.Length == CHUNKS
      && lookupKeys.Length == MEMO && lookupMatches.Length == MEMO
      && cachedChunks != lookupKeys
    }

    ghost function Names(): (c: Caches)
      requires Valid()
      reads nameCache, cachedChunks
      ensures Sized(c)
    {
      Caches(nameCache[..], cachedChunks[..])
    }

    ghost function At(cursor: int): (w: Walk)
      requires Valid()
      reads this, nameCache, cachedChunks, lookupKeys, lookupMatches
      ensures SizedWalk(w)
    {
      Walk(Names(), lookupKeys[..], lookupMatches[..], lookupClass, lookupName, cursor)
    }

    /** The part of ue4r_init that sets up the caches; the metaclass is not known yet. */
    constructor (pool: Pool, guobj: nat)
      ensures Valid() && At(0) == FreshWalk(InitialCaches())
      ensures this.pool == pool && this.guobj == guobj && uclass == 0
      ensures fresh(nameCache) && fresh(cachedChunks) && fresh(lookupKeys) && fresh(lookupMatches)
    {
      this.pool, this.guobj, uclass := pool, guobj, 0;
      nameCache := new Slot[SLOTS](i => Slot(-1, []));
      cachedChunks := new nat[CHUNKS](i => 0);
      lookupKeys := new nat[MEMO](i => 0);
      lookupMatches := new bool[MEMO](i => false);
      lookupClass, lookupName := 0, [];
      new;
      assert nameCache[..] == seq(SLOTS, i => Slot(-1, []));
      assert cachedChunks[..] == seq(CHUNKS, i => 0);
      assert lookupKeys[..] == NoKeys();
      assert lookupMatches[..] == seq(MEMO, i => false);
    }

    /** Strategy A against the known chunk table, through the chunk cache. */
    method KnownTable(m: Memory, index: nat) returns (name: seq<byte>)
      requires Valid()
      modifies cachedChunks
      ensures cachedChunks[..] == Warm(m, pool, old(cachedChunks[..]), index)
      ensures name == KnownName(m, pool, cachedChunks[..], index)
    {
      name := [];
      var k := index / 16384;
      if ValidPtr(pool.chunkTable) && k < CHUNKS {
        if cachedChunks[k] == 0 {
          cachedChunks[k] := ReadPtr(m, pool.chunkTable + k * 8);
        }
        name := NameInChunk(m, cachedChunks[k], index);
      }
    }

    /** ue4r_resolve_name; the result is the text left in the caller's buffer of `max` bytes. */
    method ResolveName(m: Memory, addr: int, max: nat) returns (name: Option<seq<byte>>)
      requires Valid()
      modifies nameCache, cachedChunks
      ensures Names() == Lookup(m, pool, old(Names()), addr, max).caches
      ensures name == Lookup(m, pool, old(Names()), addr, max).name
    {
      hide KnownName, Warm, FirstTableName, BlockName, Base;
      if max == 0 || !ValidPtr(addr) { return None; }
      var first := ReadI32(m, addr);
      if first.None? || first.value < 0 { return None; }
      var index: nat := first.value;
      var second := ReadI32(m, addr + 4);
      var number := if second.Some? then second.value else 0;
      assert FName(m, addr) == Some((index, number));

      var slot := index % SLOTS;
      if nameCache[slot].index == index && nameCache[slot].name != [] {
        assert HitSlot(Names(), index);
        return Some(Hit(nameCache[slot].name, number, max));
      }
      assert !HitSlot(Names(), index);

      var text := KnownTable(m, index);
      var resolved := text != [];
      if !resolved {
        text := OtherTables(m, pool, index);
        resolved := text != [];
      }
      if !resolved {
        var block := BlockName(m, pool, index, max);
        if block.Some? {
          resolved, text := true, block.value;
        }
      }
      if !resolved { return None; }
      nameCache[slot] := Slot(index, Cut(text, STORED));
      name := Some(Fresh(text, number, max));
    }

    /** The ancestor memo: the answer for `cls`, computed and stored when the slot has another key. */
    method Derives(m: Memory, cls: nat) returns (match': bool)
      requires Valid()
      modifies lookupKeys, lookupMatches
      ensures forall cursor :: At(cursor) == Remember(m, old(At(cursor)), cls)
      ensures match' == lookupMatches[KeySlot(cls)]
    {
      hide Reaches;
      var slot := KeySlot(cls);
      if lookupKeys[slot] != cls {
        var found := SuperChain(m, cls, lookupClass);
        lookupKeys[slot] := cls;
        lookupMatches[slot] := found;
      }
      match' := lookupMatches[slot];
    }

    /** find_uclass_class. */
    method FindUClassClass(m: Memory) returns (cls: nat)
      requires Valid()
      modifies nameCache, cachedChunks
      ensures old(Names()) == InitialCaches() ==>
        Meta(Names(), cls) == Metaclass(m, pool, guobj)
      ensures ObjectsInfo(m, guobj).None? ==> cls == 0 && Names() == old(Names())
      ensures ObjectsInfo(m, guobj).Some? ==>
        var (objects, count) := ObjectsInfo(m, guobj).value;
        Meta(Names(), cls) == MetaScan(m, pool, old(Names()), objects, Min(count, MAX_INIT_SCAN), 0)
    {
      hide TryObject, ObjectsInfo, ObjectAt, InitialCaches;
      var info := GetObjectsInfo(m, guobj);
      if info.None? { return 0; }
      var (objects, count) := info.value;
      var limit: nat := if count < MAX_INIT_SCAN then count else MAX_INIT_SCAN;
      ghost var whole := MetaScan(m, pool, Names(), objects, limit, 0);
      cls := 0;
      for i := 0 to limit
        invariant whole == MetaScan(m, pool, Names(), objects, limit, i)
      {
        var obj := ReadObjectFromArray(m, objects, i);
        var found := TryMetaclass(m, obj);
        if found != 0 { return found; }
      }
    }

    /** The body of that loop. */
    method TryMetaclass(m: Memory, obj: nat) returns (found: nat)
      requires Valid()
      modifies nameCache, cachedChunks
      ensures Meta(Names(), found) == TryObject(m, pool, old(Names()), obj)
    {
      hide Lookup, ReadPtr;
      if !ValidPtr(obj) { return 0; }
      var cls := ReadPtr(m, obj + 0x10);
      var name := ResolveName(m, obj + 0x18, CANDIDATE);
      if name == Some(META_NAME) {
        if cls == obj { return obj; }
        if ValidPtr(cls) {
          var clsName := ResolveName(m, cls + 0x18, CANDIDATE);
          if clsName == Some(META_NAME) { return cls; }
        }
      }
      return 0;
    }

    /** ue4r_find_instance; `next` is the value left in *cursor. */
    method FindInstance(m: Memory, name: seq<byte>, cursor: int) returns (obj: nat, next: int)
      requires Valid()
      modifies this, nameCache, cachedChunks, lookupKeys, lookupMatches
      ensures uclass == old(uclass)
      ensures var f := FindCall(m, pool, uclass, guobj, old(At(cursor)), name);
        At(next) == f.walk && obj == f.obj
    {
      hide Lookup, Reaches, ReadHeader, ObjectAt;
      next := cursor;
      if uclass == 0 || next < 0 { return 0, next; }
      var info := GetObjectsInfo(m, guobj);
      if info.None? || info.value.1 > MAX_OBJECTS { return 0, -1; }
      var (objects, count) := info.value;
      if lookupName != name {
        TurnTo(name, cursor);
        next := 0;
      }
      ghost var g := World(m, pool, uclass, objects, count);
      ghost var start := At(next);
      assert start == Turned(old(At(cursor)), name);
      obj, next := Scan(m, objects, count, name, next);
      if obj == 0 && next >= count { next := -1; }
    }

    /** Forgets the class and zeroes the memo's keys (not its answers). */
    method TurnTo(name: seq<byte>, ghost cursor: int)
      requires Valid() && lookupName != name
      modifies this, lookupKeys
      ensures uclass == old(uclass)
      ensures At(0) == Turned(old(At(cursor)), name)
    {
      lookupName := Cut(name, LOOKUP_NAME - 1);
      lookupClass := 0;
      for i := 0 to MEMO
        modifies lookupKeys
        invariant forall j :: 0 <= j < i ==> lookupKeys[j] == 0
      {
        lookupKeys[i] := 0;
      }
      assert lookupKeys[..] == NoKeys();
    }

    /** The loop of ue4r_find_instance, with its batched read. */
    method Scan(m: Memory, objects: nat, count: nat, name: seq<byte>, cursor: nat) returns (obj: nat, next: nat)
      requires Valid()
      modifies this, nameCache, cachedChunks, lookupKeys, lookupMatches
      ensures uclass == old(uclass)
      ensures var h := Search(World(m, pool, uclass, objects, count), old(At(cursor)), name, BUDGET);
        At(next) == h.walk && obj == h.found
    {
      hide Lookup, Reaches, ReadHeader, ObjectAt, Visit;
      ghost var g := World(m, pool, uclass, objects, count);
      ghost var whole := Search(g, At(cursor), name, BUDGET);
      next := cursor;
      var budget: nat := BUDGET;
      var batchCount := Min(count - cursor, BUDGET);
      var batch := if batchCount > 0 then Read(m, objects + cursor * 24, batchCount * 24) else None;
      while next < count && budget > 0
        invariant 0 <= next && uclass == old(uclass)
        invariant var h := Search(g, At(next), name, budget); h.walk == whole.walk && h.found == whole.found
        decreases budget
      {
        ghost var w := At(next);
        var item := BatchedObject(m, objects, cursor, batchCount, batch, next);
        budget := budget - 1;
        obj, next := VisitObject(m, objects, count, name, next, item);
        if obj != 0 { return; }
      }
      obj := 0;
    }

    /** One turn of that loop, for the object found at the cursor. */
    method VisitObject(m: Memory, objects: nat, ghost count: nat, name: seq<byte>, cursor: nat, item: nat)
      returns (obj: nat, next: nat)
      requires Valid() && cursor < count && ValidItem(m, objects, cursor, item)
      modifies this, nameCache, cachedChunks, lookupKeys, lookupMatches
      ensures uclass == old(uclass)
      ensures var h := Visit(World(m, pool, uclass, objects, count), old(At(cursor)), name);
        At(next) == h.walk && obj == h.found
    {
      hide Lookup, Reaches, ReadHeader, ObjectAt;
      next := cursor + 1;
      obj := 0;
      if !ValidPtr(item) { return; }
      var header := ReadHeader(m, item);
      if header.None? { return; }
      if lookupClass == 0 {
        if header.value.cls != uclass { return; }
        var candidate := ResolveName(m, item + 0x18, CANDIDATE);
        if candidate == Some(name) {
          lookupClass := item;
          next := 0;
        }
      } else if !IsDefault(header.value) {
        var derives := Derives(m, header.value.cls);
        if derives { obj := item; }
      }
    }

    /** build_path_name; the result is the text left in the caller's buffer. */
    method BuildPathName(m: Memory, obj: nat, max: nat, depth: nat) returns (text: seq<byte>)
      requires Valid()
      modifies nameCache, cachedChunks
      ensures max == 0 ==> Names() == old(Names()) && text == []
      ensures max > 0 ==> Path(Names(), text) == BuildPath(m, pool, old(Names()), obj, max, depth)
      decreases MAX_DEPTH + 1 - depth
    {
      hide Lookup;
      if max == 0 { return []; }
      if depth > MAX_DEPTH { return Cut(Ascii("..."), max - 1); }
      if !ValidPtr(obj) { return Cut(Ascii("<null>"), max - 1); }
      var found := ResolveName(m, obj + 0x18, NAME_SIZE);
      var name := if found.Some? then found.value else Ascii("<unknown>");
      var outer := ReadPtr(m, obj + 0x20);
      if ValidPtr(outer) {
        var outerPath := BuildPathName(m, outer, OUTER_SIZE, depth + 1);
        text := Cut(outerPath + [DOT] + name, max - 1);
      } else if name != [] && name[0] == SLASH {
        text := Cut(name, max - 1);
      } else {
        text := Cut([SLASH] + name, max - 1);
      }
    }
  }

  ghost predicate ValidItem(m: Memory, objects: nat, i: nat, item: nat)
  {
    item == ObjectAt(m, objects, i)
  }

  /** The object at index i: from the batch where that holds a pointer, else read singly. */
  method BatchedObject(m: Memory, objects: nat, start: nat, n: int, batch: Option<seq<byte>>, i: nat) returns (obj: nat)
    requires batch == if n > 0 then Read(m, objects + start * 24, n * 24) else None
    ensures ValidItem(m, objects, i, obj)
  {
    obj := 0;
    if batch.Some? && start <= i < start + n {
      var k := i - start;
      obj := FromLittleEndian(batch.value[k * 24..k * 24 + 8]);
      BatchItem(m, objects, start, n, k);
    }
    if !ValidPtr(obj) {
      obj := ReadObjectFromArray(m, objects, i);
    }
  }

  method ReadObjectFromArray(m: Memory, objects: nat, i: nat) returns (obj: nat)
    ensures obj == ObjectAt(m, objects, i)
  {
    var flat := ReadPtr(m, objects + i * 24);
    if ValidPtr(flat) { return flat; }
    var chunk := ReadPtr(m, objects + i / 65536 * 8);
    if ValidPtr(chunk) { return ReadPtr(m, chunk + i % 65536 * 24); }
    return 0;
  }

  /** ue4r_init: the pool, the caches, the metaclass; null when the indirection count is out of range. */
  method Start(m: Memory, gnamepool: nat, guobj: nat) returns (ctx: Context?)
    ensures ctx == null <==> PoolAt(m, gnamepool).None?
    ensures ctx != null ==>
      && ctx.Valid() && PoolAt(m, gnamepool) == Some(ctx.pool) && ctx.guobj == guobj
      && ctx.uclass == Metaclass(m, ctx.pool, guobj).cls
      && ctx.At(0) == FreshWalk(Metaclass(m, ctx.pool, guobj).caches)
  {
    hide ReadPtr, ObjectsInfo, MetaScan, InitialCaches, FromLittleEndian;
    var derefs := Derefs(m, gnamepool);
    if derefs > MAX_DEREFS { return null; }
    var ptr := ReadPtr(m, gnamepool + 8);
    if ptr == 0 { ptr := ReadPtr(m, gnamepool); }
    ghost var start := ptr;
    var i: nat := 0;
    while i < derefs && ValidPtr(ptr)
      invariant i <= derefs && Follow(m, start, derefs) == Follow(m, ptr, derefs - i)
    {
      ptr := ReadPtr(m, ptr);
      i := i + 1;
    }
    ctx := new Context(Pool(gnamepool, ptr), guobj);
    var cls := ctx.FindUClassClass(m);
    ctx.uclass := cls;
  }

  /** The super chain, followed for at most 32 classes. */
  method SuperChain(m: Memory, cls: nat, target: nat) returns (found: bool)
    ensures found == Reaches(m, cls, target, MAX_SUPERS)
  {
    var at := cls;
    var depth: nat := 0;
    while depth < MAX_SUPERS && ValidPtr(at)
      invariant depth <= MAX_SUPERS
      invariant Reaches(m, cls, target, MAX_SUPERS) == Reaches(m, at, target, MAX_SUPERS - depth)
    {
      if at == target { return true; }
      at := ReadPtr(m, at + 0x30);
      depth := depth + 1;
    }
    return false;
  }

  /** One attempt of get_objects_info: a pointer already read and a count at some address. */
  method Attempt(m: Memory, ptr: nat, countAt: nat) returns (r: Option<(nat, nat)>)
    ensures r.Some? <==> ValidPtr(ptr) && ReadI32(m, countAt).Some? && ReadI32(m, countAt).value > 0
    ensures r.Some? ==> r.value.0 == ptr && r.value.1 == ReadI32(m, countAt).value
  {
    var count := ReadI32(m, countAt);
    if ValidPtr(ptr) && count.Some? && count.value > 0 { return Some((ptr, count.value)); }
    return None;
  }

  /** get_objects_info, with its four attempts in order and the count it falls back on. The second one
   * repeats the first: what is computed is the same without it. */
  method GetObjectsInfo(m: Memory, guobj: nat) returns (r: Option<(nat, nat)>)
    ensures r == ObjectsInfo(m, guobj)
  {
    var ptr := ReadPtr(m, guobj + 0x10);
    r := Attempt(m, ptr, guobj + 0x10 + 0x14);
    if r.None? { r := Attempt(m, ptr, guobj + 0x10 + 0x14); }
    if r.None? {
      ptr := ReadPtr(m, guobj + 0x10);
      r := Attempt(m, ptr, guobj + 0x1c);
    }
    if r.None? {
      ptr := ReadPtr(m, guobj);
      r := Attempt(m, ptr, guobj + 0x14);
    }
    if r.None? && ValidPtr(ptr) { r := Some((ptr, 100000)); }
  }

  /** The name behind an entry pointer, with the loop over wide characters. */
  method ReadEntry(m: Memory, entry: nat) returns (name: seq<byte>)
    ensures name == EntryName(m, entry)
  {
    name := [];
    if !IsWide(m, entry) {
      var s := StringAt(m, entry + 0x0c, NAME_BUF);
      if s.Some? { name := s.value; }
    } else {
      var wide := Read(m, entry + 0x0c, 512);
      if wide.Some? {
        var low := LowBytes(wide.value);
        var i := 0;
        while i < 256 && wide.value[i * 2] != 0
          invariant 0 <= i <= 256 && name == low[..i] && 0 !in name
        {
          name := name + [wide.value[i * 2]];
          i := i + 1;
        }
        CStringIs(low, name);
      }
    }
  }

  method NameInChunk(m: Memory, chunk: nat, index: nat) returns (name: seq<byte>)
    ensures name == ChunkName(m, chunk, index)
  {
    name := [];
    if ValidPtr(chunk) {
      var entry := ReadPtr(m, chunk + index % 16384 * 8);
      if ValidPtr(entry) { name := ReadEntry(m, entry); }
    }
  }

  /** The loop over the three other candidate tables. */
  method OtherTables(m: Memory, pool: Pool, index: nat) returns (name: seq<byte>)
    ensures name == FirstTableName(m, pool, index, 0)
  {
    hide ReadPtr, ChunkName, EntryName;
    name := [];
    var t: nat := 0;
    while t < 3 && name == []
      invariant t <= 3
      invariant FirstTableName(m, pool, index, 0) == if name != [] then name else FirstTableName(m, pool, index, t)
    {
      var table := Table(m, pool, t);
      if ValidPtr(table) {
        name := NameInChunk(m, ReadPtr(m, table + index / 16384 * 8), index);
      }
      t := t + 1;
    }
  }
}
