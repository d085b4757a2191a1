/** The scan of a level's actor array with memoised classification: classify_class and
 * scan_persistent_level in source/daemon/radar_reader.c. */
module LevelScan {
  import opened Bytes
  import opened Wrappers
  import opened RemoteMemory
  import opened NameCache

  const CLASSES := 4096
  const CHUNK_LENGTH := 512
  const MAX_PLAYERS := 512
  const MAX_VEHICLES := 64
  const MAX_ITEMS := 256
  const CLASS_NAME := 128

  datatype Kind = Ignore | Player | Vehicle | Item

  /** A pointer field of an object, 0 unless both ends look valid. */
  function Field(m: Memory, obj: nat, offset: nat): nat
  {
    if !ValidPtr(obj) then 0
    else
      var value := ReadPtr(m, obj + offset);
      if ValidPtr(value) then value else 0
  }

  // ---------- Classification by name ----------

  predicate OccursAt(s: seq<byte>, part: string, i: int)
  {
    0 <= i <= |s| - |part| && s[i..i + |part|] == Ascii(part)
  }

  /** strstr. */
  predicate Has(s: seq<byte>, part: string)
  {
    exists i | 0 <= i <= |s| :: OccursAt(s, part, i)
  }

  predicate HasAny(s: seq<byte>, parts: seq<string>)
  {
    exists i | 0 <= i < |parts| :: Has(s, parts[i])
  }

  /** What a class's own name says; None sends the question to its super class. */
  function OwnKind(name: seq<byte>): Option<Kind>
  {
    if HasAny(name, ["Character", "PlayerPawn"])
      && !HasAny(name, ["Controller", "Start", "State", "Camera", "AISpawner", "Movement", "AnimInstance"]) then
      Some(Player)
    else if HasAny(name, ["Vehicle", "VH_", "Buggy", "Dacia", "UAZ", "Motorcycle", "Bike", "Boat", "PickUp_",
                          "Airplane", "Plane", "Glider", "Helicopter", "C130"]) then
      Some(if HasAny(name, ["Wheel", "Movement", "Anim", "Spawner", "Manager"]) then Ignore else Vehicle)
    else if HasAny(name, ["PickUp", "Wrapper"]) then
      Some(if HasAny(name, ["Destructible", "Component"]) then Ignore else Item)
    else None
  }

  function SuperKind(name: seq<byte>): Kind
  {
    if HasAny(name, ["Character", "PlayerPawn"])
      && !HasAny(name, ["Controller", "Start", "State", "Camera"]) then Player
    else if HasAny(name, ["Vehicle", "VH_", "Airplane", "Plane", "Glider"]) then
      if HasAny(name, ["Wheel", "Movement", "Anim"]) then Ignore else Vehicle
    else if HasAny(name, ["PickUp", "Wrapper"]) then Item
    else Ignore
  }

  /** The kind of a class, by the name of the object that stands in for it, without memo or cache. */
  function KindNamed(m: Memory, pool: Pool, cls: nat, named: nat): Kind
  {
    var name := Uncached(m, pool, named + 0x18, CLASS_NAME);
    var own := OwnKind(if name.Some? then name.value else []);
    if own.Some? then own.value
    else
      var super := Field(m, cls, 0x30);
      var superName := Uncached(m, pool, super + 0x18, CLASS_NAME);
      if super != 0 && superName.Some? then SuperKind(superName.value) else Ignore
  }

  /** The kind of a class, by its own name. */
  function KindOf(m: Memory, pool: Pool, cls: nat): Kind
  {
    KindNamed(m, pool, cls, cls)
  }

  /** The class's name resolves, and what a name slot can store of it and of its super class's name
   * is enough to tell the kind. */
  predicate Resolves(m: Memory, pool: Pool, cls: nat)
  {
    && Uncached(m, pool, cls + 0x18, CLASS_NAME).Some?
    && OwnKindStored(m, pool, cls) && SuperKindStored(m, pool, cls)
  }

  predicate OwnKindStored(m: Memory, pool: Pool, obj: nat)
  {
    var name := Uncached(m, pool, obj + 0x18, CLASS_NAME);
    name.Some? ==> OwnKind(StoredText(m, pool, obj + 0x18, CLASS_NAME)) == OwnKind(name.value)
  }

  predicate SuperKindStored(m: Memory, pool: Pool, cls: nat)
  {
    var super := Field(m, cls, 0x30);
    var name := Uncached(m, pool, super + 0x18, CLASS_NAME);
    super != 0 && name.Some? ==> SuperKind(StoredText(m, pool, super + 0x18, CLASS_NAME)) == SuperKind(name.value)
  }

  predicate ShortAt(m: Memory, pool: Pool, obj: nat)
  {
    var name := Uncached(m, pool, obj + 0x18, CLASS_NAME);
    name.Some? ==> |Base(m, pool, FName(m, obj + 0x18).value.0, CLASS_NAME).value| <= STORED
  }

  /** Names of at most 59 bytes are always enough. */
  lemma ShortNamesResolve(m: Memory, pool: Pool, cls: nat)
    requires Uncached(m, pool, cls + 0x18, CLASS_NAME).Some?
    requires ShortAt(m, pool, cls) && ShortAt(m, pool, Field(m, cls, 0x30))
    ensures Resolves(m, pool, cls)
  {
    hide OwnKind, SuperKind, Uncached, StoredText;
    ShortStoredText(m, pool, cls + 0x18, CLASS_NAME);
    var super := Field(m, cls, 0x30);
    if Uncached(m, pool, super + 0x18, CLASS_NAME).Some? {
      ShortStoredText(m, pool, super + 0x18, CLASS_NAME);
    }
  }

  // ---------- Classification with the memo ----------

  datatype Known = Known(cls: nat, kind: Kind)

  /** The first memo entry for a class. */
  function Recall(memo: seq<Known>, cls: nat): Option<Kind>
  {
    if memo == [] then None
    else if memo[0].cls == cls then Some(memo[0].kind)
    else Recall(memo[1..], cls)
  }

  datatype Classified = Classified(caches: Caches, memo: seq<Known>, kind: Kind)

  /** classify_class; an unresolved class is judged by the name of the actor at hand. */
  function Classify(m: Memory, pool: Pool, c: Caches, memo: seq<Known>, cls: nat, actor: nat): (r: Classified)
    requires Sized(c)
    ensures Sized(r.caches)
  {
    if cls == 0 then Classified(c, memo, Ignore)
    else
      match Recall(memo, cls)
      case Some(kind) => Classified(c, memo, kind)
      case None =>
        var judged := Judge(m, pool, c, cls, actor);
        Classified(judged.caches, if |memo| < CLASSES then memo + [Known(cls, judged.kind)] else memo, judged.kind)
  }

  datatype Named = Named(caches: Caches, name: seq<byte>)

  function NameFor(m: Memory, pool: Pool, c: Caches, cls: nat, actor: nat): (r: Named)
    requires Sized(c)
    ensures Sized(r.caches)
  {
    var own := Lookup(m, pool, c, cls + 0x18, CLASS_NAME);
    if own.name.Some? then Named(own.caches, own.name.value)
    else if actor == 0 then Named(own.caches, [])
    else
      var other := Lookup(m, pool, own.caches, actor + 0x18, CLASS_NAME);
      Named(other.caches, if other.name.Some? then other.name.value else [])
  }

  datatype Judged = Judged(caches: Caches, kind: Kind)

  function Judge(m: Memory, pool: Pool, c: Caches, cls: nat, actor: nat): (r: Judged)
    requires Sized(c)
    ensures Sized(r.caches)
  {
    var named := NameFor(m, pool, c, cls, actor);
    var own := OwnKind(named.name);
    if own.Some? then Judged(named.caches, own.value)
    else
      var super := Field(m, cls, 0x30);
      if super == 0 then Judged(named.caches, Ignore)
      else
        var o := Lookup(m, pool, named.caches, super + 0x18, CLASS_NAME);
        Judged(o.caches, if o.name.Some? then SuperKind(o.name.value) else Ignore)
  }

  ghost predicate HonestMemo(m: Memory, pool: Pool, memo: seq<Known>)
  {
    forall i :: 0 <= i < |memo| ==> memo[i].kind == KindOf(m, pool, memo[i].cls)
  }

  lemma {:induction false} RecallHonest(m: Memory, pool: Pool, memo: seq<Known>, cls: nat)
    requires HonestMemo(m, pool, memo)
    ensures Recall(memo, cls).Some? ==> Recall(memo, cls).value == KindOf(m, pool, cls)
  {
    hide KindOf;
    if memo != [] && memo[0].cls != cls {
      RecallHonest(m, pool, memo[1..], cls);
    }
  }

  lemma JudgeIsKindOf(m: Memory, pool: Pool, c: Caches, cls: nat, actor: nat)
    requires Honest(m, pool, c, CLASS_NAME) && Resolves(m, pool, cls)
    ensures Sized(c)
    ensures var j := Judge(m, pool, c, cls, actor);
      j.kind == KindOf(m, pool, cls) && Honest(m, pool, j.caches, CLASS_NAME)
  {
    hide Lookup, Uncached, OwnKind, SuperKind, Honest, StoredText;
    LookupIsEither(m, pool, c, cls + 0x18, CLASS_NAME);
    var named := NameFor(m, pool, c, cls, actor);
    LookupIsEither(m, pool, named.caches, Field(m, cls, 0x30) + 0x18, CLASS_NAME);
  }

  /** With names that resolve, the memo and the caches do not show in the answer, and stay right. */
  lemma ClassifyIsKindOf(m: Memory, pool: Pool, c: Caches, memo: seq<Known>, cls: nat, actor: nat)
    requires Honest(m, pool, c, CLASS_NAME) && HonestMemo(m, pool, memo) && cls != 0 && Resolves(m, pool, cls)
    ensures Sized(c)
    ensures var r := Classify(m, pool, c, memo, cls, actor);
      r.kind == KindOf(m, pool, cls) && Honest(m, pool, r.caches, CLASS_NAME) && HonestMemo(m, pool, r.memo)
  {
    hide Judge, KindOf, Honest, Resolves, Recall;
    JudgeIsKindOf(m, pool, c, cls, actor);
    RecallHonest(m, pool, memo, cls);
  }

  // ---------- The naive lists ----------

  /** The actor array. */
  datatype Level = Level(data: nat, count: nat)

  function ChunkStart(i: nat): nat { i / CHUNK_LENGTH * CHUNK_LENGTH }

  /** The 512-pointer chunk around index i can be read as a whole. */
  predicate InReadableChunk(m: Memory, l: Level, i: nat)
    requires i < l.count
  {
    Readable(m, l.data + ChunkStart(i) * 8, Min(CHUNK_LENGTH, l.count - ChunkStart(i)) * 8)
  }

  function ActorAt(m: Memory, l: Level, i: nat): nat
  {
    ReadPtr(m, l.data + i * 8)
  }

  function ClassOf(m: Memory, actor: nat): nat
  {
    Field(m, actor, 0x10)
  }

  predicate IsActor(m: Memory, l: Level, i: nat)
    requires i < l.count
  {
    InReadableChunk(m, l, i) && ValidPtr(ActorAt(m, l, i)) && ClassOf(m, ActorAt(m, l, i)) != 0
  }

  /** The actors of one kind among the first n, in array order. */
  function ActorsOf(m: Memory, pool: Pool, l: Level, kind: Kind, n: nat): seq<nat>
    requires n <= l.count
  {
    if n == 0 then []
    else
      ActorsOf(m, pool, l, kind, n - 1) +
      if IsActor(m, l, n - 1) && KindOf(m, pool, ClassOf(m, ActorAt(m, l, n - 1))) == kind
      then [ActorAt(m, l, n - 1)] else []
  }

  function Take(s: seq<nat>, n: nat): seq<nat>
  {
    if |s| <= n then s else s[..n]
  }

  // ---------- The scan with its state ----------

  datatype Scan = Scan(caches: Caches, memo: seq<Known>, players: seq<nat>, vehicles: seq<nat>, items: seq<nat>)

  function Push(s: seq<nat>, n: nat, x: nat): seq<nat>
  {
    if |s| < n then s + [x] else s
  }

  /** The lists after an actor of a kind. */
  function Sort(s: Scan, kind: Kind, actor: nat): Scan
  {
    match kind
    case Player => s.(players := Push(s.players, MAX_PLAYERS, actor))
    case Vehicle => s.(vehicles := Push(s.vehicles, MAX_VEHICLES, actor))
    case Item => s.(items := Push(s.items, MAX_ITEMS, actor))
    case Ignore => s
  }

  function Visit(m: Memory, pool: Pool, s: Scan, actor: nat): (s': Scan)
    requires Sized(s.caches)
    ensures Sized(s'.caches)
  {
    if !ValidPtr(actor) || ClassOf(m, actor) == 0 then s
    else
      var r := Classify(m, pool, s.caches, s.memo, ClassOf(m, actor), actor);
      Sort(s.(caches := r.caches, memo := r.memo), r.kind, actor)
  }

  function Started(c: Caches, memo: seq<Known>): Scan
  {
    Scan(c, memo, [], [], [])
  }

  /** The state after the first n entries. */
  function Scanned(m: Memory, pool: Pool, l: Level, c: Caches, memo: seq<Known>, n: nat): (s: Scan)
    requires Sized(c) && n <= l.count
    ensures Sized(s.caches)
  {
    if n == 0 then Started(c, memo)
    else
      var s := Scanned(m, pool, l, c, memo, n - 1);
      if InReadableChunk(m, l, n - 1) then Visit(m, pool, s, ActorAt(m, l, n - 1)) else s
  }

  ghost predicate Right(m: Memory, pool: Pool, l: Level, s: Scan, n: nat)
    requires n <= l.count
  {
    && Honest(m, pool, s.caches, CLASS_NAME) && HonestMemo(m, pool, s.memo)
    && s.players == Take(ActorsOf(m, pool, l, Player, n), MAX_PLAYERS)
    && s.vehicles == Take(ActorsOf(m, pool, l, Vehicle, n), MAX_VEHICLES)
    && s.items == Take(ActorsOf(m, pool, l, Item, n), MAX_ITEMS)
  }

  lemma PushIsTake(s: seq<nat>, n: nat, x: nat)
    ensures Push(Take(s, n), n, x) == Take(s + [x], n)
  {
  }

  ghost predicate AllResolve(m: Memory, pool: Pool, l: Level, n: nat)
    requires n <= l.count
  {
    forall i :: 0 <= i < n && IsActor(m, l, i) ==> Resolves(m, pool, ClassOf(m, ActorAt(m, l, i)))
  }

  /**
   * Over unchanging memory in which every class name resolves, the three lists are those of an
   * unmemoised filter over the readable chunks, in array order, cut at 512, 64 and 256.
   */
  lemma {:induction false} ScanIsFilter(m: Memory, pool: Pool, l: Level, c: Caches, memo: seq<Known>, n: nat)
    requires n <= l.count && Honest(m, pool, c, CLASS_NAME) && HonestMemo(m, pool, memo)
    requires AllResolve(m, pool, l, n)
    ensures Sized(c) && Right(m, pool, l, Scanned(m, pool, l, c, memo, n), n)
  {
    hide Visit, Right, Honest, IsActor, Resolves, InReadableChunk;
    SizedIfHonest(m, pool, c);
    if n == 0 {
      StartedRight(m, pool, l, c, memo);
    } else {
      assert AllResolve(m, pool, l, n - 1);
      ScanIsFilter(m, pool, l, c, memo, n - 1);
      StepRight(m, pool, l, Scanned(m, pool, l, c, memo, n - 1), n);
    }
  }

  lemma SizedIfHonest(m: Memory, pool: Pool, c: Caches)
    requires Honest(m, pool, c, CLASS_NAME)
    ensures Sized(c)
  {
  }

  lemma StartedRight(m: Memory, pool: Pool, l: Level, c: Caches, memo: seq<Known>)
    requires Honest(m, pool, c, CLASS_NAME) && HonestMemo(m, pool, memo)
    ensures Right(m, pool, l, Started(c, memo), 0)
  {
    hide Honest;
  }

  lemma ActorsOfStep(m: Memory, pool: Pool, l: Level, kind: Kind, n: nat)
    requires 0 < n <= l.count
    ensures ActorsOf(m, pool, l, kind, n) ==
      if IsActor(m, l, n - 1) && KindOf(m, pool, ClassOf(m, ActorAt(m, l, n - 1))) == kind
      then ActorsOf(m, pool, l, kind, n - 1) + [ActorAt(m, l, n - 1)] else ActorsOf(m, pool, l, kind, n - 1)
  {
    hide IsActor, KindOf, ClassOf, ActorAt;
  }

  lemma StepRight(m: Memory, pool: Pool, l: Level, s: Scan, n: nat)
    requires 0 < n <= l.count && Right(m, pool, l, s, n - 1)
    requires IsActor(m, l, n - 1) ==> Resolves(m, pool, ClassOf(m, ActorAt(m, l, n - 1)))
    ensures Sized(s.caches)
    ensures Right(m, pool, l, if InReadableChunk(m, l, n - 1) then Visit(m, pool, s, ActorAt(m, l, n - 1)) else s, n)
  {
    hide Honest, HonestMemo, Resolves, Classify, KindOf, InReadableChunk, ReadPtr, Take, Push, ActorsOf;
    SizedIfHonest(m, pool, s.caches);
    var actor := ActorAt(m, l, n - 1);
    ActorsOfStep(m, pool, l, Player, n);
    ActorsOfStep(m, pool, l, Vehicle, n);
    ActorsOfStep(m, pool, l, Item, n);
    if IsActor(m, l, n - 1) {
      var r := Classify(m, pool, s.caches, s.memo, ClassOf(m, actor), actor);
      ClassifyIsKindOf(m, pool, s.caches, s.memo, ClassOf(m, actor), actor);
      PushIsTake(ActorsOf(m, pool, l, Player, n - 1), MAX_PLAYERS, actor);
      PushIsTake(ActorsOf(m, pool, l, Vehicle, n - 1), MAX_VEHICLES, actor);
      PushIsTake(ActorsOf(m, pool, l, Item, n - 1), MAX_ITEMS, actor);
    }
  }

  /** A class judged once keeps that kind, even where it was judged by the name of another actor. */
  lemma JudgedOnce(m: Memory, pool: Pool, c: Caches, memo: seq<Known>, cls: nat, first: nat, second: nat)
    requires Sized(c) && cls != 0 && |memo| < 4096
    ensures var r := Classify(m, pool, c, memo, cls, first);
      Classify(m, pool, r.caches, r.memo, cls, second) == Classified(r.caches, r.memo, r.kind)
  {
    hide Judge;
    var r := Classify(m, pool, c, memo, cls, first);
    if Recall(memo, cls).None? {
      RecallAppended(memo, cls, r.kind);
    }
  }

  lemma {:induction false} RecallAppended(memo: seq<Known>, cls: nat, kind: Kind)
    requires Recall(memo, cls).None?
    ensures Recall(memo + [Known(cls, kind)], cls) == Some(kind)
  {
    if memo != [] {
      assert (memo + [Known(cls, kind)])[1..] == memo[1..] + [Known(cls, kind)];
      RecallAppended(memo[1..], cls, kind);
    }
  }

  // ---------- Finding the array ----------

  /** A TArray header with a plausible count and capacity. */
  function ArrayAt(m: Memory, obj: nat, offset: nat, limit: nat): (l: Option<Level>)
    ensures l.Some? ==> l.value.count <= limit
  {
    if !ValidPtr(obj) then None
    else
      match Read(m, obj + offset, 16)
      case None => None
      case Some(b) =>
        var data := FromLittleEndian(b[..8]);
        var count := ToSigned32(FromLittleEndian(b[8..12]));
        var capacity := ToSigned32(FromLittleEndian(b[12..]));
        if count < 0 || capacity < count || count > limit || capacity > 1000000 then None
        else if count != 0 && !ValidPtr(data) then None
        else Some(Level(data, count))
  }

  const OFFSETS: seq<nat> := [0xa0, 0xb0, 0x98, 0xa8, 0x90, 0x70]
  const MAX_ACTORS := 8192

  /** The actor array at the first offset, from the k-th on, that holds one of five or more entries. */
  function FirstArray(m: Memory, level: nat, k: nat): Option<Level>
    requires k <= |OFFSETS|
    decreases |OFFSETS| - k
  {
    if k == |OFFSETS| then None
    else
      var l := ArrayAt(m, level, OFFSETS[k], MAX_ACTORS);
      if l.Some? && l.value.count >= 5 then l else FirstArray(m, level, k + 1)
  }

  function FindLevel(m: Memory, world: nat): Option<Level>
  {
    var level := Field(m, world, 0x30);
    if level == 0 then None else FirstArray(m, level, 0)
  }

  // ---------- Chunks ----------

  lemma {:induction false} UnreadableChunk(m: Memory, pool: Pool, l: Level, c: Caches, memo: seq<Known>,
        start: nat, n: nat)
    requires Sized(c) && start <= n <= l.count && start % CHUNK_LENGTH == 0 && n <= start + CHUNK_LENGTH
    requires start < l.count && !InReadableChunk(m, l, start)
    ensures Scanned(m, pool, l, c, memo, n) == Scanned(m, pool, l, c, memo, start)
    decreases n
  {
    hide Visit, Readable;
    if n > start {
      assert ChunkStart(n - 1) == start == ChunkStart(start);
      UnreadableChunk(m, pool, l, c, memo, start, n - 1);
    }
  }

  lemma ChunkItem(m: Memory, l: Level, chunk: seq<byte>, start: nat, size: nat, i: nat)
    requires i < size && start + size <= l.count && start % CHUNK_LENGTH == 0
    requires size == Min(CHUNK_LENGTH, l.count - start)
    requires Read(m, l.data + start * 8, size * 8) == Some(chunk)
    ensures InReadableChunk(m, l, start + i)
    ensures FromLittleEndian(chunk[i * 8..i * 8 + 8]) == ActorAt(m, l, start + i)
  {
    assert ChunkStart(start + i) == start;
    var addr := l.data + (start + i) * 8;
    assert Readable(m, l.data + start * 8, size * 8);
    assert Readable(m, addr, 8);
    assert chunk[i * 8..i * 8 + 8] == Read(m, addr, 8).value;
  }
}
