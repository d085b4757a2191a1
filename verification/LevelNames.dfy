/** Which list an actor is put into, by the words in the names of its class and super class and by the
 * bytes of the level: classify_class and scan_persistent_level in source/daemon/radar_reader.c. */
module LevelNames {
  import opened Bytes
  import opened Wrappers
  import opened RemoteMemory
  import opened ByteLayout
  import opened NameCache
  import opened LevelScan

  // ---------- Words in a name ----------

  predicate SpelledAt(name: seq<byte>, word: string, i: nat)
  {
    i + |word| <= |name| && forall j :: 0 <= j < |word| ==> name[i + j] == word[j] as int
  }

  predicate Contains(name: seq<byte>, word: string)
  {
    exists i: nat | i <= |name| :: SpelledAt(name, word, i)
  }

  predicate ContainsAny(name: seq<byte>, words: seq<string>)
  {
    exists k | 0 <= k < |words| :: Contains(name, words[k])
  }

  predicate NamesPlayer(n: seq<byte>)
  {
    && ContainsAny(n, ["PlayerPawn", "Character"])
    && !ContainsAny(n, ["AISpawner", "AnimInstance", "Camera", "Controller", "Movement", "Start", "State"])
  }

  predicate HasVehicleWord(n: seq<byte>)
  {
    ContainsAny(n, ["Airplane", "Bike", "Boat", "Buggy", "C130", "Dacia", "Glider", "Helicopter", "Motorcycle",
                    "PickUp_", "Plane", "UAZ", "VH_", "Vehicle"])
  }

  predicate NamesVehicle(n: seq<byte>)
  {
    !NamesPlayer(n) && HasVehicleWord(n) && !ContainsAny(n, ["Anim", "Manager", "Movement", "Spawner", "Wheel"])
  }

  predicate HasItemWord(n: seq<byte>)
  {
    ContainsAny(n, ["PickUp", "Wrapper"])
  }

  predicate NamesItem(n: seq<byte>)
  {
    !NamesPlayer(n) && !HasVehicleWord(n) && HasItemWord(n) && !ContainsAny(n, ["Component", "Destructible"])
  }

  predicate SaysNothing(n: seq<byte>)
  {
    !NamesPlayer(n) && !HasVehicleWord(n) && !HasItemWord(n)
  }

  // The super class is asked with fewer words.

  predicate SuperNamesPlayer(n: seq<byte>)
  {
    ContainsAny(n, ["PlayerPawn", "Character"]) && !ContainsAny(n, ["Camera", "Controller", "Start", "State"])
  }

  predicate SuperHasVehicleWord(n: seq<byte>)
  {
    ContainsAny(n, ["Airplane", "Glider", "Plane", "VH_", "Vehicle"])
  }

  predicate SuperNamesVehicle(n: seq<byte>)
  {
    !SuperNamesPlayer(n) && SuperHasVehicleWord(n) && !ContainsAny(n, ["Anim", "Movement", "Wheel"])
  }

  predicate SuperNamesItem(n: seq<byte>)
  {
    !SuperNamesPlayer(n) && !SuperHasVehicleWord(n) && HasItemWord(n)
  }

  /** A class belongs to a list, by its name and its super class's. */
  predicate Belongs(kind: Kind, own: seq<byte>, super: Option<seq<byte>>)
    requires kind != Ignore
  {
    match kind
    case Player => NamesPlayer(own) || (SaysNothing(own) && super.Some? && SuperNamesPlayer(super.value))
    case Vehicle => NamesVehicle(own) || (SaysNothing(own) && super.Some? && SuperNamesVehicle(super.value))
    case Item => NamesItem(own) || (SaysNothing(own) && super.Some? && SuperNamesItem(super.value))
  }

  /** The trailing underscore makes a vehicle of what would be an item. */
  lemma PickUpWithUnderscore(n: seq<byte>)
    requires Contains(n, "PickUp_") && !NamesPlayer(n)
    requires !ContainsAny(n, ["Anim", "Manager", "Movement", "Spawner", "Wheel"])
    ensures Contains(n, "PickUp") && Belongs(Vehicle, n, None) && !Belongs(Item, n, None)
  {
    var i: nat :| i <= |n| && SpelledAt(n, "PickUp_", i);
    assert "PickUp_"[..6] == "PickUp";
    forall j | 0 <= j < 6 ensures n[i + j] == "PickUp"[j] as int {
      assert "PickUp_"[j] == "PickUp"[j];
    }
    assert SpelledAt(n, "PickUp", i);
    assert ["Airplane", "Bike", "Boat", "Buggy", "C130", "Dacia", "Glider", "Helicopter", "Motorcycle",
            "PickUp_", "Plane", "UAZ", "VH_", "Vehicle"][9] == "PickUp_";
    assert HasVehicleWord(n);
  }

  // ---------- That is how the classification reads them ----------

  predicate Plain(word: string)
  {
    forall j :: 0 <= j < |word| ==> word[j] as int < 256
  }

  lemma ContainsIsHas(n: seq<byte>, word: string)
    requires Plain(word)
    ensures Has(n, word) <==> Contains(n, word)
  {
    forall i: nat | i <= |n| ensures OccursAt(n, word, i) <==> SpelledAt(n, word, i) {
      if i + |word| <= |n| {
        if SpelledAt(n, word, i) {
          assert n[i..i + |word|] == Ascii(word);
        }
        if OccursAt(n, word, i) {
          forall j | 0 <= j < |word| ensures n[i + j] == word[j] as int {
            assert n[i + j] == n[i..i + |word|][j] == Ascii(word)[j];
          }
        }
      }
    }
  }

  /** The order of the words does not matter. */
  lemma AnyIsHasAny(n: seq<byte>, parts: seq<string>, words: seq<string>)
    requires forall k :: 0 <= k < |words| ==> Plain(words[k])
    requires forall w :: w in parts <==> w in words
    ensures HasAny(n, parts) <==> ContainsAny(n, words)
  {
    hide Has, Contains;
    forall w | w in words ensures Has(n, w) <==> Contains(n, w) { ContainsIsHas(n, w); }
    if HasAny(n, parts) {
      var i :| 0 <= i < |parts| && Has(n, parts[i]);
      assert parts[i] in words;
      var k :| 0 <= k < |words| && words[k] == parts[i];
      assert Contains(n, words[k]);
    }
    if ContainsAny(n, words) {
      var k :| 0 <= k < |words| && Contains(n, words[k]);
      assert words[k] in parts;
      var i :| 0 <= i < |parts| && parts[i] == words[k];
      assert Has(n, parts[i]);
    }
  }

  lemma PlayerWords(n: seq<byte>)
    ensures HasAny(n, ["Character", "PlayerPawn"]) <==> ContainsAny(n, ["PlayerPawn", "Character"])
    ensures HasAny(n, ["Controller", "Start", "State", "Camera", "AISpawner", "Movement", "AnimInstance"])
      <==> ContainsAny(n, ["AISpawner", "AnimInstance", "Camera", "Controller", "Movement", "Start", "State"])
  {
    hide HasAny, ContainsAny;
    AnyIsHasAny(n, ["Character", "PlayerPawn"], ["PlayerPawn", "Character"]);
    AnyIsHasAny(n, ["Controller", "Start", "State", "Camera", "AISpawner", "Movement", "AnimInstance"],
      ["AISpawner", "AnimInstance", "Camera", "Controller", "Movement", "Start", "State"]);
  }

  lemma VehicleWords(n: seq<byte>)
    ensures HasVehicleWord(n) <==>
      HasAny(n, ["Vehicle", "VH_", "Buggy", "Dacia", "UAZ", "Motorcycle", "Bike", "Boat", "PickUp_",
                 "Airplane", "Plane", "Glider", "Helicopter", "C130"])
    ensures HasAny(n, ["Wheel", "Movement", "Anim", "Spawner", "Manager"])
      <==> ContainsAny(n, ["Anim", "Manager", "Movement", "Spawner", "Wheel"])
  {
    hide HasAny, ContainsAny;
    AnyIsHasAny(n, ["Vehicle", "VH_", "Buggy", "Dacia", "UAZ", "Motorcycle", "Bike", "Boat", "PickUp_",
                    "Airplane", "Plane", "Glider", "Helicopter", "C130"],
      ["Airplane", "Bike", "Boat", "Buggy", "C130", "Dacia", "Glider", "Helicopter", "Motorcycle",
       "PickUp_", "Plane", "UAZ", "VH_", "Vehicle"]);
    AnyIsHasAny(n, ["Wheel", "Movement", "Anim", "Spawner", "Manager"],
      ["Anim", "Manager", "Movement", "Spawner", "Wheel"]);
  }

  lemma ItemWords(n: seq<byte>)
    ensures HasAny(n, ["PickUp", "Wrapper"]) <==> HasItemWord(n)
    ensures HasAny(n, ["Destructible", "Component"]) <==> ContainsAny(n, ["Component", "Destructible"])
  {
    hide HasAny, ContainsAny;
    AnyIsHasAny(n, ["PickUp", "Wrapper"], ["PickUp", "Wrapper"]);
    AnyIsHasAny(n, ["Destructible", "Component"], ["Component", "Destructible"]);
  }

  lemma SuperWords(n: seq<byte>)
    ensures HasAny(n, ["Controller", "Start", "State", "Camera"])
      <==> ContainsAny(n, ["Camera", "Controller", "Start", "State"])
    ensures HasAny(n, ["Vehicle", "VH_", "Airplane", "Plane", "Glider"]) <==> SuperHasVehicleWord(n)
    ensures HasAny(n, ["Wheel", "Movement", "Anim"]) <==> ContainsAny(n, ["Anim", "Movement", "Wheel"])
  {
    hide HasAny, ContainsAny;
    AnyIsHasAny(n, ["Controller", "Start", "State", "Camera"], ["Camera", "Controller", "Start", "State"]);
    AnyIsHasAny(n, ["Vehicle", "VH_", "Airplane", "Plane", "Glider"],
      ["Airplane", "Glider", "Plane", "VH_", "Vehicle"]);
    AnyIsHasAny(n, ["Wheel", "Movement", "Anim"], ["Anim", "Movement", "Wheel"]);
  }

  lemma OwnKindReads(n: seq<byte>)
    ensures OwnKind(n) ==
      if NamesPlayer(n) then Some(Player)
      else if NamesVehicle(n) then Some(Vehicle)
      else if NamesItem(n) then Some(Item)
      else if SaysNothing(n) then None
      else Some(Ignore)
  {
    hide HasAny, ContainsAny;
    PlayerWords(n);
    VehicleWords(n);
    ItemWords(n);
  }

  lemma SuperKindReads(n: seq<byte>)
    ensures SuperKind(n) ==
      if SuperNamesPlayer(n) then Player
      else if SuperNamesVehicle(n) then Vehicle
      else if SuperNamesItem(n) then Item
      else Ignore
  {
    hide HasAny, ContainsAny;
    PlayerWords(n);
    ItemWords(n);
    SuperWords(n);
  }

  // ---------- The lists of a scan ----------

  /** A pointer field, if both ends are pointers. */
  function Link(m: Memory, obj: nat, offset: nat): Option<nat>
  {
    if IsPtr(obj) && IsPtr(Ptr(m, obj + offset)) then Some(Ptr(m, obj + offset)) else None
  }

  function ActorPtr(m: Memory, l: Level, i: nat): nat
  {
    Ptr(m, l.data + 8 * i)
  }

  /** Entry i lies in a chunk of up to 512 that is mapped as a whole, and points to an object with a class. */
  predicate ActorHere(m: Memory, l: Level, i: nat)
    requires i < l.count
  {
    var start := i / 512 * 512;
    && Mapped(m, l.data + 8 * start, 8 * Min(512, l.count - start))
    && IsPtr(ActorPtr(m, l, i)) && Link(m, ActorPtr(m, l, i), 16).Some?
  }

  function ClassName(m: Memory, pool: Pool, cls: nat): Option<seq<byte>>
  {
    Uncached(m, pool, cls + 24, 128)
  }

  function SuperName(m: Memory, pool: Pool, cls: nat): Option<seq<byte>>
  {
    var super := Link(m, cls, 48);
    if super.Some? then ClassName(m, pool, super.value) else None
  }

  /** A class with a name, of at most 59 bytes as the super class's. */
  predicate PlainlyNamed(m: Memory, pool: Pool, cls: nat)
  {
    && ClassName(m, pool, cls).Some? && ShortAt(m, pool, cls)
    && (Link(m, cls, 48).Some? ==> ShortAt(m, pool, Link(m, cls, 48).value))
  }

  predicate ActorBelongs(m: Memory, pool: Pool, l: Level, kind: Kind, i: nat)
    requires kind != Ignore && i < l.count
  {
    && ActorHere(m, l, i)
    && var cls := Link(m, ActorPtr(m, l, i), 16).value;
      ClassName(m, pool, cls).Some? && Belongs(kind, ClassName(m, pool, cls).value, SuperName(m, pool, cls))
  }

  lemma FieldReads(m: Memory, obj: nat, offset: nat)
    ensures Field(m, obj, offset) == if Link(m, obj, offset).Some? then Link(m, obj, offset).value else 0
  {
    hide ReadPtr, Ptr;
    ReadsPtr(m, obj + offset);
  }

  lemma ActorReads(m: Memory, l: Level, i: nat)
    requires i < l.count
    ensures ActorAt(m, l, i) == ActorPtr(m, l, i)
    ensures IsActor(m, l, i) <==> ActorHere(m, l, i)
    ensures ActorHere(m, l, i) ==> ClassOf(m, ActorPtr(m, l, i)) == Link(m, ActorPtr(m, l, i), 16).value
  {
    hide ReadPtr, Ptr, Field, Link;
    assert l.data + 8 * i == l.data + i * 8;
    ReadsPtr(m, l.data + 8 * i);
    FieldReads(m, ActorPtr(m, l, i), 16);
    LinkIsPtr(m, ActorPtr(m, l, i), 16);
    var start := ChunkStart(i);
    assert l.data + 8 * start == l.data + start * 8;
    var n: nat := 8 * Min(512, l.count - start);
    assert n > 0;
    assert Readable(m, l.data + 8 * start, n) <==> Mapped(m, l.data + 8 * start, n);
  }

  lemma LinkIsPtr(m: Memory, obj: nat, offset: nat)
    ensures Link(m, obj, offset).Some? ==> Link(m, obj, offset).value != 0
  {
  }

  lemma KindReads(m: Memory, pool: Pool, cls: nat, kind: Kind)
    requires kind != Ignore && IsPtr(cls) && ClassName(m, pool, cls).Some?
    ensures KindOf(m, pool, cls) == kind <==> Belongs(kind, ClassName(m, pool, cls).value, SuperName(m, pool, cls))
  {
    hide OwnKind, SuperKind, Uncached, ContainsAny, Field, Link, Ptr;
    FieldReads(m, cls, 48);
    LinkIsPtr(m, cls, 48);
    OwnKindReads(ClassName(m, pool, cls).value);
    if SuperName(m, pool, cls).Some? {
      SuperKindReads(SuperName(m, pool, cls).value);
    }
  }

  lemma PlainResolves(m: Memory, pool: Pool, cls: nat)
    requires PlainlyNamed(m, pool, cls)
    ensures Resolves(m, pool, cls)
  {
    hide OwnKind, SuperKind, Uncached, StoredText, ShortAt, Link;
    ShortStored(m, pool, cls);
    FieldReads(m, cls, 48);
    if Link(m, cls, 48).Some? {
      ShortStored(m, pool, Link(m, cls, 48).value);
    }
  }

  lemma ShortStored(m: Memory, pool: Pool, obj: nat)
    requires ShortAt(m, pool, obj)
    ensures Uncached(m, pool, obj + 24, 128).Some? ==>
      Uncached(m, pool, obj + 24, 128) == Some(StoredText(m, pool, obj + 24, 128))
  {
    hide Uncached, StoredText, Base, FName;
    if Uncached(m, pool, obj + 24, 128).Some? {
      ShortStoredText(m, pool, obj + 24, 128);
    }
  }

  /** A list holds, up to its capacity, the actors of exactly those indices below n that belong to it. */
  ghost predicate ListIs(m: Memory, pool: Pool, l: Level, kind: Kind, list: seq<nat>, cap: nat, at: seq<nat>, n: nat)
    requires kind != Ignore && n <= l.count
  {
    && |list| == Min(cap, |at|)
    && (forall k :: 0 <= k < |at| ==> at[k] < n)
    && (forall k :: 0 <= k < |list| ==> list[k] == ActorPtr(m, l, at[k]))
    && (forall j, k :: 0 <= j < k < |at| ==> at[j] < at[k])
    && forall i :: 0 <= i < n ==> (i in at <==> ActorBelongs(m, pool, l, kind, i))
  }

  ghost predicate AllPlain(m: Memory, pool: Pool, l: Level, n: nat)
    requires n <= l.count
  {
    forall i :: 0 <= i < n && ActorHere(m, l, i) ==> PlainlyNamed(m, pool, Link(m, ActorPtr(m, l, i), 16).value)
  }

  /** The actors of exactly those indices below n that belong to a list. */
  ghost predicate Selected(m: Memory, pool: Pool, l: Level, kind: Kind, list: seq<nat>, at: seq<nat>, n: nat)
    requires kind != Ignore && n <= l.count
  {
    && |list| == |at|
    && (forall k :: 0 <= k < |at| ==> at[k] < n && list[k] == ActorPtr(m, l, at[k]))
    && (forall j, k :: 0 <= j < k < |at| ==> at[j] < at[k])
    && forall i :: 0 <= i < n ==> (i in at <==> ActorBelongs(m, pool, l, kind, i))
  }

  lemma {:induction false} IndicesOf(m: Memory, pool: Pool, l: Level, kind: Kind, n: nat) returns (at: seq<nat>)
    requires kind != Ignore && n <= l.count && AllPlain(m, pool, l, n)
    ensures Selected(m, pool, l, kind, ActorsOf(m, pool, l, kind, n), at, n)
  {
    hide IsActor, KindOf, ClassOf, ActorAt, ActorHere, PlainlyNamed, ActorBelongs, Selected, ActorPtr, Link;
    if n == 0 {
      at := [];
      NothingSelected(m, pool, l, kind);
    } else {
      var i := n - 1;
      var rest := IndicesOf(m, pool, l, kind, i);
      ActorReads(m, l, i);
      ActorsOfStep(m, pool, l, kind, n);
      if ActorHere(m, l, i) {
        ClassReads(m, pool, l, kind, i);
      }
      BelongsHere(m, pool, l, kind, i);
      SelectNext(m, pool, l, kind, ActorsOf(m, pool, l, kind, i), rest, i);
      at := if ActorBelongs(m, pool, l, kind, i) then rest + [i] else rest;
    }
  }

  lemma NothingSelected(m: Memory, pool: Pool, l: Level, kind: Kind)
    requires kind != Ignore
    ensures Selected(m, pool, l, kind, [], [], 0)
  {
  }

  lemma SelectNext(m: Memory, pool: Pool, l: Level, kind: Kind, list: seq<nat>, at: seq<nat>, i: nat)
    requires kind != Ignore && i < l.count && Selected(m, pool, l, kind, list, at, i)
    ensures if ActorBelongs(m, pool, l, kind, i)
            then Selected(m, pool, l, kind, list + [ActorPtr(m, l, i)], at + [i], i + 1)
            else Selected(m, pool, l, kind, list, at, i + 1)
  {
    hide ActorBelongs, ActorPtr;
  }

  lemma BelongsHere(m: Memory, pool: Pool, l: Level, kind: Kind, i: nat)
    requires kind != Ignore && i < l.count
    ensures ActorBelongs(m, pool, l, kind, i) ==> ActorHere(m, l, i)
  {
  }

  lemma CutSelection(m: Memory, pool: Pool, l: Level, kind: Kind, list: seq<nat>, cap: nat, at: seq<nat>, n: nat)
    requires kind != Ignore && n <= l.count && Selected(m, pool, l, kind, list, at, n)
    ensures ListIs(m, pool, l, kind, Take(list, cap), cap, at, n)
  {
    hide ActorBelongs, ActorPtr;
  }

  lemma ClassReads(m: Memory, pool: Pool, l: Level, kind: Kind, i: nat)
    requires kind != Ignore && i < l.count && ActorHere(m, l, i)
    requires PlainlyNamed(m, pool, Link(m, ActorPtr(m, l, i), 16).value)
    ensures KindOf(m, pool, ClassOf(m, ActorAt(m, l, i))) == kind <==> ActorBelongs(m, pool, l, kind, i)
  {
    hide IsActor, KindOf, ClassOf, ActorAt, Belongs, SuperName, Ptr, ShortAt, Uncached;
    ActorReads(m, l, i);
    KindReads(m, pool, Link(m, ActorPtr(m, l, i), 16).value, kind);
  }

  /**
   * A first scan of a level whose classes are plainly named: each list holds, in array order and up to its
   * capacity of 512, 64 or 256, exactly the actors whose names belong to it.
   */
  lemma ListsByName(m: Memory, pool: Pool, l: Level, c: Caches)
    requires Honest(m, pool, c, 128) && AllPlain(m, pool, l, l.count)
    ensures Sized(c)
    ensures var s := Scanned(m, pool, l, c, [], l.count);
      && (exists at :: ListIs(m, pool, l, Player, s.players, 512, at, l.count))
      && (exists at :: ListIs(m, pool, l, Vehicle, s.vehicles, 64, at, l.count))
      && (exists at :: ListIs(m, pool, l, Item, s.items, 256, at, l.count))
  {
    hide Honest, Scanned, ListIs, PlainlyNamed, Resolves, ActorHere, IsActor;
    forall i | 0 <= i < l.count && IsActor(m, l, i)
      ensures Resolves(m, pool, ClassOf(m, ActorAt(m, l, i)))
    {
      ActorReads(m, l, i);
      PlainResolves(m, pool, ClassOf(m, ActorAt(m, l, i)));
    }
    ScanIsFilter(m, pool, l, c, [], l.count);
    var players := IndicesOf(m, pool, l, Player, l.count);
    CutSelection(m, pool, l, Player, ActorsOf(m, pool, l, Player, l.count), 512, players, l.count);
    var vehicles := IndicesOf(m, pool, l, Vehicle, l.count);
    CutSelection(m, pool, l, Vehicle, ActorsOf(m, pool, l, Vehicle, l.count), 64, vehicles, l.count);
    var items := IndicesOf(m, pool, l, Item, l.count);
    CutSelection(m, pool, l, Item, ActorsOf(m, pool, l, Item, l.count), 256, items, l.count);
  }

  function ListOf(s: Scan, kind: Kind): seq<nat>
    requires kind != Ignore
  {
    match kind
    case Player => s.players
    case Vehicle => s.vehicles
    case Item => s.items
  }

  function Capacity(kind: Kind): nat
  {
    match kind
    case Player => 512
    case Vehicle => 64
    case Item => 256
    case Ignore => 0
  }

  lemma OneList(own: seq<byte>, super: Option<seq<byte>>, a: Kind, b: Kind)
    requires a != Ignore && b != Ignore && Belongs(a, own, super) && Belongs(b, own, super)
    ensures a == b
  {
    hide ContainsAny;
  }

  /** There, an actor that belongs to a list is in it unless it is full, and in no other; any other is in none. */
  lemma InItsListOnly(m: Memory, pool: Pool, l: Level, c: Caches, i: nat, kind: Kind)
    requires Honest(m, pool, c, 128) && AllPlain(m, pool, l, l.count) && i < l.count && ActorHere(m, l, i)
    requires kind != Ignore
    ensures Sized(c)
    ensures var s := Scanned(m, pool, l, c, [], l.count);
      && (ActorPtr(m, l, i) in ListOf(s, kind) ==> ActorBelongs(m, pool, l, kind, i))
      && (ActorBelongs(m, pool, l, kind, i) ==>
            && (ActorPtr(m, l, i) in ListOf(s, kind) || |ListOf(s, kind)| == Capacity(kind))
            && forall other | other != Ignore && other != kind :: ActorPtr(m, l, i) !in ListOf(s, other))
  {
    hide Honest, Scanned, ActorBelongs, ListIs, AllPlain, ActorHere;
    ListsByName(m, pool, l, c);
    var s := Scanned(m, pool, l, c, [], l.count);
    forall k | k != Ignore
      ensures ActorPtr(m, l, i) in ListOf(s, k) ==> ActorBelongs(m, pool, l, k, i)
      ensures ActorBelongs(m, pool, l, k, i) ==>
        ActorPtr(m, l, i) in ListOf(s, k) || |ListOf(s, k)| == Capacity(k)
    {
      var at :| ListIs(m, pool, l, k, ListOf(s, k), Capacity(k), at, l.count);
      InList(m, pool, l, k, ListOf(s, k), Capacity(k), at, i);
    }
    if ActorBelongs(m, pool, l, kind, i) {
      forall other | other != Ignore && other != kind
        ensures !ActorBelongs(m, pool, l, other, i)
      {
        NotBoth(m, pool, l, kind, other, i);
      }
    }
  }

  lemma NotBoth(m: Memory, pool: Pool, l: Level, kind: Kind, other: Kind, i: nat)
    requires kind != Ignore && other != Ignore && other != kind && i < l.count && ActorBelongs(m, pool, l, kind, i)
    ensures !ActorBelongs(m, pool, l, other, i)
  {
    hide Belongs, Uncached, Mapped, Ptr;
    if ActorBelongs(m, pool, l, other, i) {
      var cls := ActorClass(m, l, i);
      OneList(ClassName(m, pool, cls).value, SuperName(m, pool, cls), kind, other);
    }
  }

  function ActorClass(m: Memory, l: Level, i: nat): nat
  {
    var cls := Link(m, ActorPtr(m, l, i), 16);
    if cls.Some? then cls.value else 0
  }

  /** A list has the actor of an index exactly when it belongs there, but for the cut. */
  lemma InList(m: Memory, pool: Pool, l: Level, kind: Kind, list: seq<nat>, cap: nat, at: seq<nat>, i: nat)
    requires kind != Ignore && i < l.count && ListIs(m, pool, l, kind, list, cap, at, l.count) && ActorHere(m, l, i)
    ensures ActorPtr(m, l, i) in list ==> ActorBelongs(m, pool, l, kind, i)
    ensures ActorBelongs(m, pool, l, kind, i) ==> ActorPtr(m, l, i) in list || |list| == cap
  {
    hide Belongs, ActorHere, Uncached, Ptr, Link;
    if ActorPtr(m, l, i) in list {
      var k :| 0 <= k < |list| && list[k] == ActorPtr(m, l, i);
      assert at[k] in at && ActorBelongs(m, pool, l, kind, at[k]);
    }
    if ActorBelongs(m, pool, l, kind, i) && |list| < cap {
      assert i in at;
      var k :| 0 <= k < |at| && at[k] == i;
      assert list[k] == ActorPtr(m, l, i);
    }
  }

  // ---------- Where the array is ----------

  /** A TArray of 5 to 8192 actors: data, count and capacity. */
  predicate ArrayHere(m: Memory, a: nat)
  {
    && Mapped(m, a, 16) && IsPtr(U64(m, a)) && 5 <= U32(m, a + 8) <= 8192
    && U32(m, a + 8) <= U32(m, a + 12) <= 1000000
  }

  const PLACES: seq<nat> := [160, 176, 152, 168, 144, 112]

  lemma ArrayReads(m: Memory, level: nat, offset: nat)
    requires IsPtr(level)
    ensures var l := ArrayAt(m, level, offset, MAX_ACTORS);
      (l.Some? && l.value.count >= 5) == ArrayHere(m, level + offset)
    ensures ArrayHere(m, level + offset) ==>
      ArrayAt(m, level, offset, MAX_ACTORS) == Some(Level(U64(m, level + offset), U32(m, level + offset + 8)))
  {
    hide FromLittleEndian, ToSigned32;
    var a := level + offset;
    if Mapped(m, a, 16) {
      assert Readable(m, a, 16);
      var b := Read(m, a, 16).value;
      EightBytes(b[..8]);
      FourBytes(b[..8][..4]);
      FourBytes(b[..8][4..]);
      FourBytes(b[8..12]);
      FourBytes(b[12..]);
      Signed(U32(m, a + 8));
      Signed(U32(m, a + 12));
    } else {
      assert !Readable(m, a, 16);
    }
  }

  lemma Signed(n: nat)
    requires n < 0x1_0000_0000
    ensures ToSigned32(n) == if n < 0x8000_0000 then n else n - 0x1_0000_0000
  {
  }

  /** The first of the six places, from the k-th on, that holds an array; 6 without one. */
  predicate FirstPlace(m: Memory, level: nat, k: nat, j: nat)
  {
    && k <= j <= 6 && (j < 6 ==> ArrayHere(m, level + PLACES[j]))
    && forall i :: k <= i < j ==> !ArrayHere(m, level + PLACES[i])
  }

  lemma {:induction false} FirstArrayReads(m: Memory, level: nat, k: nat, j: nat)
    requires IsPtr(level) && FirstPlace(m, level, k, j)
    ensures FirstArray(m, level, k) ==
      if j == 6 then None else Some(Level(U64(m, level + PLACES[j]), U32(m, level + PLACES[j] + 8)))
    decreases 6 - k
  {
    hide ArrayAt, ArrayHere, U64, U32;
    if k < 6 {
      assert OFFSETS[k] == PLACES[k];
      ArrayReads(m, level, PLACES[k]);
      if k < j {
        FirstArrayReads(m, level, k + 1, j);
      }
    }
  }

  /** The level of a world, and its array at the first of six places that holds one. */
  lemma LevelIs(m: Memory, world: nat, j: nat)
    requires Link(m, world, 48).Some? ==> FirstPlace(m, Link(m, world, 48).value, 0, j)
    ensures Link(m, world, 48).None? ==> FindLevel(m, world) == None
    ensures j == 6 ==> FindLevel(m, world) == None
    ensures j < 6 && Link(m, world, 48).Some? ==>
      var a := Link(m, world, 48).value + PLACES[j];
      FindLevel(m, world) == Some(Level(U64(m, a), U32(m, a + 8)))
  {
    hide FirstArray, ArrayHere, Ptr, U64, U32;
    FieldReads(m, world, 48);
    LinkIsPtr(m, world, 48);
    if Link(m, world, 48).Some? {
      FirstArrayReads(m, Link(m, world, 48).value, 0, j);
    }
  }
}
