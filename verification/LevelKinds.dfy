/** What becomes of a level's actors when the names of some classes do not resolve: classify_class and
 * scan_persistent_level in source/daemon/radar_reader.c. */
module LevelKinds {
  import opened Bytes
  import opened Wrappers
  import opened RemoteMemory
  import opened NameCache
  import opened LevelScan

  // ---------- The kind of one actor ----------

  /** The object whose name speaks for an actor: its class, or itself where the class has no name. */
  function StandIn(m: Memory, pool: Pool, actor: nat): nat
  {
    if Uncached(m, pool, ClassOf(m, actor) + 0x18, CLASS_NAME).Some? then ClassOf(m, actor) else actor
  }

  /** The kind of an actor met with an empty memo and no caches. */
  function ActorKind(m: Memory, pool: Pool, actor: nat): Kind
  {
    KindNamed(m, pool, ClassOf(m, actor), StandIn(m, pool, actor))
  }

  /** What a name slot can store of the names concerned is enough to tell the kind. */
  predicate Telling(m: Memory, pool: Pool, actor: nat)
  {
    OwnKindStored(m, pool, StandIn(m, pool, actor)) && SuperKindStored(m, pool, ClassOf(m, actor))
  }

  /** The kind by a memo: what it holds for the class, else the actor's own. */
  function Given(m: Memory, pool: Pool, memo: seq<Known>, actor: nat): Kind
  {
    var known := Recall(memo, ClassOf(m, actor));
    if known.Some? then known.value else ActorKind(m, pool, actor)
  }

  lemma JudgeIsActorKind(m: Memory, pool: Pool, c: Caches, actor: nat)
    requires Honest(m, pool, c, CLASS_NAME) && ValidPtr(actor) && Telling(m, pool, actor)
    ensures Sized(c)
    ensures var j := Judge(m, pool, c, ClassOf(m, actor), actor);
      j.kind == ActorKind(m, pool, actor) && Honest(m, pool, j.caches, CLASS_NAME)
  {
    hide Lookup, Uncached, OwnKind, SuperKind, Honest, StoredText, Field;
    var cls := ClassOf(m, actor);
    LookupIsEither(m, pool, c, cls + 0x18, CLASS_NAME);
    var own := Lookup(m, pool, c, cls + 0x18, CLASS_NAME);
    LookupIsEither(m, pool, own.caches, actor + 0x18, CLASS_NAME);
    var named := NameFor(m, pool, c, cls, actor);
    LookupIsEither(m, pool, named.caches, Field(m, cls, 0x30) + 0x18, CLASS_NAME);
  }

  lemma {:induction false} RecallElsewhere(memo: seq<Known>, cls: nat, kind: Kind, other: nat)
    requires other != cls
    ensures Recall(memo + [Known(cls, kind)], other) == Recall(memo, other)
  {
    if memo != [] {
      assert (memo + [Known(cls, kind)])[1..] == memo[1..] + [Known(cls, kind)];
      RecallElsewhere(memo[1..], cls, kind, other);
    } else {
      assert memo + [Known(cls, kind)] == [Known(cls, kind)] && [Known(cls, kind)][1..] == [];
    }
  }

  /** The memo after an actor was classified. */
  function MemoAfter(m: Memory, pool: Pool, memo: seq<Known>, actor: nat): seq<Known>
  {
    if Recall(memo, ClassOf(m, actor)).None? && |memo| < CLASSES
    then memo + [Known(ClassOf(m, actor), ActorKind(m, pool, actor))] else memo
  }

  lemma ClassifyGives(m: Memory, pool: Pool, c: Caches, memo: seq<Known>, actor: nat)
    requires Honest(m, pool, c, CLASS_NAME) && ValidPtr(actor) && ClassOf(m, actor) != 0 && Telling(m, pool, actor)
    ensures Sized(c)
    ensures var r := Classify(m, pool, c, memo, ClassOf(m, actor), actor);
      && r.memo == MemoAfter(m, pool, memo, actor) && r.kind == Given(m, pool, r.memo, actor)
      && Honest(m, pool, r.caches, CLASS_NAME)
  {
    hide Judge, Honest, ClassOf, ActorKind, Telling;
    JudgeIsActorKind(m, pool, c, actor);
    var cls := ClassOf(m, actor);
    if Recall(memo, cls).None? {
      RecallAppended(memo, cls, ActorKind(m, pool, actor));
    }
  }

  // ---------- The lists by a memo ----------

  /** Those of the first n entries to which the memo gives a kind; the empty memo leaves it to each actor. */
  function Listed(m: Memory, pool: Pool, l: Level, memo: seq<Known>, kind: Kind, n: nat): seq<nat>
    requires n <= l.count
  {
    if n == 0 then []
    else
      Listed(m, pool, l, memo, kind, n - 1) +
      if IsActor(m, l, n - 1) && Given(m, pool, memo, ActorAt(m, l, n - 1)) == kind
      then [ActorAt(m, l, n - 1)] else []
  }

  ghost predicate SameKinds(m: Memory, pool: Pool, l: Level, a: seq<Known>, b: seq<Known>, n: nat)
    requires n <= l.count
  {
    forall i :: 0 <= i < n && IsActor(m, l, i) ==>
      Given(m, pool, a, ActorAt(m, l, i)) == Given(m, pool, b, ActorAt(m, l, i))
  }

  lemma {:induction false} ListedAlike(m: Memory, pool: Pool, l: Level, a: seq<Known>, b: seq<Known>,
        kind: Kind, n: nat)
    requires n <= l.count && SameKinds(m, pool, l, a, b, n)
    ensures Listed(m, pool, l, a, kind, n) == Listed(m, pool, l, b, kind, n)
  {
    hide IsActor, Given, ActorAt;
    if n > 0 {
      ListedAlike(m, pool, l, a, b, kind, n - 1);
      assert IsActor(m, l, n - 1) ==>
        Given(m, pool, a, ActorAt(m, l, n - 1)) == Given(m, pool, b, ActorAt(m, l, n - 1));
    }
  }

  lemma {:induction false} ListedMember(m: Memory, pool: Pool, l: Level, memo: seq<Known>, kind: Kind, n: nat, i: nat)
    requires n <= l.count && i < n && IsActor(m, l, i)
    ensures ActorAt(m, l, i) in Listed(m, pool, l, memo, kind, n) <==> Given(m, pool, memo, ActorAt(m, l, i)) == kind
  {
    hide IsActor, Given, ActorAt;
    ListedKind(m, pool, l, memo, kind, n);
    if n - 1 > i && Given(m, pool, memo, ActorAt(m, l, i)) == kind {
      ListedMember(m, pool, l, memo, kind, n - 1, i);
    }
  }

  lemma {:induction false} ListedKind(m: Memory, pool: Pool, l: Level, memo: seq<Known>, kind: Kind, n: nat)
    requires n <= l.count
    ensures forall a :: a in Listed(m, pool, l, memo, kind, n) ==> Given(m, pool, memo, a) == kind
  {
    hide IsActor, Given, ActorAt;
    if n > 0 {
      ListedKind(m, pool, l, memo, kind, n - 1);
    }
  }

  /** Two memos sort the actors into the same lists exactly when they give each the same kind. */
  lemma SameListsExactlyWhen(m: Memory, pool: Pool, l: Level, a: seq<Known>, b: seq<Known>, n: nat)
    requires n <= l.count
    ensures SameKinds(m, pool, l, a, b, n) <==>
      && Listed(m, pool, l, a, Player, n) == Listed(m, pool, l, b, Player, n)
      && Listed(m, pool, l, a, Vehicle, n) == Listed(m, pool, l, b, Vehicle, n)
      && Listed(m, pool, l, a, Item, n) == Listed(m, pool, l, b, Item, n)
  {
    hide IsActor, Given, ActorAt, Listed;
    if SameKinds(m, pool, l, a, b, n) {
      ListedAlike(m, pool, l, a, b, Player, n);
      ListedAlike(m, pool, l, a, b, Vehicle, n);
      ListedAlike(m, pool, l, a, b, Item, n);
    } else {
      var i :| 0 <= i < n && IsActor(m, l, i)
        && Given(m, pool, a, ActorAt(m, l, i)) != Given(m, pool, b, ActorAt(m, l, i));
      var kind := if Given(m, pool, a, ActorAt(m, l, i)) != Ignore
        then Given(m, pool, a, ActorAt(m, l, i)) else Given(m, pool, b, ActorAt(m, l, i));
      ListedMember(m, pool, l, a, kind, n, i);
      ListedMember(m, pool, l, b, kind, n, i);
    }
  }

  // ---------- What the scan's memo holds ----------

  predicate IsOf(m: Memory, l: Level, cls: nat, i: nat)
    requires i < l.count
  {
    IsActor(m, l, i) && ClassOf(m, ActorAt(m, l, i)) == cls
  }

  /** The first of the first n entries that is an actor of a class, n without one. */
  function FirstOf(m: Memory, l: Level, cls: nat, n: nat): (i: nat)
    requires n <= l.count
    ensures i <= n && (i < n ==> IsOf(m, l, cls, i))
    ensures forall j :: 0 <= j < i ==> !IsOf(m, l, cls, j)
  {
    if n == 0 then 0
    else
      var i := FirstOf(m, l, cls, n - 1);
      if i < n - 1 || IsOf(m, l, cls, n - 1) then i else n
  }

  /** The kind an earlier scan remembered for a class, else that of the first actor of it. */
  function Decided(m: Memory, pool: Pool, l: Level, memo: seq<Known>, cls: nat, n: nat): Kind
    requires n <= l.count
  {
    var i := FirstOf(m, l, cls, n);
    if Recall(memo, cls).Some? then Recall(memo, cls).value
    else if i < n then ActorKind(m, pool, ActorAt(m, l, i))
    else Ignore
  }

  /** The memo holds what was decided, of every class met unless it is full. */
  ghost predicate Holding(m: Memory, pool: Pool, l: Level, before: seq<Known>, memo: seq<Known>, n: nat)
    requires n <= l.count
  {
    && (forall i :: 0 <= i < n && IsActor(m, l, i) ==>
          |memo| >= CLASSES || Recall(memo, ClassOf(m, ActorAt(m, l, i))).Some?)
    && (forall cls: nat :: Recall(memo, cls).Some? ==>
          && Recall(memo, cls).value == Decided(m, pool, l, before, cls, n)
          && (Recall(before, cls).Some? || FirstOf(m, l, cls, n) < n))
  }

  lemma HoldingStep(m: Memory, pool: Pool, l: Level, before: seq<Known>, memo: seq<Known>, n: nat)
    requires 0 < n <= l.count && Holding(m, pool, l, before, memo, n - 1)
    requires forall cls: nat :: Recall(before, cls).Some? ==> Recall(memo, cls).Some?
    ensures var after := if IsActor(m, l, n - 1) then MemoAfter(m, pool, memo, ActorAt(m, l, n - 1)) else memo;
      && Holding(m, pool, l, before, after, n)
      && (forall cls: nat :: Recall(before, cls).Some? ==> Recall(after, cls).Some?)
      && SameKinds(m, pool, l, memo, after, n - 1)
  {
    hide ActorKind, IsActor, ClassOf, ActorAt;
    var actor := ActorAt(m, l, n - 1);
    var cls := ClassOf(m, actor);
    var after := if IsActor(m, l, n - 1) then MemoAfter(m, pool, memo, actor) else memo;
    if after != memo {
      var kind := ActorKind(m, pool, actor);
      RecallAppended(memo, cls, kind);
      forall other: nat | other != cls
        ensures Recall(after, other) == Recall(memo, other)
      {
        RecallElsewhere(memo, cls, kind, other);
      }
      forall i | 0 <= i < n - 1 && IsActor(m, l, i)
        ensures ClassOf(m, ActorAt(m, l, i)) != cls
      {
        assert Recall(memo, ClassOf(m, ActorAt(m, l, i))).Some?;
      }
      assert FirstOf(m, l, cls, n - 1) == n - 1;
    }
  }

  // ---------- The scan ----------

  ghost predicate AllTelling(m: Memory, pool: Pool, l: Level, n: nat)
    requires n <= l.count
  {
    forall i :: 0 <= i < n && IsActor(m, l, i) ==> Telling(m, pool, ActorAt(m, l, i))
  }

  predicate ListsBy(m: Memory, pool: Pool, l: Level, s: Scan, n: nat)
    requires n <= l.count
  {
    && s.players == Take(Listed(m, pool, l, s.memo, Player, n), MAX_PLAYERS)
    && s.vehicles == Take(Listed(m, pool, l, s.memo, Vehicle, n), MAX_VEHICLES)
    && s.items == Take(Listed(m, pool, l, s.memo, Item, n), MAX_ITEMS)
  }

  /** The lists are those of the memo the scan ends with, which holds what the first actors decided. */
  lemma {:induction false} ScanIsListed(m: Memory, pool: Pool, l: Level, c: Caches, memo: seq<Known>, n: nat)
    requires n <= l.count && Honest(m, pool, c, CLASS_NAME) && AllTelling(m, pool, l, n)
    ensures Sized(c)
    ensures var s := Scanned(m, pool, l, c, memo, n);
      && ListsBy(m, pool, l, s, n) && Holding(m, pool, l, memo, s.memo, n)
      && (forall cls: nat :: Recall(memo, cls).Some? ==> Recall(s.memo, cls).Some?)
      && Honest(m, pool, s.caches, CLASS_NAME)
  {
    hide Visit, Honest, IsActor, Telling, InReadableChunk, ListsBy, Holding, Decided, FirstOf;
    SizedIfHonest(m, pool, c);
    if n == 0 {
      NothingListed(m, pool, l, c, memo);
    } else {
      assert AllTelling(m, pool, l, n - 1);
      ScanIsListed(m, pool, l, c, memo, n - 1);
      var s := Scanned(m, pool, l, c, memo, n - 1);
      HoldingStep(m, pool, l, memo, s.memo, n);
      VisitLists(m, pool, l, s, n);
    }
  }

  lemma NothingListed(m: Memory, pool: Pool, l: Level, c: Caches, memo: seq<Known>)
    ensures ListsBy(m, pool, l, Started(c, memo), 0) && Holding(m, pool, l, memo, memo, 0)
  {
  }

  lemma ListedStep(m: Memory, pool: Pool, l: Level, memo: seq<Known>, kind: Kind, n: nat)
    requires 0 < n <= l.count
    ensures Listed(m, pool, l, memo, kind, n) ==
      if IsActor(m, l, n - 1) && Given(m, pool, memo, ActorAt(m, l, n - 1)) == kind
      then Listed(m, pool, l, memo, kind, n - 1) + [ActorAt(m, l, n - 1)] else Listed(m, pool, l, memo, kind, n - 1)
  {
    hide IsActor, Given, ActorAt;
  }

  lemma VisitLists(m: Memory, pool: Pool, l: Level, s: Scan, n: nat)
    requires 0 < n <= l.count && Honest(m, pool, s.caches, CLASS_NAME) && ListsBy(m, pool, l, s, n - 1)
    requires IsActor(m, l, n - 1) ==> Telling(m, pool, ActorAt(m, l, n - 1))
    requires SameKinds(m, pool, l, s.memo,
      if IsActor(m, l, n - 1) then MemoAfter(m, pool, s.memo, ActorAt(m, l, n - 1)) else s.memo, n - 1)
    ensures Sized(s.caches)
    ensures var t := if InReadableChunk(m, l, n - 1) then Visit(m, pool, s, ActorAt(m, l, n - 1)) else s;
      && ListsBy(m, pool, l, t, n) && Honest(m, pool, t.caches, CLASS_NAME)
      && t.memo == if IsActor(m, l, n - 1) then MemoAfter(m, pool, s.memo, ActorAt(m, l, n - 1)) else s.memo
  {
    hide Honest, Telling, Classify, InReadableChunk, ReadPtr, Take, Push, Given, MemoAfter, SameKinds, ClassOf;
    hide Listed;
    SizedIfHonest(m, pool, s.caches);
    var actor := ActorAt(m, l, n - 1);
    var after := if IsActor(m, l, n - 1) then MemoAfter(m, pool, s.memo, actor) else s.memo;
    ListedStep(m, pool, l, after, Player, n);
    ListedStep(m, pool, l, after, Vehicle, n);
    ListedStep(m, pool, l, after, Item, n);
    if IsActor(m, l, n - 1) {
      ClassifyGives(m, pool, s.caches, s.memo, actor);
      ListedAlike(m, pool, l, s.memo, after, Player, n - 1);
      ListedAlike(m, pool, l, s.memo, after, Vehicle, n - 1);
      ListedAlike(m, pool, l, s.memo, after, Item, n - 1);
      PushIsTake(Listed(m, pool, l, after, Player, n - 1), MAX_PLAYERS, actor);
      PushIsTake(Listed(m, pool, l, after, Vehicle, n - 1), MAX_VEHICLES, actor);
      PushIsTake(Listed(m, pool, l, after, Item, n - 1), MAX_ITEMS, actor);
    }
  }

  /** Every actor of a class the scan remembers is of the kind decided for that class. */
  ghost predicate FirstActorsSpeak(m: Memory, pool: Pool, l: Level, before: seq<Known>, memo: seq<Known>, n: nat)
    requires n <= l.count
  {
    forall i :: 0 <= i < n && IsActor(m, l, i) && Recall(memo, ClassOf(m, ActorAt(m, l, i))).Some? ==>
      ActorKind(m, pool, ActorAt(m, l, i)) == Decided(m, pool, l, before, ClassOf(m, ActorAt(m, l, i)), n)
  }

  lemma KindsByFirst(m: Memory, pool: Pool, l: Level, before: seq<Known>, memo: seq<Known>, n: nat)
    requires n <= l.count && Holding(m, pool, l, before, memo, n)
    ensures SameKinds(m, pool, l, memo, [], n) <==> FirstActorsSpeak(m, pool, l, before, memo, n)
  {
    hide ActorKind, IsActor, ClassOf, ActorAt, Decided, FirstOf;
    forall i | 0 <= i < n && IsActor(m, l, i)
      ensures var actor := ActorAt(m, l, i); var cls := ClassOf(m, actor);
        Given(m, pool, memo, actor) == Given(m, pool, [], actor) <==>
          (Recall(memo, cls).Some? ==> ActorKind(m, pool, actor) == Decided(m, pool, l, before, cls, n))
    {
    }
  }

  /**
   * With class names that may not resolve: while no list is full, the lists are those by each actor's
   * own name exactly when every actor of a remembered class is of the kind decided for it, by an
   * earlier scan or by the first actor of that class.
   */
  lemma FirstActorDecides(m: Memory, pool: Pool, l: Level, c: Caches, memo: seq<Known>, n: nat)
    requires n <= l.count && Honest(m, pool, c, CLASS_NAME) && AllTelling(m, pool, l, n)
    ensures Sized(c)
    ensures var s := Scanned(m, pool, l, c, memo, n);
      |s.players| < MAX_PLAYERS && |s.vehicles| < MAX_VEHICLES && |s.items| < MAX_ITEMS ==>
        (FirstActorsSpeak(m, pool, l, memo, s.memo, n) <==>
          && s.players == Listed(m, pool, l, [], Player, n)
          && s.vehicles == Listed(m, pool, l, [], Vehicle, n)
          && s.items == Listed(m, pool, l, [], Item, n))
  {
    hide Honest, Scanned, Holding, FirstActorsSpeak, Listed, SameKinds;
    SizedIfHonest(m, pool, c);
    ScanIsListed(m, pool, l, c, memo, n);
    var s := Scanned(m, pool, l, c, memo, n);
    KindsByFirst(m, pool, l, memo, s.memo, n);
    SameListsExactlyWhen(m, pool, l, s.memo, [], n);
  }

  // ---------- A first scan of fewer than 4096 actors ----------

  /** Actors of one class are of one kind. */
  ghost predicate ClassesAgree(m: Memory, pool: Pool, l: Level, n: nat)
    requires n <= l.count
  {
    forall i, j | 0 <= i < n && 0 <= j < n && IsActor(m, l, i) && IsActor(m, l, j) ::
      ClassOf(m, ActorAt(m, l, i)) == ClassOf(m, ActorAt(m, l, j)) ==>
        ActorKind(m, pool, ActorAt(m, l, i)) == ActorKind(m, pool, ActorAt(m, l, j))
  }

  lemma {:induction false} MemoGrows(m: Memory, pool: Pool, l: Level, c: Caches, memo: seq<Known>, n: nat)
    requires n <= l.count && Sized(c)
    ensures |Scanned(m, pool, l, c, memo, n).memo| <= |memo| + n
  {
    hide Judge, ClassOf, InReadableChunk, ActorAt, Recall;
    if n > 0 {
      MemoGrows(m, pool, l, c, memo, n - 1);
    }
  }

  lemma AgreeWithFirst(m: Memory, pool: Pool, l: Level, memo: seq<Known>, n: nat)
    requires n <= l.count && Holding(m, pool, l, [], memo, n) && |memo| < CLASSES
    ensures FirstActorsSpeak(m, pool, l, [], memo, n) <==> ClassesAgree(m, pool, l, n)
  {
    hide ActorKind, IsActor, ClassOf, ActorAt;
    forall i | 0 <= i < n && IsActor(m, l, i)
      ensures var cls := ClassOf(m, ActorAt(m, l, i)); var first := FirstOf(m, l, cls, n);
        && first < n && IsOf(m, l, cls, first) && Recall(memo, cls).Some?
        && Decided(m, pool, l, [], cls, n) == ActorKind(m, pool, ActorAt(m, l, first))
    {
      assert IsOf(m, l, ClassOf(m, ActorAt(m, l, i)), i);
    }
  }

  /** There the lists are those by each actor's own name exactly when the actors of each class agree. */
  lemma FirstScanDecides(m: Memory, pool: Pool, l: Level, c: Caches, n: nat)
    requires n <= l.count && n < 4096 && Honest(m, pool, c, CLASS_NAME) && AllTelling(m, pool, l, n)
    ensures Sized(c)
    ensures var s := Scanned(m, pool, l, c, [], n);
      |s.players| < MAX_PLAYERS && |s.vehicles| < MAX_VEHICLES && |s.items| < MAX_ITEMS ==>
        (ClassesAgree(m, pool, l, n) <==>
          && s.players == Listed(m, pool, l, [], Player, n)
          && s.vehicles == Listed(m, pool, l, [], Vehicle, n)
          && s.items == Listed(m, pool, l, [], Item, n))
  {
    hide Honest, Scanned, Holding, FirstActorsSpeak, ClassesAgree, Listed;
    SizedIfHonest(m, pool, c);
    FirstActorDecides(m, pool, l, c, [], n);
    ScanIsListed(m, pool, l, c, [], n);
    MemoGrows(m, pool, l, c, [], n);
    AgreeWithFirst(m, pool, l, Scanned(m, pool, l, c, [], n).memo, n);
  }
}
