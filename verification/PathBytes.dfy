/** The text of a path name, by the outer pointers in the target's memory: build_path_name in
 * source/daemon/ue4_reflection.c. */
module PathBytes {
  import opened Bytes
  import opened Wrappers
  import opened RemoteMemory
  import opened ByteLayout
  import opened NameCache
  import opened ObjectPath

  /** An object, its outer, the outer's outer, up to one whose outer is no pointer. */
  predicate IsOuterChain(m: Memory, chain: seq<nat>)
  {
    && chain != [] && IsPtr(chain[0])
    && if |chain| == 1 then !IsPtr(Ptr(m, chain[0] + 32))
       else Ptr(m, chain[0] + 32) == chain[1] && IsOuterChain(m, chain[1..])
  }

  /** The name of an object, or the nine letters that stand for one. */
  function NameOf(m: Memory, pool: Pool, obj: nat): seq<byte>
  {
    var name := Uncached(m, pool, obj + 24, 256);
    if name.Some? then name.value else [60, 117, 110, 107, 110, 111, 119, 110, 62]
  }

  function Names(m: Memory, pool: Pool, chain: seq<nat>): (names: seq<seq<byte>>)
    ensures |names| == |chain|
  {
    seq(|chain|, i requires 0 <= i < |chain| => NameOf(m, pool, chain[i]))
  }

  /** A package has one slash in front, everything inside it a dot. */
  function Dotted(names: seq<seq<byte>>): seq<byte>
    requires names != []
  {
    if |names| > 1 then Dotted(names[1..]) + [46] + names[0]
    else if names[0] != [] && names[0][0] == 47 then names[0]
    else [47] + names[0]
  }

  lemma Stock()
    ensures Ascii("<unknown>") == [60, 117, 110, 107, 110, 111, 119, 110, 62]
    ensures Ascii("<null>") == [60, 110, 117, 108, 108, 62] && Ascii("...") == [46, 46, 46]
  {
  }

  lemma {:induction false} OutersAre(m: Memory, pool: Pool, c: Caches, chain: seq<nat>, depth: nat)
    requires IsOuterChain(m, chain) && |chain| + depth <= 11 && Sized(c)
    ensures Outers(m, chain[0], depth) == chain
    ensures NamesOutwards(m, pool, c, chain[0], depth).ending == TopLevel
    decreases |chain|
  {
    hide Lookup, ReadPtr, Ptr;
    ReadsPtr(m, chain[0] + 0x20);
    var o := Lookup(m, pool, c, chain[0] + 0x18, NAME_SIZE);
    if |chain| > 1 {
      OutersAre(m, pool, o.caches, chain[1..], depth + 1);
    }
  }

  lemma NamesAre(m: Memory, pool: Pool, chain: seq<nat>)
    ensures UncachedNames(m, pool, chain) == Names(m, pool, chain)
  {
    hide Uncached, Ascii;
    Stock();
    forall i | 0 <= i < |chain| ensures UncachedNames(m, pool, chain)[i] == Names(m, pool, chain)[i] {
      assert NameOr(Uncached(m, pool, chain[i] + 0x18, NAME_SIZE)) == NameOf(m, pool, chain[i]);
    }
  }

  lemma {:induction false} JoinIsDotted(names: seq<seq<byte>>)
    requires names != []
    ensures Join(names, TopLevel) == Dotted(names)
  {
    if |names| > 1 {
      JoinIsDotted(names[1..]);
    }
  }

  /**
   * With names of at most 59 bytes along a chain of at most 11 objects, a buffer of up to 512 bytes gets
   * the front of the package's rooted name, a dot and a name for every object inside it.
   */
  lemma PathIs(m: Memory, pool: Pool, c: Caches, chain: seq<nat>, max: nat)
    requires IsOuterChain(m, chain) && |chain| <= 11 && 0 < max <= 512
    requires Honest(m, pool, c, 256) && AllShort(m, pool, chain)
    ensures Sized(c)
    ensures var path := Dotted(Names(m, pool, chain));
      BuildPath(m, pool, c, chain[0], max, 0).text == if |path| < max then path else path[..max - 1]
  {
    hide Honest, Lookup, AllShort, NamesOutwards, BuildPath, Dotted, Join, UncachedNames, Ptr;
    SizedIfHonest(m, pool, c);
    OutersAre(m, pool, c, chain, 0);
    NamesAreUncached(m, pool, c, chain[0], 0);
    NamesAre(m, pool, chain);
    JoinIsDotted(Names(m, pool, chain));
    CutsDoNotShow(m, pool, c, chain[0], max, 0);
  }

  lemma SizedIfHonest(m: Memory, pool: Pool, c: Caches)
    requires Honest(m, pool, c, 256)
    ensures Sized(c)
  {
  }

  /** What is no pointer has the path "<null>". */
  lemma NoPath(m: Memory, pool: Pool, c: Caches, obj: nat, max: nat)
    requires Sized(c) && !IsPtr(obj) && max > 6
    ensures BuildPath(m, pool, c, obj, max, 0).text == [60, 110, 117, 108, 108, 62]
  {
    Stock();
    ReadsPtr(m, obj);
  }

  /** The path of an endless chain begins with three dots and another. */
  lemma EndlessPath(m: Memory, pool: Pool, c: Caches, chain: set<nat>, obj: nat, max: nat)
    requires Sized(c) && obj in chain && 4 < max <= 512
    requires forall o :: o in chain ==> IsPtr(o) && Ptr(m, o + 32) in chain
    ensures [46, 46, 46, 46] <= BuildPath(m, pool, c, obj, max, 0).text
  {
    hide NamesOutwards, BuildPath, ReadPtr, Ptr, Lookup, Join;
    forall o | o in chain ensures ValidPtr(o) && ReadPtr(m, o + 0x20) in chain { ReadsPtr(m, o + 32); }
    EndlessChains(m, pool, c, chain, obj, 0);
    CutsDoNotShow(m, pool, c, obj, max, 0);
    DotsFirst(NamesOutwards(m, pool, c, obj, 0).names);
  }

  lemma {:induction false} DotsFirst(names: seq<seq<byte>>)
    ensures var path := Join(names, TooDeep);
      [46, 46, 46] <= path && (names != [] ==> [46, 46, 46, 46] <= path)
  {
    Stock();
    hide Ascii;
    if names != [] {
      DotsFirst(names[1..]);
    }
  }
}
