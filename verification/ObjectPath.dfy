/** Path names built along the outer chain: build_path_name in source/daemon/ue4_reflection.c. */
module ObjectPath {
  import opened Bytes
  import opened Wrappers
  import opened RemoteMemory
  import opened NameCache

  const MAX_DEPTH := 10
  const NAME_SIZE := 256
  const OUTER_SIZE := 512

  const DOT: byte := 46
  const SLASH: byte := 47

  /** Why a chain ends: no valid outer, the depth limit, or an invalid object to begin with. */
  datatype Ending = TopLevel | TooDeep | NoObject

  datatype Chain = Chain(caches: Caches, names: seq<seq<byte>>, ending: Ending)

  function NameOr(name: Option<seq<byte>>): seq<byte>
  {
    if name.Some? then name.value else Ascii("<unknown>")
  }

  /** The names from an object outwards, own name first, resolved in that order. */
  function NamesOutwards(m: Memory, pool: Pool, c: Caches, obj: nat, depth: nat): (r: Chain)
    requires Sized(c)
    ensures Sized(r.caches)
    ensures |r.names| <= if depth > MAX_DEPTH then 0 else MAX_DEPTH + 1 - depth
    ensures r.names == [] ==> r.ending != TopLevel
    decreases MAX_DEPTH + 1 - depth
  {
    if depth > MAX_DEPTH then Chain(c, [], TooDeep)
    else if !ValidPtr(obj) then Chain(c, [], NoObject)
    else
      var o := Lookup(m, pool, c, obj + 0x18, NAME_SIZE);
      var outer := ReadPtr(m, obj + 0x20);
      if ValidPtr(outer) then
        var rest := NamesOutwards(m, pool, o.caches, outer, depth + 1);
        Chain(rest.caches, [NameOr(o.name)] + rest.names, rest.ending)
      else Chain(o.caches, [NameOr(o.name)], TopLevel)
  }

  /** The whole path: outermost first, joined by dots, a top-level package behind a slash. */
  function Join(names: seq<seq<byte>>, ending: Ending): (path: seq<byte>)
    requires names == [] ==> ending != TopLevel
  {
    if names == [] then (if ending == TooDeep then Ascii("...") else Ascii("<null>"))
    else if |names| == 1 && ending == TopLevel then Rooted(names[0])
    else Join(names[1..], ending) + [DOT] + names[0]
  }

  function Rooted(name: seq<byte>): seq<byte>
  {
    if name != [] && name[0] == SLASH then name else [SLASH] + name
  }

  datatype Path = Path(caches: Caches, text: seq<byte>)

  /** build_path_name: every level writes into a buffer of its own and is cut there. */
  function BuildPath(m: Memory, pool: Pool, c: Caches, obj: nat, max: nat, depth: nat): (p: Path)
    requires Sized(c) && max > 0
    ensures Sized(p.caches)
    decreases MAX_DEPTH + 1 - depth
  {
    if depth > MAX_DEPTH then Path(c, Cut(Ascii("..."), max - 1))
    else if !ValidPtr(obj) then Path(c, Cut(Ascii("<null>"), max - 1))
    else
      var o := Lookup(m, pool, c, obj + 0x18, NAME_SIZE);
      var name := NameOr(o.name);
      var outer := ReadPtr(m, obj + 0x20);
      if ValidPtr(outer) then
        var rest := BuildPath(m, pool, o.caches, outer, OUTER_SIZE, depth + 1);
        Path(rest.caches, Cut(rest.text + [DOT] + name, max - 1))
      else Path(o.caches, Cut(Rooted(name), max - 1))
  }

  lemma CutFront(a: seq<byte>, dot: seq<byte>, name: seq<byte>, k: nat, n: nat)
    requires n <= k
    ensures Cut(Cut(a, k) + dot + name, n) == Cut(a + dot + name, n)
  {
  }

  /**
   * For a buffer of at most 512 bytes the cuts at the inner levels do not show: the result is the
   * front of the uncut path, which joins at most 11 names whatever the outer chain looks like.
   */
  lemma {:induction false} CutsDoNotShow(m: Memory, pool: Pool, c: Caches, obj: nat, max: nat, depth: nat)
    requires Sized(c) && 0 < max <= OUTER_SIZE
    ensures var chain := NamesOutwards(m, pool, c, obj, depth);
      && |chain.names| <= 11
      && BuildPath(m, pool, c, obj, max, depth) == Path(chain.caches, Cut(Join(chain.names, chain.ending), max - 1))
    decreases MAX_DEPTH + 1 - depth
  {
    hide Lookup, Cut, Rooted, Ascii, ReadPtr;
    var outer := ReadPtr(m, obj + 0x20);
    if depth <= MAX_DEPTH && ValidPtr(obj) && ValidPtr(outer) {
      var o := Lookup(m, pool, c, obj + 0x18, NAME_SIZE);
      CutsDoNotShow(m, pool, o.caches, outer, OUTER_SIZE, depth + 1);
      var rest := NamesOutwards(m, pool, o.caches, outer, depth + 1);
      var names := NamesOutwards(m, pool, c, obj, depth).names;
      assert names[1..] == rest.names;
      var path := Join(rest.names, rest.ending);
      CutFront(path, [DOT], names[0], OUTER_SIZE - 1, max - 1);
    }
  }

  /** The cut path goes on as the uncut one does, as far as the buffer goes. */
  predicate GoesOnAlike(outer: seq<byte>, name: seq<byte>, max: nat)
    requires max > OUTER_SIZE && |outer| >= OUTER_SIZE
  {
    && max - 1 <= OUTER_SIZE + |name|
    && ([DOT] + name)[..max - OUTER_SIZE] == (outer + [DOT] + name)[OUTER_SIZE - 1..max - 1]
  }

  lemma LongOuter(outer: seq<byte>, name: seq<byte>, max: nat)
    requires max > OUTER_SIZE && |outer| >= OUTER_SIZE
    ensures Cut(Cut(outer, OUTER_SIZE - 1) + [DOT] + name, max - 1) == Cut(outer + [DOT] + name, max - 1)
      <==> GoesOnAlike(outer, name, max)
  {
    var front, n := outer[..OUTER_SIZE - 1], max - 1;
    var cut, whole := front + [DOT] + name, outer + [DOT] + name;
    if n <= OUTER_SIZE + |name| {
      assert cut[..n] == front + ([DOT] + name)[..n - (OUTER_SIZE - 1)];
      assert whole[..n] == front + whole[OUTER_SIZE - 1..n];
    }
  }

  /** The uncut path of the outer of an object, and the object's own name. */
  ghost predicate OuterPathIs(m: Memory, pool: Pool, c: Caches, obj: nat, depth: nat, path: seq<byte>, name: seq<byte>)
    requires Sized(c)
  {
    && depth <= MAX_DEPTH && ValidPtr(obj) && ValidPtr(ReadPtr(m, obj + 0x20))
    && var o := Lookup(m, pool, c, obj + 0x18, NAME_SIZE);
      var rest := NamesOutwards(m, pool, o.caches, ReadPtr(m, obj + 0x20), depth + 1);
      path == Join(rest.names, rest.ending) && name == NameOr(o.name)
  }

  /**
   * In a buffer of more than 512 bytes the result is the front of the uncut path exactly when the
   * outer's path fits its 512 bytes, or is followed by the very bytes the cut lets move up.
   */
  lemma LargerBuffersShowIt(m: Memory, pool: Pool, c: Caches, obj: nat, max: nat, depth: nat)
    requires Sized(c) && max > OUTER_SIZE
    ensures var chain := NamesOutwards(m, pool, c, obj, depth);
      BuildPath(m, pool, c, obj, max, depth).text == Cut(Join(chain.names, chain.ending), max - 1) <==>
      forall path, name | OuterPathIs(m, pool, c, obj, depth, path, name) ::
        |path| < OUTER_SIZE || GoesOnAlike(path, name, max)
  {
    hide Lookup, Cut, Rooted, Ascii, ReadPtr, GoesOnAlike;
    var outer := ReadPtr(m, obj + 0x20);
    if depth <= MAX_DEPTH && ValidPtr(obj) && ValidPtr(outer) {
      var o := Lookup(m, pool, c, obj + 0x18, NAME_SIZE);
      CutsDoNotShow(m, pool, o.caches, outer, OUTER_SIZE, depth + 1);
      var rest := NamesOutwards(m, pool, o.caches, outer, depth + 1);
      var names := NamesOutwards(m, pool, c, obj, depth).names;
      assert names[1..] == rest.names;
      var path := Join(rest.names, rest.ending);
      assert OuterPathIs(m, pool, c, obj, depth, path, NameOr(o.name));
      if |path| < OUTER_SIZE {
        FitsUncut(path);
      } else {
        LongOuter(path, NameOr(o.name), max);
      }
    }
  }

  lemma FitsUncut(path: seq<byte>)
    requires |path| < OUTER_SIZE
    ensures Cut(path, OUTER_SIZE - 1) == path
  {
  }

  // ---------- Names and caches ----------

  /** The objects along the outer chain, at most 11 of them. */
  function Outers(m: Memory, obj: nat, depth: nat): (objs: seq<nat>)
    decreases MAX_DEPTH + 1 - depth
  {
    if depth > MAX_DEPTH || !ValidPtr(obj) then []
    else [obj] + (if ValidPtr(ReadPtr(m, obj + 0x20)) then Outers(m, ReadPtr(m, obj + 0x20), depth + 1) else [])
  }

  predicate ShortName(m: Memory, pool: Pool, obj: nat)
  {
    FName(m, obj + 0x18).Some? ==> Short(m, pool, FName(m, obj + 0x18).value.0, NAME_SIZE, NAME_SIZE)
  }

  function UncachedNames(m: Memory, pool: Pool, objs: seq<nat>): (names: seq<seq<byte>>)
    ensures |names| == |objs|
    ensures forall i :: 0 <= i < |objs| ==> names[i] == NameOr(Uncached(m, pool, objs[i] + 0x18, NAME_SIZE))
  {
    seq(|objs|, i requires 0 <= i < |objs| => NameOr(Uncached(m, pool, objs[i] + 0x18, NAME_SIZE)))
  }

  predicate AllShort(m: Memory, pool: Pool, objs: seq<nat>)
  {
    forall i :: 0 <= i < |objs| ==> ShortName(m, pool, objs[i])
  }

  /** With names of at most 59 bytes, the path is built from each object's uncached name. */
  lemma {:induction false} NamesAreUncached(m: Memory, pool: Pool, c: Caches, obj: nat, depth: nat)
    requires Honest(m, pool, c, NAME_SIZE) && AllShort(m, pool, Outers(m, obj, depth))
    ensures NamesOutwards(m, pool, c, obj, depth).names == UncachedNames(m, pool, Outers(m, obj, depth))
    decreases MAX_DEPTH + 1 - depth
  {
    hide Lookup, Uncached, Honest, ReadPtr, NameOr, UncachedNames, AllShort;
    if depth <= MAX_DEPTH && ValidPtr(obj) {
      var outer := ReadPtr(m, obj + 0x20);
      var rest := if ValidPtr(outer) then Outers(m, outer, depth + 1) else [];
      FirstAndRest(m, pool, obj, rest);
      NameUncached(m, pool, c, obj);
      var o := Lookup(m, pool, c, obj + 0x18, NAME_SIZE);
      if ValidPtr(outer) {
        NamesAreUncached(m, pool, o.caches, outer, depth + 1);
      } else {
        NoNames(m, pool);
      }
    } else {
      NoNames(m, pool);
    }
  }

  lemma NoNames(m: Memory, pool: Pool)
    ensures UncachedNames(m, pool, []) == []
  {
  }

  lemma FirstAndRest(m: Memory, pool: Pool, obj: nat, rest: seq<nat>)
    requires AllShort(m, pool, [obj] + rest)
    ensures ShortName(m, pool, obj) && AllShort(m, pool, rest)
    ensures UncachedNames(m, pool, [obj] + rest)
      == [NameOr(Uncached(m, pool, obj + 0x18, NAME_SIZE))] + UncachedNames(m, pool, rest)
  {
    hide Uncached, NameOr, ShortName;
    var all := [obj] + rest;
    assert all[0] == obj;
    forall i | 0 <= i < |rest| ensures ShortName(m, pool, rest[i]) {
      assert all[i + 1] == rest[i];
    }
  }

  lemma NameUncached(m: Memory, pool: Pool, c: Caches, obj: nat)
    requires Honest(m, pool, c, NAME_SIZE) && ShortName(m, pool, obj)
    ensures Sized(c)
    ensures Lookup(m, pool, c, obj + 0x18, NAME_SIZE).name == Uncached(m, pool, obj + 0x18, NAME_SIZE)
    ensures Honest(m, pool, Lookup(m, pool, c, obj + 0x18, NAME_SIZE).caches, NAME_SIZE)
  {
    hide Lookup, Uncached;
    LookupTransparent(m, pool, c, obj + 0x18, NAME_SIZE, NAME_SIZE);
    LookupHonest(m, pool, c, obj + 0x18, NAME_SIZE, NAME_SIZE);
  }

  /** A chain whose outers are all valid, a cycle say, is cut off after exactly 11 names. */
  lemma {:induction false} EndlessChains(m: Memory, pool: Pool, c: Caches, chain: set<nat>, obj: nat, depth: nat)
    requires Sized(c) && obj in chain && depth <= 11
    requires forall o :: o in chain ==> ValidPtr(o) && ReadPtr(m, o + 0x20) in chain
    ensures var r := NamesOutwards(m, pool, c, obj, depth);
      |r.names| == 11 - depth && r.ending == TooDeep
    decreases MAX_DEPTH + 1 - depth
  {
    hide Lookup;
    if depth <= MAX_DEPTH {
      var o := Lookup(m, pool, c, obj + 0x18, NAME_SIZE);
      EndlessChains(m, pool, o.caches, chain, ReadPtr(m, obj + 0x20), depth + 1);
    }
  }
}
