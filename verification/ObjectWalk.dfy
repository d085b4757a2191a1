/** The resumable object search ue4r_find_instance of source/daemon/ue4_reflection.c. */
module ObjectWalk {
  import opened Bytes
  import opened Wrappers
  import opened RemoteMemory
  import opened NameCache

  const MAX_OBJECTS := 500000
  const MEMO := 256
  const BUDGET := 512
  const MAX_SUPERS := 32
  const CANDIDATE := 256
  const LOOKUP_NAME := 64

  /** What stays put during a run: the memory, the name pool, the metaclass and the object array. */
  datatype World = World(m: Memory, pool: Pool, uclass: nat, objects: nat, count: nat)

  // ---------- A naive walk ----------

  /** read_object_from_array: a flat array first, a chunked one where that gives no pointer. */
  function ObjectAt(m: Memory, objects: nat, i: nat): nat
  {
    var flat := ReadPtr(m, objects + i * 24);
    if ValidPtr(flat) then flat
    else
      var chunk := ReadPtr(m, objects + i / 65536 * 8);
      if ValidPtr(chunk) then ReadPtr(m, chunk + i % 65536 * 24) else 0
  }

  datatype Header = Header(flags: nat, cls: nat)

  function ReadHeader(m: Memory, obj: nat): Option<Header>
  {
    match Read(m, obj, 24)
    case Some(b) => Some(Header(FromLittleEndian(b[8..12]), FromLittleEndian(b[16..24])))
    case None => None
  }

  /** RF_ClassDefaultObject. */
  predicate IsDefault(h: Header)
  {
    h.flags / 16 % 2 == 1
  }

  /** The super chain from `cls` meets `target` within `links` classes. */
  predicate Reaches(m: Memory, cls: nat, target: nat, links: nat)
    decreases links
  {
    links > 0 && ValidPtr(cls) && (cls == target || Reaches(m, ReadPtr(m, cls + 0x30), target, links - 1))
  }

  /** Entry i is a class object with the wanted name. */
  predicate IsNamedClass(g: World, name: seq<byte>, i: nat)
  {
    var obj := ObjectAt(g.m, g.objects, i);
    && ValidPtr(obj)
    && var h := ReadHeader(g.m, obj);
      && h.Some? && h.value.cls == g.uclass
      && Uncached(g.m, g.pool, obj + 0x18, CANDIDATE) == Some(name)
  }

  /** Entry i is a readable object, not a default one, whose class derives from `target`. */
  predicate IsInstance(g: World, target: nat, i: nat)
  {
    var obj := ObjectAt(g.m, g.objects, i);
    && ValidPtr(obj)
    && var h := ReadHeader(g.m, obj);
      h.Some? && !IsDefault(h.value) && Reaches(g.m, h.value.cls, target, MAX_SUPERS)
  }

  /** The first class object of that name from index i on, or 0. */
  function FirstClass(g: World, name: seq<byte>, i: nat): nat
    decreases g.count - i
  {
    if i >= g.count then 0
    else if IsNamedClass(g, name, i) then ObjectAt(g.m, g.objects, i)
    else FirstClass(g, name, i + 1)
  }

  /** The instances of `target` from index i on, in index order. */
  function Instances(g: World, target: nat, i: nat): seq<nat>
    decreases g.count - i
  {
    if i >= g.count then []
    else (if IsInstance(g, target, i) then [ObjectAt(g.m, g.objects, i)] else []) + Instances(g, target, i + 1)
  }

  // ---------- The walk with its state ----------

  /** The search state a context keeps between calls, and the caller's cursor. */
  datatype Walk = Walk(caches: Caches, keys: seq<nat>, matches: seq<bool>, cls: nat, name: seq<byte>, cursor: int)

  predicate SizedWalk(w: Walk)
  {
    Sized(w.caches) && |w.keys| == MEMO && |w.matches| == MEMO
  }

  function KeySlot(cls: nat): (s: nat)
    ensures s < MEMO
  {
    cls / 16 % MEMO
  }

  /** The ancestor memo after it was asked about `cls`. */
  function Remember(m: Memory, w: Walk, cls: nat): (w': Walk)
    requires SizedWalk(w)
    ensures SizedWalk(w') && w'.caches == w.caches && w'.cursor == w.cursor && w'.cls == w.cls && w'.name == w.name
  {
    if w.keys[KeySlot(cls)] == cls then w
    else
      w.(keys := w.keys[KeySlot(cls) := cls],
         matches := w.matches[KeySlot(cls) := Reaches(m, cls, w.cls, MAX_SUPERS)])
  }

  datatype Hunt = Hunt(walk: Walk, found: nat, visits: nat)

  predicate Advances(w: Walk, w': Walk)
  {
    (w.cls == 0 && w'.cls != 0) || (w'.cls == w.cls && w'.cursor > w.cursor)
  }

  /** One turn of the loop: the object at the cursor. */
  function Visit(g: World, w: Walk, name: seq<byte>): (h: Hunt)
    requires SizedWalk(w) && 0 <= w.cursor < g.count
    ensures SizedWalk(h.walk) && 0 <= h.walk.cursor <= g.count && Advances(w, h.walk)
  {
    var obj := ObjectAt(g.m, g.objects, w.cursor);
    var next := w.(cursor := w.cursor + 1);
    if !ValidPtr(obj) then Hunt(next, 0, 1)
    else
      match ReadHeader(g.m, obj)
      case None => Hunt(next, 0, 1)
      case Some(h) =>
        if w.cls == 0 then
          if h.cls != g.uclass then Hunt(next, 0, 1)
          else
            var o := Lookup(g.m, g.pool, w.caches, obj + 0x18, CANDIDATE);
            if o.name == Some(name) then Hunt(w.(caches := o.caches, cls := obj, cursor := 0), 0, 1)
            else Hunt(next.(caches := o.caches), 0, 1)
        else if IsDefault(h) then Hunt(next, 0, 1)
        else
          var r := Remember(g.m, next, h.cls);
          Hunt(r, if r.matches[KeySlot(h.cls)] then obj else 0, 1)
  }

  /** The loop: until the end, an instance, or the budget. */
  function Search(g: World, w: Walk, name: seq<byte>, budget: nat): (h: Hunt)
    requires SizedWalk(w) && 0 <= w.cursor
    ensures SizedWalk(h.walk) && 0 <= h.walk.cursor && h.visits <= budget
    ensures w.cursor < g.count && budget > 0 ==> Advances(w, h.walk) && h.walk.cursor <= g.count
    ensures w.cursor >= g.count || budget == 0 ==> h == Hunt(w, 0, 0)
    decreases budget
  {
    if w.cursor >= g.count || budget == 0 then Hunt(w, 0, 0)
    else
      var v := Visit(g, w, name);
      if v.found != 0 then v
      else
        var rest := Search(g, v.walk, name, budget - 1);
        rest.(visits := rest.visits + 1)
  }

  /** get_objects_info: where the object array is and how many entries it has. */
  function ObjectsInfo(m: Memory, guobj: nat): (r: Option<(nat, nat)>)
    ensures r.Some? ==> ValidPtr(r.value.0) && r.value.1 > 0
  {
    var ptr := ReadPtr(m, guobj + 0x10);
    var count := ReadI32(m, guobj + 0x24);
    if ValidPtr(ptr) && count.Some? && count.value > 0 then Some((ptr, count.value))
    else
      var third := ReadI32(m, guobj + 0x1c);
      if ValidPtr(ptr) && third.Some? && third.value > 0 then Some((ptr, third.value))
      else
        var direct := ReadPtr(m, guobj);
        var fourth := ReadI32(m, guobj + 0x14);
        if !ValidPtr(direct) then None
        else if fourth.Some? && fourth.value > 0 then Some((direct, fourth.value))
        else Some((direct, 100000))
  }

  datatype Found = Found(walk: Walk, obj: nat, visits: nat)

  function NoKeys(): (k: seq<nat>)
    ensures |k| == MEMO && forall i :: 0 <= i < MEMO ==> k[i] == 0
  {
    seq(MEMO, i => 0)
  }

  /** The context turned to a class name: a new name starts over. */
  function Turned(w: Walk, name: seq<byte>): (w': Walk)
    requires SizedWalk(w)
    ensures SizedWalk(w')
  {
    if w.name == name then w
    else w.(name := Cut(name, LOOKUP_NAME - 1), cls := 0, keys := NoKeys(), cursor := 0)
  }

  /** The caller's cursor after the loop: -1 once the end was reached without a result. */
  function Closed(g: World, h: Hunt): Found
  {
    Found(if h.found == 0 && h.walk.cursor >= g.count then h.walk.(cursor := -1) else h.walk, h.found, h.visits)
  }

  /** ue4r_find_instance. */
  function FindCall(m: Memory, pool: Pool, uclass: nat, guobj: nat, w: Walk, name: seq<byte>): (f: Found)
    requires SizedWalk(w)
    ensures SizedWalk(f.walk)
  {
    if uclass == 0 || w.cursor < 0 then Found(w, 0, 0)
    else
      match ObjectsInfo(m, guobj)
      case None => Found(w.(cursor := -1), 0, 0)
      case Some((objects, count)) =>
        if count > MAX_OBJECTS then Found(w.(cursor := -1), 0, 0)
        else
          var g := World(m, pool, uclass, objects, count);
          Closed(g, Search(g, Turned(w, name), name, BUDGET))
  }

  // ---------- What the state means ----------

  /** Slot s of the memo, where its key belongs there, holds the chain's answer. */
  predicate MemoAt(m: Memory, w: Walk, s: nat)
    requires SizedWalk(w) && s < MEMO
  {
    KeySlot(w.keys[s]) == s ==> w.matches[s] == Reaches(m, w.keys[s], w.cls, MAX_SUPERS)
  }

  /** Slot 0 claims a match for the null class: what turning to another name can leave behind. */
  predicate Stale(w: Walk)
    requires SizedWalk(w)
  {
    w.keys[0] == 0 && w.matches[0]
  }

  /** Every slot is right, but for a stale slot 0; before the class is known no key is set. */
  ghost predicate SoundMemo(m: Memory, w: Walk)
    requires SizedWalk(w)
  {
    if w.cls == 0 then
      forall s :: 0 <= s < MEMO ==> w.keys[s] == 0
    else
      forall s :: (if Stale(w) then 1 else 0) <= s < MEMO ==> MemoAt(m, w, s)
  }

  /** Names are looked up only until the class is known. */
  ghost predicate SoundWalk(g: World, w: Walk)
  {
    SizedWalk(w) && SoundMemo(g.m, w) && (w.cls == 0 ==> Honest(g.m, g.pool, w.caches, CANDIDATE))
  }

  /** Sound, and slot 0 is right as well. */
  ghost predicate HonestWalk(g: World, w: Walk)
  {
    SoundWalk(g, w) && !Stale(w)
  }

  /** Entry i is a readable object that is not a default one: those the memo is asked about. */
  predicate IsAsked(g: World, i: nat)
  {
    var obj := ObjectAt(g.m, g.objects, i);
    && ValidPtr(obj)
    && var h := ReadHeader(g.m, obj);
      h.Some? && !IsDefault(h.value)
  }

  function ClassOf(g: World, i: nat): nat
    requires IsAsked(g, i)
  {
    ReadHeader(g.m, ObjectAt(g.m, g.objects, i)).value.cls
  }

  /** What is handed out from index i on: the instances and, while slot 0 is stale, objects without a class. */
  function Handed(g: World, stale: bool, target: nat, i: nat): seq<nat>
    decreases g.count - i
  {
    if i >= g.count then []
    else
      var classless := stale && IsAsked(g, i) && ClassOf(g, i) == 0;
      var overwritten := IsAsked(g, i) && ClassOf(g, i) != 0 && KeySlot(ClassOf(g, i)) == 0;
      (if classless || IsInstance(g, target, i) then [ObjectAt(g.m, g.objects, i)] else [])
      + Handed(g, stale && !overwritten, target, i + 1)
  }

  /** What a run from here on must still deliver. */
  function Remaining(g: World, w: Walk, name: seq<byte>): seq<nat>
    requires SizedWalk(w) && w.cursor >= 0
  {
    if w.cls != 0 then Handed(g, Stale(w), w.cls, w.cursor)
    else
      var target := FirstClass(g, name, w.cursor);
      if target == 0 then [] else Handed(g, Stale(w), target, 0)
  }

  function Delivered(found: nat): seq<nat>
  {
    if found == 0 then [] else [found]
  }

  lemma NullReachesNothing(m: Memory, cls: nat)
    ensures !Reaches(m, 0, cls, MAX_SUPERS)
  {
  }

  /** With all keys zero the memo is sound whichever class the search settles on. */
  lemma EmptyMemo(m: Memory, w: Walk, cls: nat)
    requires SizedWalk(w) && w.cls == 0 && SoundMemo(m, w) && cls != 0
    ensures SoundMemo(m, w.(cls := cls, cursor := 0))
  {
    hide Reaches;
    NullReachesNothing(m, cls);
  }

  /** The memo's answer is the chain's, but for the null class while slot 0 is stale. */
  lemma RememberSound(m: Memory, w: Walk, cls: nat)
    requires SizedWalk(w) && w.cls != 0 && SoundMemo(m, w)
    ensures var r := Remember(m, w, cls);
      && SoundMemo(m, r)
      && r.matches[KeySlot(cls)] == ((Stale(w) && cls == 0) || Reaches(m, cls, w.cls, MAX_SUPERS))
      && Stale(r) == (Stale(w) && !(cls != 0 && KeySlot(cls) == 0))
  {
    hide Reaches;
    NullReachesNothing(m, w.cls);
    var slot := KeySlot(cls);
    var r := Remember(m, w, cls);
    if !Stale(w) {
      assert MemoAt(m, w, 0);
    }
    if slot > 0 || !Stale(w) {
      assert MemoAt(m, w, slot);
    }
    forall s | (if Stale(r) then 1 else 0) <= s < MEMO
      ensures MemoAt(m, r, s)
    {
      if s > 0 || !Stale(w) { assert MemoAt(m, w, s); }
    }
  }

  /** The memo's meaning depends on the memo and the class only. */
  lemma MemoFrame(m: Memory, w: Walk, w': Walk)
    requires SizedWalk(w) && SizedWalk(w') && SoundMemo(m, w)
    requires w.keys == w'.keys && w.matches == w'.matches && w.cls == w'.cls
    ensures SoundMemo(m, w') && Stale(w') == Stale(w)
  {
    hide Reaches;
    forall s | (if Stale(w) then 1 else 0) <= s < MEMO && w.cls != 0
      ensures MemoAt(m, w', s)
    {
      assert MemoAt(m, w, s);
    }
  }

  /** Looking for the class: the cursor moves on, or the search proper starts at index 0. */
  lemma VisitForClass(g: World, w: Walk, name: seq<byte>)
    requires SoundWalk(g, w) && 0 <= w.cursor < g.count && w.cls == 0 && |name| < STORED
    ensures var v := Visit(g, w, name);
      SoundWalk(g, v.walk) && Remaining(g, w, name) == Delivered(v.found) + Remaining(g, v.walk, name)
  {
    hide Honest, Reaches, Lookup, Uncached, Handed, ObjectAt, ReadHeader, SoundMemo;
    var obj := ObjectAt(g.m, g.objects, w.cursor);
    if ValidPtr(obj) && ReadHeader(g.m, obj).Some? && ReadHeader(g.m, obj).value.cls == g.uclass {
      LookupHonest(g.m, g.pool, w.caches, obj + 0x18, CANDIDATE, CANDIDATE);
      CandidateMatches(g.m, g.pool, w.caches, obj + 0x18, name, CANDIDATE);
      EmptyMemo(g.m, w, obj);
    }
    var v := Visit(g, w, name).walk;
    if v.cls == 0 {
      MemoFrame(g.m, w, v);
    } else {
      MemoFrame(g.m, w.(cls := obj, cursor := 0), v);
    }
  }

  /** Looking for instances: the one at the cursor is delivered or it is none. */
  lemma VisitForInstance(g: World, w: Walk, name: seq<byte>)
    requires SoundWalk(g, w) && 0 <= w.cursor < g.count && w.cls != 0
    ensures var v := Visit(g, w, name);
      SoundWalk(g, v.walk) && Remaining(g, w, name) == Delivered(v.found) + Remaining(g, v.walk, name)
  {
    hide Honest, Reaches, ObjectAt, ReadHeader, Remember, SoundMemo;
    var obj := ObjectAt(g.m, g.objects, w.cursor);
    var next := w.(cursor := w.cursor + 1);
    MemoFrame(g.m, w, next);
    if ValidPtr(obj) && ReadHeader(g.m, obj).Some? {
      RememberSound(g.m, next, ReadHeader(g.m, obj).value.cls);
      NullReachesNothing(g.m, w.cls);
    }
  }

  lemma VisitKeeps(g: World, w: Walk, name: seq<byte>)
    requires SoundWalk(g, w) && 0 <= w.cursor < g.count && (w.cls == 0 ==> |name| < STORED)
    ensures var v := Visit(g, w, name);
      && SoundWalk(g, v.walk) && (v.walk.cls == 0 ==> w.cls == 0)
      && Remaining(g, w, name) == Delivered(v.found) + Remaining(g, v.walk, name)
  {
    if w.cls == 0 {
      VisitForClass(g, w, name);
    } else {
      VisitForInstance(g, w, name);
    }
  }

  lemma SearchStep(g: World, w: Walk, name: seq<byte>, budget: nat)
    requires SizedWalk(w) && 0 <= w.cursor < g.count && budget > 0
    ensures var v := Visit(g, w, name);
      var h := Search(g, w, name, budget);
      if v.found != 0 then h == v
      else h.walk == Search(g, v.walk, name, budget - 1).walk && h.found == Search(g, v.walk, name, budget - 1).found
  {
    hide Visit, Advances;
  }

  /** The loop delivers the front of what is due and leaves the rest due. */
  lemma {:induction false} SearchKeeps(g: World, w: Walk, name: seq<byte>, budget: nat)
    requires SoundWalk(g, w) && SizedWalk(w) && 0 <= w.cursor && (w.cls == 0 ==> |name| < STORED)
    ensures var h := Search(g, w, name, budget);
      && SoundWalk(g, h.walk) && (h.walk.cls == 0 ==> w.cls == 0)
      && Remaining(g, w, name) == Delivered(h.found) + Remaining(g, h.walk, name)
    decreases budget
  {
    hide SoundWalk, Remaining, Visit, Search, Advances, SizedWalk;
    if w.cursor < g.count && budget > 0 {
      VisitKeeps(g, w, name);
      SearchStep(g, w, name, budget);
      var v := Visit(g, w, name);
      if v.found == 0 {
        SearchKeeps(g, v.walk, name, budget - 1);
      }
    }
  }

  /** A search keeps honest caches honest. */
  lemma {:induction false} SearchHonest(g: World, w: Walk, name: seq<byte>, budget: nat)
    requires SizedWalk(w) && 0 <= w.cursor && Honest(g.m, g.pool, w.caches, CANDIDATE)
    ensures Honest(g.m, g.pool, Search(g, w, name, budget).walk.caches, CANDIDATE)
    decreases budget
  {
    hide Visit, Honest, Search, Advances;
    if w.cursor < g.count && budget > 0 {
      VisitHonest(g, w, name);
      SearchStep(g, w, name, budget);
      var v := Visit(g, w, name);
      if v.found == 0 { SearchHonest(g, v.walk, name, budget - 1); }
    } else {
      SearchStops(g, w, name, budget);
    }
  }

  lemma SearchStops(g: World, w: Walk, name: seq<byte>, budget: nat)
    requires SizedWalk(w) && 0 <= w.cursor && (w.cursor >= g.count || budget == 0)
    ensures Search(g, w, name, budget) == Hunt(w, 0, 0)
  {
  }

  lemma VisitHonest(g: World, w: Walk, name: seq<byte>)
    requires SizedWalk(w) && 0 <= w.cursor < g.count && Honest(g.m, g.pool, w.caches, CANDIDATE)
    ensures Honest(g.m, g.pool, Visit(g, w, name).walk.caches, CANDIDATE)
  {
    hide Honest, Lookup, ObjectAt, ReadHeader, Reaches;
    var obj := ObjectAt(g.m, g.objects, w.cursor);
    LookupHonest(g.m, g.pool, w.caches, obj + 0x18, CANDIDATE, CANDIDATE);
  }

  lemma SizedSound(g: World, w: Walk)
    requires SoundWalk(g, w)
    ensures SizedWalk(w)
  {
  }

  // ---------- Runs of calls ----------

  datatype Site = Site(m: Memory, pool: Pool, uclass: nat, guobj: nat)

  /** What a whole run hands out, and how many entries it looks at. */
  datatype Tally = Tally(objs: seq<nat>, visits: nat)

  function Left(s: Site, cursor: int): nat
  {
    match ObjectsInfo(s.m, s.guobj)
    case Some((_, count)) => if 0 <= cursor < count then count - cursor else 0
    case None => 0
  }

  function Call(s: Site, w: Walk, name: seq<byte>): (f: Found)
    requires SizedWalk(w)
    ensures SizedWalk(f.walk)
  {
    FindCall(s.m, s.pool, s.uclass, s.guobj, w, name)
  }

  /** A call either ends the run or gets nearer its end. */
  lemma CallAdvances(s: Site, w: Walk, name: seq<byte>)
    requires SizedWalk(w) && s.uclass != 0 && |name| < LOOKUP_NAME && w.cursor >= 0
    ensures var f := Call(s, w, name).walk;
      || f.cursor == -1
      || (f.name == name && f.cursor >= 0 && (
         || w.name != name
         || (w.cls == 0 && f.cls != 0)
         || (w.cls == f.cls && Left(s, f.cursor) < Left(s, w.cursor))))
  {
    SearchKeepsName(s, w, name);
  }

  lemma SearchKeepsName(s: Site, w: Walk, name: seq<byte>)
    requires SizedWalk(w) && s.uclass != 0 && |name| < LOOKUP_NAME && w.cursor >= 0
    ensures Call(s, w, name).walk.cursor == -1 || Call(s, w, name).walk.name == name
  {
    var info := ObjectsInfo(s.m, s.guobj);
    if info.Some? && info.value.1 <= MAX_OBJECTS {
      var g := World(s.m, s.pool, s.uclass, info.value.0, info.value.1);
      SearchName(g, Turned(w, name), name, BUDGET);
    }
  }

  lemma {:induction false} SearchName(g: World, w: Walk, name: seq<byte>, budget: nat)
    requires SizedWalk(w) && 0 <= w.cursor
    ensures Search(g, w, name, budget).walk.name == w.name
    decreases budget
  {
    hide Lookup, ObjectAt, ReadHeader, Reaches;
    if w.cursor < g.count && budget > 0 {
      var v := Visit(g, w, name);
      if v.found == 0 { SearchName(g, v.walk, name, budget - 1); }
    }
  }

  /** Calling again with the cursor handed back, until it is -1. */
  function Run(s: Site, w: Walk, name: seq<byte>): (t: Tally)
    requires SizedWalk(w) && s.uclass != 0 && |name| < LOOKUP_NAME && w.cursor >= -1
    decreases if w.name != name then 1 else 0, if w.cls == 0 then 1 else 0, Left(s, w.cursor), w.cursor
  {
    if w.cursor < 0 then Tally([], 0)
    else
      CallAdvances(s, w, name);
      var f := Call(s, w, name);
      if f.walk.cursor < 0 then Tally(Delivered(f.obj), f.visits)
      else
        var rest := Run(s, f.walk, name);
        Tally(Delivered(f.obj) + rest.objs, f.visits + rest.visits)
  }

  // ---------- What a run delivers ----------

  function Scene(s: Site): (g: World)
    requires ObjectsInfo(s.m, s.guobj).Some?
  {
    World(s.m, s.pool, s.uclass, ObjectsInfo(s.m, s.guobj).value.0, ObjectsInfo(s.m, s.guobj).value.1)
  }

  predicate Searchable(s: Site)
  {
    ObjectsInfo(s.m, s.guobj).Some? && ObjectsInfo(s.m, s.guobj).value.1 <= MAX_OBJECTS
  }

  function Due(g: World, w: Walk, name: seq<byte>): seq<nat>
    requires SizedWalk(w) && w.cursor >= -1
  {
    if w.cursor < 0 then [] else Remaining(g, w, name)
  }

  lemma NothingAtTheEnd(g: World, w: Walk, name: seq<byte>)
    requires SizedWalk(w) && w.cursor >= g.count
    ensures Remaining(g, w, name) == []
  {
  }

  lemma CallKeeps(s: Site, w: Walk, name: seq<byte>)
    requires Searchable(s) && s.uclass != 0
    requires w.cursor >= 0 && SizedWalk(w) && SoundWalk(Scene(s), Turned(w, name))
    requires Turned(w, name).cls == 0 ==> |name| < STORED
    ensures var g, f := Scene(s), Call(s, w, name);
      && f.walk.cursor >= -1
      && (f.walk.cursor >= 0 ==> SoundWalk(g, f.walk) && (f.walk.cls == 0 ==> Turned(w, name).cls == 0))
      && Remaining(g, Turned(w, name), name) == Delivered(f.obj) + Due(g, f.walk, name)
  {
    hide SoundWalk, Remaining, Search;
    var g := Scene(s);
    SearchKeeps(g, Turned(w, name), name, BUDGET);
    var h := Search(g, Turned(w, name), name, BUDGET);
    if h.walk.cursor >= g.count {
      NothingAtTheEnd(g, h.walk, name);
    }
  }

  /**
   * A run delivers what is due in the state it starts from. Once the class is known that needs nothing
   * of the name caches, and no more of the name than that the context remembers it.
   */
  lemma {:induction false} RunDelivers(s: Site, w: Walk, name: seq<byte>)
    requires Searchable(s) && s.uclass != 0 && |name| < LOOKUP_NAME
    requires w.cursor >= 0 && SizedWalk(w) && SoundWalk(Scene(s), Turned(w, name))
    requires Turned(w, name).cls == 0 ==> |name| < STORED
    ensures Run(s, w, name).objs == Remaining(Scene(s), Turned(w, name), name)
    decreases if w.name != name then 1 else 0, if w.cls == 0 then 1 else 0, Left(s, w.cursor), w.cursor
  {
    hide SoundWalk, Remaining, FindCall;
    CallAdvances(s, w, name);
    CallKeeps(s, w, name);
    var f := Call(s, w, name);
    if f.walk.cursor >= 0 {
      assert Turned(f.walk, name) == f.walk;
      RunDelivers(s, f.walk, name);
    }
  }

  /** A context just made by ue4r_init, apart from the names looked up so far. */
  function FreshWalk(c: Caches): (w: Walk)
    requires Sized(c)
    ensures SizedWalk(w)
  {
    Walk(c, NoKeys(), seq(MEMO, i => false), 0, [], 0)
  }

  /**
   * From a new context and cursor 0, the calls made until the cursor is -1 deliver, in index
   * order and once per index, exactly the instances of the first class object of that name;
   * batching, the memo, the name cache and the budget do not show.
   */
  lemma FindsExactlyTheInstances(s: Site, c: Caches, name: seq<byte>)
    requires Searchable(s) && s.uclass != 0 && |name| < STORED
    requires Honest(s.m, s.pool, c, CANDIDATE)
    ensures Run(s, FreshWalk(c), name).objs == Wanted(Scene(s), name)
  {
    hide Run;
    RunDelivers(s, FreshWalk(c), name);
    var target := FirstClass(Scene(s), name, 0);
    if target != 0 {
      HandedRight(Scene(s), target, 0);
    }
  }

  /** The instances of the first class object of a name, in index order; none without one. */
  function Wanted(g: World, name: seq<byte>): seq<nat>
  {
    var target := FirstClass(g, name, 0);
    if target == 0 then [] else Instances(g, target, 0)
  }

  lemma {:induction false} HandedRight(g: World, target: nat, i: nat)
    ensures Handed(g, false, target, i) == Instances(g, target, i)
    decreases g.count - i
  {
    hide IsInstance, IsAsked, ObjectAt;
    if i < g.count {
      HandedRight(g, target, i + 1);
    }
  }

  // ---------- How long a run takes ----------

  /** Entries still to be looked at, at most. */
  function Budgeted(g: World, w: Walk): int
  {
    (if w.cursor < g.count then g.count - w.cursor else 0) + if w.cls == 0 then g.count else 0
  }

  lemma {:induction false} SearchVisits(g: World, w: Walk, name: seq<byte>, budget: nat)
    requires SizedWalk(w) && 0 <= w.cursor
    ensures var h := Search(g, w, name, budget); h.visits + Budgeted(g, h.walk) <= Budgeted(g, w)
    decreases budget
  {
    hide Lookup, ObjectAt, ReadHeader, Reaches;
    if w.cursor < g.count && budget > 0 {
      var v := Visit(g, w, name);
      if v.found == 0 { SearchVisits(g, v.walk, name, budget - 1); }
    }
  }

  lemma CallVisits(s: Site, w: Walk, name: seq<byte>)
    requires SizedWalk(w) && Searchable(s) && s.uclass != 0 && w.cursor >= 0
    ensures var f := Call(s, w, name);
      && f.visits <= BUDGET
      && f.visits + (if f.walk.cursor < 0 then 0 else Budgeted(Scene(s), f.walk)) <= Budgeted(Scene(s), Turned(w, name))
  {
    hide Search;
    SearchVisits(Scene(s), Turned(w, name), name, BUDGET);
  }

  /** A call that neither delivers nor reaches the end has looked at exactly 512 entries. */
  lemma UnfinishedCall(s: Site, w: Walk, name: seq<byte>)
    requires SizedWalk(w) && Searchable(s) && s.uclass != 0 && w.cursor >= 0
    ensures var f := Call(s, w, name);
      f.obj == 0 && f.walk.cursor >= 0 ==> f.visits == 512 && f.walk.cursor < Scene(s).count
  {
    hide Search;
    SearchSpent(Scene(s), Turned(w, name), name, BUDGET);
    CallVisits(s, w, name);
  }

  /** No call looks at more than 512 entries, and a whole run at no more than twice the array. */
  lemma {:induction false} RunTakesTwoPasses(s: Site, w: Walk, name: seq<byte>)
    requires SizedWalk(w) && Searchable(s) && s.uclass != 0 && |name| < LOOKUP_NAME && w.cursor >= 0
    ensures Call(s, w, name).visits <= 512
    ensures Run(s, w, name).visits <= Budgeted(Scene(s), Turned(w, name)) <= 2 * Scene(s).count
    decreases if w.name != name then 1 else 0, if w.cls == 0 then 1 else 0, Left(s, w.cursor), w.cursor
  {
    hide FindCall;
    CallAdvances(s, w, name);
    CallVisits(s, w, name);
    var f := Call(s, w, name);
    if f.walk.cursor >= 0 {
      assert Turned(f.walk, name) == f.walk;
      RunTakesTwoPasses(s, f.walk, name);
    }
  }

  // ---------- Where the state shows ----------

  /** Turning keeps a state sound, and leaves slot 0 stale exactly when it held a match. */
  lemma TurningKeepsTheMemo(g: World, w: Walk, name: seq<byte>)
    requires SoundWalk(g, w) && Honest(g.m, g.pool, w.caches, CANDIDATE) && w.name != name
    ensures SoundWalk(g, Turned(w, name)) && Stale(Turned(w, name)) == w.matches[0]
    ensures HonestWalk(g, Turned(w, name)) <==> !w.matches[0]
  {
    hide Honest;
  }

  /** Of the objects asked about from index i on, the first whose class belongs in slot 0 has no class. */
  predicate NullComesFirst(g: World, i: nat)
    decreases g.count - i
  {
    && i < g.count
    && if IsAsked(g, i) && KeySlot(ClassOf(g, i)) == 0 then ClassOf(g, i) == 0 else NullComesFirst(g, i + 1)
  }

  lemma {:induction false} HandedAtLeast(g: World, stale: bool, target: nat, i: nat)
    ensures |Handed(g, stale, target, i)| >= |Instances(g, target, i)|
    decreases g.count - i
  {
    hide IsInstance, IsAsked, ObjectAt;
    if i < g.count {
      HandedAtLeast(g, stale, target, i + 1);
      HandedAtLeast(g, false, target, i + 1);
    }
  }

  lemma NullIsNoInstance(g: World, target: nat, i: nat)
    requires IsAsked(g, i) && ClassOf(g, i) == 0
    ensures !IsInstance(g, target, i)
  {
    hide ReadHeader, ObjectAt;
    NullReachesNothing(g.m, target);
  }

  lemma SameFront(front: seq<nat>, a: seq<nat>, b: seq<nat>)
    ensures front + a == front + b <==> a == b
  {
    if front + a == front + b {
      assert a == (front + a)[|front|..] == (front + b)[|front|..] == b;
    }
  }

  lemma {:induction false} StaleHandsRight(g: World, target: nat, i: nat)
    ensures Handed(g, true, target, i) == Instances(g, target, i) <==> !NullComesFirst(g, i)
    decreases g.count - i
  {
    assert KeySlot(0) == 0;
    hide IsInstance, IsAsked, ObjectAt, ClassOf, KeySlot;
    if i < g.count {
      StaleHandsRight(g, target, i + 1);
      var here := if IsInstance(g, target, i) then [ObjectAt(g.m, g.objects, i)] else [];
      if IsAsked(g, i) && ClassOf(g, i) == 0 {
        NullIsNoInstance(g, target, i);
        HandedAtLeast(g, true, target, i + 1);
        assert |Handed(g, true, target, i)| > |Instances(g, target, i)|;
      } else if IsAsked(g, i) && KeySlot(ClassOf(g, i)) == 0 {
        HandedRight(g, target, i + 1);
      } else {
        SameFront(here, Handed(g, true, target, i + 1), Instances(g, target, i + 1));
      }
    }
  }

  /**
   * Turning a context to another name: the run delivers the instances of that name's class exactly
   * when slot 0 held no match, or there is no such class, or the first object asked about whose class
   * belongs in slot 0, if any, has a class.
   */
  lemma TurnedRunIsRight(s: Site, w: Walk, name: seq<byte>)
    requires Searchable(s) && s.uclass != 0 && |name| < STORED
    requires SoundWalk(Scene(s), w) && Honest(s.m, s.pool, w.caches, CANDIDATE) && w.name != name && w.cursor >= 0
    ensures SizedWalk(w)
    ensures Run(s, w, name).objs == Wanted(Scene(s), name) <==>
      !w.matches[0] || FirstClass(Scene(s), name, 0) == 0 || !NullComesFirst(Scene(s), 0)
  {
    var g := Scene(s);
    SizedSound(g, w);
    hide Run, Honest, SoundWalk, Handed, FirstClass, NullComesFirst;
    TurningKeepsTheMemo(g, w, name);
    RunDelivers(s, w, name);
    var target := FirstClass(g, name, 0);
    HandedRight(g, target, 0);
    StaleHandsRight(g, target, 0);
  }

  /** A name of 64 bytes or more never matches the stored one: every call starts over. */
  lemma LongNamesStartOver(s: Site, w: Walk, name: seq<byte>, cursor: nat)
    requires SizedWalk(w) && |name| >= LOOKUP_NAME && |w.name| < LOOKUP_NAME && w.cursor >= 0
    requires Searchable(s) && s.uclass != 0
    ensures Call(s, w.(cursor := cursor), name) == Call(s, w.(cursor := 0), name)
  {
    hide Search;
    assert Turned(w.(cursor := cursor), name) == Turned(w.(cursor := 0), name);
  }

  // ---------- How a call comes out ----------

  /** A delivered object is one whose class the memo now has a match for. */
  lemma {:induction false} SearchFound(g: World, w: Walk, name: seq<byte>, budget: nat)
    requires SizedWalk(w) && 0 <= w.cursor
    ensures var h := Search(g, w, name, budget);
      h.found != 0 ==>
        ReadHeader(g.m, h.found).Some? && h.walk.matches[KeySlot(ReadHeader(g.m, h.found).value.cls)]
    decreases budget
  {
    hide Lookup, ObjectAt, ReadHeader, Reaches, Advances;
    if w.cursor < g.count && budget > 0 {
      var v := Visit(g, w, name);
      if v.found == 0 { SearchFound(g, v.walk, name, budget - 1); }
    }
  }

  /** Without a result the budget is used up or the end is reached. */
  lemma {:induction false} SearchSpent(g: World, w: Walk, name: seq<byte>, budget: nat)
    requires SizedWalk(w) && 0 <= w.cursor
    ensures var h := Search(g, w, name, budget);
      h.found == 0 && h.visits < budget ==> h.walk.cursor >= g.count
    decreases budget
  {
    hide Visit, Advances;
    if w.cursor < g.count && budget > 0 {
      var v := Visit(g, w, name);
      if v.found == 0 { SearchSpent(g, v.walk, name, budget - 1); }
    }
  }

  /** The state after n calls, the cursor handed back each time; a run stops at -1. */
  function Calls(s: Site, w: Walk, name: seq<byte>, n: nat): (w': Walk)
    requires SizedWalk(w)
    ensures SizedWalk(w')
  {
    if n == 0 then w
    else
      var before := Calls(s, w, name, n - 1);
      if before.cursor < 0 then before else Call(s, before, name).walk
  }

  ghost predicate RunEnds(s: Site, w: Walk, name: seq<byte>)
    requires SizedWalk(w)
  {
    exists n: nat :: Calls(s, w, name, n).cursor < 0
  }

  lemma {:induction false} CallsAfterOne(s: Site, w: Walk, name: seq<byte>, n: nat)
    requires SizedWalk(w) && w.cursor >= 0
    ensures Calls(s, Call(s, w, name).walk, name, n) == Calls(s, w, name, n + 1)
    decreases n
  {
    hide Call;
    if n > 0 {
      CallsAfterOne(s, w, name, n - 1);
    } else {
      assert Calls(s, w, name, 0) == w;
    }
  }

  lemma {:induction false} ShortNamesEnd(s: Site, w: Walk, name: seq<byte>)
    requires SizedWalk(w) && s.uclass != 0 && |name| < LOOKUP_NAME && w.cursor >= -1
    ensures RunEnds(s, w, name)
    decreases if w.name != name then 1 else 0, if w.cls == 0 then 1 else 0, Left(s, w.cursor), w.cursor
  {
    hide FindCall;
    if w.cursor < 0 {
      assert Calls(s, w, name, 0).cursor < 0;
    } else {
      CallAdvances(s, w, name);
      var next := Call(s, w, name).walk;
      if next.cursor < 0 {
        assert Calls(s, w, name, 0) == w;
        assert Calls(s, w, name, 1).cursor < 0;
      } else {
        ShortNamesEnd(s, next, name);
        var n: nat :| Calls(s, next, name, n).cursor < 0;
        CallsAfterOne(s, w, name, n);
      }
    }
  }

  // ---------- The batched read ----------

  lemma BatchItem(m: Memory, objects: nat, start: nat, n: nat, k: nat)
    requires k < n && Readable(m, objects + start * 24, n * 24)
    ensures FromLittleEndian(Read(m, objects + start * 24, n * 24).value[k * 24..k * 24 + 8])
      == ReadPtr(m, objects + (start + k) * 24)
  {
    var items := Read(m, objects + start * 24, n * 24).value;
    var addr := objects + (start + k) * 24;
    assert Readable(m, addr, 8);
    assert items[k * 24..k * 24 + 8] == Read(m, addr, 8).value;
  }
}
