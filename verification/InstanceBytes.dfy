/** What the object search delivers, by the bytes of the target's memory. */
module InstanceBytes {
  import opened Bytes
  import opened Wrappers
  import opened RemoteMemory
  import opened ByteLayout
  import opened NameCache
  import opened ObjectWalk

  // ---------- Objects, by their bytes ----------

  /** The object of an index: in a flat array of 24-byte items, else in chunks of 65536 of them. */
  function ItemAt(m: Memory, items: nat, i: nat): nat
  {
    var chunk := Ptr(m, items + 8 * (i / 65536));
    if IsPtr(Ptr(m, items + 24 * i)) then Ptr(m, items + 24 * i)
    else if IsPtr(chunk) then Ptr(m, chunk + 24 * (i % 65536))
    else 0
  }

  /** A chain of at most 32 classes from one to another, each the super class of the one before. */
  predicate IsChain(m: Memory, chain: seq<nat>, cls: nat, target: nat)
  {
    && 0 < |chain| <= 32 && chain[0] == cls && chain[|chain| - 1] == target
    && (forall k :: 0 <= k < |chain| ==> IsPtr(chain[k]))
    && forall k :: 0 <= k < |chain| - 1 ==> Ptr(m, chain[k] + 0x30) == chain[k + 1]
  }

  ghost predicate DescendsFrom(m: Memory, cls: nat, target: nat)
  {
    exists chain :: IsChain(m, chain, cls, target)
  }

  predicate IsObject(m: Memory, obj: nat)
  {
    IsPtr(obj) && Mapped(m, obj, 24)
  }

  /** Bit 4 of the flags, which start at byte 8. */
  predicate IsClassDefault(m: Memory, obj: nat)
    requires IsObject(m, obj)
  {
    U8(m, obj + 8) / 16 % 2 == 1
  }

  function ClassPtr(m: Memory, obj: nat): nat
    requires IsObject(m, obj)
  {
    U64(m, obj + 16)
  }

  ghost predicate InstanceAt(m: Memory, items: nat, target: nat, i: nat)
  {
    var obj := ItemAt(m, items, i);
    IsObject(m, obj) && !IsClassDefault(m, obj) && DescendsFrom(m, ClassPtr(m, obj), target)
  }

  predicate ClassAt(g: World, name: seq<byte>, i: nat)
  {
    var obj := ItemAt(g.m, g.objects, i);
    && IsObject(g.m, obj) && ClassPtr(g.m, obj) == g.uclass
    && Uncached(g.m, g.pool, obj + 24, 256) == Some(name)
  }

  // ---------- They are those of the walk ----------

  lemma ItemReads(m: Memory, items: nat, i: nat)
    ensures ObjectAt(m, items, i) == ItemAt(m, items, i)
  {
    hide ReadPtr, Ptr;
    ReadsPtr(m, items + i * 24);
    ReadsPtr(m, items + i / 65536 * 8);
    assert i / 65536 * 8 == 8 * (i / 65536) && i % 65536 * 24 == 24 * (i % 65536);
    ReadsPtr(m, Ptr(m, items + i / 65536 * 8) + i % 65536 * 24);
  }

  lemma HeaderReads(m: Memory, obj: nat)
    ensures ReadHeader(m, obj).Some? <==> Mapped(m, obj, 24)
    ensures IsPtr(obj) && Mapped(m, obj, 24) ==>
      var h := ReadHeader(m, obj).value; h.cls == ClassPtr(m, obj) && (IsDefault(h) <==> IsClassDefault(m, obj))
  {
    hide FromLittleEndian;
    if Mapped(m, obj, 24) {
      assert Readable(m, obj, 24);
      var b := Read(m, obj, 24).value;
      FourBytes(b[8..12]);
      EightBytes(b[16..24]);
      FourBytes(b[16..24][..4]);
      FourBytes(b[16..24][4..]);
      LowBits(b[8], b[9], b[10], b[11]);
    } else {
      assert !Readable(m, obj, 24);
    }
  }

  lemma LowBits(a: int, b: int, c: int, d: int)
    requires 0 <= a < 256
    ensures (a + 0x100 * b + 0x1_0000 * c + 0x100_0000 * d) / 16 % 2 == a / 16 % 2
  {
    var q := b + 0x100 * c + 0x1_0000 * d;
    Quotient(a / 16 + 16 * q, a % 16);
    assert a + 0x100 * q == 16 * (a / 16 + 16 * q) + a % 16;
    Parity(a / 16, q);
  }

  lemma Quotient(n: int, r: int)
    requires 0 <= r < 16
    ensures (16 * n + r) / 16 == n
  {
  }

  lemma Parity(t: int, q: int)
    ensures (t + 16 * q) % 2 == t % 2
  {
  }

  lemma {:induction false} ReachesChain(m: Memory, cls: nat, target: nat, links: nat) returns (chain: seq<nat>)
    requires Reaches(m, cls, target, links) && links <= 32
    ensures |chain| <= links && IsChain(m, chain, cls, target)
    decreases links
  {
    hide ReadPtr, Ptr;
    ReadsPtr(m, cls + 0x30);
    if cls == target {
      chain := [cls];
    } else {
      var rest := ReachesChain(m, Ptr(m, cls + 0x30), target, links - 1);
      chain := [cls] + rest;
      forall k | 0 <= k < |chain| - 1 ensures Ptr(m, chain[k] + 0x30) == chain[k + 1] {
        if k > 0 { assert Ptr(m, rest[k - 1] + 0x30) == rest[k - 1 + 1]; }
      }
    }
  }

  lemma {:induction false} ChainReaches(m: Memory, chain: seq<nat>, cls: nat, target: nat, links: nat)
    requires IsChain(m, chain, cls, target) && |chain| <= links
    ensures Reaches(m, cls, target, links)
    decreases links
  {
    hide ReadPtr, Ptr;
    ReadsPtr(m, cls + 0x30);
    if |chain| > 1 {
      var rest := chain[1..];
      forall k | 0 <= k < |rest| - 1 ensures Ptr(m, rest[k] + 0x30) == rest[k + 1] {
        assert Ptr(m, chain[k + 1] + 0x30) == chain[k + 1 + 1];
      }
      ChainReaches(m, rest, chain[1], target, links - 1);
    }
  }

  lemma ReachesIsDescends(m: Memory, cls: nat, target: nat)
    ensures Reaches(m, cls, target, MAX_SUPERS) <==> DescendsFrom(m, cls, target)
  {
    hide Reaches, IsChain;
    if Reaches(m, cls, target, MAX_SUPERS) {
      var chain := ReachesChain(m, cls, target, MAX_SUPERS);
    }
    if chain :| IsChain(m, chain, cls, target) {
      assert |chain| <= 32 by { ShortChain(m, chain, cls, target); }
      ChainReaches(m, chain, cls, target, MAX_SUPERS);
    }
  }

  lemma ShortChain(m: Memory, chain: seq<nat>, cls: nat, target: nat)
    requires IsChain(m, chain, cls, target)
    ensures |chain| <= 32
  {
  }

  lemma InstanceReads(g: World, target: nat, i: nat)
    ensures IsInstance(g, target, i) <==> InstanceAt(g.m, g.objects, target, i)
  {
    hide ReadHeader, Reaches, DescendsFrom, ObjectAt, ItemAt, IsDefault, IsClassDefault;
    ItemReads(g.m, g.objects, i);
    var obj := ItemAt(g.m, g.objects, i);
    ReadsPtr(g.m, obj);
    HeaderReads(g.m, obj);
    if IsObject(g.m, obj) {
      ReachesIsDescends(g.m, ClassPtr(g.m, obj), target);
    }
  }

  lemma ClassReads(g: World, name: seq<byte>, i: nat)
    ensures IsNamedClass(g, name, i) <==> ClassAt(g, name, i)
  {
    hide ReadHeader, ObjectAt, ItemAt, IsDefault, IsClassDefault, Uncached;
    ItemReads(g.m, g.objects, i);
    var obj := ItemAt(g.m, g.objects, i);
    ReadsPtr(g.m, obj);
    HeaderReads(g.m, obj);
  }

  // ---------- What a run delivers ----------

  /** The objects of exactly those indices from i on that hold an instance, in index order. */
  ghost predicate Lists(g: World, target: nat, objs: seq<nat>, at: seq<nat>, i: nat)
  {
    && |objs| == |at|
    && (forall k :: 0 <= k < |at| ==> i <= at[k] < g.count && objs[k] == ItemAt(g.m, g.objects, at[k]))
    && (forall k :: 0 <= k < |at| - 1 ==> at[k] < at[k + 1])
    && forall j :: i <= j < g.count ==> (j in at <==> InstanceAt(g.m, g.objects, target, j))
  }

  lemma {:induction false} InstancesList(g: World, target: nat, i: nat) returns (at: seq<nat>)
    ensures Lists(g, target, Instances(g, target, i), at, i)
    decreases g.count - i
  {
    hide IsInstance, InstanceAt, ObjectAt, ItemAt;
    if i >= g.count {
      at := [];
    } else {
      InstanceReads(g, target, i);
      ItemReads(g.m, g.objects, i);
      var rest := InstancesList(g, target, i + 1);
      if IsInstance(g, target, i) {
        at := [i] + rest;
        var objs := Instances(g, target, i);
        forall k | 0 <= k < |at|
          ensures i <= at[k] < g.count && objs[k] == ItemAt(g.m, g.objects, at[k])
        {
          if k > 0 { assert at[k] == rest[k - 1] && objs[k] == Instances(g, target, i + 1)[k - 1]; }
        }
        forall k | 0 <= k < |at| - 1 ensures at[k] < at[k + 1] {
          if k > 0 { assert rest[k - 1] < rest[k - 1 + 1]; }
        }
      } else {
        at := rest;
      }
    }
  }

  /** The first index that holds a class of that name. */
  predicate FirstClassAt(g: World, name: seq<byte>, f: nat)
  {
    f < g.count && ClassAt(g, name, f) && forall j: nat | j < f :: !ClassAt(g, name, j)
  }

  lemma {:induction false} FirstClassReads(g: World, name: seq<byte>, i: nat)
    requires forall j: nat | j < i :: !ClassAt(g, name, j)
    ensures (forall f: nat | f < g.count :: !ClassAt(g, name, f)) ==> FirstClass(g, name, i) == 0
    ensures forall f: nat :: FirstClassAt(g, name, f) ==>
      f >= i && FirstClass(g, name, i) == ItemAt(g.m, g.objects, f) != 0
    decreases g.count - i
  {
    hide IsNamedClass, ClassAt, ObjectAt, ItemAt;
    if i < g.count {
      ClassReads(g, name, i);
      ItemReads(g.m, g.objects, i);
      if ClassAt(g, name, i) {
        NamedIsNotNull(g, name, i);
        assert FirstClassAt(g, name, i);
      } else {
        FirstClassReads(g, name, i + 1);
      }
    }
  }

  lemma NamedIsNotNull(g: World, name: seq<byte>, i: nat)
    requires ClassAt(g, name, i)
    ensures ItemAt(g.m, g.objects, i) != 0
  {
  }

  /**
   * From a new context: a run for a name below 59 bytes delivers nothing without a class of that name.
   * With one it delivers, in index order, the objects of exactly the indices that hold a readable object
   * whose class descends from the first such class and whose flag bit 4 is clear, whatever its other bits.
   */
  lemma DeliversByBytes(s: Site, c: Caches, name: seq<byte>)
    requires ObjectsInfo(s.m, s.guobj).Some? && ObjectsInfo(s.m, s.guobj).value.1 <= 500000
    requires s.uclass != 0 && |name| < 59 && Honest(s.m, s.pool, c, 256)
    ensures var g, objs := Scene(s), Run(s, FreshWalk(c), name).objs;
      && ((forall f: nat | f < g.count :: !ClassAt(g, name, f)) ==> objs == [])
      && forall f: nat :: FirstClassAt(g, name, f) ==>
           exists at :: Lists(g, ItemAt(g.m, g.objects, f), objs, at, 0)
  {
    hide Run, Instances, FirstClass, Lists, ClassAt, FirstClassAt, ItemAt, Honest;
    FindsExactlyTheInstances(s, c, name);
    var g := Scene(s);
    FirstClassReads(g, name, 0);
    forall f: nat | FirstClassAt(g, name, f)
      ensures exists at :: Lists(g, ItemAt(g.m, g.objects, f), Run(s, FreshWalk(c), name).objs, at, 0)
    {
      var at := InstancesList(g, ItemAt(g.m, g.objects, f), 0);
    }
  }
}
