/** Setting up a reflection context: ue4r_init and its search for the metaclass, in
 * source/daemon/ue4_reflection.c. */
module ReflectionInit {
  import opened Bytes
  import opened Wrappers
  import opened RemoteMemory
  import opened NameCache
  import opened ObjectWalk

  const MAX_INIT_SCAN := 8192
  const MAX_DEREFS := 16
  const META_NAME: seq<byte> := [67, 108, 97, 115, 115]   // "Class"

  // ---------- The name pool ----------

  /** How often the chunk table pointer is followed, by the first word of the pool. */
  function Derefs(m: Memory, gnamepool: nat): nat
  {
    match Read(m, gnamepool, 4)
    case Some(b) => if FromLittleEndian(b) >= 100 then (FromLittleEndian(b) - 100) / 3 else 0
    case None => 0
  }

  function Follow(m: Memory, p: nat, n: nat): nat
    decreases n
  {
    if n == 0 || !ValidPtr(p) then p else Follow(m, ReadPtr(m, p), n - 1)
  }

  /** The two pool addresses, unless the indirection count is out of range. */
  function PoolAt(m: Memory, gnamepool: nat): Option<Pool>
  {
    var second := ReadPtr(m, gnamepool + 8);
    var start := if second != 0 then second else ReadPtr(m, gnamepool);
    if Derefs(m, gnamepool) > MAX_DEREFS then None
    else Some(Pool(gnamepool, Follow(m, start, Derefs(m, gnamepool))))
  }

  // ---------- The metaclass, through the caches ----------

  datatype Meta = Meta(caches: Caches, cls: nat)

  /** One object of the scan: the metaclass it leads to, or 0. */
  function TryObject(m: Memory, pool: Pool, c: Caches, obj: nat): (r: Meta)
    requires Sized(c)
    ensures Sized(r.caches)
  {
    if !ValidPtr(obj) then Meta(c, 0)
    else
      var cls := ReadPtr(m, obj + 0x10);
      var own := Lookup(m, pool, c, obj + 0x18, CANDIDATE);
      if own.name != Some(META_NAME) then Meta(own.caches, 0)
      else if cls == obj then Meta(own.caches, obj)
      else if !ValidPtr(cls) then Meta(own.caches, 0)
      else
        var other := Lookup(m, pool, own.caches, cls + 0x18, CANDIDATE);
        Meta(other.caches, if other.name == Some(META_NAME) then cls else 0)
  }

  function MetaScan(m: Memory, pool: Pool, c: Caches, objects: nat, limit: nat, i: nat): (r: Meta)
    requires Sized(c)
    ensures Sized(r.caches)
    decreases limit - i
  {
    if i >= limit then Meta(c, 0)
    else
      var r := TryObject(m, pool, c, ObjectAt(m, objects, i));
      if r.cls != 0 then r else MetaScan(m, pool, r.caches, objects, limit, i + 1)
  }

  /** find_uclass_class on the caches of a new context. */
  function Metaclass(m: Memory, pool: Pool, guobj: nat): (r: Meta)
    ensures Sized(r.caches)
  {
    match ObjectsInfo(m, guobj)
    case None => Meta(InitialCaches(), 0)
    case Some((objects, count)) => MetaScan(m, pool, InitialCaches(), objects, Min(count, MAX_INIT_SCAN), 0)
  }

  /** The caches ue4r_init leaves. */
  function InitCaches(s: Site): (c: Caches)
    ensures Sized(c)
  {
    Metaclass(s.m, s.pool, s.guobj).caches
  }

  /** ue4r_init on this memory makes a context that is ready, with these addresses. */
  predicate Ready(s: Site)
  {
    && PoolAt(s.m, s.pool.gnamepool) == Some(s.pool)
    && s.uclass == Metaclass(s.m, s.pool, s.guobj).cls != 0
  }

  // ---------- The metaclass, naively ----------

  predicate IsNamedMeta(m: Memory, pool: Pool, obj: nat)
  {
    ValidPtr(obj) && Uncached(m, pool, obj + 0x18, CANDIDATE) == Some(META_NAME)
  }

  /** An object named "Class" that is its own class, or whose class has that name as well. */
  function MetaOf(m: Memory, pool: Pool, obj: nat): nat
  {
    var cls := ReadPtr(m, obj + 0x10);
    if IsNamedMeta(m, pool, obj) && (cls == obj || IsNamedMeta(m, pool, cls)) then cls else 0
  }

  function FirstMeta(m: Memory, pool: Pool, objects: nat, limit: nat, i: nat): nat
    decreases limit - i
  {
    if i >= limit then 0
    else
      var cls := MetaOf(m, pool, ObjectAt(m, objects, i));
      if cls != 0 then cls else FirstMeta(m, pool, objects, limit, i + 1)
  }

  lemma TryIsMetaOf(m: Memory, pool: Pool, c: Caches, obj: nat)
    requires Honest(m, pool, c, CANDIDATE)
    ensures Sized(c)
    ensures var r := TryObject(m, pool, c, obj);
      r.cls == MetaOf(m, pool, obj) && Honest(m, pool, r.caches, CANDIDATE)
  {
    hide Honest, Lookup, Uncached, ReadPtr;
    SizedHonest(m, pool, c);
    if ValidPtr(obj) {
      var cls := ReadPtr(m, obj + 0x10);
      var own := Lookup(m, pool, c, obj + 0x18, CANDIDATE);
      CandidateMatches(m, pool, c, obj + 0x18, META_NAME, CANDIDATE);
      LookupHonest(m, pool, c, obj + 0x18, CANDIDATE, CANDIDATE);
      CandidateMatches(m, pool, own.caches, cls + 0x18, META_NAME, CANDIDATE);
      LookupHonest(m, pool, own.caches, cls + 0x18, CANDIDATE, CANDIDATE);
    }
  }

  lemma SizedHonest(m: Memory, pool: Pool, c: Caches)
    requires Honest(m, pool, c, CANDIDATE)
    ensures Sized(c)
  {
  }

  lemma {:induction false} ScanIsFirstMeta(m: Memory, pool: Pool, c: Caches, objects: nat, limit: nat, i: nat)
    requires Honest(m, pool, c, CANDIDATE) && Sized(c)
    ensures var r := MetaScan(m, pool, c, objects, limit, i);
      r.cls == FirstMeta(m, pool, objects, limit, i) && Honest(m, pool, r.caches, CANDIDATE)
    decreases limit - i
  {
    hide Honest, TryObject, MetaOf, ObjectAt, Sized;
    if i < limit {
      var obj := ObjectAt(m, objects, i);
      TryIsMetaOf(m, pool, c, obj);
      var r := TryObject(m, pool, c, obj);
      if r.cls == 0 {
        ScanIsFirstMeta(m, pool, r.caches, objects, limit, i + 1);
      }
    }
  }

  /**
   * The caches do not show in the metaclass a new context settles on: it is that of the first of the
   * first 8192 objects that leads to one. The caches left are honest for the buffers of the search.
   */
  lemma MetaclassIsFirst(m: Memory, pool: Pool, guobj: nat)
    ensures Honest(m, pool, Metaclass(m, pool, guobj).caches, CANDIDATE)
    ensures Metaclass(m, pool, guobj).cls ==
      match ObjectsInfo(m, guobj)
      case None => 0
      case Some((objects, count)) => FirstMeta(m, pool, objects, Min(count, 8192), 0)
  {
    hide Honest, MetaScan, FirstMeta, InitialCaches, ObjectsInfo;
    InitiallyHonest(m, pool, CANDIDATE);
    match ObjectsInfo(m, guobj)
    case None =>
    case Some((objects, count)) =>
      ScanIsFirstMeta(m, pool, InitialCaches(), objects, Min(count, MAX_INIT_SCAN), 0);
  }

  lemma {:induction false} FirstMetaIsNamed(m: Memory, pool: Pool, objects: nat, limit: nat, i: nat)
    ensures var cls := FirstMeta(m, pool, objects, limit, i); cls != 0 ==> IsNamedMeta(m, pool, cls)
    decreases limit - i
  {
    hide IsNamedMeta, ObjectAt;
    if i < limit {
      FirstMetaIsNamed(m, pool, objects, limit, i + 1);
    }
  }

  /** A ready context's metaclass is an object named "Class". */
  lemma ReadyMetaclass(s: Site)
    requires Ready(s)
    ensures ValidPtr(s.uclass) && Uncached(s.m, s.pool, s.uclass + 24, 256) == Some([67, 108, 97, 115, 115])
  {
    hide FirstMeta, Metaclass, ObjectsInfo, Uncached;
    MetaclassIsFirst(s.m, s.pool, s.guobj);
    match ObjectsInfo(s.m, s.guobj)
    case None =>
    case Some((objects, count)) =>
      FirstMetaIsNamed(s.m, s.pool, objects, Min(count, MAX_INIT_SCAN), 0);
  }
}
