/** Where ue4r_init finds the name tables and the object array, by the bytes of the target's memory. */
module InitBytes {
  import opened Bytes
  import opened Wrappers
  import opened RemoteMemory
  import opened ByteLayout
  import opened NameCache
  import opened ObjectWalk
  import opened ReflectionInit

  /** The first word of the pool, 0 where it cannot be read. */
  function FirstWord(m: Memory, gnamepool: nat): int
  {
    if Mapped(m, gnamepool, 4) then U32(m, gnamepool) else 0
  }

  /** A row of pointers, each stored where the one before points to. */
  predicate IsPtrChain(m: Memory, chain: seq<nat>)
  {
    && chain != []
    && (|chain| > 1 ==> IsPtr(chain[0]) && chain[1] == Ptr(m, chain[0]) && IsPtrChain(m, chain[1..]))
  }

  lemma {:induction false} FollowsChain(m: Memory, chain: seq<nat>, n: nat)
    requires IsPtrChain(m, chain) && |chain| - 1 <= n
    requires |chain| - 1 == n || !IsPtr(chain[|chain| - 1])
    ensures Follow(m, chain[0], n) == chain[|chain| - 1]
    decreases |chain|
  {
    hide ReadPtr, Ptr;
    ReadsPtr(m, chain[0]);
    if |chain| > 1 {
      FollowsChain(m, chain[1..], n - 1);
    }
  }

  /**
   * The chunk table is what the second pointer of the pool, or the first where that is null, leads to in
   * (word - 100) / 3 steps, or before at what is no pointer; from a word of 151 on there is no context.
   */
  lemma PoolIs(m: Memory, gnamepool: nat, chain: seq<nat>)
    requires IsPtrChain(m, chain)
    requires chain[0] == if Ptr(m, gnamepool + 8) != 0 then Ptr(m, gnamepool + 8) else Ptr(m, gnamepool)
    requires var word := FirstWord(m, gnamepool);
      var steps: int := if word < 100 then 0 else (word - 100) / 3;
      |chain| - 1 == steps || (|chain| - 1 < steps && !IsPtr(chain[|chain| - 1]))
    ensures PoolAt(m, gnamepool) ==
      if FirstWord(m, gnamepool) >= 151 then None else Some(Pool(gnamepool, chain[|chain| - 1]))
  {
    hide ReadPtr, Ptr, FromLittleEndian, U32, Follow;
    ReadsPtr(m, gnamepool);
    ReadsPtr(m, gnamepool + 8);
    ReadsWord(m, gnamepool);
    FollowsChain(m, chain, Derefs(m, gnamepool));
  }

  lemma ReadsWord(m: Memory, gnamepool: nat)
    ensures var word := FirstWord(m, gnamepool);
      Derefs(m, gnamepool) == if word < 100 then 0 else (word - 100) / 3
  {
    hide FromLittleEndian;
    if Mapped(m, gnamepool, 4) {
      assert Readable(m, gnamepool, 4);
      FourBytes(Read(m, gnamepool, 4).value);
    } else {
      assert !Readable(m, gnamepool, 4);
    }
  }

  /** A positive count, as a 32-bit integer. */
  predicate Positive(m: Memory, a: int)
  {
    Mapped(m, a, 4) && 0 < U32(m, a) < 0x8000_0000
  }

  /**
   * The array is at 0x10 of the object table with its count at 0x24 or else 0x1c, or at 0 with its count at
   * 0x14 or else taken to be 100000.
   */
  lemma ArrayIs(m: Memory, guobj: nat)
    ensures ObjectsInfo(m, guobj) ==
      if IsPtr(Ptr(m, guobj + 16)) && Positive(m, guobj + 36) then Some((Ptr(m, guobj + 16), U32(m, guobj + 36)))
      else if IsPtr(Ptr(m, guobj + 16)) && Positive(m, guobj + 28) then Some((Ptr(m, guobj + 16), U32(m, guobj + 28)))
      else if !IsPtr(Ptr(m, guobj)) then None
      else if Positive(m, guobj + 20) then Some((Ptr(m, guobj), U32(m, guobj + 20)))
      else Some((Ptr(m, guobj), 100000))
  {
    hide ReadPtr, Ptr, ReadI32, U32;
    ReadsPtr(m, guobj + 16);
    ReadsPtr(m, guobj);
    ReadsI32(m, guobj + 36);
    ReadsI32(m, guobj + 28);
    ReadsI32(m, guobj + 20);
  }

  /** An array of more than 500000 objects is not searched. */
  lemma TooManyObjects(s: Site, w: Walk, name: seq<byte>)
    requires SizedWalk(w) && s.uclass != 0 && w.cursor >= 0
    requires ObjectsInfo(s.m, s.guobj).Some? && ObjectsInfo(s.m, s.guobj).value.1 > 500000
    ensures Call(s, w, name) == Found(w.(cursor := -1), 0, 0)
  {
  }
}
