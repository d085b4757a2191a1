/** The player and item metadata caches of source/daemon/radar_reader.c: flat arrays searched
 * linearly, which amount to a map with a bounded number of keys. */
module MetadataCache {
  import opened Bytes
  import opened Wrappers

  const NAME_LENGTH := 31
  const PLAYERS := 512
  const ITEMS := 256

  /** What is kept for an actor: (team, bot) or (item id, category), and a name. */
  datatype Entry<V> = Entry(value: V, name: seq<byte>)
  datatype Row<V> = Row(actor: nat, entry: Entry<V>, valid: bool)
  datatype Op<V> = Store(actor: nat, value: V, name: seq<byte>) | Reset

  // ---------- The bounded map ----------

  function Put<V>(m: map<nat, Entry<V>>, capacity: nat, actor: nat, e: Entry<V>): map<nat, Entry<V>>
  {
    if actor in m || |m| < capacity then m[actor := e] else m
  }

  function Get<V>(m: map<nat, Entry<V>>, actor: nat): Option<Entry<V>>
  {
    if actor in m then Some(m[actor]) else None
  }

  function Stored<V>(value: V, name: seq<byte>): Entry<V>
  {
    Entry(value, Cut(name, NAME_LENGTH))
  }

  /** The map after a run of operations on an empty cache. */
  function After<V>(ops: seq<Op<V>>, capacity: nat): map<nat, Entry<V>>
  {
    if ops == [] then map[]
    else
      match ops[|ops| - 1]
      case Reset => map[]
      case Store(actor, value, name) => Put(After(ops[..|ops| - 1], capacity), capacity, actor, Stored(value, name))
  }

  // ---------- What a run leaves, without the map ----------

  /** The actors stored since the last reset, each once, in order of their first store. */
  function Firsts<V>(ops: seq<Op<V>>): seq<nat>
  {
    if ops == [] then []
    else
      match ops[|ops| - 1]
      case Reset => []
      case Store(actor, _, _) =>
        var before := Firsts(ops[..|ops| - 1]);
        if actor in before then before else before + [actor]
  }

  /** What was stored last for an actor since the last reset. */
  function LastStore<V>(ops: seq<Op<V>>, actor: nat): Option<Entry<V>>
  {
    if ops == [] then None
    else
      match ops[|ops| - 1]
      case Reset => None
      case Store(a, value, name) =>
        if a == actor then Some(Stored(value, name)) else LastStore(ops[..|ops| - 1], actor)
  }

  /** The actors that found room: the first `capacity` ones. */
  function Admitted<V>(ops: seq<Op<V>>, capacity: nat): seq<nat>
  {
    var f := Firsts(ops);
    if |f| <= capacity then f else f[..capacity]
  }

  predicate Distinct(s: seq<nat>)
  {
    forall i, j :: 0 <= i < j < |s| ==> s[i] != s[j]
  }

  lemma {:induction false} FirstsDistinct<V>(ops: seq<Op<V>>)
    ensures Distinct(Firsts(ops))
  {
    if ops != [] {
      FirstsDistinct(ops[..|ops| - 1]);
    }
  }

  lemma {:induction false} SizeOfKeys(s: seq<nat>, keys: set<nat>)
    requires Distinct(s) && keys == set x | x in s
    ensures |keys| == |s|
  {
    if s == [] {
      assert keys == {};
    } else {
      var front, last := s[..|s| - 1], s[|s| - 1];
      SizeOfKeys(front, keys - {last});
    }
  }

  /** Exactly the admitted actors are held, each with what was stored for it last. */
  ghost predicate Agrees<V(!new)>(ops: seq<Op<V>>, capacity: nat, m: map<nat, Entry<V>>)
  {
    && (forall a: nat :: a in m <==> a in Admitted(ops, capacity))
    && (forall a: nat :: a in m ==> LastStore(ops, a) == Some(m[a]))
  }

  /**
   * Over any run of stores and resets: a find returns what was stored last for the key since the
   * reset, name cut to 31 bytes, and only keys that came when `capacity` others were held are lost.
   */
  lemma {:induction false} RunAgrees<V(!new)>(ops: seq<Op<V>>, capacity: nat)
    ensures Agrees(ops, capacity, After(ops, capacity))
  {
    if ops == [] || ops[|ops| - 1].Reset? {
      NothingHeld(ops, capacity);
    } else {
      hide LastStore, Firsts, Admitted, Put, Stored, Agrees;
      var before := ops[..|ops| - 1];
      RunAgrees(before, capacity);
      HeldCount(before, capacity, After(before, capacity));
      StoreAgrees(before, capacity, After(before, capacity), ops[|ops| - 1]);
      assert ops == before + [ops[|ops| - 1]];
    }
  }

  lemma HeldCount<V(!new)>(ops: seq<Op<V>>, capacity: nat, m: map<nat, Entry<V>>)
    requires Agrees(ops, capacity, m)
    ensures |m| == |Admitted(ops, capacity)|
  {
    hide LastStore, Firsts, Admitted;
    AdmittedDistinct(ops, capacity);
    assert m.Keys == set x | x in Admitted(ops, capacity);
    SizeOfKeys(Admitted(ops, capacity), m.Keys);
  }

  lemma NothingHeld<V(!new)>(ops: seq<Op<V>>, capacity: nat)
    requires ops == [] || ops[|ops| - 1].Reset?
    ensures Agrees(ops, capacity, After(ops, capacity))
  {
  }

  lemma AdmittedDistinct<V>(ops: seq<Op<V>>, capacity: nat)
    ensures Distinct(Admitted(ops, capacity))
  {
    FirstsDistinct(ops);
  }

  lemma StoreAdmits<V>(before: seq<Op<V>>, capacity: nat, op: Op<V>)
    requires op.Store?
    ensures |Admitted(before, capacity)| == Min(|Firsts(before)|, capacity)
    ensures op.actor in Firsts(before) && op.actor !in Admitted(before, capacity) ==> |Firsts(before)| > capacity
    ensures op.actor in Admitted(before, capacity) ==> op.actor in Firsts(before)
    ensures Admitted(before + [op], capacity) ==
      if op.actor in Firsts(before) || |Firsts(before)| >= capacity then Admitted(before, capacity)
      else Admitted(before, capacity) + [op.actor]
  {
    var f := Firsts(before);
    assert (before + [op])[..|before|] == before;
    if |f| > capacity {
      assert (f + [op.actor])[..capacity] == f[..capacity];
    } else if |f| == capacity {
      assert (f + [op.actor])[..capacity] == f;
    }
  }

  lemma StoreIsLast<V>(before: seq<Op<V>>, op: Op<V>, a: nat)
    requires op.Store?
    ensures LastStore(before + [op], a) ==
      if a == op.actor then Some(Stored(op.value, op.name)) else LastStore(before, a)
  {
    assert (before + [op])[..|before|] == before;
  }

  lemma StoreAgrees<V(!new)>(before: seq<Op<V>>, capacity: nat, m: map<nat, Entry<V>>, op: Op<V>)
    requires Agrees(before, capacity, m) && op.Store? && |m| == |Admitted(before, capacity)|
    ensures Agrees(before + [op], capacity, Put(m, capacity, op.actor, Stored(op.value, op.name)))
  {
    hide Admitted, Firsts, LastStore, Stored;
    StoreAdmits(before, capacity, op);
    forall a: nat
      ensures LastStore(before + [op], a) ==
        if a == op.actor then Some(Stored(op.value, op.name)) else LastStore(before, a)
    {
      StoreIsLast(before, op, a);
    }
  }

  /** Up to the capacity nothing is lost at all. */
  lemma NothingLost<V(!new)>(ops: seq<Op<V>>, capacity: nat, actor: nat)
    requires |Firsts(ops)| <= capacity
    ensures Get(After(ops, capacity), actor) == LastStore(ops, actor)
  {
    RunAgrees(ops, capacity);
    FirstsAreStored(ops, actor);
  }

  lemma {:induction false} FirstsAreStored<V>(ops: seq<Op<V>>, actor: nat)
    ensures actor in Firsts(ops) <==> LastStore(ops, actor).Some?
  {
    if ops != [] && ops[|ops| - 1].Store? {
      FirstsAreStored(ops[..|ops| - 1], actor);
    }
  }

  // ---------- The array ----------

  predicate InUse<V>(rows: seq<Row<V>>)
  {
    && (forall i :: 0 <= i < |rows| ==> rows[i].valid)
    && (forall i, j :: 0 <= i < j < |rows| ==> rows[i].actor != rows[j].actor)
  }

  /** The map the rows in use stand for. */
  function AsMap<V>(rows: seq<Row<V>>): map<nat, Entry<V>>
  {
    if rows == [] then map[]
    else AsMap(rows[..|rows| - 1])[rows[|rows| - 1].actor := rows[|rows| - 1].entry]
  }

  lemma {:induction false} RowInMap<V>(rows: seq<Row<V>>, i: nat)
    requires InUse(rows) && i < |rows|
    ensures rows[i].actor in AsMap(rows) && AsMap(rows)[rows[i].actor] == rows[i].entry
  {
    if i < |rows| - 1 {
      RowInMap(rows[..|rows| - 1], i);
    }
  }

  lemma {:induction false} Absent<V>(rows: seq<Row<V>>, actor: nat)
    requires forall i :: 0 <= i < |rows| ==> rows[i].actor != actor
    ensures actor !in AsMap(rows)
  {
    if rows != [] {
      Absent(rows[..|rows| - 1], actor);
    }
  }

  lemma {:induction false} MapSize<V>(rows: seq<Row<V>>)
    requires InUse(rows)
    ensures |AsMap(rows)| == |rows|
  {
    if rows != [] {
      MapSize(rows[..|rows| - 1]);
      Absent(rows[..|rows| - 1], rows[|rows| - 1].actor);
    }
  }

  lemma {:induction false} RowReplaced<V>(rows: seq<Row<V>>, i: nat, e: Entry<V>)
    requires InUse(rows) && i < |rows|
    ensures AsMap(rows[i := rows[i].(entry := e)]) == AsMap(rows)[rows[i].actor := e]
  {
    var last := |rows| - 1;
    var rows' := rows[i := rows[i].(entry := e)];
    if i == last {
      assert rows'[..last] == rows[..last];
    } else {
      RowReplaced(rows[..last], i, e);
      assert rows'[..last] == rows[..last][i := rows[i].(entry := e)];
    }
  }

  lemma RowAdded<V>(rows: seq<Row<V>>, row: Row<V>)
    ensures AsMap(rows + [row]) == AsMap(rows)[row.actor := row.entry]
  {
    assert (rows + [row])[..|rows|] == rows;
  }

  /** g_player_meta with PLAYERS rows, g_item_meta with ITEMS rows. */
  class Cache<V> {
    const rows: array<Row<V>>
    var count: nat

    ghost predicate Valid()
      reads this, rows
    {
      count <= rows.Length && InUse(rows[..count])
    }

    ghost function Contents(): map<nat, Entry<V>>
      requires Valid()
      reads this, rows
    {
      AsMap(rows[..count])
    }

    constructor (capacity: nat, blank: V)
      ensures Valid() && Contents() == map[] && rows.Length == capacity && fresh(rows)
    {
      rows := new Row<V>[capacity](i => Row(0, Entry(blank, []), false));
      count := 0;
    }

    /** find_player_meta and find_item_meta. */
    method Find(actor: nat) returns (r: Option<Entry<V>>)
      requires Valid()
      ensures r == Get(Contents(), actor)
    {
      for i := 0 to count
        invariant forall j :: 0 <= j < i ==> rows[j].actor != actor
      {
        assert rows[..count][i] == rows[i];
        RowInMap(rows[..count], i);
        if rows[i].valid && rows[i].actor == actor { return Some(rows[i].entry); }
      }
      Absent(rows[..count], actor);
      return None;
    }

    /** store_player_meta and store_item_meta. */
    method Store(actor: nat, value: V, name: seq<byte>)
      requires Valid()
      modifies this`count, rows
      ensures Valid()
      ensures Contents() == Put(old(Contents()), rows.Length, actor, Stored(value, name))
    {
      ghost var before := rows[..count];
      var entry := Stored(value, name);
      MapSize(before);
      for i := 0 to count
        invariant count == |before| && rows[..count] == before && Valid()
        invariant forall j :: 0 <= j < i ==> rows[j].actor != actor
      {
        assert before[i] == rows[i];
        if rows[i].actor == actor {
          RowInMap(before, i);
          RowReplaced(before, i, entry);
          rows[i] := Row(actor, entry, true);
          assert rows[..count] == before[i := before[i].(entry := entry)];
          return;
        }
      }
      Absent(before, actor);
      if count < rows.Length {
        RowAdded(before, Row(actor, entry, true));
        rows[count] := Row(actor, entry, true);
        count := count + 1;
        assert rows[..count] == before + [Row(actor, entry, true)];
      }
    }

    /** The counters set to zero on a change of world and by radar_init. */
    method Clear()
      requires Valid()
      modifies this`count
      ensures Valid() && Contents() == map[]
    {
      count := 0;
    }
  }
}
