/** Read-only access to another process's memory: source/daemon/remote_memory.c. */
module RemoteMemory {
  import opened Bytes
  import opened Wrappers

  /** The mapped bytes of the target, which does not change while it is being read. */
  type Memory = map<int, byte>

  predicate Readable(m: Memory, addr: int, len: nat)
  {
    len > 0 && forall a | addr <= a < addr + len :: a in m
  }

  /** rm_read: the whole range or nothing; an empty range is a failure. */
  function Read(m: Memory, addr: int, len: nat): (r: Option<seq<byte>>)
    ensures r.Some? <==> Readable(m, addr, len)
    ensures r.Some? ==> |r.value| == len && forall i :: 0 <= i < len ==> r.value[i] == m[addr + i]
  {
    if Readable(m, addr, len) then
      Some(seq(len, i requires 0 <= i < len => m[addr + i]))
    else
      None
  }

  /** rm_read_ptr: 0 stands for failure. */
  function ReadPtr(m: Memory, addr: int): nat
  {
    match Read(m, addr, 8)
    case Some(b) => FromLittleEndian(b)
    case None => 0
  }

  function ReadI32(m: Memory, addr: int): Option<int>
  {
    match Read(m, addr, 4)
    case Some(b) => Some(ToSigned32(FromLittleEndian(b)))
    case None => None
  }

  function ReadU16(m: Memory, addr: int): Option<nat>
  {
    match Read(m, addr, 2)
    case Some(b) => Some(FromLittleEndian(b))
    case None => None
  }

  /** rm_validate_ptr: above the guard page and below 2^48. */
  predicate ValidPtr(p: int)
  {
    0x1000 < p < 0x1_0000_0000_0000
  }

  // ---------- rm_read_string ----------

  const CHUNK := 64

  /** How far the chunked reads of the first `n` bytes get, from `pos` on. */
  function Reach(m: Memory, addr: int, n: nat, pos: nat): (r: nat)
    requires pos <= n
    ensures pos <= r <= n
    decreases n - pos
  {
    var len: nat := Min(CHUNK, n - pos);
    if pos < n && Readable(m, addr + pos, len) then Reach(m, addr, n, pos + len) else pos
  }

  /** `r` bytes can be had: all `n`, or those in front of the first 64-byte chunk with a hole in it. */
  ghost predicate StopsAt(m: Memory, addr: int, n: nat, r: nat)
  {
    && r <= n
    && (forall a :: addr <= a < addr + r ==> a in m)
    && (r < n ==> r % 64 == 0 && exists a :: addr + r <= a < addr + Min(r + 64, n) && a !in m)
  }

  lemma {:induction false} ReachStops(m: Memory, addr: int, n: nat, pos: nat)
    requires pos <= n && (pos < n ==> pos % CHUNK == 0)
    requires forall a :: addr <= a < addr + pos ==> a in m
    ensures StopsAt(m, addr, n, Reach(m, addr, n, pos))
    decreases n - pos
  {
    var len: nat := Min(CHUNK, n - pos);
    if pos < n && Readable(m, addr + pos, len) {
      ReachStops(m, addr, n, pos + len);
    }
  }

  lemma {:induction false} StopsReach(m: Memory, addr: int, n: nat, pos: nat, r: nat)
    requires pos <= r && (pos < n ==> pos % CHUNK == 0)
    requires StopsAt(m, addr, n, r)
    ensures Reach(m, addr, n, pos) == r
    decreases n - pos
  {
    var len: nat := Min(CHUNK, n - pos);
    if pos < r {
      assert pos + len <= r;
      StopsReach(m, addr, n, pos + len, r);
    }
  }

  /** The chunked loop's reach is the one place that meets the description. */
  lemma ReachIsTheStop(m: Memory, addr: int, n: nat, r: nat)
    ensures r == Reach(m, addr, n, 0) <==> StopsAt(m, addr, n, r)
  {
    ReachStops(m, addr, n, 0);
    if StopsAt(m, addr, n, r) {
      StopsReach(m, addr, n, 0, r);
    }
  }

  function Fetch(m: Memory, addr: int, len: nat): (b: seq<byte>)
    requires forall a :: addr <= a < addr + len ==> a in m
    ensures |b| == len
  {
    seq(len, i requires 0 <= i < len => m[addr + i])
  }

  /**
   * The C string rm_read_string leaves in a buffer of `max` bytes, or None when it fails:
   * the reachable bytes among the first max - 1, up to the first NUL.
   */
  function StringAt(m: Memory, addr: int, max: nat): (s: Option<seq<byte>>)
    ensures s.Some? ==> |s.value| < max
  {
    if max == 0 then None
    else if max == 1 then Some([])
    else
      var r := Reach(m, addr, max - 1, 0);
      ReachStops(m, addr, max - 1, 0);
      if r == 0 then None
      else
        var bytes := Fetch(m, addr, r);
        CStringPrefix(bytes);
        Some(CString(bytes))
  }

  /** The string copied is the remote one whenever that string fits and is mapped far enough. */
  lemma WholeStrings(m: Memory, addr: int, max: nat, s: seq<byte>)
    requires |s| + 1 < max && 0 !in s
    requires forall a :: addr <= a < addr + |s| + CHUNK ==> a in m
    requires forall i :: 0 <= i < |s| ==> m[addr + i] == s[i]
    requires m[addr + |s|] == 0
    ensures StringAt(m, addr, max) == Some(s)
  {
    var r := Reach(m, addr, max - 1, 0);
    ReachStops(m, addr, max - 1, 0);
    assert r > |s|;
    var bytes := Fetch(m, addr, r);
    assert s <= bytes && bytes[|s|] == 0;
    CStringIs(bytes, s);
  }

  lemma ReachStep(m: Memory, addr: int, n: nat, pos: nat)
    requires pos <= n
    ensures var len: nat := Min(CHUNK, n - pos);
      Reach(m, addr, n, pos) ==
      if pos < n && Read(m, addr + pos, len).Some? then Reach(m, addr, n, pos + len) else pos
  {
  }

  lemma EmptyString(m: Memory, addr: int, b: seq<byte>)
    requires |b| > 0 && b[0] == 0
    ensures CString(b) == [] && 0 in b
    ensures |b| == 1 ==> StringAt(m, addr, 1) == Some([])
    ensures |b| > 1 && Reach(m, addr, |b| - 1, 0) == 0 ==> StringAt(m, addr, |b|) == None
  {
  }

  /** A NUL-free copy of the bytes at `addr`. */
  ghost predicate Copied(m: Memory, addr: int, s: seq<byte>)
  {
    0 !in s && forall a :: addr <= a < addr + |s| ==> a in m && s[a - addr] == m[a]
  }

  lemma CopiedMore(m: Memory, addr: int, s: seq<byte>, chunk: seq<byte>, k: nat)
    requires Copied(m, addr, s) && Read(m, addr + |s|, |chunk|) == Some(chunk) && k <= |chunk|
    requires 0 !in chunk[..k]
    ensures Copied(m, addr, s + chunk[..k])
    ensures k < |chunk| ==> addr + |s| + k in m && m[addr + |s| + k] == chunk[k]
  {
    var t := s + chunk[..k];
    if chunk != [] { assert Readable(m, addr + |s|, |chunk|); }
    forall a | addr <= a < addr + |t| ensures a in m && t[a - addr] == m[a] {
      if a >= addr + |s| {
        var x := a - addr - |s|;
        assert t[a - addr] == chunk[x] == m[addr + |s| + x];
      }
    }
    if k < |chunk| {
      assert chunk[k] == m[addr + |s| + k];
    }
  }

  /** The scan of one chunk: copies up to and including the first NUL. */
  method CopyUntilNul(chunk: seq<byte>, buf: array<byte>, pos: nat) returns (copied: nat, ended: bool)
    requires pos + |chunk| <= buf.Length
    modifies buf
    ensures copied <= |chunk| && (ended <==> copied < |chunk|) && 0 !in chunk[..copied]
    ensures ended ==> chunk[copied] == 0 && buf[pos + copied] == 0
    ensures buf[..pos + copied] == old(buf[..pos]) + chunk[..copied]
    ensures forall j :: pos + |chunk| <= j < buf.Length ==> buf[j] == old(buf[j])
  {
    copied := 0;
    while copied < |chunk|
      invariant copied <= |chunk| && 0 !in chunk[..copied]
      invariant buf[..pos + copied] == old(buf[..pos]) + chunk[..copied]
      invariant forall j :: pos + |chunk| <= j < buf.Length ==> buf[j] == old(buf[j])
    {
      buf[pos + copied] := chunk[copied];
      if chunk[copied] == 0 { return copied, true; }
      copied := copied + 1;
    }
    ended := false;
  }

  /** What a turn of the loop leaves: the string so far, and a NUL behind it once it has ended. */
  ghost predicate Ended(m: Memory, addr: int, b: seq<byte>, pos: nat)
  {
    && pos < |b| && b[pos] == 0 && Copied(m, addr, b[..pos])
    && var r := Reach(m, addr, |b| - 1, 0);
      0 < r && pos <= r && (pos < r ==> addr + pos in m && m[addr + pos] == 0)
  }

  datatype Turn = More | Done | Failed

  /** One turn of the loop: reads up to 64 bytes and copies them. */
  method TakeChunk(m: Memory, addr: int, buf: array<byte>, max: nat, pos: nat) returns (next: nat, turn: Turn)
    requires pos < max - 1 < buf.Length && Copied(m, addr, buf[..pos])
    requires Reach(m, addr, max - 1, 0) == Reach(m, addr, max - 1, pos)
    modifies buf
    ensures pos <= next < max && Copied(m, addr, buf[..next])
    ensures turn == Done ==> Ended(m, addr, buf[..max], next)
    ensures turn == More ==> pos < next && Reach(m, addr, max - 1, 0) == Reach(m, addr, max - 1, next)
    ensures turn == Failed ==> pos == 0 && Reach(m, addr, max - 1, 0) == 0 && buf[0] == old(buf[0])
    ensures forall j :: max <= j < buf.Length ==> buf[j] == old(buf[j])
  {
    hide Reach, Copied, Readable;
    var toRead: nat := CHUNK;
    if toRead > max - 1 - pos { toRead := max - 1 - pos; }
    ghost var got := buf[..pos];
    ReachStep(m, addr, max - 1, pos);
    var chunk := Read(m, addr + pos, toRead);
    if chunk.None? {
      if pos == 0 { return pos, Failed; }
      buf[pos] := 0;
      assert buf[..max][..pos] == buf[..pos] == got;
      return pos, Done;
    }
    var copied, ended := CopyUntilNul(chunk.value, buf, pos);
    CopiedMore(m, addr, got, chunk.value, copied);
    next := pos + copied;
    turn := if ended then Done else More;
    assert buf[..max][..next] == buf[..next];
  }

  /** rm_read_string. */
  method ReadString(m: Memory, addr: int, buf: array<byte>, max: nat) returns (ok: bool)
    requires max <= buf.Length
    modifies buf
    ensures ok == StringAt(m, addr, max).Some?
    ensures ok ==> CString(buf[..max]) == StringAt(m, addr, max).value
    ensures !ok && max > 0 ==> CString(buf[..max]) == []
    ensures max > 0 ==> 0 in buf[..max]
    ensures forall j :: max <= j < buf.Length ==> buf[j] == old(buf[j])
  {
    hide Reach, CString, Copied, Ended, Readable;
    if max == 0 { return false; }
    hide StringAt;
    buf[0] := 0;
    EmptyString(m, addr, buf[..max]);
    if max == 1 { return true; }
    NothingCopied(m, addr);
    var pos: nat := 0;
    while pos < max - 1
      invariant pos <= max - 1 && Copied(m, addr, buf[..pos])
      invariant pos == 0 ==> buf[0] == 0
      invariant Reach(m, addr, max - 1, 0) == Reach(m, addr, max - 1, pos)
      invariant forall j :: max <= j < buf.Length ==> buf[j] == old(buf[j])
      decreases max - 1 - pos
    {
      var turn;
      pos, turn := TakeChunk(m, addr, buf, max, pos);
      if turn == Failed {
        EmptyString(m, addr, buf[..max]);
        return false;
      }
      if turn == Done {
        EndedString(m, addr, buf[..max], pos);
        return true;
      }
    }
    ghost var got := buf[..pos];
    buf[max - 1] := 0;
    assert buf[..max][..pos] == got;
    ReachStep(m, addr, max - 1, pos);
    FullString(m, addr, buf[..max]);
    return true;
  }

  lemma NothingCopied(m: Memory, addr: int)
    ensures Copied(m, addr, [])
  {
  }

  /** The buffer once its NUL stands at `pos`: either all that can be reached, or up to a remote NUL. */
  lemma EndedString(m: Memory, addr: int, b: seq<byte>, pos: nat)
    requires |b| > 1 && Ended(m, addr, b, pos)
    ensures StringAt(m, addr, |b|) == Some(CString(b)) && 0 in b
  {
    hide CString, Reach;
    ReachStops(m, addr, |b| - 1, 0);
    var bytes := Fetch(m, addr, Reach(m, addr, |b| - 1, 0));
    assert b[..pos] <= bytes;
    CStringIs(bytes, b[..pos]);
    CStringIs(b, b[..pos]);
  }

  lemma FullString(m: Memory, addr: int, b: seq<byte>)
    requires |b| > 1 && b[|b| - 1] == 0 && Copied(m, addr, b[..|b| - 1])
    requires Reach(m, addr, |b| - 1, 0) == |b| - 1
    ensures StringAt(m, addr, |b|) == Some(CString(b)) && 0 in b
  {
    hide Reach, Copied, CString;
    EndedString(m, addr, b, |b| - 1);
  }
}
