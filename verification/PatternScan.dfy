/** The chunked masked-pattern scanner: source/daemon/pattern_scan.c.
 *
 * pat_scan stores rm_read's result in a size_t and uses it as the number of bytes read.
 * rm_read is declared to return bool, so that number is 1. Both readings are modelled:
 * ByteCount is the one pat_scan's comments describe, Flag the one its types give. */
module PatternScan {
  import opened Bytes
  import opened RemoteMemory
  import opened Wrappers

  const PAGE := 4096
  const MAX_SCAN := 0x1000_0000

  datatype ReadResult = ByteCount | Flag

  /** What a caller hands to pat_scan. The region does not wrap the address space. */
  datatype Request = Request(m: Memory, start: nat, size: nat, pattern: seq<byte>, mask: seq<byte>, got: ReadResult)
  {
    predicate Valid()
    {
      0 < |pattern| == |mask| < TWO_64 && start + Cap() <= TWO_64
    }

    function Cap(): nat { if size > MAX_SCAN then MAX_SCAN else size }

    function Overlap(): int { |pattern| - 1 }

    /** `got` after a successful read; it bounds the searched positions. */
    function Got(toRead: nat): nat { if got.Flag? then 1 else toRead }
  }

  // ---- The specification: a naive search of the region ----

  /** Chunk k of the region, read whole or not at all. */
  ghost predicate ChunkReadable(q: Request, k: nat)
  {
    PAGE * k < q.Cap() && Readable(q.m, q.start + PAGE * k, Min(PAGE, q.Cap() - PAGE * k))
  }

  /** Every chunk that [a, a + len) touches is readable. */
  ghost predicate Covered(q: Request, a: nat, len: nat)
  {
    forall k: nat :: PAGE * k < a + len && a < PAGE * k + PAGE ==> ChunkReadable(q, k)
  }

  /** The pattern lies at relative address a, wholly inside readable chunks. */
  ghost predicate Occurs(q: Request, a: nat)
    requires q.Valid()
  {
    && a + |q.pattern| <= q.Cap()
    && Covered(q, a, |q.pattern|)
    && forall i :: 0 <= i < |q.pattern| ==>
         q.mask[i] == 0 || (q.start + a + i in q.m && q.m[q.start + a + i] == q.pattern[i])
  }

  /** The answer the header promises: the address of the first match, or 0. */
  ghost predicate IsFirstMatch(q: Request, r: int)
    requires q.Valid()
  {
    || (r == 0 && forall a: nat :: !Occurs(q, a))
    || (exists a: nat :: r == q.start + a && IsFirstOccurrence(q, a))
  }

  ghost predicate IsFirstOccurrence(q: Request, a: nat)
    requires q.Valid()
  {
    Occurs(q, a) && forall b: nat :: b < a ==> !Occurs(q, b)
  }

  /** The last byte of the pattern falls on the first byte of a chunk. */
  ghost predicate EndsOnChunkStart(q: Request, a: nat)
  {
    (a + |q.pattern| - 1) % PAGE == 0
  }

  /** The occurrences the loop bounds let the scanner see. */
  ghost predicate Seen(q: Request, a: nat)
    requires q.Valid()
  {
    Occurs(q, a) && (q.got.Flag? ==> EndsOnChunkStart(q, a))
  }

  // ---- The scanner, as a function of its loop state ----

  predicate MatchAt(buf: seq<byte>, pos: nat, pattern: seq<byte>, mask: seq<byte>)
    requires |pattern| == |mask| && pos + |pattern| <= |buf|
  {
    forall i :: 0 <= i < |pattern| ==> mask[i] == 0 || buf[pos + i] == pattern[i]
  }

  /** The lowest matching position in [lo, hi). */
  function FirstIn(buf: seq<byte>, lo: nat, hi: nat, pattern: seq<byte>, mask: seq<byte>): (r: Option<nat>)
    requires |pattern| == |mask| && (lo < hi ==> hi - 1 + |pattern| <= |buf|)
    decreases hi - lo
    ensures r.Some? ==> lo <= r.value < hi && MatchAt(buf, r.value, pattern, mask)
    ensures r.Some? ==> forall i :: lo <= i < r.value ==> !MatchAt(buf, i, pattern, mask)
    ensures r.None? ==> forall i :: lo <= i < hi ==> !MatchAt(buf, i, pattern, mask)
  {
    if lo >= hi then None
    else if MatchAt(buf, lo, pattern, mask) then Some(lo)
    else FirstIn(buf, lo + 1, hi, pattern, mask)
  }

  /** The buffer after the previous page's tail is moved in front of the page area. */
  function Shifted(buf: seq<byte>, overlap: nat, first: bool): (b: seq<byte>)
    requires |buf| == overlap + PAGE
    ensures |b| == |buf|
  {
    if !first && overlap > 0 then buf[PAGE..] + buf[overlap..] else buf
  }

  datatype Turn = Found(addr: nat) | Next(buf: seq<byte>, first: bool)

  /** One turn of pat_scan's loop, at an offset inside the region. */
  function ScanTurn(q: Request, buf: seq<byte>, offset: nat, first: bool): (t: Turn)
    requires q.Valid() && |buf| == q.Overlap() + PAGE && offset < q.Cap()
    ensures t.Next? ==> |t.buf| == |buf|
  {
    var toRead := Min(q.Cap() - offset, PAGE);
    var moved := Shifted(buf, q.Overlap(), first);
    match Read(q.m, q.start + offset, toRead)
    case None => Next(Zeros(q.Overlap()) + moved[q.Overlap()..], true)
    case Some(page) =>
      var full := Filled(moved, q.Overlap(), page);
      match FirstIn(full, if first then q.Overlap() else 0, q.Got(toRead), q.pattern, q.mask)
      case Some(i) => Found((q.start + offset - q.Overlap() + i) % TWO_64)
      case None => Next(full, false)
  }

  /** pat_scan from one turn of its loop on. */
  function ScanFrom(q: Request, buf: seq<byte>, offset: nat, first: bool): (r: nat)
    requires q.Valid() && |buf| == q.Overlap() + PAGE
    decreases q.Cap() - offset
  {
    if offset >= q.Cap() then 0
    else
      match ScanTurn(q, buf, offset, first)
      case Found(addr) => addr
      case Next(buf', first') => ScanFrom(q, buf', offset + Min(q.Cap() - offset, PAGE), first')
  }

  function Filled(moved: seq<byte>, overlap: nat, page: seq<byte>): (b: seq<byte>)
    requires |moved| == overlap + PAGE && |page| <= PAGE
    ensures |b| == |moved|
  {
    moved[..overlap] + page + moved[overlap + |page|..]
  }

  function PatScan(q: Request): (r: nat)
    requires q.Valid()
  {
    ScanFrom(q, Zeros(q.Overlap() + PAGE), 0, true)
  }

  // ---- What the scanner can hit ----

  ghost predicate ByteIs(m: Memory, addr: int, b: byte)
  {
    addr in m && m[addr] == b
  }

  /** Where the unbroken row of readable chunks up to chunk c begins. */
  ghost function RowStart(q: Request, c: nat): (c0: nat)
    ensures c0 <= c
  {
    if c == 0 || !ChunkReadable(q, c - 1) then c else RowStart(q, c - 1)
  }

  lemma {:induction false} RowReadable(q: Request, c: nat, k: nat)
    requires ChunkReadable(q, c) && RowStart(q, c) <= k <= c
    ensures ChunkReadable(q, k)
  {
    hide ChunkReadable;
    if k < c { RowReadable(q, c - 1, k); }
  }

  lemma {:induction false} RowReaches(q: Request, c: nat, k: nat)
    requires k <= c && forall j: nat :: k <= j < c ==> ChunkReadable(q, j)
    ensures RowStart(q, c) <= k
  {
    hide ChunkReadable;
    if k < c { RowReaches(q, c - 1, k); }
  }

  /** The buffer byte for a relative address: zero in front of the row, the region's byte in it. */
  ghost predicate Shows(q: Request, c0: nat, rel: int, b: byte)
  {
    if rel < PAGE * c0 then b == 0 else ByteIs(q.m, q.start + rel, b)
  }

  ghost predicate Shown(q: Request, c0: nat, a: int)
    requires q.Valid()
  {
    forall i :: 0 <= i < |q.pattern| ==> q.mask[i] == 0 || Shows(q, c0, a + i, q.pattern[i])
  }

  /** The chunk a pattern at relative address a ends in. */
  function EndChunk(q: Request, a: int): int
  {
    (a + |q.pattern| - 1) / PAGE
  }

  /** The scanner would report relative address a: a match of what the buffer shows, zeros included. */
  ghost predicate Hit(q: Request, a: int)
    requires q.Valid()
  {
    && 0 < a + |q.pattern| <= q.Cap()
    && (q.got.Flag? ==> (a + |q.pattern| - 1) % PAGE == 0)
    && var c: nat := EndChunk(q, a);
      && ChunkReadable(q, c)
      && (RowStart(q, c) == c ==> PAGE * c <= a)
      && Shown(q, RowStart(q, c), a)
  }

  ghost predicate IsFirstHit(q: Request, a: int)
    requires q.Valid()
  {
    Hit(q, a) && forall b: int :: b < a ==> !Hit(q, b)
  }

  ghost predicate NoHits(q: Request)
    requires q.Valid()
  {
    forall a: int :: !Hit(q, a)
  }

  ghost predicate FindsFirstHit(q: Request, r: int)
    requires q.Valid()
  {
    || (r == 0 && NoHits(q))
    || (exists a: int :: r == (q.start + a) % TWO_64 && IsFirstHit(q, a))
  }

  // ---- The loop finds the first hit, for patterns of every length ----

  /** buf[..hi) shows the row from chunk c0 on, position j standing for relative address base + j. */
  ghost predicate Holds(q: Request, buf: seq<byte>, c0: nat, base: int, hi: nat)
  {
    hi <= |buf| && forall j :: 0 <= j < hi ==> Shows(q, c0, base + j, buf[j])
  }

  /** The turn for chunk c: the chunk before it was read, or skipped, or there is none. */
  ghost predicate AtChunk(q: Request, c: nat, first: bool)
  {
    PAGE * c < q.Cap() && (first <==> c == 0 || !ChunkReadable(q, c - 1))
  }

  ghost predicate Buffered(q: Request, buf: seq<byte>, c: nat, first: bool)
    requires q.Valid()
  {
    && |buf| == q.Overlap() + PAGE
    && AtChunk(q, c, first)
    && (first ==> forall j :: 0 <= j < q.Overlap() ==> buf[j] == 0)
    && (!first ==> Holds(q, buf, RowStart(q, c - 1), PAGE * c - q.Overlap() - PAGE, |buf|))
  }

  /** No hit ends at or before the given relative address. */
  ghost predicate NoneBefore(q: Request, offset: nat)
    requires q.Valid()
  {
    forall a: int :: Hit(q, a) ==> a + |q.pattern| > offset
  }

  /** The buffer during the search of chunk c. */
  ghost predicate Window(q: Request, full: seq<byte>, c: nat, hi: nat)
    requires q.Valid()
  {
    && |full| == q.Overlap() + PAGE
    && PAGE * c < q.Cap() && hi == Min(q.Cap() - PAGE * c, PAGE)
    && ChunkReadable(q, c)
    && Holds(q, full, RowStart(q, c), PAGE * c - q.Overlap(), q.Overlap() + hi)
  }

  function From(q: Request, first: bool): (lo: nat)
    requires q.Valid()
  {
    if first then |q.pattern| - 1 else 0
  }

  lemma WindowFilled(q: Request, buf: seq<byte>, c: nat, first: bool, page: seq<byte>)
    requires q.Valid() && Buffered(q, buf, c, first)
    requires Read(q.m, q.start + PAGE * c, Min(q.Cap() - PAGE * c, PAGE)) == Some(page)
    ensures var full := Filled(Shifted(buf, q.Overlap(), first), q.Overlap(), page);
            Window(q, full, c, |page|)
  {
    var v := q.Overlap();
    var moved := Shifted(buf, v, first);
    var full := Filled(moved, v, page);
    var c0 := RowStart(q, c);
    forall j | 0 <= j < v + |page|
      ensures Shows(q, c0, PAGE * c - v + j, full[j])
    {
      if j >= v {
        assert full[j] == page[j - v];
      } else if first {
        assert full[j] == buf[j] && c0 == c;
      } else {
        assert full[j] == moved[j] == buf[PAGE + j] && c0 == RowStart(q, c - 1);
        assert Shows(q, c0, PAGE * c - v - PAGE + (PAGE + j), buf[PAGE + j]);
      }
    }
  }

  /** In the searched part of the buffer a match and a hit are the same thing. */
  lemma MatchIsHit(q: Request, full: seq<byte>, c: nat, first: bool, hi: nat, i: nat)
    requires q.Valid() && Window(q, full, c, hi) && AtChunk(q, c, first)
    requires From(q, first) <= i < q.Got(hi)
    ensures MatchAt(full, i, q.pattern, q.mask) <==> Hit(q, PAGE * c - q.Overlap() + i)
  {
    hide ChunkReadable, Readable;
    var a := PAGE * c - q.Overlap() + i;
    assert EndChunk(q, a) == c;
    var part := full[i..i + |q.pattern|];
    forall t | 0 <= t < |q.pattern|
      ensures Shows(q, RowStart(q, c), a + t, part[t])
    {
      assert part[t] == full[i + t] && a + t == PAGE * c - q.Overlap() + (i + t);
    }
    MatchIsShown(q, part, RowStart(q, c), a);
    assert forall t :: 0 <= t < |q.pattern| ==> full[i + t] == part[t];
  }

  /** Two bytes shown for one address are equal. */
  lemma MatchIsShown(q: Request, part: seq<byte>, c0: nat, a: int)
    requires q.Valid() && |part| == |q.pattern|
    requires forall t :: 0 <= t < |part| ==> Shows(q, c0, a + t, part[t])
    ensures MatchAt(part, 0, q.pattern, q.mask) <==> Shown(q, c0, a)
  {
    if Shown(q, c0, a) {
      forall t | 0 <= t < |part|
        ensures q.mask[t] == 0 || part[0 + t] == q.pattern[t]
      {
        assert Shows(q, c0, a + t, part[t]);
        assert q.mask[t] == 0 || Shows(q, c0, a + t, q.pattern[t]);
      }
    } else {
      var t :| 0 <= t < |part| && q.mask[t] != 0 && !Shows(q, c0, a + t, q.pattern[t]);
      assert part[0 + t] != q.pattern[t];
    }
  }

  /** A hit that ends in chunk c lies in the part of the buffer searched in its turn. */
  lemma HitInWindow(q: Request, c: nat, first: bool, a: int)
    requires q.Valid() && AtChunk(q, c, first) && Hit(q, a)
    requires PAGE * c < a + |q.pattern| <= PAGE * c + PAGE
    ensures ChunkReadable(q, c)
    ensures From(q, first) <= a - PAGE * c + q.Overlap() < q.Got(Min(q.Cap() - PAGE * c, PAGE))
  {
    hide ChunkReadable, Shown;
    assert EndChunk(q, a) == c;
  }

  lemma SkippedChunk(q: Request, c: nat, first: bool)
    requires q.Valid() && AtChunk(q, c, first) && NoneBefore(q, PAGE * c) && !ChunkReadable(q, c)
    ensures NoneBefore(q, PAGE * c + PAGE)
  {
    hide ChunkReadable, Hit;
    forall a: int | Hit(q, a) ensures a + |q.pattern| > PAGE * c + PAGE {
      if a + |q.pattern| <= PAGE * c + PAGE { HitInWindow(q, c, first, a); }
    }
  }

  lemma SearchedChunk(q: Request, full: seq<byte>, c: nat, first: bool, hi: nat)
    requires q.Valid() && AtChunk(q, c, first) && NoneBefore(q, PAGE * c) && Window(q, full, c, hi)
    requires FirstIn(full, From(q, first), q.Got(hi), q.pattern, q.mask).None?
    ensures NoneBefore(q, PAGE * c + PAGE)
  {
    hide ChunkReadable, Hit, Holds;
    forall a: int | Hit(q, a) ensures a + |q.pattern| > PAGE * c + PAGE {
      if a + |q.pattern| <= PAGE * c + PAGE {
        HitInWindow(q, c, first, a);
        MatchIsHit(q, full, c, first, hi, a - PAGE * c + q.Overlap());
      }
    }
  }

  /** The lowest match in the buffer is the lowest hit of all. */
  lemma MatchIsFirstHit(q: Request, full: seq<byte>, c: nat, first: bool, hi: nat, i: nat)
    requires q.Valid() && AtChunk(q, c, first) && NoneBefore(q, PAGE * c) && Window(q, full, c, hi)
    requires FirstIn(full, From(q, first), q.Got(hi), q.pattern, q.mask) == Some(i)
    ensures IsFirstHit(q, PAGE * c - q.Overlap() + i)
  {
    hide ChunkReadable, Hit, Holds, MatchAt;
    MatchIsHit(q, full, c, first, hi, i);
    forall b: int | b < PAGE * c - q.Overlap() + i ensures !Hit(q, b) {
      if Hit(q, b) {
        HitInWindow(q, c, first, b);
        MatchIsHit(q, full, c, first, hi, b - PAGE * c + q.Overlap());
      }
    }
  }

  lemma BufferedNext(q: Request, full: seq<byte>, c: nat, hi: nat)
    requires q.Valid() && Window(q, full, c, hi) && PAGE * (c + 1) < q.Cap()
    ensures Buffered(q, full, c + 1, false)
  {
    hide ChunkReadable, Shows;
  }

  /** What a turn must establish: the answer, or the state for the next chunk. */
  ghost predicate TurnOk(q: Request, c: nat, t: Turn)
    requires q.Valid()
  {
    match t
    case Found(addr) => FindsFirstHit(q, addr)
    case Next(buf, first) => AtHead(q, buf, c + 1, first)
  }

  ghost predicate AtHead(q: Request, buf: seq<byte>, c: nat, first: bool)
    requires q.Valid()
  {
    && |buf| == q.Overlap() + PAGE && NoneBefore(q, PAGE * c)
    && (PAGE * c < q.Cap() ==> Buffered(q, buf, c, first))
  }

  lemma TurnSearched(q: Request, full: seq<byte>, c: nat, first: bool, hi: nat)
    requires q.Valid() && AtChunk(q, c, first) && NoneBefore(q, PAGE * c) && Window(q, full, c, hi)
    ensures match FirstIn(full, From(q, first), q.Got(hi), q.pattern, q.mask)
            case Some(i) => TurnOk(q, c, Found((q.start + PAGE * c - q.Overlap() + i) % TWO_64))
            case None => TurnOk(q, c, Next(full, false))
  {
    hide IsFirstHit, ChunkReadable, Holds, NoneBefore, Buffered;
    match FirstIn(full, From(q, first), q.Got(hi), q.pattern, q.mask)
    case Some(i) =>
      MatchIsFirstHit(q, full, c, first, hi, i);
      var a := PAGE * c - q.Overlap() + i;
      assert q.start + PAGE * c - q.Overlap() + i == q.start + a;
    case None =>
      SearchedChunk(q, full, c, first, hi);
      if PAGE * (c + 1) < q.Cap() { BufferedNext(q, full, c, hi); }
  }

  lemma TurnCorrect(q: Request, buf: seq<byte>, c: nat, first: bool)
    requires q.Valid() && AtHead(q, buf, c, first) && PAGE * c < q.Cap()
    ensures TurnOk(q, c, ScanTurn(q, buf, PAGE * c, first))
  {
    hide Hit, IsFirstHit, Holds, NoneBefore, FindsFirstHit, FirstIn;
    match Read(q.m, q.start + PAGE * c, Min(q.Cap() - PAGE * c, PAGE))
    case None => SkippedChunk(q, c, first);
    case Some(page) =>
      WindowFilled(q, buf, c, first, page);
      TurnSearched(q, Filled(Shifted(buf, q.Overlap(), first), q.Overlap(), page), c, first, |page|);
  }

  lemma NothingLeft(q: Request, c: nat)
    requires q.Valid() && NoneBefore(q, PAGE * c) && q.Cap() <= PAGE * c
    ensures FindsFirstHit(q, 0)
  {
    hide ChunkReadable, Shown;
    forall a: int ensures !Hit(q, a) { }
  }

  lemma {:induction false} ScanFromCorrect(q: Request, buf: seq<byte>, c: nat, first: bool)
    requires q.Valid() && AtHead(q, buf, c, first)
    ensures FindsFirstHit(q, ScanFrom(q, buf, PAGE * c, first))
    decreases q.Cap() - PAGE * c
  {
    hide NoneBefore, Buffered, FindsFirstHit, ScanTurn;
    if q.Cap() <= PAGE * c {
      NothingLeft(q, c);
    } else {
      TurnCorrect(q, buf, c, first);
      match ScanTurn(q, buf, PAGE * c, first)
      case Found(addr) =>
      case Next(buf', first') =>
        ScanFromCorrect(q, buf', c + 1, first');
        ScanPastEnd(q, buf', c, first');
    }
  }

  /** A last, shorter chunk leaves the loop just as a whole one would. */
  lemma ScanPastEnd(q: Request, buf: seq<byte>, c: nat, first: bool)
    requires q.Valid() && |buf| == q.Overlap() + PAGE && PAGE * c < q.Cap()
    ensures ScanFrom(q, buf, PAGE * c + Min(q.Cap() - PAGE * c, PAGE), first) == ScanFrom(q, buf, PAGE * (c + 1), first)
  {
    if q.Cap() - PAGE * c >= PAGE { assert PAGE * c + PAGE == PAGE * (c + 1); }
  }

  /** For every request, pat_scan returns the address of the lowest hit, or 0. */
  lemma PatScanFindsFirstHit(q: Request)
    requires q.Valid()
    ensures FindsFirstHit(q, PatScan(q))
  {
    hide Hit, FindsFirstHit;
    assert PAGE * 0 == 0;
    NothingEndsBefore(q);
    ScanFromCorrect(q, Zeros(q.Overlap() + PAGE), 0, true);
  }

  lemma NothingEndsBefore(q: Request)
    requires q.Valid()
    ensures NoneBefore(q, 0)
  {
    hide ChunkReadable, Shown;
  }

  // ---- Hits and occurrences ----

  /** The hit starts inside the row of chunks read, not in the zeros in front of it. */
  ghost predicate Real(q: Request, a: int)
    requires q.Valid() && a + |q.pattern| > 0
  {
    PAGE * RowStart(q, EndChunk(q, a)) <= a
  }

  /** A hit that takes the zeros in front of a row for bytes of the region. */
  ghost predicate Phantom(q: Request, a: int)
    requires q.Valid()
  {
    Hit(q, a) && !Real(q, a)
  }

  lemma SeenIsHit(q: Request, a: nat)
    requires q.Valid() && Seen(q, a)
    ensures Hit(q, a) && Real(q, a)
  {
    var c: nat := EndChunk(q, a);
    var k: nat := a / PAGE;
    assert ChunkReadable(q, c);
    forall j: nat | k <= j < c ensures ChunkReadable(q, j) { }
    RowReaches(q, c, k);
    var c0 := RowStart(q, c);
    forall i | 0 <= i < |q.pattern|
      ensures q.mask[i] == 0 || Shows(q, c0, a + i, q.pattern[i])
    {
      assert q.start + a + i == q.start + (a + i);
    }
  }

  lemma RealIsSeen(q: Request, a: int)
    requires q.Valid() && Hit(q, a) && Real(q, a)
    ensures a >= 0 && Seen(q, a)
  {
    hide ChunkReadable;
    var c: nat := EndChunk(q, a);
    forall k: nat | PAGE * k < a + |q.pattern| && a < PAGE * k + PAGE
      ensures ChunkReadable(q, k)
    {
      RowReadable(q, c, k);
    }
    forall i | 0 <= i < |q.pattern|
      ensures q.mask[i] == 0 || (q.start + a + i in q.m && q.m[q.start + a + i] == q.pattern[i])
    {
      assert q.start + a + i == q.start + (a + i);
      assert q.mask[i] == 0 || Shows(q, RowStart(q, c), a + i, q.pattern[i]);
    }
  }

  /** Up to a page and a byte there is nothing but occurrences to hit. */
  lemma ShortPatternsAreReal(q: Request, a: int)
    requires q.Valid() && |q.pattern| <= PAGE + 1 && Hit(q, a)
    ensures Real(q, a)
  {
    hide ChunkReadable, Shown;
  }

  // ---- When the answer is the promised one ----

  /** A region with an occurrence has a lowest one. */
  lemma NoneAtAll(q: Request)
    requires q.Valid() && forall a: nat :: !IsFirstOccurrence(q, a)
    ensures forall a: nat :: !Occurs(q, a)
  {
    hide Occurs;
    forall a: nat ensures !Occurs(q, a) { NoneUpTo(q, a); }
  }

  lemma {:induction false} NoneUpTo(q: Request, a: nat)
    requires q.Valid() && forall b: nat :: !IsFirstOccurrence(q, b)
    ensures forall b: nat :: b <= a ==> !Occurs(q, b)
  {
    hide Occurs;
    if a > 0 { NoneUpTo(q, a - 1); }
    assert !IsFirstOccurrence(q, a);
  }

  /** The first occurrence is the first hit; or it is at address 0, and there is no hit. */
  ghost predicate FoundRight(q: Request, a: nat)
    requires q.Valid()
  {
    IsFirstHit(q, a) || (q.start + a == 0 && NoHits(q))
  }

  /** Without an occurrence there is no hit either, or the first one is taken for address 0. */
  ghost predicate MissedRight(q: Request)
    requires q.Valid()
  {
    NoHits(q) || exists h: int :: IsFirstHit(q, h) && q.start + h == 0
  }

  /** Hits and occurrences at one address are at one place: addresses do not wrap onto each other. */
  lemma SameAddress(q: Request, h: int, a: nat)
    requires q.Valid() && Hit(q, h) && a + |q.pattern| <= q.Cap()
    ensures (q.start + h) % TWO_64 == q.start + a <==> h == a
    ensures (q.start + h) % TWO_64 == 0 <==> q.start + h == 0
  {
    hide ChunkReadable, Shown, RowStart;
  }

  lemma HitAddress(q: Request, h: int)
    requires q.Valid() && Hit(q, h)
    ensures (q.start + h) % TWO_64 == 0 <==> q.start + h == 0
  {
    hide ChunkReadable, Shown, RowStart;
  }

  /**
   * For every request, under either reading: the answer is the one the header promises exactly when
   * the first occurrence is the first hit, or nothing occurs and nothing is hit, address 0 apart.
   */
  lemma ExactlyWhenRight(q: Request)
    requires q.Valid()
    ensures IsFirstMatch(q, PatScan(q)) <==>
      && (forall a: nat :: IsFirstOccurrence(q, a) ==> FoundRight(q, a))
      && ((forall a: nat :: !IsFirstOccurrence(q, a)) ==> MissedRight(q))
  {
    hide Hit, PatScan;
    PatScanFindsFirstHit(q);
    if a: nat :| IsFirstOccurrence(q, a) {
      OneFirst(q, a);
      RightAt(q, PatScan(q), a);
    } else {
      NoneAtAll(q);
      RightNowhere(q, PatScan(q));
    }
  }

  lemma OneFirst(q: Request, a: nat)
    requires q.Valid() && IsFirstOccurrence(q, a)
    ensures forall b: nat :: IsFirstOccurrence(q, b) ==> b == a
  {
    hide Occurs;
  }

  lemma RightAt(q: Request, r: int, a: nat)
    requires q.Valid() && FindsFirstHit(q, r) && IsFirstOccurrence(q, a)
    ensures IsFirstMatch(q, r) <==> FoundRight(q, a)
  {
    assert a + |q.pattern| <= q.Cap();
    hide Hit, Occurs;
    OneFirst(q, a);
    if h: int :| r == (q.start + h) % TWO_64 && IsFirstHit(q, h) {
      SameAddress(q, h, a);
      OneFirstHit(q, h);
    }
  }

  lemma OneFirstHit(q: Request, h: int)
    requires q.Valid() && IsFirstHit(q, h)
    ensures forall b: int :: IsFirstHit(q, b) ==> b == h
    ensures !NoHits(q)
  {
    hide Hit;
  }

  lemma RightNowhere(q: Request, r: int)
    requires q.Valid() && FindsFirstHit(q, r) && forall a: nat :: !Occurs(q, a)
    ensures IsFirstMatch(q, r) <==> MissedRight(q)
  {
    hide Hit, Occurs;
    if h: int :| r == (q.start + h) % TWO_64 && IsFirstHit(q, h) {
      HitAddress(q, h);
      OneFirstHit(q, h);
    }
  }

  /** With a byte count and no phantoms the promise is kept. */
  lemma NoPhantomsNoHarm(q: Request)
    requires q.Valid() && q.got.ByteCount? && forall a: int :: !Phantom(q, a)
    ensures IsFirstMatch(q, PatScan(q))
  {
    hide Hit, Occurs, PatScan, Real;
    ExactlyWhenRight(q);
    forall a: nat | IsFirstOccurrence(q, a) ensures IsFirstHit(q, a) {
      assert Seen(q, a);
      SeenIsHit(q, a);
      forall b: int | b < a ensures !Hit(q, b) {
        if Hit(q, b) {
          HitEnds(q, b);
          assert !Phantom(q, b);
          RealIsSeen(q, b);
        }
      }
    }
    if forall a: nat :: !IsFirstOccurrence(q, a) {
      NoneAtAll(q);
      forall b: int ensures !Hit(q, b) {
        if Hit(q, b) {
          HitEnds(q, b);
          assert !Phantom(q, b);
          RealIsSeen(q, b);
        }
      }
    }
  }

  lemma HitEnds(q: Request, a: int)
    requires q.Valid() && Hit(q, a)
    ensures 0 < a + |q.pattern| <= q.Cap()
  {
  }

  /** With a byte count, pat_scan equals the naive leftmost search for patterns of 1 to 4097 bytes. */
  lemma PatScanCorrect(q: Request)
    requires q.Valid() && |q.pattern| <= 4097 && q.got.ByteCount?
    ensures IsFirstMatch(q, PatScan(q))
  {
    hide Hit, PatScan, IsFirstMatch, Real;
    forall a: int ensures !Phantom(q, a) {
      if Hit(q, a) {
        HitEnds(q, a);
        ShortPatternsAreReal(q, a);
      }
    }
    NoPhantomsNoHarm(q);
  }

  /**
   * With the flag, for patterns of up to 4097 bytes, it does so exactly when the first occurrence ends
   * on a chunk's first byte, or is at address 0 while none ends so. `ExactlyWhenRight` has all lengths.
   */
  lemma AsTyped(q: Request)
    requires q.Valid() && q.got.Flag? && |q.pattern| <= PAGE + 1
    ensures IsFirstMatch(q, PatScan(q)) <==>
      forall a: nat :: IsFirstOccurrence(q, a) ==>
        EndsOnChunkStart(q, a) || (q.start + a == 0 && forall b: nat :: !Seen(q, b))
  {
    hide Hit, Occurs, PatScan, IsFirstMatch, EndsOnChunkStart, Real;
    ExactlyWhenRight(q);
    HitIsSeen(q);
    if a: nat :| IsFirstOccurrence(q, a) {
      OneFirst(q, a);
      FirstSeen(q, a);
    } else {
      NoneAtAll(q);
    }
  }

  lemma HitIsSeen(q: Request)
    requires q.Valid() && |q.pattern| <= PAGE + 1
    ensures forall a: int :: Hit(q, a) <==> a >= 0 && Seen(q, a)
  {
    hide Hit, Seen, Real;
    forall a: int ensures Hit(q, a) <==> a >= 0 && Seen(q, a) {
      if Hit(q, a) {
        HitEnds(q, a);
        ShortPatternsAreReal(q, a);
        RealIsSeen(q, a);
      } else if a >= 0 && Seen(q, a) {
        SeenIsHit(q, a);
      }
    }
  }

  lemma FirstSeen(q: Request, a: nat)
    requires q.Valid() && q.got.Flag? && IsFirstOccurrence(q, a)
    requires forall b: int :: Hit(q, b) <==> b >= 0 && Seen(q, b)
    ensures IsFirstHit(q, a) <==> EndsOnChunkStart(q, a)
  {
    hide Hit, Occurs, EndsOnChunkStart;
  }

  /** One byte to find, the second of a readable chunk. */
  function SecondByte(): (q: Request)
    ensures q.Valid()
  {
    Request(map[0x1000 := 0, 0x1001 := 7], 0x1000, 2, [7], [255], Flag)
  }

  /** As typed, the scan misses it. */
  lemma FlagMisses()
    ensures IsFirstOccurrence(SecondByte(), 1) && !IsFirstMatch(SecondByte(), PatScan(SecondByte()))
  {
    var q := SecondByte();
    hide PatScan, IsFirstMatch;
    AsTyped(q);
    assert ChunkReadable(q, 0);
    assert Covered(q, 1, 1);
    assert Occurs(q, 1);
    assert q.mask[0] != 0 && q.m[q.start] != q.pattern[0];
    assert !Occurs(q, 0);
    assert IsFirstOccurrence(q, 1) && !EndsOnChunkStart(q, 1);
  }

  // ---- Where the promise ends: longer patterns ----

  /** How many of its first bytes a hit of a pattern of n > 4097 bytes must find in front of a row. */
  function Lead(n: nat): nat
  {
    if n > MAX_SCAN + 1 then n - MAX_SCAN else 1
  }

  /** Short, or with a byte among the first ones that no zero matches. */
  predicate SafePattern(pattern: seq<byte>, mask: seq<byte>)
    requires |pattern| == |mask|
  {
    || |pattern| <= PAGE + 1
    || exists i :: 0 <= i < Lead(|pattern|) <= |pattern| && mask[i] != 0 && pattern[i] != 0
  }

  lemma SafePatternsHitNoZeros(q: Request, a: int)
    requires q.Valid() && SafePattern(q.pattern, q.mask) && Hit(q, a)
    ensures Real(q, a)
  {
    hide ChunkReadable;
    if |q.pattern| <= PAGE + 1 {
      ShortPatternsAreReal(q, a);
    } else {
      var i :| 0 <= i < Lead(|q.pattern|) <= |q.pattern| && q.mask[i] != 0 && q.pattern[i] != 0;
      assert Shows(q, RowStart(q, EndChunk(q, a)), a + i, q.pattern[i]);
    }
  }

  predicate Between(a: int, lo: nat, n: nat) { lo <= a < lo + n }

  /** A user-space address that no hit of a pattern of n bytes in front of it wraps down to 0. */
  function HighStart(n: nat): nat
  {
    if n < 0x100_0000_0000 then 0x100_0000_0000 else 0x1_0000
  }

  /** A region that holds the rest of an unsafe pattern. */
  function UnsafeRequest(pattern: seq<byte>, mask: seq<byte>): (q: Request)
    requires PAGE + 1 < |pattern| == |mask| < TWO_64
    ensures q.Valid() && q.got.ByteCount? && q.pattern == pattern && q.mask == mask
  {
    var lead := Lead(|pattern|);
    var size := |pattern| - lead;
    var start := HighStart(|pattern|);
    Request(map a | start <= a < start + size && Between(a, start, size) :: pattern[a - start + lead],
            start, size, pattern, mask, ByteCount)
  }

  lemma AllReadable(q: Request, c: nat)
    requires PAGE * c < q.Cap() && forall a :: q.start <= a < q.start + q.Cap() ==> a in q.m
    ensures ChunkReadable(q, c) && RowStart(q, c) == 0
  {
    forall j: nat | j < c ensures ChunkReadable(q, j) {
      assert Min(PAGE, q.Cap() - PAGE * j) == PAGE;
    }
    RowReaches(q, c, 0);
  }

  lemma UnsafePatternsHitZeros(pattern: seq<byte>, mask: seq<byte>)
    requires 0 < |pattern| == |mask| < TWO_64 && !SafePattern(pattern, mask)
    ensures Hit(UnsafeRequest(pattern, mask), 0 - Lead(|pattern|))
  {
    hide ChunkReadable, RowStart;
    var q := UnsafeRequest(pattern, mask);
    var a := 0 - Lead(|pattern|);
    var c: nat := EndChunk(q, a);
    assert q.Cap() == |pattern| - Lead(|pattern|);
    AllReadable(q, c);
    forall i | 0 <= i < |q.pattern|
      ensures q.mask[i] == 0 || Shows(q, 0, a + i, q.pattern[i])
    {
      if a + i >= 0 {
        assert Between(q.start + (a + i), q.start, q.Cap());
      }
    }
  }

  ghost predicate PromiseKept(pattern: seq<byte>, mask: seq<byte>)
  {
    forall q: Request :: q.Valid() && q.got.ByteCount? && q.pattern == pattern && q.mask == mask ==>
      IsFirstMatch(q, PatScan(q))
  }

  /**
   * With a byte count: the promise holds of all regions exactly for the patterns of at most 4097 bytes
   * and those whose first byte (for more than 256 MiB, one of the first ones) is neither zero nor masked.
   */
  lemma ExactlySafePatterns(pattern: seq<byte>, mask: seq<byte>)
    requires 0 < |pattern| == |mask| < TWO_64
    ensures PromiseKept(pattern, mask) <==> SafePattern(pattern, mask)
  {
    hide Hit, PatScan, IsFirstMatch, Real, SafePattern;
    if SafePattern(pattern, mask) {
      forall q: Request | q.Valid() && q.got.ByteCount? && q.pattern == pattern && q.mask == mask
        ensures IsFirstMatch(q, PatScan(q))
      {
        forall a: int ensures !Phantom(q, a) {
          if Hit(q, a) {
            HitEnds(q, a);
            SafePatternsHitNoZeros(q, a);
          }
        }
        NoPhantomsNoHarm(q);
      }
    } else {
      UnsafeMissed(pattern, mask);
    }
  }

  /** The answer for an unsafe pattern's region is an address in front of it, where there is no match. */
  lemma UnsafeMissed(pattern: seq<byte>, mask: seq<byte>)
    requires 0 < |pattern| == |mask| < TWO_64 && !SafePattern(pattern, mask)
    ensures |pattern| > PAGE + 1
    ensures var q := UnsafeRequest(pattern, mask); !IsFirstMatch(q, PatScan(q))
  {
    hide Hit, PatScan, IsFirstMatch, SafePattern;
    UnsafeIsLong(pattern, mask);
    UnsafePatternsHitZeros(pattern, mask);
    var q := UnsafeRequest(pattern, mask);
    ExactlyWhenRight(q);
    NothingFits(q);
    forall h: int | Hit(q, h) ensures q.start + h != 0 {
      HitEnds(q, h);
    }
  }

  lemma UnsafeIsLong(pattern: seq<byte>, mask: seq<byte>)
    requires |pattern| == |mask| && !SafePattern(pattern, mask)
    ensures |pattern| > PAGE + 1
  {
  }

  /** In a region shorter than the pattern there is no occurrence, and hits lie in front of it. */
  lemma NothingFits(q: Request)
    requires q.Valid() && q.Cap() < |q.pattern|
    ensures forall a: nat :: !IsFirstOccurrence(q, a)
    ensures forall h: int :: Hit(q, h) ==> h < 0
  {
    hide ChunkReadable, Shown, Covered;
  }

  /** With more than 4097 wildcards the zeros in front of the region are searched. */
  lemma LongPatternMissed(n: nat)
    requires PAGE + 1 < n < TWO_64
    ensures var q := UnsafeRequest(Zeros(n), Zeros(n)); |q.pattern| == n && !IsFirstMatch(q, PatScan(q))
  {
    hide PatScan, IsFirstMatch, UnsafeRequest;
    UnsafeMissed(Zeros(n), Zeros(n));
  }

  /** The promise of the header holds of every request with an n-byte pattern exactly up to 4097 bytes. */
  lemma ExactlyUpToAPageAndAByte(n: nat)
    requires 0 < n < TWO_64
    ensures (forall q: Request :: q.Valid() && q.got.ByteCount? && |q.pattern| == n ==> IsFirstMatch(q, PatScan(q)))
        <==> n <= 4097
  {
    if n <= PAGE + 1 {
      forall q: Request | q.Valid() && q.got.ByteCount? && |q.pattern| == n ensures IsFirstMatch(q, PatScan(q)) {
        PatScanCorrect(q);
      }
    } else {
      LongPatternMissed(n);
    }
  }

  // ---- The loops of the source ----

  method MatchAtInPlace(buf: array<byte>, pos: nat, pattern: seq<byte>, mask: seq<byte>) returns (r: bool)
    requires |pattern| == |mask| && pos + |pattern| <= buf.Length
    ensures r == MatchAt(buf[..], pos, pattern, mask)
  {
    for i := 0 to |pattern|
      invariant forall t :: 0 <= t < i ==> mask[t] == 0 || buf[..][pos + t] == pattern[t]
    {
      if mask[i] != 0 && buf[pos + i] != pattern[i] {
        return false;
      }
    }
    return true;
  }

  /** The search loop over one window of the buffer. */
  method SearchWindow(buf: array<byte>, lo: nat, hi: nat, pattern: seq<byte>, mask: seq<byte>) returns (r: Option<nat>)
    requires |pattern| == |mask| && (lo < hi ==> hi - 1 + |pattern| <= buf.Length)
    ensures r == FirstIn(buf[..], lo, hi, pattern, mask)
  {
    var i := lo;
    while i < hi
      invariant lo <= i && FirstIn(buf[..], lo, hi, pattern, mask) == FirstIn(buf[..], i, hi, pattern, mask)
    {
      var hit := MatchAtInPlace(buf, i, pattern, mask);
      if hit {
        return Some(i);
      }
      i := i + 1;
    }
    return None;
  }

  /** The memmove of the previous tail, then the read of the next chunk, in place. */
  method LoadChunk(q: Request, buf: array<byte>, offset: nat, first: bool) returns (got: bool)
    requires q.Valid() && buf.Length == q.Overlap() + PAGE && offset < q.Cap()
    modifies buf
    ensures match Read(q.m, q.start + offset, Min(q.Cap() - offset, PAGE))
            case None =>
              !got && buf[..] == Zeros(q.Overlap()) + Shifted(old(buf[..]), q.Overlap(), first)[q.Overlap()..]
            case Some(page) => got && buf[..] == Filled(Shifted(old(buf[..]), q.Overlap(), first), q.Overlap(), page)
  {
    var overlap := |q.pattern| - 1;
    ghost var was := buf[..];
    if !first && overlap > 0 {
      forall i | 0 <= i < overlap { buf[i] := buf[PAGE + i]; }
    }
    ghost var moved := buf[..];
    assert moved == Shifted(was, overlap, first);
    var page := Read(q.m, q.start + offset, Min(q.Cap() - offset, PAGE));
    if page.None? {
      forall i | 0 <= i < overlap { buf[i] := 0; }
      assert buf[..] == Zeros(overlap) + moved[overlap..];
      return false;
    }
    forall i | 0 <= i < |page.value| { buf[overlap + i] := page.value[i]; }
    assert buf[..] == Filled(moved, overlap, page.value);
    return true;
  }

  /** The body of the loop. */
  method TakeTurn(q: Request, buf: array<byte>, offset: nat, first: bool) returns (found: Option<nat>, first': bool)
    requires q.Valid() && buf.Length == q.Overlap() + PAGE && offset < q.Cap()
    modifies buf
    ensures ScanTurn(q, old(buf[..]), offset, first)
         == match found case Some(addr) => Found(addr) case None => Next(buf[..], first')
  {
    hide FirstIn, Shifted, Filled;
    var got := LoadChunk(q, buf, offset, first);
    if !got {
      return None, true;
    }
    var hit := SearchWindow(buf, if first then |q.pattern| - 1 else 0,
                            q.Got(Min(q.Cap() - offset, PAGE)), q.pattern, q.mask);
    match hit
    case Some(i) => return Some((q.start + offset - (|q.pattern| - 1) + i) % TWO_64), false;
    case None => return None, false;
  }

  /** pat_scan: one buffer of overlap + 4096 bytes, shifted and refilled chunk by chunk. */
  method Scan(q: Request) returns (r: nat)
    requires |q.pattern| == |q.mask| < TWO_64 && q.start + q.Cap() <= TWO_64
    ensures q.pattern == [] ==> r == 0
    ensures q.pattern != [] ==> r == PatScan(q)
    ensures q.pattern != [] && q.got.ByteCount? && SafePattern(q.pattern, q.mask) ==> IsFirstMatch(q, r)
  {
    hide IsFirstMatch, ScanTurn, SafePattern;
    if |q.pattern| == 0 {
      return 0;
    }
    ExactlySafePatterns(q.pattern, q.mask);
    assert q.Valid();
    var buf := new byte[|q.pattern| - 1 + PAGE](i => 0);
    assert buf[..] == Zeros(q.Overlap() + PAGE);
    var offset, first := 0, true;
    while offset < q.Cap()
      invariant ScanFrom(q, buf[..], offset, first) == PatScan(q)
    {
      var found, first' := TakeTurn(q, buf, offset, first);
      if found.Some? {
        return found.value;
      }
      offset, first := offset + Min(q.Cap() - offset, PAGE), first';
    }
    return 0;
  }
}
