/** The platform patcher of tools/build_local.py: it rewrites the LC_BUILD_VERSION load command
 * of a Mach-O file in place, while walking the load commands. */
module MachOPatch {
  import opened Bytes

  const BUILD_VERSION := 0x32

  class File {
    var bytes: seq<byte>
    constructor (bytes: seq<byte>)
      ensures this.bytes == bytes
    {
      this.bytes := bytes;
    }
  }

  // ---- The file format, as far as the patcher reads it ----

  /** struct.unpack_from("<I", d, off). */
  function Word(d: seq<byte>, off: nat): (w: nat)
  {
    if off + 4 <= |d| then FromLittleEndian(d[off..off + 4]) else 0
  }

  predicate IsArm64(d: seq<byte>)
  {
    |d| >= 32 && Word(d, 0) == 0xFEEDFACF && Word(d, 4) == 0x100000C
  }

  function Count(d: seq<byte>): nat { Word(d, 16) }
  function End(d: seq<byte>): nat { 32 + Word(d, 20) }
  function Limit(d: seq<byte>): int { Min(End(d), |d|) }

  /** Where load command i starts: right after the header and the commands before it. */
  function Start(d: seq<byte>, i: nat): nat
    decreases i, 0
  {
    if i == 0 then 32 else Start(d, i - 1) + Size(d, i - 1)
  }

  function Cmd(d: seq<byte>, i: nat): nat
    decreases i, 1
  {
    Word(d, Start(d, i))
  }

  function Size(d: seq<byte>, i: nat): nat
    decreases i, 1
  {
    Word(d, Start(d, i) + 4)
  }

  /** Command i fits, header and body. */
  predicate Fits(d: seq<byte>, i: nat)
  {
    Start(d, i) + 8 <= Limit(d) && Size(d, i) >= 8 && Start(d, i + 1) <= Limit(d)
  }

  /** The commands tile [32, 32 + sizeofcmds) exactly. */
  ghost predicate Tiles(d: seq<byte>)
  {
    (forall i :: 0 <= i < Count(d) ==> Fits(d, i)) && Start(d, Count(d)) == End(d)
  }

  /** Command k is the one build-version command, and large enough. */
  ghost predicate OnlyBuildVersion(d: seq<byte>, k: nat)
  {
    && k < Count(d) && Cmd(d, k) == BUILD_VERSION && Size(d, k) >= 24
    && forall i :: 0 <= i < Count(d) && i != k ==> Cmd(d, i) != BUILD_VERSION
  }

  ghost predicate Acceptable(d: seq<byte>)
  {
    IsArm64(d) && Tiles(d) && exists k: nat :: OnlyBuildVersion(d, k)
  }

  /** Platform 2 (iOS) and twice the version 13.0, little-endian. */
  function NewFields(): (f: seq<byte>)
    ensures |f| == 12
  {
    [2, 0, 0, 0, 0, 0, 0xD, 0, 0, 0, 0xD, 0]
  }

  function Splice(d: seq<byte>, at: nat, f: seq<byte>): (r: seq<byte>)
    requires at + |f| <= |d|
    ensures |r| == |d|
    ensures forall j :: 0 <= j < |d| ==> r[j] == if at <= j < at + |f| then f[j - at] else d[j]
  {
    d[..at] + f + d[at + |f|..]
  }

  /** The patched file: twelve bytes of command k change. */
  ghost function Patched(d: seq<byte>, k: nat): seq<byte>
    requires Tiles(d) && OnlyBuildVersion(d, k)
  {
    assert Fits(d, k);
    Splice(d, Start(d, k) + 8, NewFields())
  }

  // ---- The patcher ----

  /** The build-version commands among the first n. */
  function Found(d: seq<byte>, n: nat): nat
  {
    if n == 0 then 0 else Found(d, n - 1) + if Cmd(d, n - 1) == BUILD_VERSION then 1 else 0
  }

  /** What the walk knows after n commands. */
  ghost predicate Walked(d: seq<byte>, n: nat, now: seq<byte>, last: nat)
  {
    && n <= Count(d) && |now| == |d| && |d| >= 32
    && (forall i :: 0 <= i < n ==> Fits(d, i) && (Cmd(d, i) == BUILD_VERSION ==> Size(d, i) >= 24))
    && (forall j :: Start(d, n) <= j < |d| ==> now[j] == d[j])
    && (Found(d, n) == 0 ==> now == d)
    && (Found(d, n) == 1 ==>
          && last < n && Cmd(d, last) == BUILD_VERSION && Start(d, last) + 20 <= |d|
          && now == Splice(d, Start(d, last) + 8, NewFields()))
  }

  lemma {:induction false} FoundNone(d: seq<byte>, n: nat, i: nat)
    requires Found(d, n) == 0 && i < n
    ensures Cmd(d, i) != BUILD_VERSION
  {
    if i < n - 1 { FoundNone(d, n - 1, i); }
  }

  lemma {:induction false} FoundOne(d: seq<byte>, n: nat, k: nat, i: nat)
    requires Found(d, n) == 1 && k < n && i < n && k != i && Cmd(d, k) == BUILD_VERSION
    ensures Cmd(d, i) != BUILD_VERSION
  {
    if Cmd(d, n - 1) == BUILD_VERSION {
      if k < n - 1 { FoundNone(d, n - 1, k); }
      if i < n - 1 { FoundNone(d, n - 1, i); }
    } else if k < n - 1 && i < n - 1 {
      FoundOne(d, n - 1, k, i);
    }
  }

  lemma {:induction false} FoundSome(d: seq<byte>, n: nat, k: nat)
    requires k < n && Cmd(d, k) == BUILD_VERSION && forall i :: 0 <= i < n && i != k ==> Cmd(d, i) != BUILD_VERSION
    ensures Found(d, n) == 1
  {
    if k == n - 1 {
      FoundZero(d, n - 1);
    } else {
      FoundSome(d, n - 1, k);
    }
  }

  lemma {:induction false} FoundZero(d: seq<byte>, n: nat)
    requires forall i :: 0 <= i < n ==> Cmd(d, i) != BUILD_VERSION
    ensures Found(d, n) == 0
  {
    if n > 0 { FoundZero(d, n - 1); }
  }

  /** One command further, in place. */
  lemma WalkedStep(d: seq<byte>, n: nat, now: seq<byte>, last: nat)
    requires Walked(d, n, now, last) && n < Count(d) && Fits(d, n)
    requires Cmd(d, n) == BUILD_VERSION ==> Size(d, n) >= 24
    ensures Start(d, n + 1) == Start(d, n) + Size(d, n)
    ensures if Cmd(d, n) == BUILD_VERSION
            then Start(d, n) + 20 <= |now| && Walked(d, n + 1, Splice(now, Start(d, n) + 8, NewFields()), n)
            else Walked(d, n + 1, now, last)
  {
  }

  lemma WordAhead(d: seq<byte>, now: seq<byte>, from: nat, off: nat)
    requires |now| == |d| && from <= off && forall j :: from <= j < |d| ==> now[j] == d[j]
    ensures Word(now, off) == Word(d, off)
  {
    if off + 4 <= |d| { assert now[off..off + 4] == d[off..off + 4]; }
  }

  lemma NotAcceptable(d: seq<byte>, n: nat)
    requires n < Count(d)
    requires !Fits(d, n) || (Cmd(d, n) == BUILD_VERSION && Size(d, n) < 24)
    ensures !Acceptable(d)
  {
  }

  /** The walk is over: the verdict of the last check is the specification's. */
  lemma Verdict(d: seq<byte>, now: seq<byte>, last: nat)
    requires Walked(d, Count(d), now, last) && IsArm64(d)
    ensures Found(d, Count(d)) == 1 && Start(d, Count(d)) == End(d) <==> Acceptable(d)
    ensures Acceptable(d) ==> OnlyBuildVersion(d, last) && now == Patched(d, last)
  {
    var n := Count(d);
    if Found(d, n) == 1 {
      forall i | 0 <= i < n && i != last ensures Cmd(d, i) != BUILD_VERSION { FoundOne(d, n, last, i); }
      assert OnlyBuildVersion(d, last) by { assert Fits(d, last); }
    }
    if k: nat :| OnlyBuildVersion(d, k) {
      FoundSome(d, n, k);
    }
  }

  /** patch_ios: the file is rewritten only when every check has passed. */
  method PatchIos(file: File) returns (ok: bool)
    modifies file
    ensures ok <==> Acceptable(old(file.bytes))
    ensures !ok ==> file.bytes == old(file.bytes)
    ensures ok ==> exists k: nat :: OnlyBuildVersion(old(file.bytes), k) && file.bytes == Patched(old(file.bytes), k)
  {
    hide Acceptable, Walked, OnlyBuildVersion, Tiles, Splice, Word, Start, Found, Patched;
    ghost var d := file.bytes;
    var data := new byte[|file.bytes|](i requires 0 <= i < |file.bytes| reads file => file.bytes[i]);
    assert data[..] == d;
    if !IsArm64(data[..]) {
      NotArm64(d);
      return false;
    }
    var end := 32 + Word(data[..], 20);
    var count := Word(data[..], 16);
    var limit := Min(end, data.Length);
    var off, found := 32, 0;
    ghost var last := 0;
    WalkedNone(d);
    for i := 0 to count
      invariant file.bytes == d
      invariant Walked(d, i, data[..], last) && off == Start(d, i) && found == Found(d, i)
    {
      WalkedFacts(d, i, data[..], last);
      NextStart(d, i);
      NextFound(d, i);
      if off + 8 > limit {
        NotAcceptable(d, i);
        return false;
      }
      WordAhead(d, data[..], off, off);
      WordAhead(d, data[..], off, off + 4);
      var cmd, size := Word(data[..], off), Word(data[..], off + 4);
      if size < 8 || off + size > limit {
        NotAcceptable(d, i);
        return false;
      }
      if cmd == BUILD_VERSION && size < 24 {
        NotAcceptable(d, i);
        return false;
      }
      WalkedStep(d, i, data[..], last);
      if cmd == BUILD_VERSION {
        PackInto(data, off + 8);
        found, last := found + 1, i;
      }
      off := off + size;
    }
    Verdict(d, data[..], last);
    if found != 1 || off != end {
      return false;
    }
    file.bytes := data[..];
    return true;
  }

  /** struct.pack_into("<III", data, at, 2, 0xD0000, 0xD0000). */
  method PackInto(data: array<byte>, at: nat)
    requires at + 12 <= data.Length
    modifies data
    ensures data[..] == Splice(old(data[..]), at, NewFields())
  {
    var f := NewFields();
    forall j | 0 <= j < 12 { data[at + j] := f[j]; }
  }

  lemma NotArm64(d: seq<byte>)
    requires !IsArm64(d)
    ensures !Acceptable(d)
  {
  }

  lemma WalkedNone(d: seq<byte>)
    requires |d| >= 32
    ensures Walked(d, 0, d, 0) && Start(d, 0) == 32 && Found(d, 0) == 0
  {
  }

  lemma WalkedFacts(d: seq<byte>, n: nat, now: seq<byte>, last: nat)
    requires Walked(d, n, now, last)
    ensures |now| == |d| && forall j :: Start(d, n) <= j < |d| ==> now[j] == d[j]
  {
  }

  lemma NextFound(d: seq<byte>, n: nat)
    ensures Found(d, n + 1) == Found(d, n) + if Cmd(d, n) == BUILD_VERSION then 1 else 0
  {
  }

  // ---- What patching keeps ----

  lemma {:induction false} StartsOrdered(d: seq<byte>, i: nat, j: nat)
    requires i <= j && forall t :: 0 <= t < j ==> Fits(d, t)
    ensures Start(d, i) <= Start(d, j)
  {
    if i < j {
      StartsOrdered(d, i, j - 1);
      assert Fits(d, j - 1);
    }
  }

  lemma WordKept(d: seq<byte>, at: nat, off: nat)
    requires at + 12 <= |d| && (off + 4 <= at || at + 12 <= off)
    ensures Word(Splice(d, at, NewFields()), off) == Word(d, off)
  {
    if off + 4 <= |d| { assert Splice(d, at, NewFields())[off..off + 4] == d[off..off + 4]; }
  }

  lemma CommandKept(d: seq<byte>, k: nat, i: nat)
    requires Tiles(d) && OnlyBuildVersion(d, k) && i < Count(d)
    requires Start(Patched(d, k), i) == Start(d, i)
    ensures Cmd(Patched(d, k), i) == Cmd(d, i) && Size(Patched(d, k), i) == Size(d, i)
  {
    hide Splice, Start;
    assert Fits(d, k) && Fits(d, i);
    NextStart(d, i);
    NextStart(d, k);
    if i < k { StartsOrdered(d, i + 1, k); }
    if k < i { StartsOrdered(d, k + 1, i); }
    WordKept(d, Start(d, k) + 8, Start(d, i));
    WordKept(d, Start(d, k) + 8, Start(d, i) + 4);
  }

  lemma NextStart(d: seq<byte>, i: nat)
    ensures Start(d, i + 1) == Start(d, i) + Size(d, i)
  {
  }

  /** The (cmd, size) sequence and every command's place survive. */
  lemma {:induction false} CommandsKept(d: seq<byte>, k: nat, i: nat)
    requires Tiles(d) && OnlyBuildVersion(d, k) && i <= Count(d)
    ensures Start(Patched(d, k), i) == Start(d, i)
    ensures i < Count(d) ==> Cmd(Patched(d, k), i) == Cmd(d, i) && Size(Patched(d, k), i) == Size(d, i)
  {
    hide Patched, Tiles, OnlyBuildVersion, Size, Cmd;
    if i > 0 { CommandsKept(d, k, i - 1); }
    if i < Count(d) { CommandKept(d, k, i); }
  }

  /** The patched file is acceptable again, with the same commands, and patching it changes nothing. */
  lemma PatchIsStable(d: seq<byte>, k: nat)
    requires IsArm64(d) && Tiles(d) && OnlyBuildVersion(d, k)
    ensures var p := Patched(d, k);
            && |p| == |d| && IsArm64(p) && Count(p) == Count(d) && Tiles(p) && OnlyBuildVersion(p, k)
            && (forall i :: 0 <= i < Count(d) ==> Cmd(p, i) == Cmd(d, i) && Size(p, i) == Size(d, i))
            && Patched(p, k) == p
  {
    var p := Patched(d, k);
    assert Fits(d, k);
    var at := Start(d, k) + 8;
    StartsOrdered(d, 0, k);
    WordKept(d, at, 0);
    WordKept(d, at, 4);
    WordKept(d, at, 16);
    WordKept(d, at, 20);
    forall i | 0 <= i < Count(d) ensures Cmd(p, i) == Cmd(d, i) && Size(p, i) == Size(d, i) && Fits(p, i) {
      CommandsKept(d, k, i);
      CommandsKept(d, k, i + 1);
      assert Fits(d, i);
    }
    CommandsKept(d, k, Count(d));
    CommandsKept(d, k, k);
  }

  // ---- In bytes ----

  lemma WordIs(d: seq<byte>, off: nat, n: nat)
    requires off + 4 <= |d| && n < 256 && d[off] == n && d[off + 1] == 0 && d[off + 2] == 0 && d[off + 3] == 0
    ensures Word(d, off) == n
  {
    FourBytes(d[off..off + 4]);
  }

  lemma SplicedParts(d: seq<byte>, at: nat, f: seq<byte>)
    requires at + |f| <= |d|
    ensures var r := Splice(d, at, f); r[..at] == d[..at] && r[at..at + |f|] == f && r[at + |f|..] == d[at + |f|..]
  {
  }

  /** The file has the magic number and processor of a 64-bit ARM Mach-O. */
  lemma MagicBytes(d: seq<byte>)
    ensures IsArm64(d) <==> |d| >= 32 && d[..8] == [0xCF, 0xFA, 0xED, 0xFE, 0x0C, 0, 0, 1]
  {
    if |d| >= 32 {
      FourBytes(d[0..4]);
      FourBytes(d[4..8]);
      assert d[..8] == d[0..4] + d[4..8];
    }
  }

  /** Platform 2, and 13.0 for the minimum and the SDK version, behind the command 0x32 and its size. */
  lemma PatchedBytes(d: seq<byte>, k: nat)
    requires Tiles(d) && OnlyBuildVersion(d, k)
    ensures var p, at := Patched(d, k), Start(d, k);
      && at + 20 <= |p| == |d|
      && p[at..at + 4] == [0x32, 0, 0, 0]
      && p[at + 8..at + 20] == [2, 0, 0, 0, 0, 0, 13, 0, 0, 0, 13, 0]
      && p[..at + 8] == d[..at + 8] && p[at + 20..] == d[at + 20..]
  {
    hide Splice;
    assert Fits(d, k);
    NextStart(d, k);
    var at := Start(d, k);
    CommandBytes(d, k);
    SplicedParts(d, at + 8, NewFields());
    assert Patched(d, k)[at..at + 4] == Patched(d, k)[..at + 8][at..at + 4] == d[..at + 8][at..at + 4] == d[at..at + 4];
  }

  lemma CommandBytes(d: seq<byte>, k: nat)
    requires Cmd(d, k) == BUILD_VERSION && Start(d, k) + 4 <= |d|
    ensures d[Start(d, k)..Start(d, k) + 4] == [0x32, 0, 0, 0]
  {
    FourBytes(d[Start(d, k)..Start(d, k) + 4]);
  }

  /** A file of one command, a build version for platform 1 and version 11.0. */
  function SampleByte(i: nat): byte
  {
    match i
    case 0 => 0xCF case 1 => 0xFA case 2 => 0xED case 3 => 0xFE
    case 4 => 0x0C case 7 => 1
    case 16 => 1      // one command
    case 20 => 24     // of 24 bytes
    case 32 => 0x32 case 36 => 24 case 40 => 1 case 46 => 11 case 50 => 11
    case _ => 0
  }

  function Sample(): (d: seq<byte>)
    ensures |d| == 56 && forall i :: 0 <= i < 56 ==> d[i] == SampleByte(i)
  {
    seq(56, i requires 0 <= i < 56 => SampleByte(i))
  }

  lemma SampleWords()
    ensures var d := Sample(); Word(d, 16) == 1 && Word(d, 20) == 24 && Word(d, 32) == 0x32 && Word(d, 36) == 24
  {
    hide Word;
    WordIs(Sample(), 16, 1);
    WordIs(Sample(), 20, 24);
    WordIs(Sample(), 32, 0x32);
    WordIs(Sample(), 36, 24);
  }

  lemma SampleMagic()
    ensures IsArm64(Sample())
  {
    hide IsArm64;
    MagicBytes(Sample());
    assert Sample()[..8] == [0xCF, 0xFA, 0xED, 0xFE, 0x0C, 0, 0, 1];
  }

  lemma SampleCommands()
    ensures Tiles(Sample()) && OnlyBuildVersion(Sample(), 0) && Start(Sample(), 0) == 32
  {
    hide Word, SampleByte;
    var d := Sample();
    SampleWords();
    assert Start(d, 0) == 32 && Start(d, 1) == 56;
    assert Fits(d, 0) && Start(d, Count(d)) == End(d);
    assert OnlyBuildVersion(d, 0);
  }

  /** It is accepted, and three of its bytes change. */
  lemma SamplePatched()
    ensures Acceptable(Sample()) && Tiles(Sample()) && OnlyBuildVersion(Sample(), 0)
    ensures forall i :: 0 <= i < 56 ==>
      Patched(Sample(), 0)[i] == if i == 40 then 2 else if i == 46 || i == 50 then 13 else Sample()[i]
  {
    hide Tiles, OnlyBuildVersion, IsArm64, Start, Word;
    SampleMagic();
    SampleCommands();
  }

  /** At most one command can be the build version, so the patch is determined by the file. */
  lemma PatchIsUnique(d: seq<byte>, j: nat, k: nat)
    requires OnlyBuildVersion(d, j) && OnlyBuildVersion(d, k)
    ensures j == k
  {
  }

  /** Running the patcher twice is running it once. */
  method PatchTwice(file: File) returns (first: bool, second: bool, ghost between: seq<byte>)
    modifies file
    ensures first == second == Acceptable(old(file.bytes))
    ensures file.bytes == between
    ensures |file.bytes| == |old(file.bytes)|
  {
    ghost var d := file.bytes;
    first := PatchIos(file);
    between := file.bytes;
    if first {
      ghost var k: nat :| OnlyBuildVersion(d, k) && between == Patched(d, k);
      PatchIsStable(d, k);
      second := PatchIos(file);
      ghost var j: nat :| OnlyBuildVersion(between, j) && file.bytes == Patched(between, j);
      PatchIsUnique(between, j, k);
    } else {
      second := PatchIos(file);
    }
  }
}
