/** The ar container that tools/package_release.py builds, and a reader of the common ar format.
 * Every char stands for one byte; member names are ASCII. */
module ArArchive {
  import opened Decimal
  import opened Wrappers

  datatype Member = Member(name: string, blob: string)

  const MAGIC := "!<arch>\n"

  // ---- The builder ----

  function Spaces(n: nat): (s: string)
    ensures |s| == n && forall i :: 0 <= i < n ==> s[i] == ' '
  {
    seq(n, i => ' ')
  }

  /** str.ljust: it pads but never cuts. */
  function LeftJustify(s: string, width: nat): (p: string)
    ensures |p| == if |s| < width then width else |s|
  {
    if |s| < width then s + Spaces(width - |s|) else s
  }

  /** Modification time, owner, group and mode, always the same. */
  function FixedFields(): (f: string)
    ensures |f| == 32
  {
    LeftJustify("0", 12) + LeftJustify("0", 6) + LeftJustify("0", 6) + LeftJustify("100644", 8)
  }

  function HeaderText(m: Member): string
  {
    LeftJustify(m.name + "/", 16) + FixedFields() + LeftJustify(Digits(|m.blob|), 10) + "`\n"
  }

  function Padding(n: nat): string { if n % 2 == 1 then "\n" else "" }

  function EntryText(m: Member): string
  {
    HeaderText(m) + m.blob + Padding(|m.blob|)
  }

  function EntriesText(ms: seq<Member>): string
  {
    if ms == [] then "" else EntryText(ms[0]) + EntriesText(ms[1..])
  }

  function ArchiveText(ms: seq<Member>): string
  {
    MAGIC + EntriesText(ms)
  }

  method AppendEntry(out: string, m: Member) returns (out': string)
    ensures out' == out + EntryText(m)
  {
    hide HeaderText;
    out' := out + HeaderText(m);
    out' := out' + m.blob;
    if |m.blob| % 2 == 1 {
      out' := out' + "\n";
    }
  }

  /** The loop over the members. */
  method Build(ms: seq<Member>) returns (out: string)
    ensures out == ArchiveText(ms)
  {
    hide EntryText;
    out := MAGIC;
    for i := 0 to |ms|
      invariant out + EntriesText(ms[i..]) == ArchiveText(ms)
    {
      assert ms[i..][1..] == ms[i + 1..];
      out := AppendEntry(out, ms[i]);
    }
  }

  // ---- In characters ----

  predicate IsPadded(field: string, text: string)
  {
    |text| <= |field| && field[..|text|] == text && forall i :: |text| <= i < |field| ==> field[i] == ' '
  }

  lemma FixedFieldsAre()
    ensures var f := FixedFields();
      IsPadded(f[..12], "0") && IsPadded(f[12..18], "0") && IsPadded(f[18..24], "0") && IsPadded(f[24..], "100644")
  {
    hide LeftJustify, IsPadded;
    Justified("0", 12);
    Justified("0", 6);
    Justified("100644", 8);
    var f := FixedFields();
    assert f[..12] == LeftJustify("0", 12) && f[12..18] == LeftJustify("0", 6) == f[18..24];
    assert f[24..] == LeftJustify("100644", 8);
  }

  /** The mark of an archive, and the 60 characters of a header that its member fits. */
  lemma HeaderIs(ms: seq<Member>, m: Member)
    requires |m.name| <= 15 && |m.blob| < Power10(10)
    ensures |ArchiveText(ms)| >= 8 && ArchiveText(ms)[..8] == "!<arch>\n"
    ensures var h := HeaderText(m);
      && |h| == 60
      && IsPadded(h[..16], m.name + "/")
      && IsPadded(h[16..28], "0") && IsPadded(h[28..34], "0") && IsPadded(h[34..40], "0")
      && IsPadded(h[40..48], "100644")
      && IsPadded(h[48..58], Digits(|m.blob|)) && ValueIs(Digits(|m.blob|), |m.blob|)
      && h[58..] == "`\n"
  {
    hide Digits, Power10, FixedFields, LeftJustify, IsPadded;
    FixedFieldsAre();
    DigitsDenote(|m.blob|);
    DigitsLength(|m.blob|, 10);
    Justified(m.name + "/", 16);
    Justified(Digits(|m.blob|), 10);
    var name, size := LeftJustify(m.name + "/", 16), LeftJustify(Digits(|m.blob|), 10);
    var h := name + FixedFields() + size + "`\n";
    assert HeaderText(m) == h;
    var f := FixedFields();
    assert h[..16] == name && h[16..28] == f[..12] && h[28..34] == f[12..18] && h[34..40] == f[18..24];
    assert h[40..48] == f[24..] && h[48..58] == size && h[58..] == "`\n";
  }

  predicate ValueIs(d: string, n: nat)
  {
    AllDigits(d) && ValueOf(d) == n
  }

  lemma Justified(s: string, width: nat)
    requires |s| <= width
    ensures |LeftJustify(s, width)| == width && IsPadded(LeftJustify(s, width), s)
  {
  }

  // ---- The reader ----

  datatype Entry = Entry(member: Member, rest: string)

  /** The characters before the first `c`, if there is one. */
  function Before(s: string, c: char): (r: Option<string>)
    ensures r.Some? ==> |r.value| < |s| && r.value == s[..|r.value|] && c !in r.value && s[|r.value|] == c
    ensures r.None? <==> c !in s
  {
    if s == "" then None
    else if s[0] == c then Some("")
    else
      match Before(s[1..], c)
      case None => None
      case Some(b) => Some([s[0]] + b)
  }

  predicate AllSpaces(s: string)
  {
    forall i :: 0 <= i < |s| ==> s[i] == ' '
  }

  /** A name field: the name, a slash, spaces. */
  function ReadName(field: string): Option<string>
  {
    match Before(field, '/')
    case None => None
    case Some(name) => if AllSpaces(field[|name| + 1..]) then Some(name) else None
  }

  /** A size field: a decimal numeral, spaces. */
  function ReadSize(field: string): Option<nat>
  {
    var d := TakeDigits(field);
    if d != "" && AllSpaces(field[|d|..]) then Some(ValueOf(d)) else None
  }

  /** One entry: a 60-byte header, the blob, a newline after a blob of odd length. */
  function ReadEntry(s: string): (r: Option<Entry>)
    ensures r.Some? ==> |r.value.rest| < |s|
  {
    if |s| < 60 || s[58..60] != "`\n" then None
    else
      match (ReadName(s[..16]), ReadSize(s[48..58]))
      case (Some(name), Some(size)) =>
        var padded := size + size % 2;
        if |s| < 60 + padded || s[60 + size..60 + padded] != Padding(size) then None
        else Some(Entry(Member(name, s[60..60 + size]), s[60 + padded..]))
      case _ => None
  }

  function ReadEntries(s: string): Option<seq<Member>>
    decreases |s|
  {
    if s == "" then Some([])
    else
      match ReadEntry(s)
      case None => None
      case Some(e) =>
        match ReadEntries(e.rest)
        case None => None
        case Some(ms) => Some([e.member] + ms)
  }

  function ReadArchive(s: string): Option<seq<Member>>
  {
    if MAGIC <= s then ReadEntries(s[|MAGIC|..]) else None
  }

  // ---- What the format can hold ----

  predicate Storable(m: Member)
  {
    |m.name| <= 15 && '/' !in m.name && |m.blob| < Power10(10)
  }

  lemma {:induction false} BeforeIs(a: string, c: char, b: string)
    requires c !in a
    ensures Before(a + [c] + b, c) == Some(a)
  {
    if a == "" {
      assert a + [c] + b == [c] + b;
    } else {
      BeforeIs(a[1..], c, b);
      assert (a + [c] + b)[1..] == a[1..] + [c] + b;
      assert a == [a[0]] + a[1..];
    }
  }

  lemma NameFieldReads(name: string)
    requires |name| <= 15 && '/' !in name
    ensures |LeftJustify(name + "/", 16)| == 16 && ReadName(LeftJustify(name + "/", 16)) == Some(name)
  {
    var pad := Spaces(16 - |name + "/"|);
    BeforeIs(name, '/', pad);
    assert LeftJustify(name + "/", 16) == name + ['/'] + pad;
  }

  lemma SizeFieldReads(n: nat)
    requires n < Power10(10)
    ensures |LeftJustify(Digits(n), 10)| == 10 && ReadSize(LeftJustify(Digits(n), 10)) == Some(n)
  {
    DigitsDenote(n);
    DigitsLength(n, 10);
    var d := Digits(n);
    if |d| < 10 {
      TakeDigitsStops(d, Spaces(10 - |d|));
    } else {
      TakeDigitsStops(d, "");
      assert d + "" == d;
    }
  }

  lemma HeaderFields(m: Member, tail: string)
    requires |m.name| <= 15
    ensures var s := HeaderText(m) + tail;
            && |s| >= 60 && s[..16] == LeftJustify(m.name + "/", 16)
            && s[48..] == LeftJustify(Digits(|m.blob|), 10) + "`\n" + tail
  {
    hide LeftJustify, Digits, FixedFields;
  }

  lemma EntryReads(m: Member, tail: string)
    requires Storable(m)
    ensures ReadEntry(EntryText(m) + tail) == Some(Entry(m, tail))
  {
    hide ReadName, ReadSize, LeftJustify, HeaderText, Digits, Power10;
    var after := m.blob + Padding(|m.blob|) + tail;
    HeaderFields(m, after);
    NameFieldReads(m.name);
    SizeFieldReads(|m.blob|);
    var s := EntryText(m) + tail;
    var size := LeftJustify(Digits(|m.blob|), 10);
    assert s == HeaderText(m) + after;
    assert s[48..58] == s[48..][..10] == size && s[58..60] == s[48..][10..12] == "`\n";
    assert s[60..] == s[48..][12..] == after;
    assert s[60..60 + |m.blob|] == after[..|m.blob|] == m.blob;
    assert s[60 + |m.blob|..60 + |m.blob| + |m.blob| % 2] == after[|m.blob|..|m.blob| + |m.blob| % 2]
        == Padding(|m.blob|);
    assert s[60 + |m.blob| + |m.blob| % 2..] == after[|m.blob| + |m.blob| % 2..] == tail;
  }

  /** An entry outside the limits is refused, or read as some other member. */
  lemma EntryMisread(m: Member, tail: string)
    requires !Storable(m)
    ensures match ReadEntry(EntryText(m) + tail)
            case None => true
            case Some(e) => e.member != m
  {
    var s := EntryText(m) + tail;
    if |m.name| > 15 || '/' in m.name {
      NameMisread(m, s);
    } else {
      SizeMisread(m, tail);
    }
  }

  /** An eleventh digit pushes the end mark of the header out of place. */
  lemma SizeMisread(m: Member, tail: string)
    requires |m.name| <= 15 && |m.blob| >= Power10(10)
    ensures ReadEntry(EntryText(m) + tail).None?
  {
    hide ReadName, ReadSize, HeaderText, Digits, Power10, FixedFields, LeftJustify;
    var after := m.blob + Padding(|m.blob|) + tail;
    var s := EntryText(m) + tail;
    var d := Digits(|m.blob|);
    assert s == HeaderText(m) + after;
    DigitsDenote(|m.blob|);
    DigitsLength(|m.blob|, 10);
    NoPadding(d, 10);
    HeaderFields(m, after);
    assert s[48..] == d + "`\n" + after;
    assert s[58] == s[48..][10] == d[10] && IsDigit(d[10]);
  }

  lemma NoPadding(s: string, width: nat)
    requires |s| >= width
    ensures LeftJustify(s, width) == s
  {
  }

  lemma NameMisread(m: Member, s: string)
    requires |m.name| > 15 || '/' in m.name
    requires |s| >= 16 ==> m.name + "/" <= s[..16] || s[..16] <= m.name + "/"
    ensures match ReadEntry(s)
            case None => true
            case Some(e) => e.member.name != m.name
  {
    hide ReadSize;
    if |s| >= 60 {
      var field := s[..16];
      var r := ReadName(field);
    }
  }

  ghost predicate AllStorable(ms: seq<Member>)
  {
    forall i :: 0 <= i < |ms| ==> Storable(ms[i])
  }

  lemma AllStorableCons(ms: seq<Member>)
    requires ms != []
    ensures AllStorable(ms) <==> Storable(ms[0]) && AllStorable(ms[1..])
  {
    hide Storable;
    if Storable(ms[0]) && AllStorable(ms[1..]) {
      forall i | 0 <= i < |ms| ensures Storable(ms[i]) {
        if i > 0 { assert Storable(ms[1..][i - 1]); }
      }
    }
  }

  lemma {:induction false} EntriesRoundTrip(ms: seq<Member>)
    ensures ReadEntries(EntriesText(ms)) == Some(ms) <==> AllStorable(ms)
  {
    if ms != [] {
      hide EntryText, ReadEntry, Storable, AllStorable;
      var tail := EntriesText(ms[1..]);
      EntriesRoundTrip(ms[1..]);
      AllStorableCons(ms);
      assert ms == [ms[0]] + ms[1..];
      EntryNotEmpty(ms[0], tail);
      if Storable(ms[0]) {
        EntryReads(ms[0], tail);
      } else {
        EntryMisread(ms[0], tail);
      }
    }
  }

  lemma EntryNotEmpty(m: Member, tail: string)
    ensures EntryText(m) + tail != ""
  {
  }

  /** Reading after building is the identity precisely on archives of storable members. */
  lemma RoundTrip(ms: seq<Member>)
    ensures ReadArchive(ArchiveText(ms)) == Some(ms) <==> forall i :: 0 <= i < |ms| ==> Storable(ms[i])
  {
    hide Storable;
    EntriesRoundTrip(ms);
    assert ArchiveText(ms)[|MAGIC|..] == EntriesText(ms);
  }

  // ---- Where the headers are ----

  lemma EntryLength(m: Member)
    requires Storable(m)
    ensures |EntryText(m)| % 2 == 0
  {
    hide Digits, Power10;
    DigitsLength(|m.blob|, 10);
  }

  lemma {:induction false} EntriesSplit(ms: seq<Member>, k: nat)
    requires k <= |ms|
    ensures EntriesText(ms) == EntriesText(ms[..k]) + EntriesText(ms[k..])
  {
    hide EntryText;
    if k == 0 {
      assert ms[..0] == [] && ms[0..] == ms;
    } else {
      EntriesSplit(ms[1..], k - 1);
      assert ms[..k][1..] == ms[1..][..k - 1] && ms[1..][k - 1..] == ms[k..];
    }
  }

  lemma PrefixStays(a: string, b: string, h: string, x: string, y: string)
    ensures a + b + h <= a + (b + (h + x + y))
  {
  }

  /** Every header of an archive of storable members lies at an even offset. */
  lemma HeadersAligned(ms: seq<Member>, k: nat)
    requires k < |ms| && forall i :: 0 <= i < |ms| ==> Storable(ms[i])
    ensures |ArchiveText(ms[..k])| % 2 == 0
    ensures ArchiveText(ms[..k]) + HeaderText(ms[k]) <= ArchiveText(ms)
  {
    hide HeaderText, Storable;
    EntriesEven(ms[..k]);
    EntriesSplit(ms, k);
    assert ms[k..][0] == ms[k];
    PrefixStays(MAGIC, EntriesText(ms[..k]), HeaderText(ms[k]), ms[k].blob + Padding(|ms[k].blob|),
                EntriesText(ms[k..][1..]));
    assert EntriesText(ms[k..]) == HeaderText(ms[k]) + (ms[k].blob + Padding(|ms[k].blob|)) + EntriesText(ms[k..][1..]);
  }

  lemma {:induction false} EntriesEven(ms: seq<Member>)
    requires forall i :: 0 <= i < |ms| ==> Storable(ms[i])
    ensures |EntriesText(ms)| % 2 == 0
  {
    hide EntryText, Storable;
    if ms != [] {
      EntryLength(ms[0]);
      EntriesEven(ms[1..]);
    }
  }
}
