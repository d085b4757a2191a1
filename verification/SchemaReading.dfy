/** Reading back what the schema writers print. */
module SchemaReading {
  import opened Decimal
  import opened JsonGrammar
  import opened SchemaText
  import opened Wrappers

  // ---- Single values ----

  lemma {:induction false} SkipSpaces(w: string, s: string)
    requires AllSpace(w)
    ensures SkipSpace(w + s) == SkipSpace(s)
  {
    if w == "" {
      assert w + s == s;
    } else {
      SkipSpaces(w[1..], s);
      assert (w + s)[1..] == w[1..] + s;
    }
  }

  /** A control character without a short escape is written \u00XX. */
  lemma ControlReads(c: char, tail: string)
    requires c as int < 0x20
    ensures ParseEscape("u00" + [HexChar(c as int / 16), HexChar(c as int % 16)] + tail) == Got(c, tail)
  {
    var s := "u00" + [HexChar(c as int / 16), HexChar(c as int % 16)] + tail;
    assert s[1..][..4] == ['0', '0', HexChar(c as int / 16), HexChar(c as int % 16)];
    assert s[5..] == tail;
  }

  lemma PlainCharReads(c: char, tail: string)
    requires c != '"' && c != '\\' && c as int >= 0x20
    ensures ParseChars([c] + tail) == Prepend([c], ParseChars(tail))
  {
    hide ParseEscape;
    assert ([c] + tail)[1..] == tail;
  }

  /** A reverse solidus followed by an escape that reads as c. */
  lemma EscapeReads(c: char, escape: string, tail: string)
    requires ParseEscape(escape + tail) == Got(c, tail)
    ensures ParseChars("\\" + escape + tail) == Prepend([c], ParseChars(tail))
  {
    hide ParseEscape;
    assert ("\\" + escape + tail)[1..] == escape + tail;
  }

  lemma ShortEscape(c: char, letter: char, tail: string)
    requires EscapedChar(c) == "\\" + [letter]
    ensures ParseEscape([letter] + tail) == Got(c, tail)
  {
    hide FourHex;
    assert ([letter] + tail)[1..] == tail;
    assert EscapedChar(c)[1] == letter;
  }

  lemma EscapedCharReads(c: char, tail: string)
    ensures ParseChars(EscapedChar(c) + tail) == Prepend([c], ParseChars(tail))
  {
    hide ParseChars, ParseEscape, HexChar;
    var e := EscapedChar(c);
    if |e| == 1 {
      PlainCharReads(c, tail);
    } else if |e| == 2 {
      assert e == "\\" + [e[1]];
      ShortEscape(c, e[1], tail);
      EscapeReads(c, [e[1]], tail);
    } else {
      var digits := "u00" + [HexChar(c as int / 16), HexChar(c as int % 16)];
      ControlReads(c, tail);
      assert e == "\\" + digits;
      EscapeReads(c, digits, tail);
    }
  }

  lemma {:induction false} EscapedReads(s: string, tail: string)
    ensures ParseChars(Escaped(s) + "\"" + tail) == Got(s, tail)
  {
    if s == "" {
      assert Escaped(s) + "\"" + tail == "\"" + tail;
      assert ("\"" + tail)[1..] == tail;
    } else {
      assert s == [s[0]] + s[1..];
      EscapedReads(s[1..], tail);
      EscapedCharReads(s[0], Escaped(s[1..]) + "\"" + tail);
      assert Escaped(s) + "\"" + tail == EscapedChar(s[0]) + (Escaped(s[1..]) + "\"" + tail);
    }
  }

  lemma StringReads(s: string, tail: string)
    ensures ParseValue(Quoted(s) + tail) == Got(String(s), tail)
  {
    hide ParseChars, ParseMembers, ParseElements, ParseNumber, Escaped;
    EscapedReads(s, tail);
    assert (Quoted(s) + tail)[1..] == Escaped(s) + "\"" + tail;
  }

  /** What may follow a numeral without becoming part of it. */
  predicate EndsNumber(tail: string)
  {
    tail != "" && !IsDigit(tail[0]) && tail[0] != '.' && tail[0] != 'e' && tail[0] != 'E'
  }

  lemma ZeroDigits()
    ensures Digits(0) == "0"
  {
  }

  lemma DigitsRead(n: nat, tail: string)
    requires EndsNumber(tail)
    ensures ParseUnsigned(Digits(n) + tail) == Got(Number(n, 0), tail)
  {
    hide Digits, ValueOf;
    DigitsDenote(n);
    TakeDigitsStops(Digits(n), tail);
    var t := Digits(n) + tail;
    if n == 0 {
      assert Digits(n) == "0" by { ZeroDigits(); }
    }
    assert t[|Digits(n)|..] == tail;
    assert Digits(n) + "" == Digits(n);
  }

  lemma NumberIsValue(s: string)
    requires s != "" && (s[0] == '-' || IsDigit(s[0]))
    ensures ParseValue(s) == ParseNumber(s)
  {
    hide ParseUnsigned, ParseNumber, ParseChars, ParseMembers, ParseElements;
    assert SkipSpace(s) == s;
  }

  lemma NumberReads(n: int, tail: string)
    requires EndsNumber(tail)
    ensures ParseValue(Signed(n) + tail) == Got(Number(n, 0), tail)
  {
    hide ParseUnsigned, ParseValue, Digits, EndsNumber;
    var m := if n < 0 then -n else n;
    DigitsDenote(m);
    DigitsRead(m, tail);
    NumberIsValue(Signed(n) + tail);
    if n < 0 {
      assert (Signed(n) + tail)[1..] == Digits(m) + tail;
    }
  }

  // ---- Members, elements, brackets ----

  predicate PlainKey(k: string)
  {
    forall i :: 0 <= i < |k| ==> k[i] as int >= 0x20 && k[i] != '"' && k[i] != '\\'
  }

  lemma {:induction false} KeyReads(k: string, tail: string)
    requires PlainKey(k)
    ensures ParseChars(k + "\"" + tail) == Got(k, tail)
  {
    if k == "" {
      assert k + "\"" + tail == "\"" + tail;
      assert ("\"" + tail)[1..] == tail;
    } else {
      KeyReads(k[1..], tail);
      assert (k + "\"" + tail)[1..] == k[1..] + "\"" + tail;
      assert k == [k[0]] + k[1..];
    }
  }

  /** `lead` opens a member: whitespace, the quoted key, a colon and a space. */
  ghost predicate Leads(lead: string, w: string, key: string)
  {
    AllSpace(w) && PlainKey(key) && lead == w + "\"" + key + "\": "
  }

  lemma LeadReads(lead: string, w: string, key: string, tail: string)
    requires Leads(lead, w, key)
    ensures SkipSpace(lead + tail) == "\"" + (key + "\"" + (": " + tail))
    ensures ParseChars(key + "\"" + (": " + tail)) == Got(key, ": " + tail)
  {
    SkipSpaces(w, "\"" + key + "\": " + tail);
    assert lead + tail == w + ("\"" + key + "\": " + tail);
    KeyReads(key, ": " + tail);
  }

  lemma SpaceBeforeValue(s: string)
    ensures ParseValue(" " + s) == ParseValue(s)
  {
    hide ParseNumber, ParseChars, ParseMembers, ParseElements;
    assert (" " + s)[1..] == s;
  }

  /** A member whose value is followed by a comma and further members. */
  lemma MemberComma(lead: string, w: string, key: string, t: string, v: Json, tail: string,
                    next: string, ms: seq<(string, Json)>, rest: string)
    requires Leads(lead, w, key) && ParseValue(t + tail) == Got(v, tail)
    requires SkipSpace(tail) == "," + next && ParseMembers(next) == Got(ms, rest)
    ensures ParseMembers(lead + (t + tail)) == Got([(key, v)] + ms, rest)
  {
    hide ParseValue, ParseChars;
    LeadReads(lead, w, key, t + tail);
    SpaceBeforeValue(t + tail);
    assert (": " + (t + tail))[1..] == " " + (t + tail);
    assert ("," + next)[1..] == next;
  }

  /** The last member of an object. */
  lemma MemberEnd(lead: string, w: string, key: string, t: string, v: Json, tail: string, rest: string)
    requires Leads(lead, w, key) && ParseValue(t + tail) == Got(v, tail)
    requires SkipSpace(tail) == "}" + rest
    ensures ParseMembers(lead + (t + tail)) == Got([(key, v)], rest)
  {
    hide ParseValue, ParseChars;
    LeadReads(lead, w, key, t + tail);
    SpaceBeforeValue(t + tail);
    assert (": " + (t + tail))[1..] == " " + (t + tail);
    assert ("}" + rest)[1..] == rest;
  }

  lemma ObjectReads(w: string, members: string, ms: seq<(string, Json)>, rest: string)
    requires AllSpace(w) && ParseMembers(members) == Got(ms, rest)
    ensures ParseValue(w + ("{" + members)) == Got(Object(ms), rest)
  {
    hide ParseChars, ParseElements, ParseNumber;
    SkipSpaces(w, "{" + members);
    assert ("{" + members)[1..] == members;
  }

  lemma NoBracket(s: string)
    requires ParseElements(s).Got?
    ensures !StartsWith(SkipSpace(s), ']')
  {
    hide ParseChars, ParseMembers, SkipSpace;
    assert ParseValue(s).Got?;
  }

  lemma ArrayReads(w: string, elements: string, vs: seq<Json>, rest: string)
    requires AllSpace(w) && ParseElements(elements) == Got(vs, rest)
    ensures ParseValue(w + ("[" + elements)) == Got(Array(vs), rest)
  {
    NoBracket(elements);
    hide ParseChars, ParseMembers, ParseNumber, ParseElements;
    SkipSpaces(w, "[" + elements);
    assert ("[" + elements)[1..] == elements;
  }

  lemma EmptyArrayReads(w: string, gap: string, rest: string)
    requires AllSpace(w) && AllSpace(gap)
    ensures ParseValue(w + ("[" + (gap + ("]" + rest)))) == Got(Array([]), rest)
  {
    hide ParseChars, ParseMembers, ParseNumber, ParseElements;
    SkipSpaces(w, "[" + (gap + ("]" + rest)));
    SkipSpaces(gap, "]" + rest);
    assert ("[" + (gap + ("]" + rest)))[1..] == gap + ("]" + rest);
    assert ("]" + rest)[1..] == rest;
  }

  /** A value reads the same after whitespace. */
  lemma SpacedValue(w: string, s: string)
    requires AllSpace(w)
    ensures ParseValue(w + s) == ParseValue(s)
  {
    hide ParseNumber, ParseChars, ParseMembers, ParseElements;
    SkipSpaces(w, s);
  }

  lemma SpacedElements(w: string, s: string)
    requires AllSpace(w)
    ensures ParseElements(w + s) == ParseElements(s)
  {
    hide ParseValue;
    SpacedValue(w, s);
  }

  // ---- Properties and functions ----

  /** The members of a property's object and what follows its closing brace. */
  function PropertyMembers(p: Property, rest: string): string
  {
    " \"name\": " + (Quoted(p.name) + ("," + (" \"type\": " + (Quoted(p.kind) + ("," +
    (" \"offset\": " + (Signed(p.offset) + ("," + (" \"element_size\": " + (Signed(p.elementSize) + ("," +
    (" \"array_dim\": " + (Signed(p.arrayDim) + (" }" + rest))))))))))))))
  }

  /** Concatenation is associative; stated for as many parts as a property has. */
  lemma Regroup5(w: string, l1: string, q1: string, l2: string, q2: string, l3: string, q3: string,
                 l4: string, q4: string, l5: string, q5: string, e: string, k: string, n: string, t: string)
    ensures (w + ("{" + l1)) + q1 + ("," + l2) + q2 + ("," + l3) + q3
            + ("," + l4) + q4 + ("," + l5) + q5 + e + k + n + t
         == w + ("{" + (l1 + (q1 + ("," + (l2 + (q2 + ("," + (l3 + (q3
            + ("," + (l4 + (q4 + ("," + (l5 + (q5 + (e + (k + (n + t))))))))))))))))))
  {
  }

  lemma PropertyNested(p: Property, last: bool, tail: string)
    ensures PropertyText(p, last) + tail == "        " + ("{" + PropertyMembers(p, Comma(last) + ("\n" + tail)))
  {
    hide Quoted, Signed;
    Regroup5("        ", " \"name\": ", Quoted(p.name), " \"type\": ", Quoted(p.kind), " \"offset\": ",
             Signed(p.offset), " \"element_size\": ", Signed(p.elementSize), " \"array_dim\": ",
             Signed(p.arrayDim), " }", Comma(last), "\n", tail);
    assert "        { " + "\"name\": " == "        " + ("{" + " \"name\": ");
    assert ", \"type\": " == "," + " \"type\": " && ", \"offset\": " == "," + " \"offset\": ";
    assert ", \"element_size\": " == "," + " \"element_size\": " && ", \"array_dim\": " == "," + " \"array_dim\": ";
  }

  lemma PropertyMembersRead(p: Property, rest: string)
    ensures ParseMembers(PropertyMembers(p, rest)) == Got(PropertyJson(p).members, rest)
  {
    hide ParseValue, ParseMembers, Quoted, Signed, SkipSpace;
    var m5 := LastNumber(" \"array_dim\": ", "array_dim", p.arrayDim, rest);
    var m4 := NumberThen(" \"element_size\": ", " ", "element_size", p.elementSize, m5, rest);
    var m3 := NumberThen(" \"offset\": ", " ", "offset", p.offset, m4, rest);
    var m2 := StringThen(" \"type\": ", " ", "type", p.kind, m3, rest);
    var m1 := StringThen(" \"name\": ", " ", "name", p.name, m2, rest);
    assert m1 == PropertyMembers(p, rest);
    assert ParseMembers(m1).value == PropertyJson(p).members;
  }

  lemma PropertyReads(p: Property, last: bool, tail: string)
    ensures ParseValue(PropertyText(p, last) + tail) == Got(PropertyJson(p), Comma(last) + ("\n" + tail))
  {
    hide ParseValue, ParseMembers, PropertyText, PropertyMembers;
    var rest := Comma(last) + ("\n" + tail);
    PropertyMembersRead(p, rest);
    ObjectReads("        ", PropertyMembers(p, rest), PropertyJson(p).members, rest);
    PropertyNested(p, last, tail);
  }

  function FunctionMembers(f: Function, rest: string): string
  {
    " \"name\": " + (Quoted(f.name) + ("," + (" \"flags\": " + (Signed(f.flags) + ("," +
    (" \"parameter_size\": " + (Signed(f.parmsSize) + (" }" + rest))))))))
  }

  lemma Regroup3(w: string, l1: string, q1: string, l2: string, q2: string, l3: string, q3: string,
                 e: string, k: string, n: string, t: string)
    ensures (w + ("{" + l1)) + q1 + ("," + l2) + q2 + ("," + l3) + q3 + e + k + n + t
         == w + ("{" + (l1 + (q1 + ("," + (l2 + (q2 + ("," + (l3 + (q3 + (e + (k + (n + t))))))))))))
  {
  }

  lemma FunctionNested(f: Function, last: bool, tail: string)
    ensures FunctionText(f, last) + tail == "        " + ("{" + FunctionMembers(f, Comma(last) + ("\n" + tail)))
  {
    hide Quoted, Digits;
    Regroup3("        ", " \"name\": ", Quoted(f.name), " \"flags\": ", Digits(f.flags),
             " \"parameter_size\": ", Digits(f.parmsSize), " }", Comma(last), "\n", tail);
    assert "        { " + "\"name\": " == "        " + ("{" + " \"name\": ");
    assert ", \"flags\": " == "," + " \"flags\": " && ", \"parameter_size\": " == "," + " \"parameter_size\": ";
  }

  lemma FunctionMembersRead(f: Function, rest: string)
    ensures ParseMembers(FunctionMembers(f, rest)) == Got(FunctionJson(f).members, rest)
  {
    hide ParseValue, ParseMembers, Quoted, Signed, SkipSpace;
    var m3 := LastNumber(" \"parameter_size\": ", "parameter_size", f.parmsSize, rest);
    var m2 := NumberThen(" \"flags\": ", " ", "flags", f.flags, m3, rest);
    var m1 := StringThen(" \"name\": ", " ", "name", f.name, m2, rest);
    assert m1 == FunctionMembers(f, rest);
    assert ParseMembers(m1).value == FunctionJson(f).members;
  }

  lemma FunctionReads(f: Function, last: bool, tail: string)
    ensures ParseValue(FunctionText(f, last) + tail) == Got(FunctionJson(f), Comma(last) + ("\n" + tail))
  {
    hide ParseValue, ParseMembers, FunctionText, FunctionMembers;
    var rest := Comma(last) + ("\n" + tail);
    FunctionMembersRead(f, rest);
    ObjectReads("        ", FunctionMembers(f, rest), FunctionJson(f).members, rest);
    FunctionNested(f, last, tail);
  }

  lemma LastNumber(lead: string, key: string, n: int, rest: string) returns (m: string)
    requires Leads(lead, " ", key)
    ensures m == lead + (Signed(n) + (" }" + rest))
    ensures ParseMembers(m) == Got([(key, Number(n, 0))], rest)
  {
    hide ParseValue, ParseMembers, Signed;
    var tail := " }" + rest;
    assert tail == " " + ("}" + rest);
    SkipSpaces(" ", "}" + rest);
    NumberReads(n, tail);
    MemberEnd(lead, " ", key, Signed(n), Number(n, 0), tail, rest);
    m := lead + (Signed(n) + tail);
  }

  /** One more member, a number, in front of members already read. */
  lemma NumberThen(lead: string, w: string, key: string, n: int, next: string, rest: string) returns (m: string)
    requires Leads(lead, w, key) && ParseMembers(next).Got? && ParseMembers(next).rest == rest
    ensures m == lead + (Signed(n) + ("," + next))
    ensures ParseMembers(m) == Got([(key, Number(n, 0))] + ParseMembers(next).value, rest)
  {
    hide ParseValue, ParseMembers, Signed;
    var tail := "," + next;
    NumberReads(n, tail);
    MemberComma(lead, w, key, Signed(n), Number(n, 0), tail, next, ParseMembers(next).value, rest);
    m := lead + (Signed(n) + tail);
  }

  lemma StringThen(lead: string, w: string, key: string, s: string, next: string, rest: string) returns (m: string)
    requires Leads(lead, w, key) && ParseMembers(next).Got? && ParseMembers(next).rest == rest
    ensures m == lead + (Quoted(s) + ("," + next))
    ensures ParseMembers(m) == Got([(key, String(s))] + ParseMembers(next).value, rest)
  {
    hide ParseValue, ParseMembers, Quoted;
    var tail := "," + next;
    StringReads(s, tail);
    MemberComma(lead, w, key, Quoted(s), String(s), tail, next, ParseMembers(next).value, rest);
    m := lead + (Quoted(s) + tail);
  }

  lemma ValueThen(lead: string, w: string, key: string, t: string, v: Json, next: string, rest: string)
    returns (m: string)
    requires Leads(lead, w, key) && ParseMembers(next).Got? && ParseMembers(next).rest == rest
    requires ParseValue(t + ("," + next)) == Got(v, "," + next)
    ensures m == lead + (t + ("," + next))
    ensures ParseMembers(m) == Got([(key, v)] + ParseMembers(next).value, rest)
  {
    hide ParseValue, ParseMembers;
    MemberComma(lead, w, key, t, v, "," + next, next, ParseMembers(next).value, rest);
    m := lead + (t + ("," + next));
  }

  // ---- Lists ----

  lemma ElementStep(t: string, v: Json, after: string, next: string, more: seq<Json>, rest: string)
    requires ParseValue(t) == Got(v, after) && SkipSpace(after) == "," + next
    requires ParseElements(next) == Got(more, rest)
    ensures ParseElements(t) == Got([v] + more, rest)
  {
    hide ParseValue;
    assert ("," + next)[1..] == next;
  }

  lemma ElementEnd(t: string, v: Json, after: string, rest: string)
    requires ParseValue(t) == Got(v, after) && SkipSpace(after) == "]" + rest
    ensures ParseElements(t) == Got([v], rest)
  {
    hide ParseValue;
    assert ("]" + rest)[1..] == rest;
  }

  /** Every written record is followed by its comma, if it is not the last, and a newline. */
  lemma RecordStep(text: string, v: Json, tail: string, more: seq<Json>, rest: string)
    requires ParseValue(text + tail) == Got(v, "," + ("\n" + tail)) && ParseElements(tail) == Got(more, rest)
    ensures ParseElements(text + tail) == Got([v] + more, rest)
  {
    hide ParseValue, ParseElements;
    SpacedElements("\n", tail);
    ElementStep(text + tail, v, "," + ("\n" + tail), "\n" + tail, more, rest);
  }

  lemma RecordEnd(text: string, v: Json, gap: string, rest: string)
    requires AllSpace(gap)
    requires ParseValue(text + (gap + ("]" + rest))) == Got(v, "" + ("\n" + (gap + ("]" + rest))))
    ensures ParseElements(text + (gap + ("]" + rest))) == Got([v], rest)
  {
    hide ParseValue, ParseElements;
    SkipSpaces("\n", gap + ("]" + rest));
    SkipSpaces(gap, "]" + rest);
    assert "" + ("\n" + (gap + ("]" + rest))) == "\n" + (gap + ("]" + rest));
    ElementEnd(text + (gap + ("]" + rest)), v, "\n" + (gap + ("]" + rest)), rest);
  }

  lemma {:induction false} PropertyElements(ps: seq<Property>, gap: string, rest: string)
    requires ps != [] && AllSpace(gap)
    ensures ParseElements(PropertiesText(ps) + (gap + ("]" + rest))) == Got(PropertyJsons(ps), rest)
  {
    hide ParseValue, ParseElements, PropertyText, PropertyJson;
    var tail := PropertiesText(ps[1..]) + (gap + ("]" + rest));
    PropertyReads(ps[0], |ps| == 1, tail);
    assert PropertiesText(ps) + (gap + ("]" + rest)) == PropertyText(ps[0], |ps| == 1) + tail;
    if |ps| == 1 {
      assert tail == gap + ("]" + rest);
      RecordEnd(PropertyText(ps[0], true), PropertyJson(ps[0]), gap, rest);
      assert PropertyJsons(ps) == [PropertyJson(ps[0])];
    } else {
      PropertyElements(ps[1..], gap, rest);
      RecordStep(PropertyText(ps[0], false), PropertyJson(ps[0]), tail, PropertyJsons(ps[1..]), rest);
    }
  }

  lemma {:induction false} FunctionElements(fs: seq<Function>, gap: string, rest: string)
    requires fs != [] && AllSpace(gap)
    ensures ParseElements(FunctionsText(fs) + (gap + ("]" + rest))) == Got(FunctionJsons(fs), rest)
  {
    hide ParseValue, ParseElements, FunctionText, FunctionJson;
    var tail := FunctionsText(fs[1..]) + (gap + ("]" + rest));
    FunctionReads(fs[0], |fs| == 1, tail);
    assert FunctionsText(fs) + (gap + ("]" + rest)) == FunctionText(fs[0], |fs| == 1) + tail;
    if |fs| == 1 {
      assert tail == gap + ("]" + rest);
      RecordEnd(FunctionText(fs[0], true), FunctionJson(fs[0]), gap, rest);
      assert FunctionJsons(fs) == [FunctionJson(fs[0])];
    } else {
      FunctionElements(fs[1..], gap, rest);
      RecordStep(FunctionText(fs[0], false), FunctionJson(fs[0]), tail, FunctionJsons(fs[1..]), rest);
    }
  }

  /** A bracketed list: a newline after the bracket, the records, and the indentation before its end. */
  function Bracketed(records: string, gap: string): string
  {
    "[" + ("\n" + (records + (gap + "]")))
  }

  lemma BracketedReads(records: string, gap: string, vs: seq<Json>, tail: string)
    requires AllSpace(gap)
    requires if records == "" then vs == [] else ParseElements(records + (gap + ("]" + tail))) == Got(vs, tail)
    ensures ParseValue(Bracketed(records, gap) + tail) == Got(Array(vs), tail)
  {
    hide ParseValue, ParseElements;
    var inner := records + (gap + ("]" + tail));
    assert Bracketed(records, gap) + tail == "" + ("[" + ("\n" + inner));
    if records == "" {
      assert "" + ("[" + ("\n" + inner)) == "" + ("[" + (("\n" + gap) + ("]" + tail)));
      EmptyArrayReads("", "\n" + gap, tail);
    } else {
      SpacedElements("\n", inner);
      ArrayReads("", "\n" + inner, vs, tail);
    }
  }

  lemma PropertiesRead(ps: seq<Property>, gap: string, tail: string)
    requires AllSpace(gap)
    ensures ParseValue(Bracketed(PropertiesText(ps), gap) + tail) == Got(Array(PropertyJsons(ps)), tail)
  {
    hide ParseValue, ParseElements, PropertyJson;
    if ps != [] {
      PropertyElements(ps, gap, tail);
      assert PropertiesText(ps) != "";
    }
    BracketedReads(PropertiesText(ps), gap, PropertyJsons(ps), tail);
  }

  lemma FunctionsRead(fs: seq<Function>, gap: string, tail: string)
    requires AllSpace(gap)
    ensures ParseValue(Bracketed(FunctionsText(fs), gap) + tail) == Got(Array(FunctionJsons(fs)), tail)
  {
    hide ParseValue, ParseElements, FunctionJson;
    if fs != [] {
      FunctionElements(fs, gap, tail);
      assert FunctionsText(fs) != "";
    }
    BracketedReads(FunctionsText(fs), gap, FunctionJsons(fs), tail);
  }
}
