/** Parsing either schema writer's text gives back the classes. */
module SchemaRoundTrip {
  import opened Decimal
  import opened JsonGrammar
  import opened SchemaReading
  import opened SchemaText
  import opened Wrappers

  // ---- One class ----

  lemma RegroupLists(x: string, l4: string, p: string, g: string, l5: string, f: string, e: string,
                     k: string, n: string, t: string)
    ensures x + (l4 + ("[" + n)) + p + (g + ("]" + ("," + n))) + (l5 + ("[" + n)) + f + (g + ("]" + n)) + e + k + n + t
         == x + (l4 + (("[" + (n + (p + (g + "]")))) + ("," + (n
            + (l5 + (("[" + (n + (f + (g + "]")))) + (n + (e + (k + (n + t))))))))))
  {
  }

  lemma RegroupScalars(w: string, l1: string, q1: string, l2: string, q2: string, l3: string, q3: string,
        n: string, b: string)
    ensures (w + ("{" + n)) + l1 + q1 + ("," + n) + l2 + q2 + ("," + n) + l3 + q3 + ("," + n) + b
         == w + ("{" + (n + (l1 + (q1 + ("," + (n + (l2 + (q2 + ("," + (n + (l3 + (q3 + ("," + (n + b))))))))))))))
  {
  }

  /** The members from "properties" on. */
  function ListMembers(c: Class, rest: string): string
  {
    "      \"properties\": " + (Bracketed(PropertiesText(c.properties), "      ") + ("," + ("\n" +
    ("      \"functions\": " + (Bracketed(FunctionsText(c.functions), "      ") + ("\n" + ("    }" + rest)))))))
  }

  lemma ListsNested(c: Class, last: bool, tail: string)
    ensures ClassText(c, last) + tail == ClassFront(c) + ListMembers(c, Comma(last) + ("\n" + tail))
  {
    hide Quoted, Signed, PropertiesText, FunctionsText;
    RegroupLists(ClassFront(c), "      \"properties\": ", PropertiesText(c.properties), "      ",
                 "      \"functions\": ", FunctionsText(c.functions), "    }", Comma(last), "\n", tail);
    assert "      \"properties\": [\n" == "      \"properties\": " + ("[" + "\n");
    assert "      \"functions\": [\n" == "      \"functions\": " + ("[" + "\n");
    assert "      ],\n" == "      " + ("]" + ("," + "\n")) && "      ]\n" == "      " + ("]" + "\n");
  }

  function ClassMembers(c: Class, lists: string): string
  {
    "\n" + ("      \"name\": " + (Quoted(c.name) + ("," + ("\n" + ("      \"super\": " + (Quoted(c.superName) + ("," +
    ("\n" + ("      \"size\": " + (Signed(c.size) + ("," + ("\n" + lists))))))))))))
  }

  lemma ClassNested(c: Class, last: bool, tail: string)
    ensures ClassText(c, last) + tail
         == "    " + ("{" + ClassMembers(c, ListMembers(c, Comma(last) + ("\n" + tail))))
  {
    hide Quoted, Signed, ClassText, ListMembers;
    ListsNested(c, last, tail);
    RegroupScalars("    ", "      \"name\": ", Quoted(c.name), "      \"super\": ", Quoted(c.superName),
                   "      \"size\": ", Signed(c.size), "\n", ListMembers(c, Comma(last) + ("\n" + tail)));
    assert "    {\n" == "    " + ("{" + "\n") && ",\n" == "," + "\n";
  }

  const INDENT := "      "

  /** A newline in front of the members changes nothing. */
  lemma NewlineMembers(m: string)
    ensures ParseMembers("\n" + m) == ParseMembers(m)
  {
    hide ParseValue, ParseChars, SkipSpace;
    SkipSpaces("\n", m);
  }

  function FunctionsMember(c: Class, rest: string): string
  {
    "      \"functions\": " + (Bracketed(FunctionsText(c.functions), "      ") + ("\n" + ("    }" + rest)))
  }

  lemma FunctionsMemberReads(c: Class, rest: string)
    ensures ParseMembers(FunctionsMember(c, rest)) == Got([("functions", Array(FunctionJsons(c.functions)))], rest)
  {
    hide ParseValue, ParseMembers, FunctionsText, Bracketed, FunctionJsons, SkipSpace;
    var end := "\n" + ("    }" + rest);
    ClosingBrace(rest);
    FunctionsRead(c.functions, INDENT, end);
    MemberEnd("      \"functions\": ", INDENT, "functions", Bracketed(FunctionsText(c.functions), INDENT),
              Array(FunctionJsons(c.functions)), end, rest);
  }

  lemma ListMembersRead(c: Class, rest: string)
    ensures ParseMembers(ListMembers(c, rest))
         == Got([("properties", Array(PropertyJsons(c.properties))),
                 ("functions", Array(FunctionJsons(c.functions)))], rest)
  {
    hide ParseValue, ParseMembers, PropertiesText, FunctionsText, Bracketed, PropertyJsons, FunctionJsons, SkipSpace;
    var last := FunctionsMember(c, rest);
    FunctionsMemberReads(c, rest);
    NewlineMembers(last);
    hide FunctionsMember;
    PropertiesRead(c.properties, INDENT, "," + ("\n" + last));
    var m := ValueThen("      \"properties\": ", INDENT, "properties", Bracketed(PropertiesText(c.properties), INDENT),
                       Array(PropertyJsons(c.properties)), "\n" + last, rest);
    ListMembersSplit(c, rest);
    assert ParseMembers(m).value
        == [("properties", Array(PropertyJsons(c.properties))), ("functions", Array(FunctionJsons(c.functions)))];
  }

  lemma ListMembersSplit(c: Class, rest: string)
    ensures ListMembers(c, rest)
         == "      \"properties\": "
            + (Bracketed(PropertiesText(c.properties), INDENT) + ("," + ("\n" + FunctionsMember(c, rest))))
  {
    hide PropertiesText, FunctionsText, Bracketed;
  }

  lemma ClassMembersRead(c: Class, rest: string)
    ensures ParseMembers(ClassMembers(c, ListMembers(c, rest))) == Got(ClassJson(c).members, rest)
  {
    hide ParseValue, ParseMembers, Quoted, Signed, ListMembers, PropertyJsons, FunctionJsons;
    var lists := ListMembers(c, rest);
    ListMembersRead(c, rest);
    NewlineMembers(lists);
    var m3 := NumberThen("      \"size\": ", INDENT, "size", c.size, "\n" + lists, rest);
    NewlineMembers(m3);
    var m2 := StringThen("      \"super\": ", INDENT, "super", c.superName, "\n" + m3, rest);
    NewlineMembers(m2);
    var m1 := StringThen("      \"name\": ", INDENT, "name", c.name, "\n" + m2, rest);
    NewlineMembers(m1);
    assert "\n" + m1 == ClassMembers(c, lists);
    assert ParseMembers(m1).value == ClassJson(c).members;
  }

  lemma ClosingBrace(rest: string)
    ensures SkipSpace("\n" + ("    }" + rest)) == "}" + rest
  {
    SkipSpaces("\n    ", "}" + rest);
    assert "\n" + ("    }" + rest) == "\n    " + ("}" + rest);
  }

  lemma ClassReads(c: Class, last: bool, tail: string)
    ensures ParseValue(ClassText(c, last) + tail) == Got(ClassJson(c), Comma(last) + ("\n" + tail))
  {
    hide ParseValue, ParseMembers, ClassText, ClassMembers, ListMembers;
    var rest := Comma(last) + ("\n" + tail);
    ClassMembersRead(c, rest);
    ObjectReads("    ", ClassMembers(c, ListMembers(c, rest)), ClassJson(c).members, rest);
    ClassNested(c, last, tail);
  }

  // ---- The class list, as each writer lays it out ----

  lemma {:induction false} BatchElements(cs: seq<Class>, gap: string, rest: string)
    requires cs != [] && AllSpace(gap)
    ensures ParseElements(BatchClasses(cs) + (gap + ("]" + rest))) == Got(ClassJsons(cs), rest)
  {
    hide ParseValue, ParseElements, ClassText, ClassJson;
    var tail := BatchClasses(cs[1..]) + (gap + ("]" + rest));
    ClassReads(cs[0], |cs| == 1, tail);
    assert BatchClasses(cs) + (gap + ("]" + rest)) == ClassText(cs[0], |cs| == 1) + tail;
    if |cs| == 1 {
      assert tail == gap + ("]" + rest);
      RecordEnd(ClassText(cs[0], true), ClassJson(cs[0]), gap, rest);
      assert ClassJsons(cs) == [ClassJson(cs[0])];
    } else {
      BatchElements(cs[1..], gap, rest);
      RecordStep(ClassText(cs[0], false), ClassJson(cs[0]), tail, ClassJsons(cs[1..]), rest);
    }
  }

  /** The streaming writer puts the comma in front of every class but the first. */
  lemma {:induction false} StreamElements(cs: seq<Class>, gap: string, rest: string)
    requires cs != [] && AllSpace(gap)
    ensures ParseElements(StreamClasses(cs) + (gap + ("]" + rest))) == Got(ClassJsons(cs), rest)
  {
    hide ParseValue, ParseElements, ClassText, ClassJson;
    var end := gap + ("]" + rest);
    var tail := StreamTail(cs[1..]) + end;
    var text := ClassText(cs[0], true);
    ClassReads(cs[0], true, tail);
    assert StreamClasses(cs) + end == text + tail;
    if |cs| == 1 {
      assert tail == end;
      RecordEnd(text, ClassJson(cs[0]), gap, rest);
      assert ClassJsons(cs) == [ClassJson(cs[0])];
    } else {
      StreamElements(cs[1..], gap, rest);
      var next := StreamClasses(cs[1..]) + end;
      TailIsCommaAndClasses(cs[1..], end);
      CommaAfterNewline(next);
      SpacedElements("\n", next);
      assert Comma(true) + ("\n" + tail) == "\n" + ("," + ("\n" + next));
      hide StreamClasses, StreamTail, SkipSpace;
      ElementStep(text + tail, ClassJson(cs[0]), "\n" + tail, "\n" + next, ClassJsons(cs[1..]), rest);
    }
  }

  lemma TailIsCommaAndClasses(cs: seq<Class>, end: string)
    requires cs != []
    ensures StreamTail(cs) + end == "," + ("\n" + (StreamClasses(cs) + end))
  {
    hide ClassText;
    assert ",\n" == "," + "\n";
  }

  lemma CommaAfterNewline(next: string)
    ensures SkipSpace("\n" + ("," + ("\n" + next))) == "," + ("\n" + next)
  {
    SkipSpaces("\n", "," + ("\n" + next));
  }

  // ---- Whole texts ----

  const INDENT2 := "  "

  /** Both texts are this one, around their own class list. */
  function Document(classes: string, gap: string, end: string): string
  {
    "{" + ("\n" + ("  \"format\": " + (Quoted(FORMAT) + ("," +
    ("\n" + ("  \"scope\": " + (Quoted(SCOPE) + ("," +
    ("\n" + ("  \"classes\": " + (Bracketed(classes, gap) + end)))))))))))
  }

  ghost predicate ListReads(classes: string, gap: string, cs: seq<Class>, rest: string)
  {
    if classes == "" then cs == [] else ParseElements(classes + (gap + ("]" + rest))) == Got(ClassJsons(cs), rest)
  }

  lemma LastMemberReads(classes: string, gap: string, end: string, cs: seq<Class>)
    requires AllSpace(gap) && SkipSpace(end) == "}" + "\n" && ListReads(classes, gap, cs, end)
    ensures ParseMembers("  \"classes\": " + (Bracketed(classes, gap) + end))
         == Got([("classes", Array(ClassJsons(cs)))], "\n")
  {
    hide ParseValue, ParseMembers, ParseElements, Bracketed;
    BracketedReads(classes, gap, ClassJsons(cs), end);
    MemberEnd("  \"classes\": ", INDENT2, "classes", Bracketed(classes, gap), Array(ClassJsons(cs)), end, "\n");
  }

  lemma DocumentReads(classes: string, gap: string, end: string, cs: seq<Class>)
    requires AllSpace(gap) && SkipSpace(end) == "}" + "\n" && ListReads(classes, gap, cs, end)
    ensures ParseText(Document(classes, gap, end)) == Some(SchemaJson(cs))
  {
    hide ParseValue, ParseMembers, ParseElements, Quoted, Bracketed, ClassJsons, SkipSpace, ListReads;
    var list := Bracketed(classes, gap);
    var m3 := "  \"classes\": " + (list + end);
    LastMemberReads(classes, gap, end, cs);
    NewlineMembers(m3);
    var m2 := StringThen("  \"scope\": ", INDENT2, "scope", SCOPE, "\n" + m3, "\n");
    NewlineMembers(m2);
    var m1 := StringThen("  \"format\": ", INDENT2, "format", FORMAT, "\n" + m2, "\n");
    NewlineMembers(m1);
    assert ParseMembers(m1).value == SchemaJson(cs).members;
    ObjectReads("", "\n" + m1, SchemaJson(cs).members, "\n");
    assert "" + ("{" + ("\n" + m1)) == Document(classes, gap, end);
    NewlineIsSpace();
  }

  lemma NewlineIsSpace()
    ensures SkipSpace("\n") == ""
  {
    assert "\n"[1..] == "";
  }

  lemma {:induction false} PlainEscaped(s: string)
    requires PlainKey(s)
    ensures Escaped(s) == s
  {
    if s != "" {
      PlainEscaped(s[1..]);
      assert s == [s[0]] + s[1..];
    }
  }

  lemma PlainQuoted(s: string)
    requires PlainKey(s)
    ensures Quoted(s) == "\"" + s + "\""
  {
    PlainEscaped(s);
  }

  lemma FormatIsPlain()
    ensures PlainKey(FORMAT)
  {
  }

  lemma ScopeIsPlain()
    ensures PlainKey(SCOPE)
  {
  }

  lemma HeaderIs(rest: string)
    ensures Header() + rest
         == "{" + ("\n" + ("  \"format\": " + (Quoted(FORMAT) + ("," +
            ("\n" + ("  \"scope\": " + (Quoted(SCOPE) + ("," +
            ("\n" + ("  \"classes\": " + ("[" + ("\n" + rest))))))))))))
  {
    hide Quoted, PlainKey;
    FormatIsPlain();
    PlainQuoted(FORMAT);
    ScopeIsPlain();
    PlainQuoted(SCOPE);
    assert "{\n" == "{" + "\n" && ",\n" == "," + "\n";
    assert "  \"classes\": [\n" == "  \"classes\": " + ("[" + "\n");
    RegroupHeader("{", "\n", "  \"format\": ", FORMAT, "  \"scope\": ", SCOPE, "  \"classes\": ", "\"", rest);
  }

  lemma RegroupHeader(b: string, n: string, f: string, q1: string, s: string, q2: string, c: string,
        q: string, rest: string)
    ensures (b + n) + f + q + q1 + q + ("," + n) + s + q + q2 + q + ("," + n) + (c + ("[" + n)) + rest
         == b + (n + (f + ((q + q1 + q) + ("," + (n + (s + ((q + q2 + q) + ("," + (n + (c + ("[" + (n + rest))))))))))))
  {
  }

  lemma BracketedThen(records: string, gap: string, end: string)
    ensures Bracketed(records, gap) + end == "[" + ("\n" + (records + (gap + ("]" + end))))
  {
  }

  lemma RegroupEnd(h: string, x: string, y: string, z: string)
    ensures h + x + y + z == h + (x + (y + z))
  {
  }

  lemma BatchParses(cs: seq<Class>)
    ensures ParseText(BatchText(cs)) == Some(SchemaJson(cs))
  {
    hide ParseElements, ParseText, Quoted, Header, ClassText, Bracketed, BatchClasses;
    var end := "\n" + ("}" + "\n");
    SkipSpaces("\n", "}" + "\n");
    HeaderIs(BatchClasses(cs) + ("  " + ("]" + end)));
    assert "  ]\n" + "}\n" == "  " + ("]" + end);
    BracketedThen(BatchClasses(cs), "  ", end);
    RegroupEnd(Header(), BatchClasses(cs), "  ]\n", "}\n");
    assert BatchText(cs) == Document(BatchClasses(cs), "  ", end);
    if cs != [] {
      BatchElements(cs, "  ", end);
      BatchNotEmpty(cs);
    } else {
      EmptyLists();
    }
    DocumentReads(BatchClasses(cs), "  ", end, cs);
  }

  lemma StreamParses(cs: seq<Class>)
    ensures ParseText(StreamText(cs)) == Some(SchemaJson(cs))
  {
    hide ParseElements, ParseText, Quoted, Header, ClassText, Bracketed, StreamClasses;
    var end := "\n" + ("}" + "\n");
    SkipSpaces("\n", "}" + "\n");
    HeaderIs(StreamClasses(cs) + ("\n  " + ("]" + end)));
    assert "\n  ]\n}\n" == "\n  " + ("]" + end);
    BracketedThen(StreamClasses(cs), "\n  ", end);
    RegroupEnd(Header(), StreamClasses(cs), "\n  ]\n}\n", "");
    assert StreamText(cs) == Document(StreamClasses(cs), "\n  ", end);
    if cs != [] {
      StreamElements(cs, "\n  ", end);
      StreamNotEmpty(cs);
    } else {
      EmptyLists();
    }
    DocumentReads(StreamClasses(cs), "\n  ", end, cs);
  }

  lemma ClassTextNotEmpty(c: Class, last: bool)
    ensures ClassText(c, last) != ""
  {
    ClassNested(c, last, "");
  }

  lemma BatchNotEmpty(cs: seq<Class>)
    requires cs != []
    ensures BatchClasses(cs) != ""
  {
    hide ClassText;
    ClassTextNotEmpty(cs[0], |cs| == 1);
  }

  lemma StreamNotEmpty(cs: seq<Class>)
    requires cs != []
    ensures StreamClasses(cs) != ""
  {
    hide ClassText, StreamTail;
    ClassTextNotEmpty(cs[0], true);
  }

  lemma EmptyLists()
    ensures BatchClasses([]) == "" && StreamClasses([]) == ""
  {
  }

  // ---- From the JSON value back to the classes ----

  function DecodeProperty(j: Json): Option<Property>
  {
    match j
    case Object(m) =>
      if |m| == 5 && m[0].0 == "name" && m[0].1.String? && m[1].0 == "type" && m[1].1.String?
         && m[2].0 == "offset" && IsInt(m[2].1) && m[3].0 == "element_size" && IsInt(m[3].1)
         && m[4].0 == "array_dim" && IsInt(m[4].1)
      then Some(Property(m[0].1.s, m[1].1.s, m[2].1.mantissa, m[3].1.mantissa, m[4].1.mantissa))
      else None
    case _ => None
  }

  predicate IsInt(j: Json) { j.Number? && j.exponent == 0 }

  function DecodeFunction(j: Json): Option<Function>
  {
    match j
    case Object(m) =>
      if |m| == 3 && m[0].0 == "name" && m[0].1.String? && m[1].0 == "flags" && IsInt(m[1].1) && m[1].1.mantissa >= 0
         && m[2].0 == "parameter_size" && IsInt(m[2].1) && m[2].1.mantissa >= 0
      then Some(Function(m[0].1.s, m[1].1.mantissa, m[2].1.mantissa))
      else None
    case _ => None
  }

  function DecodeClass(j: Json): Option<Class>
  {
    match j
    case Object(m) =>
      if |m| == 5 && m[0].0 == "name" && m[0].1.String? && m[1].0 == "super" && m[1].1.String?
         && m[2].0 == "size" && IsInt(m[2].1) && m[3].0 == "properties" && m[3].1.Array?
         && m[4].0 == "functions" && m[4].1.Array?
      then
        match (DecodeAll(m[3].1.items, DecodeProperty), DecodeAll(m[4].1.items, DecodeFunction))
        case (Some(ps), Some(fs)) => Some(Class(m[0].1.s, m[1].1.s, m[2].1.mantissa, ps, fs))
        case _ => None
      else None
    case _ => None
  }

  function DecodeAll<T>(js: seq<Json>, decode: Json -> Option<T>): Option<seq<T>>
  {
    if js == [] then Some([])
    else
      match (decode(js[0]), DecodeAll(js[1..], decode))
      case (Some(x), Some(xs)) => Some([x] + xs)
      case _ => None
  }

  function DecodeSchema(j: Json): Option<seq<Class>>
  {
    match j
    case Object(m) =>
      if |m| == 3 && m[0] == ("format", String("ue4-reflection-schema-v1"))
        && m[1] == ("scope", String("type metadata only; no object values"))
        && m[2].0 == "classes" && m[2].1.Array?
      then DecodeAll(m[2].1.items, DecodeClass)
      else None
    case _ => None
  }

  /** Reads a schema file: RFC 8259 first, then the schema's own shape. */
  function ReadSchema(text: string): Option<seq<Class>>
  {
    match ParseText(text)
    case None => None
    case Some(j) => DecodeSchema(j)
  }

  lemma {:induction false} PropertiesDecode(ps: seq<Property>)
    ensures DecodeAll(PropertyJsons(ps), DecodeProperty) == Some(ps)
  {
    if ps != [] {
      PropertiesDecode(ps[1..]);
      assert PropertyJsons(ps)[1..] == PropertyJsons(ps[1..]);
      assert ps == [ps[0]] + ps[1..];
    }
  }

  lemma {:induction false} FunctionsDecode(fs: seq<Function>)
    ensures DecodeAll(FunctionJsons(fs), DecodeFunction) == Some(fs)
  {
    if fs != [] {
      FunctionsDecode(fs[1..]);
      assert FunctionJsons(fs)[1..] == FunctionJsons(fs[1..]);
      assert fs == [fs[0]] + fs[1..];
    }
  }

  lemma ClassDecodes(c: Class)
    ensures DecodeClass(ClassJson(c)) == Some(c)
  {
    hide PropertyJsons, FunctionJsons, DecodeProperty, DecodeFunction, DecodeAll;
    PropertiesDecode(c.properties);
    FunctionsDecode(c.functions);
  }

  lemma {:induction false} ClassesDecode(cs: seq<Class>)
    ensures DecodeAll(ClassJsons(cs), DecodeClass) == Some(cs)
  {
    hide ClassJson, DecodeClass;
    if cs != [] {
      ClassesDecode(cs[1..]);
      ClassDecodes(cs[0]);
      assert ClassJsons(cs)[1..] == ClassJsons(cs[1..]);
      assert cs == [cs[0]] + cs[1..];
    }
  }

  // ---- The theorem ----

  /** For every list of classes, both writers' texts are JSON and both read back as that list. */
  lemma RoundTrip(cs: seq<Class>)
    ensures ReadSchema(BatchText(cs)) == Some(cs)
    ensures ReadSchema(StreamText(cs)) == Some(cs)
    ensures ParseText(BatchText(cs)) == ParseText(StreamText(cs))
  {
    hide ParseText, BatchText, StreamText, ClassJsons;
    BatchParses(cs);
    StreamParses(cs);
    ClassesDecode(cs);
  }
}
