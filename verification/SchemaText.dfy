/** The schema texts that source/daemon/ue4_json.c writes, and their meaning under JsonGrammar. */
module SchemaText {
  import opened Decimal
  import opened JsonGrammar
  import opened Wrappers

  // The reflection records. Their strings are C strings: what precedes the NUL.
  datatype Property = Property(name: string, kind: string, offset: int, elementSize: int, arrayDim: int)
  datatype Function = Function(name: string, flags: nat, parmsSize: nat)
  datatype Class = Class(name: string, superName: string, size: int,
                         properties: seq<Property>, functions: seq<Function>)

  // ---- What is written ----

  function HexChar(d: nat): char
    requires d < 16
  {
    if d < 10 then ('0' as int + d) as char else ('a' as int + d - 10) as char
  }

  function EscapedChar(c: char): (e: string)
  {
    if c == '"' then "\\\""
    else if c == '\\' then "\\\\"
    else if c as int == 8 then "\\b"
    else if c as int == 12 then "\\f"
    else if c == '\n' then "\\n"
    else if c == '\r' then "\\r"
    else if c == '\t' then "\\t"
    else if c as int < 0x20 then "\\u00" + [HexChar(c as int / 16), HexChar(c as int % 16)]
    else [c]
  }

  function Escaped(s: string): string
  {
    if s == "" then "" else EscapedChar(s[0]) + Escaped(s[1..])
  }

  function Quoted(s: string): string
  {
    "\"" + Escaped(s) + "\""
  }

  function Comma(last: bool): string { if last then "" else "," }

  function PropertyText(p: Property, last: bool): string
  {
    "        { " + "\"name\": " + Quoted(p.name) + ", \"type\": " + Quoted(p.kind)
    + ", \"offset\": " + Signed(p.offset) + ", \"element_size\": " + Signed(p.elementSize)
    + ", \"array_dim\": " + Signed(p.arrayDim) + " }" + Comma(last) + "\n"
  }

  function FunctionText(f: Function, last: bool): string
  {
    "        { " + "\"name\": " + Quoted(f.name) + ", \"flags\": " + Digits(f.flags)
    + ", \"parameter_size\": " + Digits(f.parmsSize) + " }" + Comma(last) + "\n"
  }

  function PropertiesText(ps: seq<Property>): string
  {
    if ps == [] then "" else PropertyText(ps[0], |ps| == 1) + PropertiesText(ps[1..])
  }

  function FunctionsText(fs: seq<Function>): string
  {
    if fs == [] then "" else FunctionText(fs[0], |fs| == 1) + FunctionsText(fs[1..])
  }

  /** The name, super and size lines. */
  function ClassFront(c: Class): string
  {
    "    {\n" + "      \"name\": " + Quoted(c.name) + ",\n" + "      \"super\": " + Quoted(c.superName) + ",\n"
    + "      \"size\": " + Signed(c.size) + ",\n"
  }

  function ClassText(c: Class, last: bool): string
  {
    ClassFront(c)
    + "      \"properties\": [\n" + PropertiesText(c.properties) + "      ],\n"
    + "      \"functions\": [\n" + FunctionsText(c.functions) + "      ]\n"
    + "    }" + Comma(last) + "\n"
  }

  const FORMAT := "ue4-reflection-schema-v1"
  const SCOPE := "type metadata only; no object values"

  function Header(): string
  {
    "{\n" + "  \"format\": " + "\"" + FORMAT + "\"" + ",\n"
    + "  \"scope\": " + "\"" + SCOPE + "\"" + ",\n" + "  \"classes\": [\n"
  }

  /** The class list of the batch writer. */
  function BatchClasses(cs: seq<Class>): string
  {
    if cs == [] then "" else ClassText(cs[0], |cs| == 1) + BatchClasses(cs[1..])
  }

  function BatchText(cs: seq<Class>): string
  {
    Header() + BatchClasses(cs) + "  ]\n" + "}\n"
  }

  /** The class list of the streaming writer: every class is written as a last one. */
  function StreamTail(cs: seq<Class>): string
  {
    if cs == [] then "" else ",\n" + ClassText(cs[0], true) + StreamTail(cs[1..])
  }

  function StreamClasses(cs: seq<Class>): string
  {
    if cs == [] then "" else ClassText(cs[0], true) + StreamTail(cs[1..])
  }

  function StreamText(cs: seq<Class>): string
  {
    Header() + StreamClasses(cs) + "\n  ]\n}\n"
  }

  lemma {:induction false} StreamTailSnoc(cs: seq<Class>, c: Class)
    ensures StreamTail(cs + [c]) == StreamTail(cs) + ",\n" + ClassText(c, true)
  {
    hide ClassText;
    if cs != [] {
      StreamTailSnoc(cs[1..], c);
      assert (cs + [c])[1..] == cs[1..] + [c];
    }
  }

  lemma StreamClassesSnoc(cs: seq<Class>, c: Class)
    ensures StreamClasses(cs + [c]) == StreamClasses(cs) + (if cs == [] then "" else ",\n") + ClassText(c, true)
  {
    hide ClassText;
    if cs != [] {
      StreamTailSnoc(cs[1..], c);
      assert (cs + [c])[1..] == cs[1..] + [c];
    }
  }

  // ---- What it means ----

  function PropertyJson(p: Property): Json
  {
    Object([("name", String(p.name)), ("type", String(p.kind)), ("offset", Number(p.offset, 0)),
            ("element_size", Number(p.elementSize, 0)), ("array_dim", Number(p.arrayDim, 0))])
  }

  function FunctionJson(f: Function): Json
  {
    Object([("name", String(f.name)), ("flags", Number(f.flags, 0)), ("parameter_size", Number(f.parmsSize, 0))])
  }

  function PropertyJsons(ps: seq<Property>): seq<Json>
  {
    if ps == [] then [] else [PropertyJson(ps[0])] + PropertyJsons(ps[1..])
  }

  function FunctionJsons(fs: seq<Function>): seq<Json>
  {
    if fs == [] then [] else [FunctionJson(fs[0])] + FunctionJsons(fs[1..])
  }

  function ClassJson(c: Class): Json
  {
    Object([("name", String(c.name)), ("super", String(c.superName)), ("size", Number(c.size, 0)),
            ("properties", Array(PropertyJsons(c.properties))), ("functions", Array(FunctionJsons(c.functions)))])
  }

  function ClassJsons(cs: seq<Class>): seq<Json>
  {
    if cs == [] then [] else [ClassJson(cs[0])] + ClassJsons(cs[1..])
  }

  function SchemaJson(cs: seq<Class>): Json
  {
    Object([("format", String(FORMAT)),
            ("scope", String(SCOPE)),
            ("classes", Array(ClassJsons(cs)))])
  }
}
