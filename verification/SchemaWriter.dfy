/** The two schema writers of source/daemon/ue4_json.c, over a stream whose writes may fail.
 *
 * fprintf's results are not checked by the source; a failed write shows only in the stream's
 * error flag. fputc and fputs inside a quoted string are checked and end the writing. */
module SchemaWriter {
  import opened Decimal
  import opened SchemaText

  /** How a file behaves: which bytes of what is written to it it takes, and whether fflush and fclose succeed. */
  datatype Medium = Medium(takes: nat -> bool, flush: bool, close: bool)

  predicate TakesAll(medium: Medium, from: nat, to: nat)
  {
    forall k: nat | from <= k < to :: medium.takes(k)
  }

  /** A FILE opened for writing: what has been written, how much was offered, and ferror. */
  class Stream {
    const medium: Medium
    var data: string
    var offered: nat
    var error: bool
    ghost var intended: string   // what would have been written had nothing failed
    ghost var refused: nat       // the first byte not taken, once there is one

    ghost predicate Valid()
      reads this
    {
      && offered == |intended|
      && (!error ==> data == intended && TakesAll(medium, 0, offered))
      && (error ==> refused < offered && !medium.takes(refused))
    }

    constructor (medium: Medium)
      ensures Valid() && !error && intended == "" && this.medium == medium
    {
      this.medium := medium;
      data, offered, error, intended := "", 0, false, "";
    }

    /** fputc, fputs and fprintf: they fail when one of their bytes is not taken. */
    method Put(x: string) returns (ok: bool)
      requires Valid()
      modifies this
      ensures Valid() && intended == old(intended) + x
      ensures ok == TakesAll(medium, old(offered), offered)
      ensures error == (old(error) || !ok) && (old(error) ==> refused == old(refused))
    {
      ok := TakesAll(medium, offered, offered + |x|);
      intended := intended + x;
      if ok {
        data := data + x;
      } else {
        if !error {
          ghost var k: nat :| offered <= k < offered + |x| && !medium.takes(k);
          refused := k;
        }
        error := true;
      }
      offered := offered + |x|;
    }

    /** fflush. */
    method Flush() returns (ok: bool)
      ensures ok == medium.flush
    {
      ok := medium.flush;
    }

    /** fclose. */
    method Close() returns (ok: bool)
      ensures ok == medium.close
    {
      ok := medium.close;
    }
  }

  /** What was flagged stays flagged. */
  twostate predicate StillFlagged(out: Stream)
    reads out
  {
    old(out.error) ==> out.error && out.refused == old(out.refused)
  }

  /** An unchecked fprintf. `was` and `t` say where the stream stands: at was + t. */
  method Print(out: Stream, x: string, ghost was: string, ghost t: string) returns (ghost t': string)
    requires out.Valid() && out.intended == was + t
    modifies out
    ensures out.Valid() && StillFlagged(out)
    ensures t' == t + x && out.intended == was + t'
  {
    var _ := out.Put(x);
    t' := t + x;
  }

  /** The stream went on by `text`, or part of it; what failed on the way is flagged. */
  twostate predicate Wrote(out: Stream, res: int, text: string)
    reads out
  {
    && out.Valid() && StillFlagged(out)
    && (res == 0 || (res == -1 && out.error))
    && (res == 0 ==> out.intended == old(out.intended) + text)
    && |out.intended| <= |old(out.intended)| + |text|
  }

  /** The switch of json_write_escaped. */
  method WriteChar(out: Stream, c: char) returns (ok: bool)
    requires out.Valid()
    modifies out
    ensures out.Valid() && out.intended == old(out.intended) + EscapedChar(c)
    ensures out.error == (old(out.error) || !ok) && StillFlagged(out)
  {
    match c {
      case '"' => ok := out.Put("\\\"");
      case '\\' => ok := out.Put("\\\\");
      case '\n' => ok := out.Put("\\n");
      case '\r' => ok := out.Put("\\r");
      case '\t' => ok := out.Put("\\t");
      case _ =>
        if c as int == 8 {
          ok := out.Put("\\b");
        } else if c as int == 12 {
          ok := out.Put("\\f");
        } else if c as int < 0x20 {
          ok := out.Put("\\u00" + [HexChar(c as int / 16), HexChar(c as int % 16)]);
        } else {
          ok := out.Put([c]);
        }
    }
  }

  /** json_write_escaped. */
  method WriteEscaped(out: Stream, s: string) returns (res: int)
    requires out.Valid()
    modifies out
    ensures Wrote(out, res, Quoted(s))
  {
    hide EscapedChar;
    var ok := out.Put("\"");
    if !ok { return -1; }
    var i := 0;
    while i < |s|
      invariant i <= |s| && out.Valid() && StillFlagged(out)
      invariant out.intended + Escaped(s[i..]) == old(out.intended) + "\"" + Escaped(s)
    {
      assert s[i..][1..] == s[i + 1..];
      ok := WriteChar(out, s[i]);
      if !ok { return -1; }
      i := i + 1;
    }
    assert out.intended == old(out.intended) + "\"" + Escaped(s);
    ok := out.Put("\"");
    if !ok { return -1; }
    assert out.intended == old(out.intended) + Quoted(s);
    return 0;
  }

  /** json_write_escaped in the middle of a text. */
  method PrintQuoted(out: Stream, s: string, ghost was: string, ghost t: string) returns (res: int, ghost t': string)
    requires out.Valid() && out.intended == was + t
    modifies out
    ensures out.Valid() && StillFlagged(out) && (res == 0 || (res == -1 && out.error))
    ensures t' == t + Quoted(s) && |out.intended| <= |was| + |t'| && (res == 0 ==> out.intended == was + t')
  {
    hide Quoted;
    res := WriteEscaped(out, s);
    t' := t + Quoted(s);
  }

  /** json_write_property. */
  method WriteProperty(out: Stream, p: Property, last: bool) returns (res: int)
    requires out.Valid()
    modifies out
    ensures Wrote(out, res, PropertyText(p, last))
  {
    hide Quoted, Signed, Comma;
    ghost var was, t := out.intended, "        { ";
    var _ := out.Put("        { ");
    t := Print(out, "\"name\": ", was, t);
    res, t := PrintQuoted(out, p.name, was, t);
    if res < 0 { return -1; }
    t := Print(out, ", \"type\": ", was, t);
    res, t := PrintQuoted(out, p.kind, was, t);
    if res < 0 { return -1; }
    t := PrintNumber(out, ", \"offset\": ", p.offset, was, t);
    t := PrintNumber(out, ", \"element_size\": ", p.elementSize, was, t);
    t := PrintNumber(out, ", \"array_dim\": ", p.arrayDim, was, t);
    t := PrintLast(out, " }", Comma(last), was, t);
    return 0;
  }

  /** fprintf(fp, "<label>%d", n); the %u of the source prints as %d does, its arguments being unsigned. */
  method PrintNumber(out: Stream, lead: string, n: int, ghost was: string, ghost t: string) returns (ghost t': string)
    requires out.Valid() && out.intended == was + t
    modifies out
    ensures out.Valid() && StillFlagged(out)
    ensures t' == t + lead + Signed(n) && out.intended == was + t'
  {
    var _ := out.Put(lead + Signed(n));
    t' := t + lead + Signed(n);
  }

  /** fprintf(fp, "<close>%s\n", comma). */
  method PrintLast(out: Stream, close: string, comma: string, ghost was: string, ghost t: string)
    returns (ghost t': string)
    requires out.Valid() && out.intended == was + t
    modifies out
    ensures out.Valid() && StillFlagged(out)
    ensures t' == t + close + comma + "\n" && out.intended == was + t'
  {
    var _ := out.Put(close + comma + "\n");
    t' := t + close + comma + "\n";
  }

  /** json_write_function. */
  method WriteFunction(out: Stream, f: Function, last: bool) returns (res: int)
    requires out.Valid()
    modifies out
    ensures Wrote(out, res, FunctionText(f, last))
  {
    hide Quoted, Digits, Comma;
    ghost var was, t := out.intended, "        { ";
    var _ := out.Put("        { ");
    t := Print(out, "\"name\": ", was, t);
    res, t := PrintQuoted(out, f.name, was, t);
    if res < 0 { return -1; }
    t := PrintNumber(out, ", \"flags\": ", f.flags, was, t);
    t := PrintNumber(out, ", \"parameter_size\": ", f.parmsSize, was, t);
    t := PrintLast(out, " }", Comma(last), was, t);
    return 0;
  }

  method WriteProperties(out: Stream, ps: seq<Property>) returns (res: int)
    requires out.Valid()
    modifies out
    ensures Wrote(out, res, PropertiesText(ps))
  {
    hide PropertyText;
    var i := 0;
    while i < |ps|
      invariant i <= |ps| && out.Valid() && StillFlagged(out)
      invariant out.intended + PropertiesText(ps[i..]) == old(out.intended) + PropertiesText(ps)
    {
      assert ps[i..][1..] == ps[i + 1..];
      res := WriteProperty(out, ps[i], i == |ps| - 1);
      if res < 0 { return -1; }
      i := i + 1;
    }
    return 0;
  }

  method WriteFunctions(out: Stream, fs: seq<Function>) returns (res: int)
    requires out.Valid()
    modifies out
    ensures Wrote(out, res, FunctionsText(fs))
  {
    hide FunctionText;
    var i := 0;
    while i < |fs|
      invariant i <= |fs| && out.Valid() && StillFlagged(out)
      invariant out.intended + FunctionsText(fs[i..]) == old(out.intended) + FunctionsText(fs)
    {
      assert fs[i..][1..] == fs[i + 1..];
      res := WriteFunction(out, fs[i], i == |fs| - 1);
      if res < 0 { return -1; }
      i := i + 1;
    }
    return 0;
  }

  /** json_write_class. */
  method WriteClass(out: Stream, c: Class, last: bool) returns (res: int)
    requires out.Valid()
    modifies out
    ensures Wrote(out, res, ClassText(c, last))
  {
    hide PropertiesText, FunctionsText, Comma, ClassFront;
    res := WriteClassFront(out, c);
    if res < 0 { return -1; }
    ghost var was, t := old(out.intended), ClassFront(c);
    t := Print(out, "      \"properties\": [\n", was, t);
    res, t := PrintProperties(out, c.properties, was, t);
    if res < 0 { return -1; }
    t := Print(out, "      ],\n", was, t);
    t := Print(out, "      \"functions\": [\n", was, t);
    res, t := PrintFunctions(out, c.functions, was, t);
    if res < 0 { return -1; }
    t := Print(out, "      ]\n", was, t);
    t := PrintLast(out, "    }", Comma(last), was, t);
    return 0;
  }

  method WriteClassFront(out: Stream, c: Class) returns (res: int)
    requires out.Valid()
    modifies out
    ensures Wrote(out, res, ClassFront(c))
  {
    hide Quoted, Signed;
    ghost var was, t := out.intended, "    {\n";
    var _ := out.Put("    {\n");
    t := Print(out, "      \"name\": ", was, t);
    res, t := PrintQuoted(out, c.name, was, t);
    if res < 0 { return -1; }
    t := Print(out, ",\n", was, t);
    t := Print(out, "      \"super\": ", was, t);
    res, t := PrintQuoted(out, c.superName, was, t);
    if res < 0 { return -1; }
    t := Print(out, ",\n", was, t);
    t := PrintNumber(out, "      \"size\": ", c.size, was, t);
    t := Print(out, ",\n", was, t);
    return 0;
  }

  method PrintProperties(out: Stream, ps: seq<Property>, ghost was: string, ghost t: string)
    returns (res: int, ghost t': string)
    requires out.Valid() && out.intended == was + t
    modifies out
    ensures out.Valid() && StillFlagged(out) && (res == 0 || (res == -1 && out.error))
    ensures t' == t + PropertiesText(ps) && |out.intended| <= |was| + |t'| && (res == 0 ==> out.intended == was + t')
  {
    hide PropertiesText;
    res := WriteProperties(out, ps);
    t' := t + PropertiesText(ps);
  }

  method PrintFunctions(out: Stream, fs: seq<Function>, ghost was: string, ghost t: string)
    returns (res: int, ghost t': string)
    requires out.Valid() && out.intended == was + t
    modifies out
    ensures out.Valid() && StillFlagged(out) && (res == 0 || (res == -1 && out.error))
    ensures t' == t + FunctionsText(fs) && |out.intended| <= |was| + |t'| && (res == 0 ==> out.intended == was + t')
  {
    hide FunctionsText;
    res := WriteFunctions(out, fs);
    t' := t + FunctionsText(fs);
  }

  method WriteHeader(out: Stream)
    requires out.Valid()
    modifies out
    ensures Wrote(out, 0, Header())
  {
    ghost var was, t := out.intended, "{\n";
    var _ := out.Put("{\n");
    t := PrintLine(out, "  \"format\": ", FORMAT, was, t);
    t := PrintLine(out, "  \"scope\": ", SCOPE, was, t);
    t := Print(out, "  \"classes\": [\n", was, t);
  }

  method PrintLine(out: Stream, lead: string, x: string, ghost was: string, ghost t: string) returns (ghost t': string)
    requires out.Valid() && out.intended == was + t
    modifies out
    ensures out.Valid() && StillFlagged(out)
    ensures t' == t + lead + "\"" + x + "\"" + ",\n" && out.intended == was + t'
  {
    var _ := out.Put(lead + "\"" + x + "\"" + ",\n");
    t' := t + lead + "\"" + x + "\"" + ",\n";
  }

  // ---- The batch writer ----

  /**
   * ue4j_write on a freshly opened file. The error flag is not looked at: 0 vouches for the text only
   * where no unchecked fprintf failed, and is always returned when all of the text is taken and flushed.
   */
  method WriteSchema(out: Stream, cs: seq<Class>) returns (res: int)
    requires out.Valid() && out.intended == ""
    modifies out
    ensures out.Valid() && (res == 0 || res == -1)
    ensures res == 0 ==> out.intended == BatchText(cs) && (!out.error ==> out.data == BatchText(cs))
    ensures res == 0 && !out.error <==> TakesAll(out.medium, 0, |BatchText(cs)|) && out.medium.flush
    ensures res == -1 <==> !out.medium.flush || out.intended != BatchText(cs)
  {
    hide Header, ClassText;
    WriteHeader(out);
    var i := 0;
    while i < |cs|
      invariant i <= |cs| && out.Valid()
      invariant out.intended + BatchClasses(cs[i..]) == Header() + BatchClasses(cs)
    {
      assert cs[i..][1..] == cs[i + 1..];
      res := WriteClass(out, cs[i], i == |cs| - 1);
      if res < 0 { return -1; }
      i := i + 1;
    }
    var _ := out.Put("  ]\n");
    var _ := out.Put("}\n");
    var ok := out.Flush();
    return if ok then 0 else -1;
  }

  // ---- The streaming writer ----

  /** ue4j_writer_t. `written` lists the classes whose writing succeeded. */
  class Writer {
    const out: Stream
    var count: int
    ghost var written: seq<Class>

    ghost predicate Valid()
      reads this, out
    {
      && out.Valid() && count == |written|
      && (!out.error ==> out.intended == Header() + StreamClasses(written))
    }

    /** ue4j_writer_open, once the file is open. */
    constructor (out: Stream)
      requires out.Valid() && !out.error && out.intended == ""
      modifies out
      ensures this.out == out && Valid() && written == []
      ensures out.error ==> out.refused < |Header()|
    {
      this.out := out;
      count, written := 0, [];
      new;
      WriteHeader(out);
    }

    /** ue4j_writer_write_class. */
    method Add(c: Class) returns (res: int)
      requires Valid()
      modifies this, out
      ensures Valid() && StillFlagged(out)
      ensures res == 0 ==> written == old(written) + [c]
      ensures res != 0 ==> written == old(written) && out.error
      ensures !old(out.error) && out.error ==> out.refused < |Header()| + |StreamClasses(old(written) + [c])|
    {
      hide Header, ClassText, StreamClasses;
      StreamClassesSnoc(written, c);
      if count > 0 {
        var _ := out.Put(",\n");
      }
      res := WriteClass(out, c, true);
      if res == 0 {
        count, written := count + 1, written + [c];
      }
    }

    /** ue4j_writer_close: a count, exactly when the whole text was taken, flushed and closed, else -1. */
    method Close() returns (n: int)
      requires Valid()
      modifies this, out
      ensures out.Valid() && written == old(written) && StillFlagged(out)
      ensures n == -1 || n == |written|
      ensures n >= 0 <==> !out.error && out.medium.flush && out.medium.close
      ensures !old(out.error) && out.error ==> out.refused < |StreamText(written)|
      ensures !out.error ==> out.data == StreamText(written) && TakesAll(out.medium, 0, |StreamText(written)|)
    {
      hide Header, StreamClasses;
      var count' := count;
      var _ := out.Put("\n  ]\n}\n");
      var flushed := out.Flush();
      if !flushed || out.error {
        count' := -1;
      }
      var closed := out.Close();
      if !closed {
        count' := -1;
      }
      return count';
    }
  }
}
