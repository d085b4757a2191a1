/** A reader of JSON texts, written from sections 2 to 7 of RFC 8259.
 *
 * Texts are strings; a char above 0x7F stands for itself, whether it is taken as one byte of a
 * UTF-8 sequence or as a whole character. */
module JsonGrammar {
  import opened Decimal
  import opened Wrappers

  datatype Json =
    | Null
    | Bool(b: bool)
    | Number(mantissa: int, exponent: int)   // mantissa * 10^exponent
    | String(s: string)
    | Array(items: seq<Json>)
    | Object(members: seq<(string, Json)>)

  datatype Parsed<T> = Fail | Got(value: T, rest: string)

  // ---- Whitespace and single characters (section 2) ----

  predicate IsSpace(c: char)
  {
    c == ' ' || c == '\t' || c == '\n' || c == '\r'
  }

  predicate AllSpace(s: string)
  {
    forall i :: 0 <= i < |s| ==> IsSpace(s[i])
  }

  function SkipSpace(s: string): (r: string)
    ensures |r| <= |s|
  {
    if s != "" && IsSpace(s[0]) then SkipSpace(s[1..]) else s
  }

  predicate StartsWith(s: string, c: char)
  {
    s != "" && s[0] == c
  }

  // ---- Values (section 3) ----

  function ParseValue(s: string): (r: Parsed<Json>)
    ensures r.Got? ==> |r.rest| < |s|
    decreases |s|, 3
  {
    var t := SkipSpace(s);
    if StartsWith(t, '"') then
      match ParseChars(t[1..])
      case Fail => Fail
      case Got(str, rest) => Got(String(str), rest)
    else if StartsWith(t, '{') then
      if StartsWith(SkipSpace(t[1..]), '}') then Got(Object([]), SkipSpace(t[1..])[1..])
      else
        match ParseMembers(t[1..])
        case Fail => Fail
        case Got(ms, rest) => Got(Object(ms), rest)
    else if StartsWith(t, '[') then
      if StartsWith(SkipSpace(t[1..]), ']') then Got(Array([]), SkipSpace(t[1..])[1..])
      else
        match ParseElements(t[1..])
        case Fail => Fail
        case Got(vs, rest) => Got(Array(vs), rest)
    else if "true" <= t then Got(Bool(true), t[4..])
    else if "false" <= t then Got(Bool(false), t[5..])
    else if "null" <= t then Got(Null, t[4..])
    else ParseNumber(t)
  }

  // ---- Objects (section 4) and arrays (section 5) ----

  function ParseMembers(s: string): (r: Parsed<seq<(string, Json)>>)
    ensures r.Got? ==> |r.rest| < |s|
    decreases |s|, 2
  {
    var t := SkipSpace(s);
    if !StartsWith(t, '"') then Fail
    else
      match ParseChars(t[1..])
      case Fail => Fail
      case Got(key, afterKey) =>
        var u := SkipSpace(afterKey);
        if !StartsWith(u, ':') then Fail
        else
          match ParseValue(u[1..])
          case Fail => Fail
          case Got(v, afterValue) =>
            var w := SkipSpace(afterValue);
            if StartsWith(w, '}') then Got([(key, v)], w[1..])
            else if StartsWith(w, ',') then
              match ParseMembers(w[1..])
              case Fail => Fail
              case Got(more, rest) => Got([(key, v)] + more, rest)
            else Fail
  }

  function ParseElements(s: string): (r: Parsed<seq<Json>>)
    ensures r.Got? ==> |r.rest| < |s|
    decreases |s|, 4
  {
    match ParseValue(s)
    case Fail => Fail
    case Got(v, afterValue) =>
      var w := SkipSpace(afterValue);
      if StartsWith(w, ']') then Got([v], w[1..])
      else if StartsWith(w, ',') then
        match ParseElements(w[1..])
        case Fail => Fail
        case Got(more, rest) => Got([v] + more, rest)
      else Fail
  }

  // ---- Numbers (section 6) ----

  function ParseNumber(s: string): (r: Parsed<Json>)
    ensures r.Got? ==> |r.rest| < |s|
  {
    if StartsWith(s, '-') then
      match ParseUnsigned(s[1..])
      case Fail => Fail
      case Got(v, rest) => Got(Number(-v.mantissa, v.exponent), rest)
    else ParseUnsigned(s)
  }

  function ParseUnsigned(s: string): (r: Parsed<Json>)
    ensures r.Got? ==> |r.rest| < |s| && r.value.Number?
  {
    if s == "" || !IsDigit(s[0]) then Fail
    else
      var whole := if s[0] == '0' then "0" else TakeDigits(s);
      var u := s[|whole|..];
      var fraction := if StartsWith(u, '.') then TakeDigits(u[1..]) else "";
      if StartsWith(u, '.') && fraction == "" then Fail
      else
        var w := if StartsWith(u, '.') then u[1 + |fraction|..] else u;
        match ParseExponent(w)
        case Fail => Fail
        case Got(e, rest) => Got(Number(ValueOf(whole + fraction), e - |fraction|), rest)
  }

  function ParseExponent(s: string): (r: Parsed<int>)
    ensures r.Got? ==> |r.rest| <= |s|
  {
    if !(StartsWith(s, 'e') || StartsWith(s, 'E')) then Got(0, s)
    else
      var signed := StartsWith(s[1..], '+') || StartsWith(s[1..], '-');
      var t := if signed then s[2..] else s[1..];
      var digits := TakeDigits(t);
      if digits == "" then Fail
      else
        var n: int := ValueOf(digits);
        Got(if StartsWith(s[1..], '-') then -n else n, t[|digits|..])
  }

  // ---- Strings (section 7), after the opening quotation mark ----

  function ParseChars(s: string): (r: Parsed<string>)
    ensures r.Got? ==> |r.rest| < |s|
  {
    if s == "" then Fail
    else if s[0] == '"' then Got("", s[1..])
    else if s[0] == '\\' then
      match ParseEscape(s[1..])
      case Fail => Fail
      case Got(c, rest) => Prepend([c], ParseChars(rest))
    else if s[0] as int < 0x20 then Fail
    else Prepend([s[0]], ParseChars(s[1..]))
  }

  function Prepend(c: string, r: Parsed<string>): Parsed<string>
  {
    match r
    case Fail => Fail
    case Got(str, rest) => Got(c + str, rest)
  }

  /** The escape after a reverse solidus; a surrogate must come as a pair. */
  function ParseEscape(s: string): (r: Parsed<char>)
    ensures r.Got? ==> |r.rest| < |s|
  {
    if s == "" then Fail
    else match s[0]
      case '"' => Got('"', s[1..])
      case '\\' => Got('\\', s[1..])
      case '/' => Got('/', s[1..])
      case 'b' => Got(8 as char, s[1..])
      case 'f' => Got(12 as char, s[1..])
      case 'n' => Got('\n', s[1..])
      case 'r' => Got('\r', s[1..])
      case 't' => Got('\t', s[1..])
      case 'u' =>
        (match FourHex(s[1..])
         case None => Fail
         case Some(h) =>
           if !(0xD800 <= h < 0xE000) then Got(h as char, s[5..])
           else if h < 0xDC00 && "\\u" <= s[5..] then
             match FourHex(s[7..])
             case None => Fail
             case Some(l) =>
               if 0xDC00 <= l < 0xE000 then
                 Got((0x10000 + (h - 0xD800) * 0x400 + (l - 0xDC00)) as char, s[11..])
               else Fail
           else Fail)
      case _ => Fail
  }

  function FourHex(s: string): (r: Option<nat>)
    ensures r.Some? ==> |s| >= 4 && r.value < 0x10000
  {
    if |s| < 4 || HexValue(s[0]).None? || HexValue(s[1]).None? || HexValue(s[2]).None? || HexValue(s[3]).None? then None
    else Some(HexValue(s[0]).value * 0x1000 + HexValue(s[1]).value * 0x100
              + HexValue(s[2]).value * 0x10 + HexValue(s[3]).value)
  }

  function HexValue(c: char): (r: Option<nat>)
    ensures r.Some? ==> r.value < 16
  {
    if '0' <= c <= '9' then Some(c as int - '0' as int)
    else if 'a' <= c <= 'f' then Some(c as int - 'a' as int + 10)
    else if 'A' <= c <= 'F' then Some(c as int - 'A' as int + 10)
    else None
  }

  /** A JSON text: one value with whitespace around it. */
  function ParseText(s: string): Option<Json>
  {
    match ParseValue(s)
    case Fail => None
    case Got(v, rest) => if SkipSpace(rest) == "" then Some(v) else None
  }
}
