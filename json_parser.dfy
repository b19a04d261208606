/**
 * JSON.parse (ECMA-262, section 25.5.1) over the values of JsonValue: white space is
 * space, tab, line feed and carriage return; string literals reject raw control
 * characters and decode the escapes \" \\ \/ \b \f \n \r \t \uXXXX; a repeated object
 * key keeps its first position and takes the last value; anything left after the value
 * other than white space is an error. Parse failures are None.
 */
module JsonParser {
  import opened Wrappers
  import opened Strings
  import opened JsonValue

  predicate IsJsonWhitespace(c: char) {
    c == ' ' || c == '\t' || c == '\n' || c == '\r'
  }

  function SkipWhitespace(s: string): (r: string)
    ensures |r| <= |s|
    ensures r != [] ==> !IsJsonWhitespace(r[0])
    decreases |s|
  {
    if s != [] && IsJsonWhitespace(s[0]) then SkipWhitespace(s[1..]) else s
  }

  /** The number of decimal digits at the start of `s`. */
  function DigitSpan(s: string): (k: nat)
    ensures k <= |s| && AllDigits(s[..k])
    ensures k < |s| ==> !IsDigit(s[k])
    decreases |s|
  {
    if s != [] && IsDigit(s[0]) then
      var k := 1 + DigitSpan(s[1..]);
      assert s[..k] == [s[0]] + s[1..][..k - 1];
      k
    else 0
  }

  /** An integer literal at the start of `s`: an optional minus sign, then either a single
      0 or a non-zero digit followed by further digits. */
  function ParseNumber(s: string): (r: Option<(int, string)>)
    ensures r.Some? ==> |r.value.1| < |s|
  {
    var negative := s != [] && s[0] == '-';
    var t := if negative then s[1..] else s;
    if t == [] || !IsDigit(t[0]) then None
    else
      var k := if t[0] == '0' then 1 else DigitSpan(t);
      var magnitude: int := DigitsValue(t[..k]);
      Some((if negative then -magnitude else magnitude, t[k..]))
  }

  function HexValue(c: char): Option<nat> {
    if '0' <= c <= '9' then Some(c as int - '0' as int)
    else if 'a' <= c <= 'f' then Some(c as int - 'a' as int + 10)
    else if 'A' <= c <= 'F' then Some(c as int - 'A' as int + 10)
    else None
  }

  /** The code unit written by four hexadecimal digits. */
  function Hex4(s: string): (r: Option<nat>)
    requires |s| == 4
    ensures r.Some? ==> r.value < 0x10000
  {
    match (HexValue(s[0]), HexValue(s[1]), HexValue(s[2]), HexValue(s[3]))
    case (Some(a), Some(b), Some(c), Some(d)) =>
      if a < 16 && b < 16 && c < 16 && d < 16 then Some(((a * 16 + b) * 16 + c) * 16 + d) else None
    case _ => None
  }

  /** The character an escape sequence stands for and the length of the sequence after
      its reverse solidus. A \u escape of a surrogate code unit is refused. */
  function DecodeEscape(s: string): (r: Option<(char, nat)>)
    ensures r.Some? ==> 1 <= r.value.1 <= |s|
  {
    if s == [] then None
    else if s[0] == '"' then Some(('"', 1))
    else if s[0] == '\\' then Some(('\\', 1))
    else if s[0] == '/' then Some(('/', 1))
    else if s[0] == 'b' then Some((0x08 as char, 1))
    else if s[0] == 'f' then Some((0x0C as char, 1))
    else if s[0] == 'n' then Some(('\n', 1))
    else if s[0] == 'r' then Some(('\r', 1))
    else if s[0] == 't' then Some(('\t', 1))
    else if s[0] == 'u' && |s| >= 5 then
      match Hex4(s[1..5])
      case Some(code) => if 0xD800 <= code < 0xE000 then None else Some((code as char, 5))
      case None => None
    else None
  }

  /** The contents of a string literal whose opening quotation mark has been read, and the
      text after its closing quotation mark. */
  function ParseStringBody(s: string): (r: Option<(string, string)>)
    ensures r.Some? ==> |r.value.1| < |s|
    decreases |s|
  {
    if s == [] then None
    else if s[0] == '"' then Some(("", s[1..]))
    else if s[0] == '\\' then
      match DecodeEscape(s[1..])
      case None => None
      case Some((c, n)) =>
        match ParseStringBody(s[1 + n..])
        case None => None
        case Some((t, rest)) => Some(([c] + t, rest))
    else if s[0] as int < 0x20 then None
    else
      match ParseStringBody(s[1..])
      case None => None
      case Some((t, rest)) => Some(([s[0]] + t, rest))
  }

  /** CreateDataProperty on the member list of an object under construction: a key seen
      before keeps its position and takes the new value, a new key goes last. */
  function SetMember(ms: seq<(string, Json)>, k: string, v: Json): (r: seq<(string, Json)>)
    decreases |ms|
  {
    if ms == [] then [(k, v)]
    else if ms[0].0 == k then [(k, v)] + ms[1..]
    else [ms[0]] + SetMember(ms[1..], k, v)
  }

  /** A value at the start of `s`, which has no leading white space, and the text after it. */
  function ParseValue(s: string): (r: Option<(Json, string)>)
    ensures r.Some? ==> |r.value.1| < |s|
    decreases |s|, 0
  {
    if s == [] then None
    else if s[0] == '{' then ParseObject(s[1..])
    else if s[0] == '[' then ParseArray(s[1..])
    else if s[0] == '"' then
      match ParseStringBody(s[1..])
      case None => None
      case Some((t, rest)) => Some((JString(t), rest))
    else if |s| >= 4 && s[..4] == "null" then Some((JNull, s[4..]))
    else if |s| >= 4 && s[..4] == "true" then Some((JBool(true), s[4..]))
    else if |s| >= 5 && s[..5] == "false" then Some((JBool(false), s[5..]))
    else
      match ParseNumber(s)
      case None => None
      case Some((n, rest)) => Some((JNumber(n), rest))
  }

  /** An array whose opening bracket has been read. */
  function ParseArray(s: string): (r: Option<(Json, string)>)
    ensures r.Some? ==> |r.value.1| < |s|
    decreases |s|, 2
  {
    var t := SkipWhitespace(s);
    if t != [] && t[0] == ']' then Some((JArray([]), t[1..]))
    else ParseElements(t, [])
  }

  /** The elements of an array from the one starting `s` on, appended to those in `acc`. */
  function ParseElements(s: string, acc: seq<Json>): (r: Option<(Json, string)>)
    ensures r.Some? ==> |r.value.1| < |s|
    decreases |s|, 1
  {
    match ParseValue(s)
    case None => None
    case Some((v, rest)) =>
      var t := SkipWhitespace(rest);
      if t == [] then None
      else if t[0] == ']' then Some((JArray(acc + [v]), t[1..]))
      else if t[0] == ',' then ParseElements(SkipWhitespace(t[1..]), acc + [v])
      else None
  }

  /** An object whose opening brace has been read. */
  function ParseObject(s: string): (r: Option<(Json, string)>)
    ensures r.Some? ==> |r.value.1| < |s|
    decreases |s|, 2
  {
    var t := SkipWhitespace(s);
    if t != [] && t[0] == '}' then Some((JObject([]), t[1..]))
    else ParseMembers(t, [])
  }

  /** The members of an object from the one starting `s` on, set into those in `acc`. */
  function ParseMembers(s: string, acc: seq<(string, Json)>): (r: Option<(Json, string)>)
    ensures r.Some? ==> |r.value.1| < |s|
    decreases |s|, 1
  {
    if s == [] || s[0] != '"' then None
    else
      match ParseStringBody(s[1..])
      case None => None
      case Some((k, afterKey)) =>
        var colon := SkipWhitespace(afterKey);
        if colon == [] || colon[0] != ':' then None
        else
          match ParseValue(SkipWhitespace(colon[1..]))
          case None => None
          case Some((v, rest)) =>
            var members := SetMember(acc, k, v);
            var t := SkipWhitespace(rest);
            if t == [] then None
            else if t[0] == '}' then Some((JObject(members), t[1..]))
            else if t[0] == ',' then ParseMembers(SkipWhitespace(t[1..]), members)
            else None
  }

  /** JSON.parse: one value, optionally surrounded by white space, and nothing else. */
  function Parse(s: string): Option<Json> {
    match ParseValue(SkipWhitespace(s))
    case None => None
    case Some((v, rest)) => if SkipWhitespace(rest) == [] then Some(v) else None
  }
}
