/**
 * JSON values as JSON.parse produces them, and JSON.stringify(value, null, 2), the
 * pretty-printer with a two-space indentation step used for the document returned by
 * modifyJson and for the three working structures embedded in the schema prompt
 * (ECMA-262, section 25.5.2, SerializeJSONProperty with gap "  ").
 * Numbers are integers only; see the README for what that leaves out.
 */
module JsonValue {
  import opened Strings

  datatype Json =
    | JNull
    | JBool(b: bool)
    | JNumber(n: int)
    | JString(s: string)
    | JArray(elements: seq<Json>)
    | JObject(members: seq<(string, Json)>)

  /** No two members of an object share a key. */
  predicate DistinctKeys(ms: seq<(string, Json)>) {
    forall i, j :: 0 <= i < j < |ms| ==> ms[i].0 != ms[j].0
  }

  /** Every object inside `v`, at any depth, has distinct keys: the values that a parsed
      JavaScript object can stand for. */
  predicate WellFormed(v: Json) {
    match v
    case JArray(es) => forall i | 0 <= i < |es| :: WellFormed(es[i])
    case JObject(ms) =>
      && DistinctKeys(ms)
      && forall i | 0 <= i < |ms| :: (assert ms[i].1 < ms[i]; WellFormed(ms[i].1))
    case _ => true
  }

  function HexDigit(d: nat): (c: char)
    requires d < 16
  {
    "0123456789abcdef"[d]
  }

  /** QuoteJSONString's escaping of one character: the two-character escapes for
      backspace, tab, line feed, form feed, carriage return, quotation mark and reverse
      solidus, a lower-case \u00XX escape for the remaining control characters, and the
      character itself otherwise. */
  function EscapeChar(c: char): string {
    if c == '"' then "\\\""
    else if c == '\\' then "\\\\"
    else if c as int == 0x08 then "\\b"
    else if c as int == 0x0C then "\\f"
    else if c == '\n' then "\\n"
    else if c == '\r' then "\\r"
    else if c == '\t' then "\\t"
    else if c as int < 0x20 then "\\u00" + [HexDigit(c as int / 16), HexDigit(c as int % 16)]
    else [c]
  }

  function Escape(s: string): string
    decreases |s|
  {
    if s == [] then "" else EscapeChar(s[0]) + Escape(s[1..])
  }

  /** A JSON string literal for `s`. */
  function Quote(s: string): string {
    "\"" + Escape(s) + "\""
  }

  /** The indentation of nesting level `level`: the gap "  " repeated. */
  function Indent(level: nat): string {
    if level == 0 then "" else "  " + Indent(level - 1)
  }

  function NumberText(n: int): string {
    if n < 0 then "-" + NatToDecimal(-n) else NatToDecimal(n)
  }

  /** JSON.stringify(v, null, 2) for a value nested `level` deep: empty arrays and objects
      print as [] and {}; otherwise each element or member goes on its own line, indented
      one step deeper than the bracket, a member's key followed by ": ". */
  function Print(v: Json, level: nat): string
    decreases v, 1
  {
    match v
    case JNull => "null"
    case JBool(b) => if b then "true" else "false"
    case JNumber(n) => NumberText(n)
    case JString(s) => Quote(s)
    case JArray(es) =>
      if es == [] then "[]"
      else "[" + "\n" + Indent(level + 1) + PrintElements(es, level + 1) + "\n" + Indent(level) + "]"
    case JObject(ms) =>
      if ms == [] then "{}"
      else "{" + "\n" + Indent(level + 1) + PrintMembers(ms, level + 1) + "\n" + Indent(level) + "}"
  }

  function PrintElements(es: seq<Json>, level: nat): string
    requires es != []
    decreases es, 0
  {
    Print(es[0], level) + (if |es| == 1 then "" else "," + "\n" + Indent(level) + PrintElements(es[1..], level))
  }

  function PrintMembers(ms: seq<(string, Json)>, level: nat): string
    requires ms != []
    decreases ms, 0
  {
    assert ms[0].1 < ms[0];
    Quote(ms[0].0) + ": " + Print(ms[0].1, level)
    + (if |ms| == 1 then "" else "," + "\n" + Indent(level) + PrintMembers(ms[1..], level))
  }

  /** JSON.stringify(v, null, 2) at the top level. */
  function Stringify(v: Json): string {
    Print(v, 0)
  }
}
