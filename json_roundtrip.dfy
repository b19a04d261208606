/**
 * JSON.parse and JSON.stringify(value, null, 2) are inverse on the values JSON.parse
 * yields: parsing the pretty-printed text of a value gives the value back, and every
 * parsed value is one whose objects have distinct keys.
 */
module JsonRoundTrip {
  import opened Wrappers
  import opened Strings
  import opened JsonValue
  import opened JsonParser
  import opened JsonParseFacts

  /** A text that can follow a printed value without being read as part of it. */
  predicate Delimited(rest: string) {
    rest == [] || !IsDigit(rest[0])
  }

  predicate AllWhitespace(w: string) {
    forall k :: 0 <= k < |w| ==> IsJsonWhitespace(w[k])
  }

  lemma {:induction false} SkipWhitespacePrefix(w: string, x: string)
    requires AllWhitespace(w)
    ensures SkipWhitespace(w + x) == SkipWhitespace(x)
    decreases |w|
  {
    if w != [] {
      assert (w + x)[1..] == w[1..] + x;
      SkipWhitespacePrefix(w[1..], x);
    } else {
      assert w + x == x;
    }
  }

  lemma {:induction false} IndentIsWhitespace(level: nat)
    ensures AllWhitespace(Indent(level))
    decreases level
  {
    if level > 0 {
      IndentIsWhitespace(level - 1);
    }
  }

  /** Skipping a line break and an indentation lands on the text that follows them. */
  lemma SkipLineBreak(level: nat, x: string)
    requires x != [] && !IsJsonWhitespace(x[0])
    ensures SkipWhitespace("\n" + (Indent(level) + x)) == x
  {
    IndentIsWhitespace(level);
    SkipWhitespacePrefix(Indent(level), x);
    assert ("\n" + (Indent(level) + x))[1..] == Indent(level) + x;
  }

  lemma Assoc(a: string, b: string, c: string)
    ensures a + b + c == a + (b + c)
  {
  }

  /** A character that can open a value: never white space, a closing bracket or a comma. */
  predicate TokenStart(c: char) {
    c == 'n' || c == 't' || c == 'f' || c == '-' || IsDigit(c) || c == '"' || c == '[' || c == '{'
  }

  /** Printed text starts with the first character of a token, never with white space. */
  lemma PrintStart(v: Json, level: nat)
    ensures Print(v, level) != []
    ensures TokenStart(Print(v, level)[0])
  {
    match v
    case JNumber(n) =>
      var d := if n < 0 then NatToDecimal(-n) else NatToDecimal(n);
      assert IsDigit(d[0]);
    case _ =>
  }

  lemma {:induction false} DigitSpanOfDigits(d: string, rest: string)
    requires AllDigits(d) && Delimited(rest)
    ensures DigitSpan(d + rest) == |d|
    decreases |d|
  {
    if d != [] {
      assert (d + rest)[1..] == d[1..] + rest;
      DigitSpanOfDigits(d[1..], rest);
    } else {
      assert d + rest == rest;
    }
  }

  /** A value starting with a minus sign or a digit is read as a number. */
  lemma ParseValueNumber(s: string)
    requires s != [] && (s[0] == '-' || IsDigit(s[0]))
    ensures ParseValue(s) ==
      match ParseNumber(s)
      case None => None
      case Some((n, rest)) => Some((JNumber(n), rest))
  {
    NotLiteral(s);
  }

  /** Text starting with a minus sign or a digit is none of the three literals. */
  lemma NotLiteral(s: string)
    requires s != [] && (s[0] == '-' || IsDigit(s[0]))
    ensures |s| >= 4 ==> s[..4] != "null" && s[..4] != "true"
    ensures |s| >= 5 ==> s[..5] != "false"
  {
    if |s| >= 4 {
      assert s[..4][0] == s[0];
    }
    if |s| >= 5 {
      assert s[..5][0] == s[0];
    }
  }

  lemma NumberTextParse(n: int, rest: string)
    requires Delimited(rest)
    ensures NumberText(n) + rest != []
    ensures (NumberText(n) + rest)[0] == '-' || IsDigit((NumberText(n) + rest)[0])
    ensures ParseNumber(NumberText(n) + rest) == Some((n, rest))
  {
    var d := if n < 0 then NatToDecimal(-n) else NatToDecimal(n);
    var t := d + rest;
    assert NumberText(n) + rest == if n < 0 then "-" + t else t;
    DigitsSplit(d, rest);
    DecimalRoundTrip(if n < 0 then -n else n);
  }

  /** The digits of a printed magnitude are read back up to the delimiter after them. */
  lemma DigitsSplit(d: string, rest: string)
    requires d != [] && AllDigits(d) && (d[0] == '0' ==> d == "0") && Delimited(rest)
    ensures (d + rest)[0] == d[0]
    ensures (if d[0] == '0' then 1 else DigitSpan(d + rest)) == |d|
    ensures (d + rest)[..|d|] == d && (d + rest)[|d|..] == rest
  {
    var t := d + rest;
    if t[0] != '0' {
      DigitSpanOfDigits(d, rest);
    }
    assert t[..|d|] == d && t[|d|..] == rest;
  }

  lemma NumberRoundTrip(n: int, rest: string)
    requires Delimited(rest)
    ensures ParseValue(NumberText(n) + rest) == Some((JNumber(n), rest))
  {
    NumberTextParse(n, rest);
    ParseValueNumber(NumberText(n) + rest);
  }

  /** Reading one escaped character gives the character back and continues after it. */
  lemma EscapeCharRoundTrip(c: char, x: string)
    ensures ParseStringBody(EscapeChar(c) + x) ==
      match ParseStringBody(x)
      case None => None
      case Some((t, rest)) => Some(([c] + t, rest))
  {
    var s := EscapeChar(c) + x;
    if c == '"' || c == '\\' || c as int == 0x08 || c as int == 0x0C || c == '\n' || c == '\r' || c == '\t' {
      assert s[0] == '\\' && s[2..] == x;
      assert DecodeEscape(s[1..]) == Some((c, 1));
    } else if c as int < 0x20 {
      UnicodeEscapeRoundTrip(c, x);
    } else {
      assert s[0] == c && s[1..] == x;
    }
  }

  /** A control character without a two-character escape is written as \u00XX and read
      back from it. */
  lemma UnicodeEscapeRoundTrip(c: char, x: string)
    requires c as int < 0x20
    requires !(c as int == 0x08 || c as int == 0x0C || c == '\n' || c == '\r' || c == '\t')
    ensures |EscapeChar(c) + x| >= 6 && (EscapeChar(c) + x)[0] == '\\'
    ensures DecodeEscape((EscapeChar(c) + x)[1..]) == Some((c, 5))
    ensures (EscapeChar(c) + x)[6..] == x
  {
    var hi, lo := c as int / 16, c as int % 16;
    var e := "\\u00" + [HexDigit(hi), HexDigit(lo)];
    var s := EscapeChar(c) + x;
    assert s == e + x && |e| == 6;
    HexEscapeValue(hi, lo);
    assert s[1..][1..5] == "00" + [HexDigit(hi), HexDigit(lo)];
    assert (c as int) as char == c;
    assert s[6..] == x;
  }

  lemma HexEscapeValue(hi: nat, lo: nat)
    requires hi < 16 && lo < 16
    ensures Hex4("00" + [HexDigit(hi), HexDigit(lo)]) == Some((hi * 16 + lo))
  {
    var u := "00" + [HexDigit(hi), HexDigit(lo)];
    HexDigitValue(hi);
    HexDigitValue(lo);
    assert u[0] == '0' && u[1] == '0' && u[2] == HexDigit(hi) && u[3] == HexDigit(lo);
  }

  lemma HexDigitValue(d: nat)
    requires d < 16
    ensures HexValue(HexDigit(d)) == Some(d)
  {
  }

  lemma {:induction false} StringRoundTrip(s: string, rest: string)
    ensures ParseStringBody(Escape(s) + "\"" + rest) == Some((s, rest))
    decreases |s|
  {
    if s == [] {
      assert Escape(s) + "\"" + rest == "\"" + rest;
    } else {
      var x := Escape(s[1..]) + "\"" + rest;
      assert Escape(s) + "\"" + rest == EscapeChar(s[0]) + x;
      StringRoundTrip(s[1..], rest);
      EscapeCharRoundTrip(s[0], x);
      assert [s[0]] + s[1..] == s;
    }
  }

  lemma QuoteRoundTrip(s: string, rest: string)
    ensures ParseValue(Quote(s) + rest) == Some((JString(s), rest))
  {
    var x := Quote(s) + rest;
    assert x[1..] == Escape(s) + "\"" + rest;
    StringRoundTrip(s, rest);
  }

  /** Setting a key an object does not have yet appends the member. */
  lemma {:induction false} SetNewMember(ms: seq<(string, Json)>, k: string, v: Json)
    requires forall i :: 0 <= i < |ms| ==> ms[i].0 != k
    ensures SetMember(ms, k, v) == ms + [(k, v)]
    decreases |ms|
  {
    if ms != [] {
      SetNewMember(ms[1..], k, v);
      assert [ms[0]] + (ms[1..] + [(k, v)]) == ms + [(k, v)];
    }
  }

  lemma ParseValueArray(s: string)
    requires s != [] && s[0] == '['
    ensures ParseValue(s) == ParseArray(s[1..])
  {
  }

  lemma ParseValueObject(s: string)
    requires s != [] && s[0] == '{'
    ensures ParseValue(s) == ParseObject(s[1..])
  {
  }

  lemma LiteralRoundTrip(v: Json, level: nat, rest: string)
    requires v.JNull? || v.JBool?
    ensures ParseValue(Print(v, level) + rest) == Some((v, rest))
  {
    var s := Print(v, level) + rest;
    match v
    case JNull =>
      assert s[..4] == "null" && s[4..] == rest;
    case JBool(b) =>
      if b {
        assert s[..4] == "true" && s[4..] == rest;
      } else {
        assert s[..4][0] == 'f';
        assert s[..5] == "false" && s[5..] == rest;
      }
  }

  /** Parsing the pretty-printed text of a value, followed by any text that does not
      continue a number, yields the value and leaves the following text. */
  lemma {:induction false} PrintRoundTrip(v: Json, level: nat, rest: string)
    requires WellFormed(v) && Delimited(rest)
    ensures ParseValue(Print(v, level) + rest) == Some((v, rest))
    decreases v, 2
  {
    match v
    case JNull => LiteralRoundTrip(v, level, rest);
    case JBool(b) => LiteralRoundTrip(v, level, rest);
    case JNumber(n) => NumberRoundTrip(n, rest);
    case JString(s) => QuoteRoundTrip(s, rest);
    case JArray(es) => ArrayRoundTrip(es, level, rest);
    case JObject(ms) => ObjectRoundTrip(ms, level, rest);
  }

  /** The printed text of a non-empty array, followed by `rest`: the opening bracket, a
      line break and indentation, the elements, and the closing line. */
  lemma PrintArrayShape(es: seq<Json>, level: nat, rest: string)
    requires es != []
    ensures Print(JArray(es), level) + rest
      == "[" + ("\n" + (Indent(level + 1) + (PrintElements(es, level + 1) + ("\n" + (Indent(level) + ("]" + rest))))))
  {
    var inner, body, outer := Indent(level + 1), PrintElements(es, level + 1), Indent(level);
    assert Print(JArray(es), level) == "[" + "\n" + inner + body + "\n" + outer + "]";
    Assoc("[" + "\n" + inner + body + "\n" + outer, "]", rest);
    Assoc("[" + "\n" + inner + body + "\n", outer, "]" + rest);
    Assoc("[" + "\n" + inner + body, "\n", outer + ("]" + rest));
    Assoc("[" + "\n" + inner, body, "\n" + (outer + ("]" + rest)));
    Assoc("[" + "\n", inner, body + ("\n" + (outer + ("]" + rest))));
    Assoc("[", "\n", inner + (body + ("\n" + (outer + ("]" + rest)))));
  }

  lemma PrintObjectShape(ms: seq<(string, Json)>, level: nat, rest: string)
    requires ms != []
    ensures Print(JObject(ms), level) + rest
      == "{" + ("\n" + (Indent(level + 1) + (PrintMembers(ms, level + 1) + ("\n" + (Indent(level) + ("}" + rest))))))
  {
    var inner, body, outer := Indent(level + 1), PrintMembers(ms, level + 1), Indent(level);
    assert Print(JObject(ms), level) == "{" + "\n" + inner + body + "\n" + outer + "}";
    Assoc("{" + "\n" + inner + body + "\n" + outer, "}", rest);
    Assoc("{" + "\n" + inner + body + "\n", outer, "}" + rest);
    Assoc("{" + "\n" + inner + body, "\n", outer + ("}" + rest));
    Assoc("{" + "\n" + inner, body, "\n" + (outer + ("}" + rest)));
    Assoc("{" + "\n", inner, body + ("\n" + (outer + ("}" + rest))));
    Assoc("{", "\n", inner + (body + ("\n" + (outer + ("}" + rest)))));
  }

  /** After an opening bracket and a line break, the parser reads the first element. */
  lemma ParseArrayText(inner: nat, body: string)
    requires body != [] && TokenStart(body[0])
    ensures ParseValue("[" + ("\n" + (Indent(inner) + body))) == ParseElements(body, [])
  {
    var t := "\n" + (Indent(inner) + body);
    assert !IsJsonWhitespace(body[0]) && body[0] != ']';
    ParseValueArray("[" + t);
    assert ("[" + t)[1..] == t;
    SkipLineBreak(inner, body);
  }

  lemma ParseObjectText(inner: nat, body: string)
    requires body != [] && body[0] == '"'
    ensures ParseValue("{" + ("\n" + (Indent(inner) + body))) == ParseMembers(body, [])
  {
    var t := "\n" + (Indent(inner) + body);
    assert !IsJsonWhitespace(body[0]) && body[0] != '}';
    ParseValueObject("{" + t);
    assert ("{" + t)[1..] == t;
    SkipLineBreak(inner, body);
  }

  lemma EmptyArrayRoundTrip(level: nat, rest: string)
    ensures ParseValue(Print(JArray([]), level) + rest) == Some((JArray([]), rest))
  {
    var s := "[" + ("]" + rest);
    assert Print(JArray([]), level) + rest == s;
    ParseValueArray(s);
    assert s[1..] == "]" + rest;
    assert ("]" + rest)[0] == ']';
  }

  lemma EmptyObjectRoundTrip(level: nat, rest: string)
    ensures ParseValue(Print(JObject([]), level) + rest) == Some((JObject([]), rest))
  {
    var s := "{" + ("}" + rest);
    assert Print(JObject([]), level) + rest == s;
    ParseValueObject(s);
    assert s[1..] == "}" + rest;
    assert ("}" + rest)[0] == '}';
  }

  /** Past the opening bracket of a printed array, the parser reads its elements. */
  lemma ArrayOpen(es: seq<Json>, level: nat, rest: string)
    requires es != []
    ensures ParseValue("[" + ("\n" + (Indent(level + 1) + (PrintElements(es, level + 1) + ("\n" + (Indent(level) + ("]" + rest)))))))
         == ParseElements(PrintElements(es, level + 1) + ("\n" + (Indent(level) + ("]" + rest))), [])
  {
    var close := "\n" + (Indent(level) + ("]" + rest));
    ElementsStart(es, level + 1, close);
    ParseArrayText(level + 1, PrintElements(es, level + 1) + close);
  }

  /** Printed elements start with a token. */
  lemma ElementsStart(es: seq<Json>, level: nat, close: string)
    requires es != []
    ensures PrintElements(es, level) + close != []
    ensures TokenStart((PrintElements(es, level) + close)[0])
  {
    ElementsShape(es, level, close);
    PrintStart(es[0], level);
    assert (PrintElements(es, level) + close)[0] == Print(es[0], level)[0];
  }

  lemma ObjectOpen(ms: seq<(string, Json)>, level: nat, rest: string)
    requires ms != []
    ensures ParseValue("{" + ("\n" + (Indent(level + 1) + (PrintMembers(ms, level + 1) + ("\n" + (Indent(level) + ("}" + rest)))))))
         == ParseMembers(PrintMembers(ms, level + 1) + ("\n" + (Indent(level) + ("}" + rest))), [])
  {
    var close := "\n" + (Indent(level) + ("}" + rest));
    var body := PrintMembers(ms, level + 1) + close;
    assert body[0] == '"' by {
      MembersShape(ms, level + 1, close);
      QuoteStart(ms[0].0, ": " + (Print(ms[0].1, level + 1) + MembersAfter(ms, level + 1, close)));
    }
    ParseObjectText(level + 1, body);
  }

  lemma WellFormedObject(ms: seq<(string, Json)>)
    requires WellFormed(JObject(ms))
    ensures DistinctKeys([] + ms) && forall i | 0 <= i < |ms| :: WellFormed(ms[i].1)
    ensures JObject([] + ms) == JObject(ms)
  {
    assert [] + ms == ms;
  }

  lemma {:induction false} ArrayRoundTrip(es: seq<Json>, level: nat, rest: string)
    requires WellFormed(JArray(es))
    ensures ParseValue(Print(JArray(es), level) + rest) == Some((JArray(es), rest))
    decreases JArray(es), 1
  {
    if es == [] {
      EmptyArrayRoundTrip(level, rest);
    } else {
      PrintArrayShape(es, level, rest);
      ArrayOpen(es, level, rest);
      ElementsRoundTrip(es, level + 1, level, [], rest);
      assert [] + es == es;
    }
  }

  lemma {:induction false} ObjectRoundTrip(ms: seq<(string, Json)>, level: nat, rest: string)
    requires WellFormed(JObject(ms))
    ensures ParseValue(Print(JObject(ms), level) + rest) == Some((JObject(ms), rest))
    decreases JObject(ms), 1
  {
    if ms == [] {
      EmptyObjectRoundTrip(level, rest);
    } else {
      PrintObjectShape(ms, level, rest);
      ObjectOpen(ms, level, rest);
      WellFormedObject(ms);
      MembersRoundTrip(ms, level + 1, level, [], rest);
    }
  }

  lemma QuoteStart(k: string, line: string)
    ensures (Quote(k) + line)[0] == '"'
  {
  }

  /** Skipping the line break and indentation before a closing bracket. */
  lemma SkipToClose(outer: nat, bracket: char, rest: string)
    requires bracket == ']' || bracket == '}'
    ensures SkipWhitespace("\n" + (Indent(outer) + ([bracket] + rest))) == [bracket] + rest
  {
    assert ([bracket] + rest)[0] == bracket;
    SkipLineBreak(outer, [bracket] + rest);
  }

  /** What follows an element or member: the closing line after the last one, and a comma,
      a line break and the next one otherwise. */
  function ElementsAfter(es: seq<Json>, level: nat, close: string): string
    requires es != []
  {
    if |es| == 1 then close else "," + ("\n" + (Indent(level) + (PrintElements(es[1..], level) + close)))
  }

  function MembersAfter(ms: seq<(string, Json)>, level: nat, close: string): string
    requires ms != []
  {
    if |ms| == 1 then close else "," + ("\n" + (Indent(level) + (PrintMembers(ms[1..], level) + close)))
  }

  lemma ElementsShape(es: seq<Json>, level: nat, close: string)
    requires es != []
    ensures PrintElements(es, level) + close == Print(es[0], level) + ElementsAfter(es, level, close)
  {
    var p := Print(es[0], level);
    var t := if |es| == 1 then "" else "," + "\n" + Indent(level) + PrintElements(es[1..], level);
    assert PrintElements(es, level) == p + t;
    Assoc(p, t, close);
    if |es| == 1 {
      assert t + close == close;
    } else {
      var i, pe := Indent(level), PrintElements(es[1..], level);
      Assoc("," + "\n" + i, pe, close);
      Assoc("," + "\n", i, pe + close);
      Assoc(",", "\n", i + (pe + close));
    }
  }

  lemma MembersShape(ms: seq<(string, Json)>, level: nat, close: string)
    requires ms != []
    ensures PrintMembers(ms, level) + close
         == Quote(ms[0].0) + (": " + (Print(ms[0].1, level) + MembersAfter(ms, level, close)))
  {
    var q, p := Quote(ms[0].0), Print(ms[0].1, level);
    var t := if |ms| == 1 then "" else "," + "\n" + Indent(level) + PrintMembers(ms[1..], level);
    assert PrintMembers(ms, level) == q + ": " + p + t;
    Assoc(q + ": " + p, t, close);
    Assoc(q + ": ", p, t + close);
    Assoc(q, ": ", p + (t + close));
    if |ms| == 1 {
      assert t + close == close;
    } else {
      var i, pm := Indent(level), PrintMembers(ms[1..], level);
      Assoc("," + "\n" + i, pm, close);
      Assoc("," + "\n", i, pm + close);
      Assoc(",", "\n", i + (pm + close));
    }
  }

  /** The separator between two elements or members: a comma, a line break and the
      indentation of the next one. */
  lemma CommaText(level: nat, tail: string)
    requires tail != [] && !IsJsonWhitespace(tail[0])
    ensures SkipWhitespace("," + ("\n" + (Indent(level) + tail))) == "," + ("\n" + (Indent(level) + tail))
    ensures ("," + ("\n" + (Indent(level) + tail)))[0] == ','
    ensures SkipWhitespace(("," + ("\n" + (Indent(level) + tail)))[1..]) == tail
  {
    var after := "," + ("\n" + (Indent(level) + tail));
    assert after[0] == ',';
    assert after[1..] == "\n" + (Indent(level) + tail);
    SkipLineBreak(level, tail);
  }

  /** The last element of an array, followed by its closing line. */
  lemma ElementsLast(x: string, v: Json, outer: nat, rest: string, acc: seq<Json>)
    requires ParseValue(x + ("\n" + (Indent(outer) + ("]" + rest)))) == Some((v, "\n" + (Indent(outer) + ("]" + rest))))
    ensures ParseElements(x + ("\n" + (Indent(outer) + ("]" + rest))), acc) == Some((JArray(acc + [v]), rest))
  {
    SkipToClose(outer, ']', rest);
  }

  /** An element followed by a comma, a line break and the next element. */
  lemma ElementsNext(x: string, v: Json, level: nat, tail: string, acc: seq<Json>)
    requires tail != [] && TokenStart(tail[0])
    requires ParseValue(x + ("," + ("\n" + (Indent(level) + tail)))) == Some((v, "," + ("\n" + (Indent(level) + tail))))
    ensures ParseElements(x + ("," + ("\n" + (Indent(level) + tail))), acc) == ParseElements(tail, acc + [v])
  {
    CommaText(level, tail);
  }

  lemma ElementsAccumulate(acc: seq<Json>, es: seq<Json>)
    requires es != []
    ensures (acc + [es[0]]) + es[1..] == acc + es
    ensures |es| == 1 ==> acc + [es[0]] == acc + es
  {
  }

  lemma {:induction false} ElementsRoundTrip(es: seq<Json>, level: nat, outer: nat, acc: seq<Json>, rest: string)
    requires es != [] && forall i | 0 <= i < |es| :: WellFormed(es[i])
    ensures ParseElements(PrintElements(es, level) + ("\n" + (Indent(outer) + ("]" + rest))), acc)
            == Some((JArray(acc + es), rest))
    decreases es, 0
  {
    var close := "\n" + (Indent(outer) + ("]" + rest));
    var x := Print(es[0], level);
    ElementsShape(es, level, close);
    PrintRoundTrip(es[0], level, ElementsAfter(es, level, close));
    ElementsAccumulate(acc, es);
    if |es| == 1 {
      ElementsLast(x, es[0], outer, rest, acc);
    } else {
      var tail := PrintElements(es[1..], level) + close;
      assert tail[0] == Print(es[1], level)[0] by {
        ElementsShape(es[1..], level, close);
      }
      PrintStart(es[1], level);
      ElementsNext(x, es[0], level, tail, acc);
      ElementsRoundTrip(es[1..], level, outer, acc + [es[0]], rest);
    }
  }

  /** A member's key, read back from its quoted form. */
  lemma KeyText(k: string, line: string)
    ensures ParseStringBody((Quote(k) + line)[1..]) == Some((k, line))
  {
    assert (Quote(k) + line)[1..] == Escape(k) + "\"" + line;
    StringRoundTrip(k, line);
  }

  /** The separator between a key and its value. */
  lemma ColonText(value: string)
    requires value != [] && TokenStart(value[0])
    ensures SkipWhitespace(": " + value) == ": " + value
    ensures SkipWhitespace((": " + value)[1..]) == value
  {
    assert (": " + value)[0] == ':';
    assert (": " + value)[1..] == " " + value;
    assert SkipWhitespace(value) == value;
    assert (" " + value)[1..] == value;
  }

  /** Reading one member: its key, the colon, its value, then what follows the value. */
  lemma MemberStep(k: string, x: string, v: Json, after: string, acc: seq<(string, Json)>)
    requires x != [] && TokenStart(x[0])
    requires ParseValue(x + after) == Some((v, after))
    ensures ParseMembers(Quote(k) + (": " + (x + after)), acc) ==
      var t := SkipWhitespace(after);
      if t == [] then None
      else if t[0] == '}' then Some((JObject(SetMember(acc, k, v)), t[1..]))
      else if t[0] == ',' then ParseMembers(SkipWhitespace(t[1..]), SetMember(acc, k, v))
      else None
  {
    KeyText(k, ": " + (x + after));
    assert (x + after)[0] == x[0];
    ColonText(x + after);
  }

  /** The last member of an object, followed by its closing line. */
  lemma MembersLast(k: string, x: string, v: Json, outer: nat, rest: string, acc: seq<(string, Json)>)
    requires x != [] && TokenStart(x[0])
    requires ParseValue(x + ("\n" + (Indent(outer) + ("}" + rest)))) == Some((v, "\n" + (Indent(outer) + ("}" + rest))))
    ensures ParseMembers(Quote(k) + (": " + (x + ("\n" + (Indent(outer) + ("}" + rest))))), acc)
         == Some((JObject(SetMember(acc, k, v)), rest))
  {
    MemberStep(k, x, v, "\n" + (Indent(outer) + ("}" + rest)), acc);
    SkipToClose(outer, '}', rest);
  }

  /** A member followed by a comma, a line break and the next member. */
  lemma MembersNext(k: string, x: string, v: Json, level: nat, tail: string, acc: seq<(string, Json)>)
    requires x != [] && TokenStart(x[0]) && tail != [] && tail[0] == '"'
    requires ParseValue(x + ("," + ("\n" + (Indent(level) + tail)))) == Some((v, "," + ("\n" + (Indent(level) + tail))))
    ensures ParseMembers(Quote(k) + (": " + (x + ("," + ("\n" + (Indent(level) + tail))))), acc)
         == ParseMembers(tail, SetMember(acc, k, v))
  {
    MemberStep(k, x, v, "," + ("\n" + (Indent(level) + tail)), acc);
    CommaText(level, tail);
  }

  /** Setting the next printed member into those read so far appends it, since its key is
      new; the members still to come keep distinct keys. */
  lemma MembersAccumulate(acc: seq<(string, Json)>, ms: seq<(string, Json)>)
    requires ms != [] && DistinctKeys(acc + ms)
    ensures SetMember(acc, ms[0].0, ms[0].1) == acc + [ms[0]]
    ensures (acc + [ms[0]]) + ms[1..] == acc + ms
    ensures DistinctKeys((acc + [ms[0]]) + ms[1..])
  {
    forall i | 0 <= i < |acc| ensures acc[i].0 != ms[0].0 {
      assert (acc + ms)[i] == acc[i] && (acc + ms)[|acc|] == ms[0];
    }
    SetNewMember(acc, ms[0].0, ms[0].1);
    assert (acc + [ms[0]]) + ms[1..] == acc + ms;
  }

  lemma {:induction false} MembersRoundTrip(ms: seq<(string, Json)>, level: nat, outer: nat,
                                            acc: seq<(string, Json)>, rest: string)
    requires ms != [] && DistinctKeys(acc + ms)
    requires forall i | 0 <= i < |ms| :: WellFormed(ms[i].1)
    ensures ParseMembers(PrintMembers(ms, level) + ("\n" + (Indent(outer) + ("}" + rest))), acc)
            == Some((JObject(acc + ms), rest))
    decreases ms, 0
  {
    var close := "\n" + (Indent(outer) + ("}" + rest));
    var k, v := ms[0].0, ms[0].1;
    assert ms[0].1 < ms[0];
    var x := Print(v, level);
    PrintStart(v, level);
    MembersAccumulate(acc, ms);
    MembersShape(ms, level, close);
    PrintRoundTrip(v, level, MembersAfter(ms, level, close));
    if |ms| == 1 {
      MembersLast(k, x, v, outer, rest, acc);
      assert (acc + [ms[0]]) + ms[1..] == acc + [ms[0]];
    } else {
      var tail := PrintMembers(ms[1..], level) + close;
      assert tail[0] == '"' by {
        MembersShape(ms[1..], level, close);
        QuoteStart(ms[1].0, ": " + (Print(ms[1].1, level) + MembersAfter(ms[1..], level, close)));
      }
      MembersNext(k, x, v, level, tail, acc);
      MembersRoundTrip(ms[1..], level, outer, acc + [ms[0]], rest);
    }
  }

  /** JSON.parse(JSON.stringify(v, null, 2)) is v for every value with distinct keys. */
  lemma StringifyRoundTrip(v: Json)
    requires WellFormed(v)
    ensures Parse(Stringify(v)) == Some(v)
  {
    PrintStart(v, 0);
    assert SkipWhitespace(Print(v, 0)) == Print(v, 0);
    PrintRoundTrip(v, 0, "");
    assert Print(v, 0) + "" == Print(v, 0);
  }

  /** Re-serialising a parsed document and parsing it again gives the same value. */
  lemma ReparseStringify(s: string)
    requires Parse(s).Some?
    ensures Parse(Stringify(Parse(s).value)) == Parse(s)
  {
    ParseWellFormed(s);
    StringifyRoundTrip(Parse(s).value);
  }
}
