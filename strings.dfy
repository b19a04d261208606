/**
 * The JavaScript string operations the service and store rely on:
 * String.prototype.trim, decimal rendering of integers, Array.prototype.join,
 * and substring containment and character counting used to state properties.
 */
module Strings {

  /** The WhiteSpace and LineTerminator code points that String.prototype.trim removes
      (ECMA-262, sections 12.2 and 12.3). */
  predicate IsTrimmable(c: char) {
    || c == '\t' || c == '\n' || c as int == 0x0B || c as int == 0x0C || c == '\r' || c == ' '
    || c as int == 0xA0 || c as int == 0x1680 || 0x2000 <= c as int <= 0x200A
    || c as int == 0x2028 || c as int == 0x2029 || c as int == 0x202F || c as int == 0x205F
    || c as int == 0x3000 || c as int == 0xFEFF
  }

  function TrimStart(s: string): (r: string)
    ensures |r| <= |s| && r == s[|s| - |r|..]
    ensures forall k :: 0 <= k < |s| - |r| ==> IsTrimmable(s[k])
    ensures r != [] ==> !IsTrimmable(r[0])
  {
    if s != [] && IsTrimmable(s[0]) then TrimStart(s[1..]) else s
  }

  function TrimEnd(s: string): (r: string)
    ensures |r| <= |s| && r == s[..|r|]
    ensures forall k :: |r| <= k < |s| ==> IsTrimmable(s[k])
    ensures r != [] ==> !IsTrimmable(r[|r| - 1])
  {
    if s != [] && IsTrimmable(s[|s| - 1]) then TrimEnd(s[..|s| - 1]) else s
  }

  /** `r` is the part of `s` left after removing the trimmable characters before index `i`
      and after index `i + |r|`. */
  ghost predicate TrimmedAt(s: string, r: string, i: nat) {
    && i + |r| <= |s|
    && r == s[i..i + |r|]
    && (forall k :: 0 <= k < i ==> IsTrimmable(s[k]))
    && (forall k :: i + |r| <= k < |s| ==> IsTrimmable(s[k]))
  }

  /** String.prototype.trim: the longest slice of `s` that neither starts nor ends with
      white space, obtained by dropping only white space on either side. */
  function Trim(s: string): (r: string)
    ensures exists i :: TrimmedAt(s, r, i)
    ensures r != [] ==> !IsTrimmable(r[0]) && !IsTrimmable(r[|r| - 1])
  {
    var t := TrimStart(s);
    var r := TrimEnd(t);
    assert TrimmedAt(s, r, |s| - |t|);
    r
  }

  /** The trimmed text is the slice of `s` that starts after the leading white space. */
  lemma TrimIsSlice(s: string)
    ensures |s| - |TrimStart(s)| + |Trim(s)| <= |s|
    ensures Trim(s) == s[|s| - |TrimStart(s)|..|s| - |TrimStart(s)| + |Trim(s)|]
  {
    var t := TrimStart(s);
    var r := TrimEnd(t);
    assert r == t[..|r|];
  }

  lemma TrimIdempotent(s: string)
    ensures Trim(Trim(s)) == Trim(s)
  {
    var r := Trim(s);
    assert TrimStart(r) == r;
    assert TrimEnd(r) == r;
  }

  /** A string whose two ends are not white space is left unchanged by trimming. */
  lemma TrimUnchanged(s: string)
    requires s != [] ==> !IsTrimmable(s[0]) && !IsTrimmable(s[|s| - 1])
    ensures Trim(s) == s
  {
    assert TrimStart(s) == s;
  }

  predicate IsDigit(c: char) {
    '0' <= c <= '9'
  }

  predicate AllDigits(s: string) {
    forall k :: 0 <= k < |s| ==> IsDigit(s[k])
  }

  function DigitChar(d: nat): (c: char)
    requires d < 10
    ensures IsDigit(c) && c as int - '0' as int == d
  {
    (d + '0' as int) as char
  }

  /** The decimal digits of a non-negative integer, as String(n) renders it in JavaScript:
      no sign, no leading zero except for zero itself. */
  function NatToDecimal(n: nat): (s: string)
    ensures |s| > 0 && AllDigits(s)
    ensures s[0] == '0' <==> n == 0
    ensures n == 0 ==> s == "0"
    decreases n
  {
    if n < 10 then [DigitChar(n)] else NatToDecimal(n / 10) + [DigitChar(n % 10)]
  }

  /** The value of a run of decimal digits, read most significant digit first. */
  function DigitsValue(s: string): nat
    requires AllDigits(s)
    decreases |s|
  {
    if s == [] then 0 else 10 * DigitsValue(s[..|s| - 1]) + (s[|s| - 1] as int - '0' as int)
  }

  lemma {:induction false} DecimalRoundTrip(n: nat)
    ensures DigitsValue(NatToDecimal(n)) == n
    decreases n
  {
    if n >= 10 {
      DecimalRoundTrip(n / 10);
      var s := NatToDecimal(n);
      assert s[..|s| - 1] == NatToDecimal(n / 10);
    }
  }

  /** Array.prototype.join: the strings of `xs` with `sep` between neighbours. */
  function Join(xs: seq<string>, sep: string): (r: string)
    decreases |xs|
  {
    if |xs| == 0 then "" else if |xs| == 1 then xs[0] else xs[0] + sep + Join(xs[1..], sep)
  }

  /** Joining keeps the order of the parts: the first `k` parts come before the separator
      that precedes part `k`, the remaining parts after it. */
  lemma {:induction false} JoinSplit(xs: seq<string>, sep: string, k: nat)
    requires 0 < k < |xs|
    ensures Join(xs, sep) == Join(xs[..k], sep) + sep + Join(xs[k..], sep)
    decreases k
  {
    if k > 1 {
      JoinSplit(xs[1..], sep, k - 1);
      assert xs[1..][..k - 1] == xs[1..k];
      assert xs[1..][k - 1..] == xs[k..];
      assert xs[..k][1..] == xs[1..k];
    } else {
      assert xs[..k] == [xs[0]];
      assert xs[k..] == xs[1..];
    }
  }

  /** The joined text holds every part, in full. */
  lemma JoinContains(xs: seq<string>, sep: string, k: nat)
    requires k < |xs|
    ensures Contains(Join(xs, sep), xs[k])
  {
    if |xs| == 1 {
      assert ContainsAt(Join(xs, sep), xs[k], 0);
    } else if k == 0 {
      assert ContainsAt(Join(xs, sep), xs[k], 0);
    } else {
      JoinSplit(xs, sep, k);
      var tail := Join(xs[k..], sep);
      if |xs[k..]| == 1 {
        assert tail == xs[k];
      } else {
        assert tail == xs[k] + sep + Join(xs[k + 1..], sep);
      }
      ContainsConcat(Join(xs[..k], sep) + sep, xs[k], tail[|xs[k]|..]);
      assert Join(xs[..k], sep) + sep + tail == Join(xs[..k], sep) + sep + xs[k] + tail[|xs[k]|..];
    }
  }

  /** A joined text starts with its first part. */
  lemma JoinStart(xs: seq<string>, sep: string)
    requires xs != []
    ensures |xs[0]| <= |Join(xs, sep)| && Join(xs, sep)[..|xs[0]|] == xs[0]
  {
    if |xs| > 1 {
      assert Join(xs, sep) == xs[0] + (sep + Join(xs[1..], sep));
    }
  }

  /** Every part appears right after a separator, when a separator also leads. */
  lemma JoinLine(xs: seq<string>, sep: string, k: nat)
    requires k < |xs|
    ensures Contains(sep + Join(xs, sep), sep + xs[k])
  {
    if k == 0 {
      JoinStart(xs, sep);
      assert (sep + Join(xs, sep))[..|sep + xs[0]|] == sep + xs[0];
      assert ContainsAt(sep + Join(xs, sep), sep + xs[0], 0);
    } else {
      JoinAdjacent(xs, sep, k - 1);
      var m := sep + xs[k];
      assert m[..] == m;
      assert ContainsAt(m, m, 0);
      ContainsRight(xs[k - 1], m, m);
      assert xs[k - 1] + m == xs[k - 1] + sep + xs[k];
      ContainsTrans(Join(xs, sep), xs[k - 1] + sep + xs[k], m);
      ContainsRight(sep, Join(xs, sep), m);
    }
  }

  /** Neighbouring parts appear next to each other, with the separator between them. */
  lemma JoinAdjacent(xs: seq<string>, sep: string, k: nat)
    requires k + 1 < |xs|
    ensures Contains(Join(xs, sep), xs[k] + sep + xs[k + 1])
  {
    var tail := Join(xs[k..], sep);
    var rest := Join(xs[k + 1..], sep);
    assert xs[k..][1..] == xs[k + 1..];
    assert tail == xs[k] + sep + rest;
    JoinStart(xs[k + 1..], sep);
    var m := xs[k] + sep + xs[k + 1];
    assert tail[..|m|] == m;
    assert ContainsAt(tail, m, 0);
    if k > 0 {
      JoinSplit(xs, sep, k);
      ContainsRight(Join(xs[..k], sep) + sep, tail, m);
    }
  }

  /** Replacing one part changes the length of the joined text by the difference in the
      lengths of the two parts. */
  lemma {:induction false} JoinReplaceLength(xs: seq<string>, ys: seq<string>, sep: string, k: nat)
    requires |xs| == |ys| && k < |xs|
    requires forall i | 0 <= i < |xs| && i != k :: xs[i] == ys[i]
    ensures |Join(xs, sep)| + |ys[k]| == |Join(ys, sep)| + |xs[k]|
    decreases |xs|
  {
    if |xs| > 1 {
      assert Join(xs, sep) == xs[0] + sep + Join(xs[1..], sep);
      assert Join(ys, sep) == ys[0] + sep + Join(ys[1..], sep);
      if k > 0 {
        assert xs[0] == ys[0];
        JoinReplaceLength(xs[1..], ys[1..], sep, k - 1);
      } else {
        assert xs[1..] == ys[1..];
      }
    }
  }

  ghost predicate ContainsAt(s: string, t: string, i: nat) {
    i + |t| <= |s| && s[i..i + |t|] == t
  }

  /** `t` occurs in `s` as a contiguous substring. */
  ghost predicate Contains(s: string, t: string) {
    exists i: nat :: ContainsAt(s, t, i)
  }

  lemma ContainsConcat(a: string, t: string, b: string)
    ensures Contains(a + t + b, t)
  {
    assert (a + t + b)[|a|..|a| + |t|] == t;
    assert ContainsAt(a + t + b, t, |a|);
  }

  /** A substring of a part is a substring of any text the part is placed into. */
  lemma ContainsWithin(a: string, m: string, b: string, t: string)
    requires Contains(m, t)
    ensures Contains(a + m + b, t)
  {
    var i: nat :| ContainsAt(m, t, i);
    assert (a + m + b)[|a| + i..|a| + i + |t|] == m[i..i + |t|];
    assert ContainsAt(a + m + b, t, |a| + i);
  }

  /** A substring of the left part of a concatenation is a substring of the whole. */
  lemma ContainsLeft(a: string, b: string, t: string)
    requires Contains(a, t)
    ensures Contains(a + b, t)
  {
    var i: nat :| ContainsAt(a, t, i);
    assert (a + b)[i..i + |t|] == a[i..i + |t|];
    assert ContainsAt(a + b, t, i);
  }

  /** A substring of the right part of a concatenation is a substring of the whole. */
  lemma ContainsRight(a: string, b: string, t: string)
    requires Contains(b, t)
    ensures Contains(a + b, t)
  {
    var i: nat :| ContainsAt(b, t, i);
    assert (a + b)[|a| + i..|a| + i + |t|] == b[i..i + |t|];
    assert ContainsAt(a + b, t, |a| + i);
  }

  lemma ContainsTrans(s: string, m: string, t: string)
    requires Contains(s, m) && Contains(m, t)
    ensures Contains(s, t)
  {
    var i: nat :| ContainsAt(s, m, i);
    var j: nat :| ContainsAt(m, t, j);
    forall k | 0 <= k < |t| ensures s[i + j..i + j + |t|][k] == t[k] {
      assert s[i + j..i + j + |t|][k] == s[i..i + |m|][j + k] == m[j..j + |t|][k];
    }
    assert s[i + j..i + j + |t|] == t;
    assert ContainsAt(s, t, i + j);
  }

  /** The number of occurrences of the character `c` in `s`. */
  function Count(s: string, c: char): nat
    decreases |s|
  {
    if s == [] then 0 else (if s[0] == c then 1 else 0) + Count(s[1..], c)
  }

  lemma {:induction false} CountConcat(a: string, b: string, c: char)
    ensures Count(a + b, c) == Count(a, c) + Count(b, c)
    decreases |a|
  {
    if a != [] {
      assert (a + b)[1..] == a[1..] + b;
      CountConcat(a[1..], b, c);
    } else {
      assert a + b == b;
    }
  }

  /** The number of occurrences of `c` in all of `xs` together. */
  function CountAll(xs: seq<string>, c: char): nat
    decreases |xs|
  {
    if xs == [] then 0 else Count(xs[0], c) + CountAll(xs[1..], c)
  }

  /** A text without `c` has no occurrence of it. */
  lemma {:induction false} CountNone(s: string, c: char)
    requires forall k | 0 <= k < |s| :: s[k] != c
    ensures Count(s, c) == 0
    decreases |s|
  {
    if s != [] {
      CountNone(s[1..], c);
    }
  }

  /** Joining with a separator that lacks `c` adds no occurrence of `c`. */
  lemma {:induction false} CountJoin(xs: seq<string>, sep: string, c: char)
    requires Count(sep, c) == 0
    ensures Count(Join(xs, sep), c) == CountAll(xs, c)
    decreases |xs|
  {
    if |xs| == 1 {
      assert xs[1..] == [];
    } else if |xs| > 1 {
      CountJoin(xs[1..], sep, c);
      CountConcat(xs[0], sep, c);
      CountConcat(xs[0] + sep, Join(xs[1..], sep), c);
    }
  }
}
