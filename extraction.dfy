/**
 * The text operations by which the edit service turns a completion into a JSON candidate
 * (src/services/claudeService.js, lines 61-70 and 187-196):
 *   - `text.match(/\{[\s\S]*\}/)`: the leftmost, greedy match of an opening brace, any
 *     characters, and a closing brace; that is, the span from the first `{` to the last `}`;
 *   - `.replace(/```json\n?/g, '')` and `.replace(/```\n?/g, '')`: global, left-to-right
 *     removal of code-fence markers, each with at most one following line feed;
 *   - `.trim()`.
 */
module Extraction {
  import opened Wrappers
  import opened Strings

  /** The position of the first occurrence of `c` in `s`. */
  function FirstIndex(s: string, c: char): (r: Option<nat>)
    ensures r.Some? ==> r.value < |s| && s[r.value] == c && forall k | 0 <= k < r.value :: s[k] != c
    ensures r.None? ==> forall k | 0 <= k < |s| :: s[k] != c
    decreases |s|
  {
    if s == [] then None
    else if s[0] == c then Some(0)
    else
      match FirstIndex(s[1..], c)
      case None => None
      case Some(i) => Some(i + 1)
  }

  /** The position of the last occurrence of `c` in `s`. */
  function LastIndex(s: string, c: char): (r: Option<nat>)
    ensures r.Some? ==> r.value < |s| && s[r.value] == c && forall k | r.value < k < |s| :: s[k] != c
    ensures r.None? ==> forall k | 0 <= k < |s| :: s[k] != c
    decreases |s|
  {
    if s == [] then None
    else if s[|s| - 1] == c then Some(|s| - 1)
    else LastIndex(s[..|s| - 1], c)
  }

  /** The span [i, j) of `s` matched by /\{[\s\S]*\}/, if any: it starts at the first
      opening brace and ends just after the last closing brace, provided that closing brace
      comes after the opening one. */
  function BraceSpan(s: string): (r: Option<(nat, nat)>)
    ensures r.Some? ==> r.value.0 < r.value.1 <= |s|
  {
    match (FirstIndex(s, '{'), LastIndex(s, '}'))
    case (Some(i), Some(k)) => if i < k then Some((i, k + 1)) else None
    case _ => None
  }

  /** The regular expression /\{[\s\S]*\}/ matches exactly the slice s[i..j]: a `{`, any
      characters whatsoever (`[\s\S]` matches every character), then a `}`. */
  ghost predicate BraceMatchAt(s: string, i: nat, j: nat) {
    i + 2 <= j <= |s| && s[i] == '{' && s[j - 1] == '}'
  }

  /** BraceSpan is what the regular expression engine reports: a match exists exactly
      when BraceSpan finds one; the reported match starts at the leftmost position where
      any match starts and, from there, is the longest (the star is greedy). */
  lemma BraceSpanIsRegexMatch(s: string)
    ensures BraceSpan(s).None? <==> forall i: nat, j: nat :: !BraceMatchAt(s, i, j)
    ensures BraceSpan(s).Some? ==>
      var (i, j) := BraceSpan(s).value;
      && BraceMatchAt(s, i, j)
      && forall i': nat, j': nat | BraceMatchAt(s, i', j') :: i < i' || (i == i' && j' <= j)
  {
    var first, last := FirstIndex(s, '{'), LastIndex(s, '}');
    forall i': nat, j': nat | BraceMatchAt(s, i', j')
      ensures first.Some? && first.value <= i' && last.Some? && j' - 1 <= last.value
    {
      assert s[i'] == '{' && s[j' - 1] == '}';
    }
    if first.Some? && last.Some? && first.value < last.value {
      assert BraceMatchAt(s, first.value, last.value + 1);
    }
  }

  /** Three backticks at the start of `s`. */
  predicate FenceAt(s: string) {
    |s| >= 3 && s[0] == '`' && s[1] == '`' && s[2] == '`'
  }

  /** Three backticks and the word json at the start of `s`. */
  predicate JsonFenceAt(s: string) {
    FenceAt(s) && |s| >= 7 && s[3] == 'j' && s[4] == 's' && s[5] == 'o' && s[6] == 'n'
  }

  /** The length of a marker of `n` characters at the start of `s` together with the
      optional line feed after it (`\n?` is greedy). */
  function MarkerLength(s: string, n: nat): (r: nat)
    requires n <= |s|
    ensures n <= r <= |s|
  {
    if n < |s| && s[n] == '\n' then n + 1 else n
  }

  /** s.replace(/```json\n?/g, ''). */
  function RemoveJsonFences(s: string): string
    decreases |s|
  {
    if s == [] then []
    else if JsonFenceAt(s) then RemoveJsonFences(s[MarkerLength(s, 7)..])
    else [s[0]] + RemoveJsonFences(s[1..])
  }

  /** s.replace(/```\n?/g, ''). */
  function RemoveFences(s: string): string
    decreases |s|
  {
    if s == [] then []
    else if FenceAt(s) then RemoveFences(s[MarkerLength(s, 3)..])
    else [s[0]] + RemoveFences(s[1..])
  }

  /** The candidate: the brace match when there is one, the whole text otherwise.
      The ensures only unfold the body for callers; CandidateIsRegexMatch gives its meaning. */
  function Candidate(text: string): (r: string)
    ensures BraceSpan(text).Some? ==> r == text[BraceSpan(text).value.0..BraceSpan(text).value.1]
    ensures BraceSpan(text).None? ==> r == text
  {
    match BraceSpan(text)
    case Some((i, j)) => text[i..j]
    case None => text
  }

  /** The candidate in the regular expression's terms: the whole text when
      /\{[\s\S]*\}/ does not match, and otherwise the leftmost, then longest, match. */
  lemma CandidateIsRegexMatch(text: string)
    ensures (forall i: nat, j: nat :: !BraceMatchAt(text, i, j)) ==> Candidate(text) == text
    ensures (exists i: nat, j: nat :: BraceMatchAt(text, i, j)) ==>
      exists i: nat, j: nat ::
        && BraceMatchAt(text, i, j)
        && Candidate(text) == text[i..j]
        && forall i': nat, j': nat | BraceMatchAt(text, i', j') :: i < i' || (i == i' && j' <= j)
  {
    BraceSpanIsRegexMatch(text);
    if BraceSpan(text).Some? {
      var (i, j) := BraceSpan(text).value;
      assert BraceMatchAt(text, i, j) && Candidate(text) == text[i..j];
    }
  }

  /** The fence clean-up and trimming applied to the candidate. */
  function Clean(candidate: string): string {
    Trim(RemoveFences(RemoveJsonFences(candidate)))
  }

  /** The text handed to JSON.parse for a trimmed completion. */
  function ExtractText(text: string): string {
    Clean(Candidate(text))
  }

  /** Three backticks in a row at position `i` of `s`. */
  predicate TicksAt(s: string, i: nat) {
    i + 3 <= |s| && s[i] == '`' && s[i + 1] == '`' && s[i + 2] == '`'
  }

  /** No three backticks in a row anywhere in `s`. */
  predicate NoFence(s: string) {
    forall i | 0 <= i < |s| :: !TicksAt(s, i)
  }

  /** The number of backticks `s` starts with. */
  function LeadingTicks(s: string): (n: nat)
    ensures n <= |s|
    decreases |s|
  {
    if s != [] && s[0] == '`' then 1 + LeadingTicks(s[1..]) else 0
  }

  lemma {:induction false} LeadingTicksAtLeast(s: string, n: nat)
    ensures LeadingTicks(s) >= n <==> n <= |s| && forall k | 0 <= k < n :: s[k] == '`'
    decreases n
  {
    if n > 0 && s != [] && s[0] == '`' {
      LeadingTicksAtLeast(s[1..], n - 1);
      if n <= |s| && LeadingTicks(s) < n {
        var k :| 0 <= k < n - 1 && s[1..][k] != '`';
        assert s[k + 1] != '`';
      }
    }
  }

  /** Putting a character in front of a text without three backticks in a row creates
      three in a row only when it is a backtick and the text starts with two. */
  lemma NoFenceCons(c: char, t: string)
    requires NoFence(t)
    ensures NoFence([c] + t) <==> !(c == '`' && LeadingTicks(t) >= 2)
  {
    var s := [c] + t;
    LeadingTicksAtLeast(t, 2);
    forall i: nat | i >= 1 ensures !TicksAt(s, i) {
      assert !TicksAt(t, i - 1);
    }
    assert TicksAt(s, 0) <==> c == '`' && LeadingTicks(t) >= 2;
  }

  /** What RemoveFences leaves has no three backticks in a row, and it starts with no
      more backticks than its input when the input starts with fewer than three. */
  lemma {:induction false} RemoveFencesLeavesNone(s: string)
    ensures NoFence(RemoveFences(s))
    ensures LeadingTicks(s) <= 2 ==> LeadingTicks(RemoveFences(s)) <= LeadingTicks(s)
    decreases |s|
  {
    LeadingTicksAtLeast(s, 3);
    if s != [] {
      if FenceAt(s) {
        RemoveFencesLeavesNone(s[MarkerLength(s, 3)..]);
      } else {
        var t := RemoveFences(s[1..]);
        RemoveFencesLeavesNone(s[1..]);
        if s[0] == '`' {
          LeadingTicksAtLeast(s[1..], 2);
        }
        NoFenceCons(s[0], t);
      }
    }
  }

  /** A slice of a text without three backticks in a row has none either. */
  lemma NoFenceSlice(s: string, i: nat, j: nat)
    requires NoFence(s) && i <= j <= |s|
    ensures NoFence(s[i..j])
  {
    var t := s[i..j];
    forall k: nat ensures !TicksAt(t, k) {
      assert !TicksAt(s, i + k);
    }
  }

  /** A text containing the marker has three backticks in a row. */
  lemma FenceInText(r: string)
    requires Contains(r, "```")
    ensures !NoFence(r)
  {
    var k: nat :| ContainsAt(r, "```", k);
    var m := r[k..k + 3];
    assert m[0] == r[k] && m[1] == r[k + 1] && m[2] == r[k + 2];
    assert TicksAt(r, k);
  }

  lemma NoFenceTrim(t: string)
    requires NoFence(t)
    ensures NoFence(Trim(t))
  {
    var r := Trim(t);
    var i: nat :| TrimmedAt(t, r, i);
    NoFenceSlice(t, i, i + |r|);
  }

  /** After clean-up no code-fence marker is left in the text handed to JSON.parse. */
  lemma CleanLeavesNoFence(candidate: string)
    ensures !Contains(Clean(candidate), "```")
  {
    RemoveFencesLeavesNone(RemoveJsonFences(candidate));
    NoFenceTrim(RemoveFences(RemoveJsonFences(candidate)));
    if Contains(Clean(candidate), "```") {
      FenceInText(Clean(candidate));
    }
  }

  /** Fence removal does nothing to a text without backticks. */
  lemma {:induction false} RemoveWithoutTicks(s: string)
    requires forall k | 0 <= k < |s| :: s[k] != '`'
    ensures RemoveJsonFences(s) == s && RemoveFences(s) == s
    decreases |s|
  {
    if s != [] {
      RemoveWithoutTicks(s[1..]);
    }
  }

  /** A candidate without backticks is changed only by trimming. */
  lemma CleanWithoutTicks(candidate: string)
    requires forall k | 0 <= k < |candidate| :: candidate[k] != '`'
    ensures Clean(candidate) == Trim(candidate)
  {
    RemoveWithoutTicks(candidate);
  }

  /** The excerpt of the raw completion quoted in the error message:
      responseText.substring(0, 200). */
  function Excerpt(raw: string): (r: string)
    ensures |r| == if |raw| < 200 then |raw| else 200
    ensures r == raw[..|r|]
  {
    if |raw| < 200 then raw else raw[..200]
  }
}
