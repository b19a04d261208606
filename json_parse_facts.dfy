/**
 * What JSON.parse guarantees about the values it builds: setting a member keeps one
 * member per key (a repeated key keeps its first position and takes the last value), so
 * every parsed value has distinct keys in all of its objects.
 */
module JsonParseFacts {
  import opened Wrappers
  import opened JsonValue
  import opened JsonParser

  /** The keys of a member list. */
  function Keys(ms: seq<(string, Json)>): (r: set<string>)
    ensures forall i | 0 <= i < |ms| :: ms[i].0 in r
    ensures forall k | k in r :: exists i | 0 <= i < |ms| :: ms[i].0 == k
    decreases |ms|
  {
    if ms == [] then {}
    else
      var r := {ms[0].0} + Keys(ms[1..]);
      assert forall i | 1 <= i < |ms| :: ms[i] == ms[1..][i - 1];
      r
  }

  /** Setting a member adds its key to the keys and no other. */
  lemma {:induction false} SetMemberKeys(ms: seq<(string, Json)>, k: string, v: Json)
    ensures Keys(SetMember(ms, k, v)) == Keys(ms) + {k}
    decreases |ms|
  {
    if ms != [] {
      if ms[0].0 == k {
        assert SetMember(ms, k, v)[1..] == ms[1..];
        assert Keys(SetMember(ms, k, v)) == {k} + Keys(ms[1..]);
      } else {
        SetMemberKeys(ms[1..], k, v);
        assert SetMember(ms, k, v)[1..] == SetMember(ms[1..], k, v);
      }
    }
  }

  /** A key already present keeps its position and takes the new value. */
  lemma {:induction false} SetExistingMember(ms: seq<(string, Json)>, i: nat, v: Json)
    requires i < |ms| && DistinctKeys(ms)
    ensures SetMember(ms, ms[i].0, v) == ms[i := (ms[i].0, v)]
    decreases |ms|
  {
    if i > 0 {
      assert ms[0].0 != ms[i].0;
      assert ms[1..][i - 1] == ms[i];
      SetExistingMember(ms[1..], i - 1, v);
      assert [ms[0]] + ms[1..][i - 1 := (ms[i].0, v)] == ms[i := (ms[i].0, v)];
    } else {
      assert [(ms[0].0, v)] + ms[1..] == ms[0 := (ms[0].0, v)];
    }
  }

  lemma DistinctTail(ms: seq<(string, Json)>)
    requires ms != [] && DistinctKeys(ms)
    ensures DistinctKeys(ms[1..]) && ms[0].0 !in Keys(ms[1..])
  {
    forall i, j | 0 <= i < j < |ms[1..]| ensures ms[1..][i].0 != ms[1..][j].0 {
      assert ms[1..][i] == ms[i + 1] && ms[1..][j] == ms[j + 1];
    }
    forall i | 0 <= i < |ms[1..]| ensures ms[1..][i].0 != ms[0].0 {
      assert ms[1..][i] == ms[i + 1];
    }
  }

  /** A key put before a list that lacks it gives a list with distinct keys. */
  lemma DistinctCons(m: (string, Json), ms: seq<(string, Json)>)
    requires DistinctKeys(ms) && m.0 !in Keys(ms)
    ensures DistinctKeys([m] + ms)
  {
    var r := [m] + ms;
    forall i, j | 0 <= i < j < |r| ensures r[i].0 != r[j].0 {
      assert r[j] == ms[j - 1];
      if i > 0 {
        assert r[i] == ms[i - 1];
      }
    }
  }

  /** Setting a member keeps the keys of a member list distinct. */
  lemma {:induction false} SetMemberDistinct(ms: seq<(string, Json)>, k: string, v: Json)
    requires DistinctKeys(ms)
    ensures DistinctKeys(SetMember(ms, k, v))
    decreases |ms|
  {
    if ms != [] {
      DistinctTail(ms);
      if ms[0].0 != k {
        SetMemberDistinct(ms[1..], k, v);
        SetMemberKeys(ms[1..], k, v);
        DistinctCons(ms[0], SetMember(ms[1..], k, v));
      } else {
        DistinctCons((k, v), ms[1..]);
      }
    }
  }

  /** Every value in a member list after setting is the new value or was there before. */
  lemma {:induction false} SetMemberValues(ms: seq<(string, Json)>, k: string, v: Json)
    ensures forall i | 0 <= i < |SetMember(ms, k, v)| ::
      SetMember(ms, k, v)[i].1 == v || SetMember(ms, k, v)[i] in ms
    decreases |ms|
  {
    if ms != [] {
      var r := SetMember(ms, k, v);
      if ms[0].0 != k {
        SetMemberValues(ms[1..], k, v);
        forall i | 0 <= i < |r| ensures r[i].1 == v || r[i] in ms {
          if i > 0 {
            assert r[i] == SetMember(ms[1..], k, v)[i - 1];
          }
        }
      } else {
        forall i | 0 <= i < |r| ensures r[i].1 == v || r[i] in ms {
          if i > 0 {
            assert r[i] == ms[i];
          }
        }
      }
    }
  }

  /** All values of a member list are well formed. */
  ghost predicate WellFormedValues(ms: seq<(string, Json)>) {
    forall i | 0 <= i < |ms| :: WellFormed(ms[i].1)
  }

  lemma SetMemberWellFormed(ms: seq<(string, Json)>, k: string, v: Json)
    requires DistinctKeys(ms) && WellFormedValues(ms) && WellFormed(v)
    ensures DistinctKeys(SetMember(ms, k, v)) && WellFormedValues(SetMember(ms, k, v))
  {
    SetMemberDistinct(ms, k, v);
    SetMemberValues(ms, k, v);
    var r := SetMember(ms, k, v);
    forall i | 0 <= i < |r| ensures WellFormed(r[i].1) {
      if r[i].1 != v {
        var j :| 0 <= j < |ms| && ms[j] == r[i];
      }
    }
  }

  /** Every value JSON.parse reads has distinct keys in all of its objects. */
  lemma {:induction false} ParseValueWellFormed(s: string)
    ensures ParseValue(s).Some? ==> WellFormed(ParseValue(s).value.0)
    decreases |s|, 0
  {
    if s != [] && s[0] == '{' {
      ParseObjectWellFormed(s[1..]);
    } else if s != [] && s[0] == '[' {
      ParseArrayWellFormed(s[1..]);
    }
  }

  lemma {:induction false} ParseArrayWellFormed(s: string)
    ensures ParseArray(s).Some? ==> WellFormed(ParseArray(s).value.0)
    decreases |s|, 2
  {
    var t := SkipWhitespace(s);
    if !(t != [] && t[0] == ']') {
      ParseElementsWellFormed(t, []);
    }
  }

  lemma {:induction false} ParseElementsWellFormed(s: string, acc: seq<Json>)
    requires forall i | 0 <= i < |acc| :: WellFormed(acc[i])
    ensures ParseElements(s, acc).Some? ==> WellFormed(ParseElements(s, acc).value.0)
    decreases |s|, 1
  {
    ParseValueWellFormed(s);
    match ParseValue(s)
    case None =>
    case Some((v, rest)) =>
      var t := SkipWhitespace(rest);
      var acc' := acc + [v];
      assert forall i | 0 <= i < |acc'| :: WellFormed(acc'[i]) by {
        forall i | 0 <= i < |acc'| ensures WellFormed(acc'[i]) {
          if i < |acc| {
            assert acc'[i] == acc[i];
          }
        }
      }
      if t != [] && t[0] == ',' {
        ParseElementsWellFormed(SkipWhitespace(t[1..]), acc');
      }
  }

  lemma {:induction false} ParseObjectWellFormed(s: string)
    ensures ParseObject(s).Some? ==> WellFormed(ParseObject(s).value.0)
    decreases |s|, 2
  {
    var t := SkipWhitespace(s);
    if !(t != [] && t[0] == '}') {
      ParseMembersWellFormed(t, []);
    }
  }

  lemma {:induction false} ParseMembersWellFormed(s: string, acc: seq<(string, Json)>)
    requires DistinctKeys(acc) && WellFormedValues(acc)
    ensures ParseMembers(s, acc).Some? ==> WellFormed(ParseMembers(s, acc).value.0)
    decreases |s|, 1
  {
    if s != [] && s[0] == '"' {
      match ParseStringBody(s[1..])
      case None =>
      case Some((k, afterKey)) =>
        var colon := SkipWhitespace(afterKey);
        if colon != [] && colon[0] == ':' {
          var u := SkipWhitespace(colon[1..]);
          ParseValueWellFormed(u);
          match ParseValue(u)
          case None =>
          case Some((v, rest)) =>
            SetMemberWellFormed(acc, k, v);
            var t := SkipWhitespace(rest);
            if t != [] && t[0] == ',' {
              ParseMembersWellFormed(SkipWhitespace(t[1..]), SetMember(acc, k, v));
            }
        }
    }
  }

  /** JSON.parse yields only values with distinct keys. */
  lemma ParseWellFormed(s: string)
    ensures Parse(s).Some? ==> WellFormed(Parse(s).value)
  {
    ParseValueWellFormed(SkipWhitespace(s));
  }
}
