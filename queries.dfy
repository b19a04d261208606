/**
 * The row-level meaning of the SELECT, UPDATE and DELETE statements of the configuration
 * store (src/lib/database.js, lines 138-247), as functions on the rows of a table held in
 * id order: WHERE filters, ORDER BY, LIMIT, and the rows a statement rewrites or removes.
 */
module Queries {
  import opened Wrappers
  import opened Tables

  /** The rows that satisfy a WHERE condition, in table order. */
  function Keep<T(!new)>(rows: seq<T>, keep: T -> bool): (r: seq<T>)
    ensures forall x :: x in r <==> x in rows && keep(x)
    ensures |r| <= |rows|
    decreases |rows|
  {
    if rows == [] then []
    else
      assert rows == [rows[0]] + rows[1..];
      (if keep(rows[0]) then [rows[0]] else []) + Keep(rows[1..], keep)
  }

  /** Filtering keeps each row it keeps exactly as often as the table holds it. */
  lemma {:induction false} KeepCounts<T(!new)>(rows: seq<T>, keep: T -> bool)
    ensures forall x :: multiset(Keep(rows, keep))[x] == if keep(x) then multiset(rows)[x] else 0
    decreases |rows|
  {
    if rows != [] {
      KeepCounts(rows[1..], keep);
      assert rows == [rows[0]] + rows[1..];
      assert multiset(rows) == multiset{rows[0]} + multiset(rows[1..]);
      assert Keep(rows, keep) == (if keep(rows[0]) then [rows[0]] else []) + Keep(rows[1..], keep);
    }
  }

  /** Filtering keeps every pairwise ordering the table had. */
  lemma {:induction false} KeepPairwise<T(!new)>(rows: seq<T>, keep: T -> bool, before: (T, T) -> bool)
    requires forall i, j | 0 <= i < j < |rows| :: before(rows[i], rows[j])
    ensures forall i, j | 0 <= i < j < |Keep(rows, keep)| :: before(Keep(rows, keep)[i], Keep(rows, keep)[j])
    decreases |rows|
  {
    if rows != [] {
      var tail := rows[1..];
      KeepPairwise(tail, keep, before);
      var rest := Keep(tail, keep);
      forall y | y in rest
        ensures before(rows[0], y)
      {
        var k :| 0 <= k < |tail| && tail[k] == y;
        assert rows[k + 1] == y;
      }
      var r := Keep(rows, keep);
      assert r == (if keep(rows[0]) then [rows[0]] else []) + rest;
      forall i, j | 0 <= i < j < |r|
        ensures before(r[i], r[j])
      {
        if keep(rows[0]) {
          assert r[j] == rest[j - 1] && r[j] in rest;
          if i > 0 {
            assert r[i] == rest[i - 1];
            assert before(rest[i - 1], rest[j - 1]);
          }
        } else {
          assert r == rest;
          assert before(rest[i], rest[j]);
        }
      }
    }
  }

  /** The table read backwards. */
  function Reverse<T>(s: seq<T>): (r: seq<T>)
    ensures |r| == |s| && forall k | 0 <= k < |s| :: r[k] == s[|s| - 1 - k]
    decreases |s|
  {
    if s == [] then [] else Reverse(s[1..]) + [s[0]]
  }

  /** `LIMIT ?`: at most `limit` rows; a negative limit means no limit, as in SQLite. */
  function Limit<T>(s: seq<T>, limit: int): (r: seq<T>)
    ensures limit >= 0 ==> |r| <= limit
    ensures r <= s
    ensures limit < 0 || |s| <= limit ==> r == s
    ensures 0 <= limit < |s| ==> |r| == limit
  {
    if 0 <= limit < |s| then s[..limit] else s
  }

  // ---- configurations ----

  /** `SELECT * FROM configurations WHERE ...`: the first row the condition holds of. */
  function FindRow(rows: seq<Configuration>, matches: Configuration -> bool): (r: Option<Configuration>)
    ensures r.Some? ==> r.value in rows && matches(r.value)
    ensures r.None? <==> forall x | x in rows :: !matches(x)
    ensures r.Some? ==> exists k | 0 <= k < |rows| :: rows[k] == r.value && forall m | 0 <= m < k :: !matches(rows[m])
    decreases |rows|
  {
    if rows == [] then None
    else if matches(rows[0]) then Some(rows[0])
    else
      assert rows == [rows[0]] + rows[1..];
      var r := FindRow(rows[1..], matches);
      assert r.Some? ==> exists k | 0 <= k < |rows| :: rows[k] == r.value && forall m | 0 <= m < k :: !matches(rows[m]) by {
        if r.Some? {
          var k :| 0 <= k < |rows[1..]| && rows[1..][k] == r.value && forall m | 0 <= m < k :: !matches(rows[1..][m]);
          assert rows[k + 1] == r.value;
          assert forall m | 0 <= m < k + 1 :: !matches(rows[m]) by {
            forall m | 0 <= m < k + 1 ensures !matches(rows[m]) {
              if m > 0 { assert rows[m] == rows[1..][m - 1]; }
            }
          }
        }
      }
      r
  }

  /** `WHERE id = ?`. */
  function HasId(id: int): Configuration -> bool {
    (x: Configuration) => x.id == id
  }

  /** `WHERE name = ?`. */
  function HasName(name: string): Configuration -> bool {
    (x: Configuration) => x.name == name
  }

  /** `SELECT * FROM configurations WHERE id = ?`: the first row with that id. */
  function FindConfiguration(rows: seq<Configuration>, id: int): (r: Option<Configuration>)
    ensures r.Some? ==> r.value in rows && r.value.id == id
    ensures r.None? <==> forall x | x in rows :: x.id != id
  {
    FindRow(rows, HasId(id))
  }

  /** `SELECT * FROM configurations WHERE name = ?`: the first row with that name. */
  function FindConfigurationByName(rows: seq<Configuration>, name: string): (r: Option<Configuration>)
    ensures r.Some? ==> r.value in rows && r.value.name == name
    ensures r.None? <==> forall x | x in rows :: x.name != name
  {
    FindRow(rows, HasName(name))
  }

  /** Whether a row other than `id` already holds `name`: the UNIQUE constraint on
      configurations.name. */
  predicate NameTaken(rows: seq<Configuration>, name: string, id: int) {
    exists k | 0 <= k < |rows| :: rows[k].name == name && rows[k].id != id
  }

  /** Ids strictly increase along the table and no two rows share a name. */
  predicate ConfigurationsOrdered(rows: seq<Configuration>) {
    forall i, j | 0 <= i < j < |rows| :: rows[i].id < rows[j].id && rows[i].name != rows[j].name
  }

  /** The row `row` written over the row with the same id. */
  function ReplaceConfiguration(rows: seq<Configuration>, row: Configuration): (r: seq<Configuration>)
    ensures |r| == |rows|
  {
    seq(|rows|, k requires 0 <= k < |rows| => if rows[k].id == row.id then row else rows[k])
  }

  /** The WHERE condition `id <> ?` of a configuration delete, as the rows it keeps. */
  function ConfigurationKept(id: int): Configuration -> bool {
    (x: Configuration) => x.id != id
  }

  /** `DELETE FROM configurations WHERE id = ?`. */
  function WithoutConfiguration(rows: seq<Configuration>, id: int): seq<Configuration> {
    Keep(rows, ConfigurationKept(id))
  }

  /** Deleting removes exactly the row with the id and keeps the others, in order. */
  lemma WithoutConfigurationFacts(rows: seq<Configuration>, id: int)
    requires ConfigurationsOrdered(rows)
    ensures var r := WithoutConfiguration(rows, id);
      && (forall x :: x in r <==> x in rows && x.id != id)
      && ConfigurationsOrdered(r)
  {
    var r := WithoutConfiguration(rows, id);
    var before := (a: Configuration, b: Configuration) => a.id < b.id && a.name != b.name;
    KeepPairwise(rows, ConfigurationKept(id), before);
    forall i, j | 0 <= i < j < |r| ensures r[i].id < r[j].id && r[i].name != r[j].name {
      assert before(r[i], r[j]);
    }
  }

  /** Writing a row over the row with its id keeps every id in place, and keeps the table
      ordered when no other row holds the row's name. */
  lemma ReplaceConfigurationOrdered(rows: seq<Configuration>, row: Configuration)
    requires ConfigurationsOrdered(rows) && !NameTaken(rows, row.name, row.id)
    ensures forall k | 0 <= k < |rows| :: ReplaceConfiguration(rows, row)[k].id == rows[k].id
    ensures ConfigurationsOrdered(ReplaceConfiguration(rows, row))
  {
    var r := ReplaceConfiguration(rows, row);
    assert forall k | 0 <= k < |rows| && rows[k].id != row.id :: rows[k].name != row.name;
    forall i, j | 0 <= i < j < |r| ensures r[i].id < r[j].id && r[i].name != r[j].name {
      assert r[i].id == rows[i].id && r[j].id == rows[j].id;
    }
  }

  /** Writing a row over the row with its id puts it in the table when that id is present
      and leaves every row with another id as it was. */
  lemma ReplaceConfigurationRows(rows: seq<Configuration>, row: Configuration)
    ensures forall x :: x in ReplaceConfiguration(rows, row) && x.id != row.id <==> x in rows && x.id != row.id
    ensures FindConfiguration(rows, row.id).Some? ==> row in ReplaceConfiguration(rows, row)
  {
    var r := ReplaceConfiguration(rows, row);
    forall x | x in rows && x.id != row.id ensures x in r {
      var k :| 0 <= k < |rows| && rows[k] == x;
      assert r[k] == x;
    }
    forall x | x in r && x.id != row.id ensures x in rows {
      var k :| 0 <= k < |r| && r[k] == x;
      assert rows[k] == x;
    }
    if FindConfiguration(rows, row.id).Some? {
      var k :| 0 <= k < |rows| && rows[k] == FindConfiguration(rows, row.id).value;
      assert r[k] == row;
    }
  }

  // ---- entity rules ----

  /** `ORDER BY rule_order, created_at`, ties broken by id. */
  predicate RuleBefore(a: EntityRule, b: EntityRule) {
    a.ruleOrder < b.ruleOrder
    || (a.ruleOrder == b.ruleOrder && (a.createdAt < b.createdAt || (a.createdAt == b.createdAt && a.id <= b.id)))
  }

  predicate RulesSorted(rows: seq<EntityRule>) {
    forall i, j | 0 <= i < j < |rows| :: RuleBefore(rows[i], rows[j])
  }

  /** One rule put before the first rule it precedes. */
  function InsertRule(x: EntityRule, sorted: seq<EntityRule>): seq<EntityRule>
    decreases |sorted|
  {
    if sorted == [] then [x]
    else if RuleBefore(x, sorted[0]) then [x] + sorted
    else [sorted[0]] + InsertRule(x, sorted[1..])
  }

  /** Inserting adds the rule and loses none. */
  lemma {:induction false} InsertRulePermutes(x: EntityRule, sorted: seq<EntityRule>)
    ensures multiset(InsertRule(x, sorted)) == multiset(sorted) + multiset{x}
    decreases |sorted|
  {
    if sorted != [] && !RuleBefore(x, sorted[0]) {
      InsertRulePermutes(x, sorted[1..]);
      assert sorted == [sorted[0]] + sorted[1..];
    }
  }

  /** Inserting into sorted rules keeps them sorted. */
  lemma {:induction false} InsertRuleSorted(x: EntityRule, sorted: seq<EntityRule>)
    requires RulesSorted(sorted)
    ensures RulesSorted(InsertRule(x, sorted))
    decreases |sorted|
  {
    if sorted == [] {
    } else if RuleBefore(x, sorted[0]) {
      ConsSorted(x, sorted);
    } else {
      var tail := sorted[1..];
      InsertRuleSorted(x, tail);
      InsertRulePermutes(x, tail);
      HeadPrecedes(x, sorted);
      ConsSorted(sorted[0], InsertRule(x, tail));
    }
  }

  /** A rule that precedes every rule of a sorted list may be put in front of it. */
  lemma ConsSorted(h: EntityRule, rest: seq<EntityRule>)
    requires RulesSorted(rest)
    requires forall k | 0 <= k < |rest| :: RuleBefore(h, rest[k])
    ensures RulesSorted([h] + rest)
  {
    var r := [h] + rest;
    forall i, j | 0 <= i < j < |r| ensures RuleBefore(r[i], r[j]) {
      assert r[j] == rest[j - 1];
      if i > 0 {
        assert r[i] == rest[i - 1];
      }
    }
  }

  /** The first of sorted rules precedes whatever inserting a rule it does not follow
      into the others gives. */
  lemma HeadPrecedes(x: EntityRule, sorted: seq<EntityRule>)
    requires RulesSorted(sorted) && sorted != [] && !RuleBefore(x, sorted[0])
    requires multiset(InsertRule(x, sorted[1..])) == multiset(sorted[1..]) + multiset{x}
    ensures forall k | 0 <= k < |InsertRule(x, sorted[1..])| :: RuleBefore(sorted[0], InsertRule(x, sorted[1..])[k])
  {
    var tail := sorted[1..];
    var rest := InsertRule(x, tail);
    forall k | 0 <= k < |rest| ensures RuleBefore(sorted[0], rest[k]) {
      var y := rest[k];
      assert y in multiset(rest);
      if y != x {
        assert y in multiset(tail);
        var m :| 0 <= m < |tail| && tail[m] == y;
        assert sorted[m + 1] == y;
      }
    }
  }

  /** The rules in `ORDER BY rule_order, created_at` order. */
  function SortRules(rows: seq<EntityRule>): seq<EntityRule>
    decreases |rows|
  {
    if rows == [] then [] else InsertRule(rows[0], SortRules(rows[1..]))
  }

  /** Sorting orders the rules and keeps each as often as it was there. */
  lemma {:induction false} SortRulesFacts(rows: seq<EntityRule>)
    ensures multiset(SortRules(rows)) == multiset(rows)
    ensures RulesSorted(SortRules(rows))
    decreases |rows|
  {
    if rows != [] {
      var rest := SortRules(rows[1..]);
      SortRulesFacts(rows[1..]);
      InsertRulePermutes(rows[0], rest);
      InsertRuleSorted(rows[0], rest);
      assert rows == [rows[0]] + rows[1..];
    }
  }

  /** `WHERE configuration_id = ? AND is_active = 1` on entity rules. */
  function EntityRuleListed(configurationId: int): EntityRule -> bool {
    (x: EntityRule) => x.configurationId == configurationId && x.isActive
  }

  function ActiveEntityRules(rows: seq<EntityRule>, configurationId: int): seq<EntityRule> {
    Keep(rows, EntityRuleListed(configurationId))
  }

  /** getEntityRulesByConfiguration's result. */
  function EntityRulesOf(rows: seq<EntityRule>, configurationId: int): seq<EntityRule> {
    SortRules(ActiveEntityRules(rows, configurationId))
  }

  /** The listing holds exactly the configuration's active rules, each as often as the
      table holds it, in rule order then creation order. */
  lemma EntityRulesOfFacts(rows: seq<EntityRule>, configurationId: int)
    ensures var r := EntityRulesOf(rows, configurationId);
      && (forall x :: x in r <==> x in rows && x.configurationId == configurationId && x.isActive)
      && multiset(r) == multiset(ActiveEntityRules(rows, configurationId))
      && (forall x :: multiset(r)[x] ==
            if x.configurationId == configurationId && x.isActive then multiset(rows)[x] else 0)
      && RulesSorted(r)
  {
    var r := EntityRulesOf(rows, configurationId);
    SortRulesFacts(ActiveEntityRules(rows, configurationId));
    KeepCounts(rows, EntityRuleListed(configurationId));
    forall x ensures x in r <==> x in ActiveEntityRules(rows, configurationId) {
      assert x in r <==> x in multiset(r);
    }
  }

  /** Ids strictly increase along the table. */
  predicate EntityRulesOrdered(rows: seq<EntityRule>) {
    forall i, j | 0 <= i < j < |rows| :: rows[i].id < rows[j].id
  }

  /** `UPDATE entity_rules SET rule_text = ?, rule_order = ? WHERE id = ?`. */
  function ReviseEntityRule(rows: seq<EntityRule>, id: int, ruleText: string, ruleOrder: int): (r: seq<EntityRule>)
    ensures |r| == |rows|
  {
    seq(|rows|, k requires 0 <= k < |rows| =>
      if rows[k].id == id then rows[k].(ruleText := ruleText, ruleOrder := ruleOrder) else rows[k])
  }

  /** Revising a rule gives it the new text and order and touches no other column and no
      other row. */
  lemma ReviseEntityRuleFacts(rows: seq<EntityRule>, id: int, ruleText: string, ruleOrder: int)
    ensures var r := ReviseEntityRule(rows, id, ruleText, ruleOrder);
      && (forall k | 0 <= k < |rows| ::
            r[k].(ruleText := rows[k].ruleText, ruleOrder := rows[k].ruleOrder) == rows[k])
      && (forall k | 0 <= k < |rows| && rows[k].id == id :: r[k].ruleText == ruleText && r[k].ruleOrder == ruleOrder)
      && (forall k | 0 <= k < |rows| && rows[k].id != id :: r[k] == rows[k])
      && (EntityRulesOrdered(rows) ==> EntityRulesOrdered(r))
  {
  }

  /** The WHERE condition `id <> ?` of a rule delete, as the rows it keeps. */
  function EntityRuleKept(id: int): EntityRule -> bool {
    (x: EntityRule) => x.id != id
  }

  /** `DELETE FROM entity_rules WHERE id = ?`. */
  function WithoutEntityRule(rows: seq<EntityRule>, id: int): seq<EntityRule> {
    Keep(rows, EntityRuleKept(id))
  }

  /** Deleting a rule removes the row with the id and keeps the others in order. */
  lemma WithoutEntityRuleFacts(rows: seq<EntityRule>, id: int)
    requires EntityRulesOrdered(rows)
    ensures var r := WithoutEntityRule(rows, id);
      && (forall x :: x in r <==> x in rows && x.id != id)
      && EntityRulesOrdered(r)
  {
    var r := WithoutEntityRule(rows, id);
    var before := (a: EntityRule, b: EntityRule) => a.id < b.id;
    KeepPairwise(rows, EntityRuleKept(id), before);
    forall i, j | 0 <= i < j < |r| ensures r[i].id < r[j].id {
      assert before(r[i], r[j]);
    }
  }

  // ---- legacy rules ----

  /** Ids strictly increase along the table, and so, not strictly, do creation times. */
  predicate LegacyRulesOrdered(rows: seq<Rule>) {
    forall i, j | 0 <= i < j < |rows| :: rows[i].id < rows[j].id && rows[i].createdAt <= rows[j].createdAt
  }

  /** getRulesByConfiguration's result: `WHERE configuration_id = ? AND is_active = 1
      ORDER BY created_at`, ties broken by id. */
  function RulesOf(rows: seq<Rule>, configurationId: int): seq<Rule> {
    Keep(rows, RuleListed(configurationId))
  }

  /** `WHERE configuration_id = ? AND is_active = 1` on legacy rules. */
  function RuleListed(configurationId: int): Rule -> bool {
    (x: Rule) => x.configurationId == configurationId && x.isActive
  }

  /** The listing holds exactly the configuration's active rules, oldest first. */
  lemma RulesOfFacts(rows: seq<Rule>, configurationId: int)
    requires LegacyRulesOrdered(rows)
    ensures var r := RulesOf(rows, configurationId);
      && (forall x :: x in r <==> x in rows && x.configurationId == configurationId && x.isActive)
      && LegacyRulesOrdered(r)
  {
    var r := RulesOf(rows, configurationId);
    var before := (a: Rule, b: Rule) => a.id < b.id && a.createdAt <= b.createdAt;
    KeepPairwise(rows, RuleListed(configurationId), before);
    forall i, j | 0 <= i < j < |r| ensures r[i].id < r[j].id && r[i].createdAt <= r[j].createdAt {
      assert before(r[i], r[j]);
    }
  }

  /** `UPDATE rules SET rule_text = ?, rule_type = ? WHERE id = ?`. */
  function ReviseRule(rows: seq<Rule>, id: int, ruleText: string, ruleType: string): (r: seq<Rule>)
    ensures |r| == |rows|
  {
    seq(|rows|, k requires 0 <= k < |rows| =>
      if rows[k].id == id then rows[k].(ruleText := ruleText, ruleType := ruleType) else rows[k])
  }

  /** `UPDATE rules SET is_active = 0 WHERE id = ?`: the legacy delete. */
  function DeactivateRule(rows: seq<Rule>, id: int): (r: seq<Rule>)
    ensures |r| == |rows|
  {
    seq(|rows|, k requires 0 <= k < |rows| => if rows[k].id == id then rows[k].(isActive := false) else rows[k])
  }

  /** Revising a legacy rule changes only its text and type; deleting it keeps the row,
      marked inactive, so that it no longer appears in the configuration's listing. */
  lemma LegacyRuleFacts(rows: seq<Rule>, id: int, ruleText: string, ruleType: string, configurationId: int)
    ensures var r := ReviseRule(rows, id, ruleText, ruleType);
      && (forall k | 0 <= k < |rows| ::
            r[k].(ruleText := rows[k].ruleText, ruleType := rows[k].ruleType) == rows[k])
      && (forall k | 0 <= k < |rows| && rows[k].id == id :: r[k].ruleText == ruleText && r[k].ruleType == ruleType)
      && (LegacyRulesOrdered(rows) ==> LegacyRulesOrdered(r))
    ensures var d := DeactivateRule(rows, id);
      && (forall k | 0 <= k < |rows| :: d[k].(isActive := rows[k].isActive) == rows[k])
      && (forall x | x in RulesOf(d, configurationId) :: x.id != id)
      && (forall x | x in rows && x.id != id && x.configurationId == configurationId && x.isActive ::
            x in RulesOf(d, configurationId))
      && (LegacyRulesOrdered(rows) ==> LegacyRulesOrdered(d))
  {
    var d := DeactivateRule(rows, id);
    forall x | x in RulesOf(d, configurationId) ensures x.id != id {
      var k :| 0 <= k < |d| && d[k] == x;
    }
    forall x | x in rows && x.id != id && x.configurationId == configurationId && x.isActive
      ensures x in RulesOf(d, configurationId)
    {
      var k :| 0 <= k < |rows| && rows[k] == x;
      assert d[k] == x;
    }
  }

  // ---- activity log ----

  /** Ids strictly increase along the log, and so, not strictly, do creation times. */
  predicate LogOrdered(log: seq<Activity>) {
    forall i, j | 0 <= i < j < |log| :: log[i].id < log[j].id && log[i].createdAt <= log[j].createdAt
  }

  /** `WHERE configuration_id = ?`. */
  function ActivityFor(log: seq<Activity>, configurationId: int): seq<Activity> {
    Keep(log, ActivityListed(configurationId))
  }

  function ActivityListed(configurationId: int): Activity -> bool {
    (a: Activity) => a.configurationId == configurationId
  }

  /** getActivityLog's result: `ORDER BY created_at DESC LIMIT ?`, ties broken newest
      id first. */
  function RecentActivity(log: seq<Activity>, configurationId: int, limit: int): seq<Activity> {
    Limit(Reverse(ActivityFor(log, configurationId)), limit)
  }

  /** Filtering the log keeps it ordered. */
  lemma ActivityForOrdered(log: seq<Activity>, configurationId: int)
    requires LogOrdered(log)
    ensures LogOrdered(ActivityFor(log, configurationId))
  {
    var f := ActivityFor(log, configurationId);
    var before := (a: Activity, b: Activity) => a.id < b.id && a.createdAt <= b.createdAt;
    KeepPairwise(log, ActivityListed(configurationId), before);
    forall i, j | 0 <= i < j < |f| ensures f[i].id < f[j].id && f[i].createdAt <= f[j].createdAt {
      assert before(f[i], f[j]);
    }
  }

  /** Read backwards and cut at the limit, an ordered log lists newest first. */
  lemma NewestFirst(f: seq<Activity>, limit: int)
    requires LogOrdered(f)
    ensures forall i, j | 0 <= i < j < |Limit(Reverse(f), limit)| ::
      Limit(Reverse(f), limit)[i].id > Limit(Reverse(f), limit)[j].id
      && Limit(Reverse(f), limit)[i].createdAt >= Limit(Reverse(f), limit)[j].createdAt
  {
    var r := Limit(Reverse(f), limit);
    forall i, j | 0 <= i < j < |r| ensures r[i].id > r[j].id && r[i].createdAt >= r[j].createdAt {
      assert r[i] == f[|f| - 1 - i] && r[j] == f[|f| - 1 - j];
    }
  }

  /** What the limit cuts off is older than what it keeps. */
  lemma OlderDropped(f: seq<Activity>, limit: int)
    requires LogOrdered(f)
    ensures forall a, b | a in Limit(Reverse(f), limit) && b in f && b !in Limit(Reverse(f), limit) :: b.id < a.id
  {
    var rev := Reverse(f);
    var r := Limit(rev, limit);
    assert forall p | 0 <= p < |r| :: rev[p] in r;
    forall a, b | a in r && b in f && b !in r ensures b.id < a.id {
      var i :| 0 <= i < |r| && r[i] == a;
      var m :| 0 <= m < |f| && f[m] == b;
      assert rev[|f| - 1 - m] == b;
      assert |f| - 1 - m >= |r|;
      assert a == f[|f| - 1 - i];
    }
  }

  /** With no cut, nothing is lost. */
  lemma NothingDropped(f: seq<Activity>, limit: int)
    requires limit < 0 || |f| <= limit
    ensures forall a | a in f :: a in Limit(Reverse(f), limit)
  {
    var rev := Reverse(f);
    forall a | a in f ensures a in rev {
      var m :| 0 <= m < |f| && f[m] == a;
      assert rev[|f| - 1 - m] == a;
    }
  }

  /** The listing holds at most `limit` entries, all of the configuration, newest first. */
  lemma RecentActivityOrder(log: seq<Activity>, configurationId: int, limit: int)
    requires LogOrdered(log)
    ensures limit >= 0 ==> |RecentActivity(log, configurationId, limit)| <= limit
    ensures forall a | a in RecentActivity(log, configurationId, limit) :: a in log && a.configurationId == configurationId
    ensures forall i, j | 0 <= i < j < |RecentActivity(log, configurationId, limit)| ::
      RecentActivity(log, configurationId, limit)[i].id > RecentActivity(log, configurationId, limit)[j].id
      && RecentActivity(log, configurationId, limit)[i].createdAt >= RecentActivity(log, configurationId, limit)[j].createdAt
  {
    var f := ActivityFor(log, configurationId);
    var r := RecentActivity(log, configurationId, limit);
    assert r == Limit(Reverse(f), limit);
    ActivityForOrdered(log, configurationId);
    NewestFirst(f, limit);
    forall a | a in r ensures a in f {
      var i :| 0 <= i < |r| && r[i] == a;
      assert Reverse(f)[i] == a;
    }
  }

  /** Every entry of the configuration the listing leaves out is older than every entry it
      holds, and with no limit, or few enough entries, it leaves out none. */
  lemma RecentActivityComplete(log: seq<Activity>, configurationId: int, limit: int)
    requires LogOrdered(log)
    ensures forall a, b | a in RecentActivity(log, configurationId, limit) && b in log
      && b.configurationId == configurationId && b !in RecentActivity(log, configurationId, limit) :: b.id < a.id
    ensures limit < 0 || |ActivityFor(log, configurationId)| <= limit ==>
      forall a | a in log && a.configurationId == configurationId :: a in RecentActivity(log, configurationId, limit)
  {
    var f := ActivityFor(log, configurationId);
    var r := RecentActivity(log, configurationId, limit);
    assert r == Limit(Reverse(f), limit);
    ActivityForOrdered(log, configurationId);
    OlderDropped(f, limit);
    if limit < 0 || |f| <= limit {
      NothingDropped(f, limit);
    }
  }
}
