/**
 * The configuration store (src/lib/database.js): a SQLite database of four tables,
 * modelled as a class whose fields hold the rows of each table in id order. The
 * AUTOINCREMENT counters of sqlite_sequence are fields too, so that an id is never
 * handed out twice, and CURRENT_TIMESTAMP reads the `clock` field, which only the
 * environment moves, forwards.
 *
 * Each method runs the statements its source counterpart runs, in the same order, and
 * states the whole new state. A failing statement (the UNIQUE constraint on
 * configurations.name) makes the method fail with no further statement run, as the
 * rejected promise does.
 */
module Store {
  import opened Wrappers
  import opened Strings
  import opened Tables
  import opened UpdateStatement
  import opened Queries

  /** Why a statement was rejected. */
  datatype StoreError = UniqueViolation

  /** The details text of a CREATE entry. */
  function CreatedDetails(name: string): string {
    "Configuration \"" + name + "\" created"
  }

  /** The details text of a DELETE entry. */
  function DeletedDetails(name: string): string {
    "Configuration \"" + name + "\" deleted"
  }

  /** The details text of an UPDATE entry: the keys of the updates record. */
  function UpdatedDetails(u: Updates): string {
    "Configuration updated: " + Join(UpdateKeys(u), ", ")
  }

  /** The details text of a RULE_ADD entry. */
  function RuleAddedDetails(ruleText: string): string {
    "Rule added: \"" + ruleText + "\""
  }

  class Database {
    var configurations: seq<Configuration>
    var entityRules: seq<EntityRule>
    var rules: seq<Rule>
    var activityLog: seq<Activity>
    /** The next AUTOINCREMENT id of each table. */
    var nextConfigurationId: nat
    var nextEntityRuleId: nat
    var nextRuleId: nat
    var nextActivityId: nat
    /** What CURRENT_TIMESTAMP reads. */
    var clock: nat

    /** Every table is in id order, below its next id; configuration names are unique;
        legacy rules and log entries are stamped in id order, never after the clock. */
    ghost predicate Valid()
      reads this
    {
      && 0 < nextConfigurationId && 0 < nextEntityRuleId && 0 < nextRuleId && 0 < nextActivityId
      && ConfigurationsOrdered(configurations)
      && (forall x | x in configurations :: 0 < x.id < nextConfigurationId)
      && EntityRulesOrdered(entityRules)
      && (forall x | x in entityRules :: 0 < x.id < nextEntityRuleId)
      && LegacyRulesOrdered(rules)
      && (forall x | x in rules :: 0 < x.id < nextRuleId && x.createdAt <= clock)
      && LogOrdered(activityLog)
      && (forall x | x in activityLog :: 0 < x.id < nextActivityId && x.createdAt <= clock)
    }

    /** A freshly created database: empty tables. */
    constructor()
      ensures Valid()
      ensures configurations == [] && entityRules == [] && rules == [] && activityLog == []
      ensures nextConfigurationId == 1 && nextEntityRuleId == 1 && nextRuleId == 1 && nextActivityId == 1
      ensures clock == 0
    {
      configurations, entityRules, rules, activityLog := [], [], [], [];
      nextConfigurationId, nextEntityRuleId, nextRuleId, nextActivityId := 1, 1, 1, 1;
      clock := 0;
    }

    /** Time passes. */
    method Tick(seconds: nat)
      requires Valid()
      modifies this
      ensures Valid()
      ensures clock == old(clock) + seconds
      ensures configurations == old(configurations) && entityRules == old(entityRules)
      ensures rules == old(rules) && activityLog == old(activityLog)
      ensures nextConfigurationId == old(nextConfigurationId) && nextEntityRuleId == old(nextEntityRuleId)
      ensures nextRuleId == old(nextRuleId) && nextActivityId == old(nextActivityId)
    {
      clock := clock + seconds;
    }

    /** logActivity: one entry appended to the log. */
    method LogActivity(configurationId: int, action: string, details: string) returns (id: nat)
      requires Valid()
      modifies this
      ensures Valid()
      ensures id == old(nextActivityId) && nextActivityId == id + 1
      ensures activityLog == old(activityLog) + [Activity(id, configurationId, action, details, clock)]
      ensures configurations == old(configurations) && entityRules == old(entityRules) && rules == old(rules)
      ensures nextConfigurationId == old(nextConfigurationId) && nextEntityRuleId == old(nextEntityRuleId)
      ensures nextRuleId == old(nextRuleId) && clock == old(clock)
    {
      id := nextActivityId;
      forall i | 0 <= i < |activityLog| ensures activityLog[i].id < id && activityLog[i].createdAt <= clock {
        assert activityLog[i] in activityLog;
      }
      activityLog := activityLog + [Activity(id, configurationId, action, details, clock)];
      nextActivityId := nextActivityId + 1;
    }

    /** createConfiguration: the row is inserted with empty data, UI and function texts
        unless given, a CREATE entry is logged for its id, and the id is returned. A name
        already in use is rejected by the UNIQUE constraint before anything changes. */
    method CreateConfiguration(name: string, semanticSchema: string, dataSchema: string := "",
                               uiSchema: string := "", jsFunctionImpl: string := "")
      returns (r: Result<nat, StoreError>)
      requires Valid()
      modifies this
      ensures Valid()
      ensures FindConfigurationByName(old(configurations), name).Some? ==>
        && r == Err(UniqueViolation)
        && configurations == old(configurations) && activityLog == old(activityLog)
        && nextConfigurationId == old(nextConfigurationId) && nextActivityId == old(nextActivityId)
      ensures FindConfigurationByName(old(configurations), name).None? ==>
        && r == Ok(old(nextConfigurationId))
        && configurations == old(configurations)
             + [Configuration(r.value, name, semanticSchema, dataSchema, uiSchema, jsFunctionImpl, clock, clock)]
        && nextConfigurationId == r.value + 1
        && activityLog == old(activityLog)
             + [Activity(old(nextActivityId), r.value, "CREATE", CreatedDetails(name), clock)]
        && nextActivityId == old(nextActivityId) + 1
      ensures entityRules == old(entityRules) && rules == old(rules) && clock == old(clock)
      ensures nextEntityRuleId == old(nextEntityRuleId) && nextRuleId == old(nextRuleId)
    {
      if FindConfigurationByName(configurations, name).Some? {
        return Err(UniqueViolation);
      }
      var id := nextConfigurationId;
      forall i | 0 <= i < |configurations| ensures configurations[i].id < id && configurations[i].name != name {
        assert configurations[i] in configurations;
      }
      configurations := configurations
        + [Configuration(id, name, semanticSchema, dataSchema, uiSchema, jsFunctionImpl, clock, clock)];
      nextConfigurationId := nextConfigurationId + 1;
      var _ := LogActivity(id, "CREATE", CreatedDetails(name));
      r := Ok(id);
    }

    /** getConfiguration: the row with the id, if there is one. */
    method GetConfiguration(id: int) returns (r: Option<Configuration>)
      requires Valid()
      ensures forall x :: r == Some(x) <==> x in configurations && x.id == id
    {
      r := FindConfiguration(configurations, id);
      if r.Some? {
        forall x | x in configurations && x.id == id ensures x == r.value {
          var i :| 0 <= i < |configurations| && configurations[i] == x;
          var j :| 0 <= j < |configurations| && configurations[j] == r.value;
          assert i == j;
        }
      }
    }

    /** getConfigurationByName: the row with the name, if there is one. */
    method GetConfigurationByName(name: string) returns (r: Option<Configuration>)
      requires Valid()
      ensures forall x :: r == Some(x) <==> x in configurations && x.name == name
    {
      r := FindConfigurationByName(configurations, name);
      if r.Some? {
        forall x | x in configurations && x.name == name ensures x == r.value {
          var i :| 0 <= i < |configurations| && configurations[i] == x;
          var j :| 0 <= j < |configurations| && configurations[j] == r.value;
          assert i == j;
        }
      }
    }

    /** updateConfiguration: the statement Build makes is run against the row with the
        id, which ends up as Apply describes it; the count of changed rows is returned.
        The UPDATE entry is logged whether or not such a row exists. A new name that
        another row holds is rejected before anything changes. */
    method UpdateConfiguration(id: int, updates: Updates) returns (r: Result<nat, StoreError>)
      requires Valid()
      modifies this
      ensures Valid()
      ensures FindConfiguration(old(configurations), id).None? ==>
        r == Ok(0) && configurations == old(configurations)
      ensures FindConfiguration(old(configurations), id).Some? ==>
        var row := Apply(FindConfiguration(old(configurations), id).value, updates, clock);
        if NameTaken(old(configurations), row.name, id) then
          r == Err(UniqueViolation) && configurations == old(configurations)
        else
          r == Ok(1) && configurations == ReplaceConfiguration(old(configurations), row)
      ensures r.Err? ==> activityLog == old(activityLog) && nextActivityId == old(nextActivityId)
      ensures r.Ok? ==>
        && activityLog == old(activityLog) + [Activity(old(nextActivityId), id, "UPDATE", UpdatedDetails(updates), clock)]
        && nextActivityId == old(nextActivityId) + 1
      ensures entityRules == old(entityRules) && rules == old(rules) && clock == old(clock)
      ensures nextConfigurationId == old(nextConfigurationId)
      ensures nextEntityRuleId == old(nextEntityRuleId) && nextRuleId == old(nextRuleId)
    {
      var fields, values, sql := Build(id, updates);
      var changes := 0;
      var target := FindConfiguration(configurations, id);
      if target.Some? {
        StatementApplies(updates, id, target.value, clock);
        var executed := ExecuteSet(target.value, fields, values, clock);
        var row := executed.value.0;
        if NameTaken(configurations, row.name, id) {
          return Err(UniqueViolation);
        }
        ReplaceConfigurationOrdered(configurations, row);
        configurations := ReplaceConfiguration(configurations, row);
        changes := 1;
      }
      var _ := LogActivity(id, "UPDATE", UpdatedDetails(updates));
      r := Ok(changes);
    }

    /** deleteConfiguration: false, with nothing changed, when there is no row with the
        id; otherwise the row is deleted, a DELETE entry naming it is logged, and true
        is returned. The configuration's rules and log entries stay. */
    method DeleteConfiguration(id: int) returns (deleted: bool)
      requires Valid()
      modifies this
      ensures Valid()
      ensures deleted <==> FindConfiguration(old(configurations), id).Some?
      ensures !deleted ==>
        && configurations == old(configurations)
        && activityLog == old(activityLog)
        && nextActivityId == old(nextActivityId)
      ensures deleted ==>
        && configurations == WithoutConfiguration(old(configurations), id)
        && activityLog == old(activityLog)
             + [Activity(old(nextActivityId), id, "DELETE",
                         DeletedDetails(FindConfiguration(old(configurations), id).value.name), clock)]
        && nextActivityId == old(nextActivityId) + 1
      ensures entityRules == old(entityRules) && rules == old(rules) && clock == old(clock)
      ensures nextConfigurationId == old(nextConfigurationId)
      ensures nextEntityRuleId == old(nextEntityRuleId) && nextRuleId == old(nextRuleId)
    {
      var config := FindConfiguration(configurations, id);
      if config.None? {
        return false;
      }
      WithoutConfigurationFacts(configurations, id);
      configurations := WithoutConfiguration(configurations, id);
      var _ := LogActivity(id, "DELETE", DeletedDetails(config.value.name));
      deleted := true;
    }

    /** createEntityRule: an active rule, of order 0 unless given, is inserted, a
        RULE_ADD entry is logged, and the new id is returned. The configuration id is
        not checked. */
    method CreateEntityRule(configurationId: int, ruleText: string, ruleOrder: int := 0) returns (id: nat)
      requires Valid()
      modifies this
      ensures Valid()
      ensures id == old(nextEntityRuleId) && nextEntityRuleId == id + 1
      ensures entityRules == old(entityRules) + [EntityRule(id, configurationId, ruleText, ruleOrder, true, clock)]
      ensures activityLog == old(activityLog)
        + [Activity(old(nextActivityId), configurationId, "RULE_ADD", RuleAddedDetails(ruleText), clock)]
      ensures nextActivityId == old(nextActivityId) + 1
      ensures configurations == old(configurations) && rules == old(rules) && clock == old(clock)
      ensures nextConfigurationId == old(nextConfigurationId) && nextRuleId == old(nextRuleId)
    {
      id := nextEntityRuleId;
      forall i | 0 <= i < |entityRules| ensures entityRules[i].id < id {
        assert entityRules[i] in entityRules;
      }
      entityRules := entityRules + [EntityRule(id, configurationId, ruleText, ruleOrder, true, clock)];
      nextEntityRuleId := nextEntityRuleId + 1;
      var _ := LogActivity(configurationId, "RULE_ADD", RuleAddedDetails(ruleText));
    }

    /** getEntityRulesByConfiguration: the configuration's active rules, by rule order
        and then by creation time. */
    method GetEntityRulesByConfiguration(configurationId: int) returns (r: seq<EntityRule>)
      ensures r == EntityRulesOf(entityRules, configurationId)
      ensures forall x :: x in r <==> x in entityRules && x.configurationId == configurationId && x.isActive
      ensures RulesSorted(r)
    {
      r := EntityRulesOf(entityRules, configurationId);
      EntityRulesOfFacts(entityRules, configurationId);
    }

    /** updateEntityRule: the rule with the id takes the new text and order; the number
        of rows changed is returned. Nothing is logged. */
    method UpdateEntityRule(id: int, ruleText: string, ruleOrder: int) returns (changes: nat)
      requires Valid()
      modifies this
      ensures Valid()
      ensures entityRules == ReviseEntityRule(old(entityRules), id, ruleText, ruleOrder)
      ensures changes == if exists x | x in old(entityRules) :: x.id == id then 1 else 0
      ensures configurations == old(configurations) && rules == old(rules) && activityLog == old(activityLog)
      ensures clock == old(clock) && nextConfigurationId == old(nextConfigurationId)
      ensures nextEntityRuleId == old(nextEntityRuleId) && nextRuleId == old(nextRuleId)
      ensures nextActivityId == old(nextActivityId)
    {
      changes := if exists x | x in entityRules :: x.id == id then 1 else 0;
      ReviseEntityRuleFacts(entityRules, id, ruleText, ruleOrder);
      entityRules := ReviseEntityRule(entityRules, id, ruleText, ruleOrder);
    }

    /** deleteEntityRule: the rule with the id is removed; the number of rows removed is
        returned. Nothing is logged. */
    method DeleteEntityRule(id: int) returns (changes: nat)
      requires Valid()
      modifies this
      ensures Valid()
      ensures entityRules == WithoutEntityRule(old(entityRules), id)
      ensures changes == if exists x | x in old(entityRules) :: x.id == id then 1 else 0
      ensures configurations == old(configurations) && rules == old(rules) && activityLog == old(activityLog)
      ensures clock == old(clock) && nextConfigurationId == old(nextConfigurationId)
      ensures nextEntityRuleId == old(nextEntityRuleId) && nextRuleId == old(nextRuleId)
      ensures nextActivityId == old(nextActivityId)
    {
      changes := if exists x | x in entityRules :: x.id == id then 1 else 0;
      WithoutEntityRuleFacts(entityRules, id);
      entityRules := WithoutEntityRule(entityRules, id);
    }

    /** createRule: an active legacy rule, of type "simple" unless given, is inserted, a
        RULE_ADD entry is logged, and the new id is returned. */
    method CreateRule(configurationId: int, ruleText: string, ruleType: string := "simple") returns (id: nat)
      requires Valid()
      modifies this
      ensures Valid()
      ensures id == old(nextRuleId) && nextRuleId == id + 1
      ensures rules == old(rules) + [Rule(id, configurationId, ruleText, ruleType, true, clock)]
      ensures activityLog == old(activityLog)
        + [Activity(old(nextActivityId), configurationId, "RULE_ADD", RuleAddedDetails(ruleText), clock)]
      ensures nextActivityId == old(nextActivityId) + 1
      ensures configurations == old(configurations) && entityRules == old(entityRules) && clock == old(clock)
      ensures nextConfigurationId == old(nextConfigurationId) && nextEntityRuleId == old(nextEntityRuleId)
    {
      id := nextRuleId;
      forall i | 0 <= i < |rules| ensures rules[i].id < id && rules[i].createdAt <= clock {
        assert rules[i] in rules;
      }
      rules := rules + [Rule(id, configurationId, ruleText, ruleType, true, clock)];
      nextRuleId := nextRuleId + 1;
      var _ := LogActivity(configurationId, "RULE_ADD", RuleAddedDetails(ruleText));
    }

    /** getRulesByConfiguration: the configuration's active legacy rules, oldest first. */
    method GetRulesByConfiguration(configurationId: int) returns (r: seq<Rule>)
      requires Valid()
      ensures r == RulesOf(rules, configurationId)
      ensures forall x :: x in r <==> x in rules && x.configurationId == configurationId && x.isActive
      ensures forall i, j | 0 <= i < j < |r| :: r[i].createdAt <= r[j].createdAt
    {
      r := RulesOf(rules, configurationId);
      RulesOfFacts(rules, configurationId);
    }

    /** updateRule: the legacy rule with the id takes the new text and type. */
    method UpdateRule(id: int, ruleText: string, ruleType: string) returns (changes: nat)
      requires Valid()
      modifies this
      ensures Valid()
      ensures rules == ReviseRule(old(rules), id, ruleText, ruleType)
      ensures changes == if exists x | x in old(rules) :: x.id == id then 1 else 0
      ensures configurations == old(configurations) && entityRules == old(entityRules)
      ensures activityLog == old(activityLog)
      ensures clock == old(clock) && nextConfigurationId == old(nextConfigurationId)
      ensures nextEntityRuleId == old(nextEntityRuleId) && nextRuleId == old(nextRuleId)
      ensures nextActivityId == old(nextActivityId)
    {
      changes := if exists x | x in rules :: x.id == id then 1 else 0;
      LegacyRuleFacts(rules, id, ruleText, ruleType, 0);
      rules := ReviseRule(rules, id, ruleText, ruleType);
    }

    /** deleteRule: the legacy rule with the id is marked inactive and stays in the
        table. */
    method DeleteRule(id: int) returns (changes: nat)
      requires Valid()
      modifies this
      ensures Valid()
      ensures rules == DeactivateRule(old(rules), id)
      ensures changes == if exists x | x in old(rules) :: x.id == id then 1 else 0
      ensures configurations == old(configurations) && entityRules == old(entityRules)
      ensures activityLog == old(activityLog)
      ensures clock == old(clock) && nextConfigurationId == old(nextConfigurationId)
      ensures nextEntityRuleId == old(nextEntityRuleId) && nextRuleId == old(nextRuleId)
      ensures nextActivityId == old(nextActivityId)
    {
      changes := if exists x | x in rules :: x.id == id then 1 else 0;
      LegacyRuleFacts(rules, id, "", "", 0);
      rules := DeactivateRule(rules, id);
    }

    /** getActivityLog: at most `limit` (50 unless given) of the configuration's entries,
        newest first; those left out are older than those listed. */
    method GetActivityLog(configurationId: int, limit: int := 50) returns (r: seq<Activity>)
      requires Valid()
      ensures r == RecentActivity(activityLog, configurationId, limit)
      ensures limit >= 0 ==> |r| <= limit
      ensures forall a | a in r :: a in activityLog && a.configurationId == configurationId
      ensures forall i, j | 0 <= i < j < |r| :: r[i].id > r[j].id && r[i].createdAt >= r[j].createdAt
      ensures forall a, b | a in r && b in activityLog && b.configurationId == configurationId && b !in r :: b.id < a.id
    {
      r := RecentActivity(activityLog, configurationId, limit);
      RecentActivityOrder(activityLog, configurationId, limit);
      RecentActivityComplete(activityLog, configurationId, limit);
    }
  }
}
