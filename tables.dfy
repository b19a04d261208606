/**
 * The rows of the four tables of the configuration store (src/lib/database.js, lines
 * 33-74). Timestamps are ticks of an abstract clock: CURRENT_TIMESTAMP renders as
 * 'YYYY-MM-DD HH:MM:SS', whose text order is time order, so only their order matters.
 */
module Tables {
  /** A row of `configurations`. */
  datatype Configuration = Configuration(
    id: nat, name: string, semanticSchema: string, dataSchema: string, uiSchema: string,
    jsFunctionImpl: string, createdAt: nat, updatedAt: nat)

  /** A row of `entity_rules`. */
  datatype EntityRule = EntityRule(
    id: nat, configurationId: int, ruleText: string, ruleOrder: int, isActive: bool, createdAt: nat)

  /** A row of the legacy `rules` table. */
  datatype Rule = Rule(
    id: nat, configurationId: int, ruleText: string, ruleType: string, isActive: bool, createdAt: nat)

  /** A row of `activity_log`. */
  datatype Activity = Activity(id: nat, configurationId: int, action: string, details: string, createdAt: nat)
}
