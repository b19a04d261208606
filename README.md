# configurator2000 core, modelled in Dafny

configurator2000 lets a user edit React JSON Schema Form configurations by plain-language
commands. Two parts of it are modelled here.

- **The edit service** (`src/services/claudeService.js`):
  - `modifyJson` and `modifySchemas` check the API credential and their inputs, then render a prompt and send it as one user message.
  - From the first text block of the reply they extract the JSON and parse it.
  - `modifyJson` answers with the value re-serialised by `JSON.stringify(value, null, 2)`. `modifySchemas` answers with the parsed value itself.
- **The configuration store** (`src/lib/database.js`):
  - configurations, entity rules, legacy rules and the activity log;
  - the statement that `updateConfiguration` builds;
  - the activity entries that the create, update, delete and rule-add operations write.

Modules:

- `Wrappers`: `Option` and `Result`.
- `Strings`:
  - `String.prototype.trim` and its white-space set;
  - decimal rendering of naturals;
  - `Array.prototype.join`;
  - substring containment;
  - counting characters.
- `JsonValue`, `JsonParser`, `JsonParseFacts`, `JsonRoundTrip`:
  - JSON values;
  - `JSON.stringify` with a two-space gap, after ECMA-262, section 25.5.2, printing members in their stored order;
  - `JSON.parse`, after ECMA-262, section 25.5.1, where a repeated key keeps its first position and takes the last value and a new key goes last (the key order of JavaScript objects is not modelled; see below);
  - the proof that parsing a printed well-formed value gives the value back.
- `Extraction`:
  - the leftmost-greedy match of `/\{[\s\S]*\}/`;
  - removal of ```` ```json ```` and ```` ``` ```` fences;
  - the final trim;
  - the 200-character excerpt of the error message (counted in characters).
- `Prompts`: the two user messages.
  - The wording of the fixed paragraphs of the schema prompt is a parameter (`SchemaProse`), so the layout lemmas do not depend on it.
  - `SchemaWording` is the wording the service sends.
- `ClaudeService`:
  - the service class;
  - the network call is a function parameter `provider` from request to reply;
  - each method also returns the request it sent, if any.
- `Tables`: the row types.
- `UpdateStatement`:
  - the `fields`/`values` builder of `updateConfiguration`;
  - a meaning for its SET list (`ExecuteSet`);
  - an independent statement of the intended update (`Apply`).
- `Queries`: the SELECT, UPDATE and DELETE statements of the store as functions on rows.
- `Store`:
  - class `Database`, whose fields are the four tables, the AUTOINCREMENT counters and the clock that `CURRENT_TIMESTAMP` reads;
  - one method per store operation, each stating the whole new state.

Three behaviours of the code that a reader might not expect:

- The parse-failure message quotes the *trimmed* reply (`responseText` is trimmed before it is kept), not the untouched completion.
- `updateConfiguration` writes its UPDATE log entry even when no row has the id; only a failing statement (a UNIQUE name clash) stops it.
- Deleting a configuration leaves its rules and log entries: the connection never enables SQLite foreign keys, so `ON DELETE CASCADE` does not fire.

## Model

| member | source | states |
|---|---|---|
| ClaudeService.ClaudeService.constructor | src/services/claudeService.js:5-10 | the service keeps the credential, model and token limit it is configured with, and the fixed messages endpoint |
| ClaudeService.ClaudeService.ModifyJson | src/services/claudeService.js:12-86 | a missing credential fails first and a missing command or document next, both with nothing sent; otherwise exactly the document prompt is sent and the answer is the outcome of the reply |
| ClaudeService.ClaudeService.ModifySchemas | src/services/claudeService.js:88-212 | a missing credential fails first and a missing command next, both with nothing sent; otherwise exactly the schema prompt of the arguments is sent and the answer is the parsed value of the reply |
| ClaudeService.ClaudeService.Extract | src/services/claudeService.js:60-70 | the candidate computed step by step is the brace match of the reply with its fences removed and then trimmed, and it contains no triple backtick |
| ClaudeService.ReadReply | src/services/claudeService.js:48-53 | a non-OK response fails with its status text; a reply without a first text block fails; a completed reply whose first block is text yields exactly that text, trimmed |
| ClaudeService.DocumentOutcome | src/services/claudeService.js:64-80 | modifyJson after the reply is read: extract, clean, JSON.parse, then JSON.stringify with two-space indentation, or the invalid-JSON error; its meaning is stated by DocumentOutcomeReparses, OutcomeOfFailedReply and OutcomesAgree |
| ClaudeService.SchemaOutcome | src/services/claudeService.js:190-206 | modifySchemas after the reply is read: the same extraction and clean-up, then the parsed value itself, or the invalid-JSON error; its meaning is stated by OutcomeOfFailedReply and OutcomesAgree |
| ClaudeService.Validate | src/services/claudeService.js:72-80 | failure exactly when the extracted text does not parse, and it carries the raw reply; on success the parsed value, whose objects have distinct keys |
| ClaudeService.InvalidJsonMessage | src/services/claudeService.js:79 | the message is the fixed prefix, then the first 200 characters of the reply (all of it when shorter), then "..." |
| ClaudeService.DocumentOutcomeReparses | src/services/claudeService.js:73-75 | the text modifyJson returns parses back to exactly the value parsed from the reply |
| ClaudeService.OutcomeOfFailedReply | src/services/claudeService.js:48-50 | a non-OK response fails both operations with "Claude API error: " and the status text; a reply without a text block fails both |
| ClaudeService.OutcomesAgree | src/services/claudeService.js:198-206 | modifySchemas succeeds exactly when modifyJson does; modifyJson's text is the serialisation of modifySchemas' value; both fail with the same error |
| ClaudeService.ValidateWrappedObject | src/services/claudeService.js:63-75 | an object printed inside prose with no opening brace before it, no closing brace after it and no backtick in it is recovered exactly |
| ClaudeService.ExtractWrapped | src/services/claudeService.js:63-70 | for such a reply the text handed to JSON.parse is the braced text itself |
| ClaudeService.CandidateOfWrapped | src/services/claudeService.js:64-67 | text from the first opening brace to the last closing brace is exactly the match |
| ClaudeService.CleanBraced | src/services/claudeService.js:70 | the clean-up leaves braced text without backticks unchanged |
| ClaudeService.ObjectTextBraces | src/services/claudeService.js:75 | a printed object starts with an opening brace and ends with a closing one |
| Extraction.FirstIndex | src/services/claudeService.js:64 | the first position holding the character, or none when no position does |
| Extraction.LastIndex | src/services/claudeService.js:64 | the last position holding the character, or none when no position does |
| Extraction.BraceSpanIsRegexMatch | src/services/claudeService.js:64-67 | no span exactly when no opening brace has a later closing brace; otherwise the span is a match and is the leftmost, then longest, match |
| Extraction.BraceSpan | src/services/claudeService.js:64 | a span found lies inside the text and is not empty; BraceSpanIsRegexMatch states that it is the regex's match |
| Extraction.CandidateIsRegexMatch | src/services/claudeService.js:61-67 | when /\{[\s\S]*\}/ matches nowhere the candidate is the whole reply; otherwise it is exactly a match of the regex, and no match starts earlier or, starting at the same place, ends later |
| Extraction.RemoveJsonFences | src/services/claudeService.js:70 | the global removal of "```json" and an optional newline after it; CleanWithoutTicks states that it changes nothing on text without backticks |
| Extraction.RemoveFences | src/services/claudeService.js:70 | the global removal of "```" and an optional newline after it; RemoveFencesLeavesNone states that no run of three backticks survives it |
| Extraction.CleanLeavesNoFence | src/services/claudeService.js:70 | after the two replacements and the trim, no triple backtick remains |
| Extraction.RemoveFencesLeavesNone | src/services/claudeService.js:70 | the global replacement of fences leaves no run of three backticks |
| Extraction.CleanWithoutTicks | src/services/claudeService.js:70 | on text without backticks the clean-up is the trim alone |
| Extraction.Excerpt | src/services/claudeService.js:79 | `substring(0, 200)`: a prefix of the text of min(200, length) characters |
| Strings.Trim | src/services/claudeService.js:53 | the result is a slice with only trimmable characters around it, and it neither starts nor ends with one |
| Strings.TrimIdempotent | src/services/claudeService.js:70 | trimming twice is trimming once |
| Strings.TrimUnchanged | src/services/claudeService.js:70 | text that neither starts nor ends with white space is left unchanged |
| Strings.NatToDecimal | src/services/claudeService.js:132 | the decimal rendering is nonempty, all digits, and starts with 0 only for zero |
| Strings.DecimalRoundTrip | src/services/claudeService.js:75 | the digits of a printed natural read back as that natural |
| JsonParser.Parse | src/services/claudeService.js:74 | JSON.parse: the value the text denotes, or none when the text is not JSON; ParseWellFormed and StringifyRoundTrip state what it yields |
| JsonValue.Stringify | src/services/claudeService.js:75 | JSON.stringify(v, null, 2); StringifyRoundTrip states that parsing its output gives v back |
| JsonRoundTrip.StringifyRoundTrip | src/services/claudeService.js:74-75 | JSON.parse of JSON.stringify(v, null, 2) is v for every value whose objects have distinct keys |
| JsonRoundTrip.ReparseStringify | src/services/claudeService.js:74-75 | re-serialising a parsed document and parsing it again gives the same parse |
| JsonRoundTrip.PrintRoundTrip | src/services/claudeService.js:75 | at any indentation level a printed value is read back, and reading stops at the delimiter after it |
| JsonRoundTrip.StringRoundTrip | src/services/claudeService.js:75 | an escaped string body reads back as the string, ending at its closing quote |
| JsonRoundTrip.NumberRoundTrip | src/services/claudeService.js:75 | a printed integer reads back as itself |
| JsonParseFacts.ParseWellFormed | src/services/claudeService.js:74 | every value JSON.parse produces has distinct keys in each object |
| JsonParseFacts.SetMemberKeys | src/services/claudeService.js:74 | adding a member during parsing adds its key to the object's keys |
| JsonParseFacts.SetExistingMember | src/services/claudeService.js:74 | a repeated key keeps its position and takes the new value |
| Prompts.DocumentPrompt | src/services/claudeService.js:35-42 | the modifyJson prompt text; DocumentPromptCarries states what it shows |
| Prompts.SchemaPrompt | src/services/claudeService.js:111-168 | the modifySchemas prompt text; the SchemaPromptShows* and SchemaPromptRules* lemmas state what it shows |
| Prompts.RouteSchemaRequest | src/routes/api.js:20-22 | the arguments the /modify-schemas route passes: the request body's fields, [] and "" for missing rules and functions, and the defaults for every history parameter; RoutePromptShowsDefaults states the resulting placeholders |
| Prompts.DocumentPromptCarries | src/services/claudeService.js:35-42 | the document prompt embeds the document verbatim, so it can be read back, and it shows "Command: " and the command |
| Prompts.NumberedRules | src/services/claudeService.js:132 | one line per rule, in order, the i-th reading its 1-based number, ". " and the rule |
| Prompts.RulesBlock | src/services/claudeService.js:130-135 | the rules block is empty exactly when there are no rules |
| Prompts.SchemaPromptShowsInput | src/services/claudeService.js:115-121 | the schema prompt shows the command and the current semantic schema and rule set, or their placeholders |
| Prompts.SchemaPromptShowsSaved | src/services/claudeService.js:123-128 | the schema prompt shows each last saved item, or its placeholder |
| Prompts.SchemaPromptShowsWorking | src/services/claudeService.js:137-148 | the schema prompt shows the three working structures printed with two-space indentation (undefined when absent) and the functions paragraph |
| Prompts.StructureTextReadsBack | src/services/claudeService.js:139 | a structure embedded in the prompt parses back to itself; an absent one shows text that does not parse |
| Prompts.SchemaPromptListsRule | src/services/claudeService.js:130-132 | every rule appears on its own line after its 1-based number |
| Prompts.SchemaPromptRulesInOrder | src/services/claudeService.js:132 | the line of rule i+1 directly follows the line of rule i |
| Prompts.SchemaPromptRulesLength | src/services/claudeService.js:130-160 | rules change the prompt only by the rules block and the closing check sentence, and the prompt changes exactly when there are rules |
| Prompts.SchemaPromptRulesShown | src/services/claudeService.js:130-160 | with rules the prompt shows the rules heading and the sentence asking for every rule to be checked |
| Prompts.TargetIgnored | src/services/claudeService.js:88 | the `target` argument has no effect on the prompt |
| Prompts.RoutePromptShowsDefaults | src/routes/api.js:20-22 | called from the route, the prompt shows every history placeholder and "{}" for both last saved schemas |
| UpdateStatement.Build | src/lib/database.js:153-166 | the SET list is one clause per present field in column order, then the timestamp clause; the values are the fields' values, then the id; the statement has one placeholder per value |
| UpdateStatement.Push | src/lib/database.js:157-161 | one step pushes a clause and its value exactly when the field is present (name only when nonempty) |
| UpdateStatement.ClauseSelection | src/lib/database.js:157-161 | the columns set are in fixed order; name is set exactly when it is nonempty and each other column exactly when present |
| UpdateStatement.StatementApplies | src/lib/database.js:163-167 | running the built SET list on a row gives the intended update (every present field written, updated_at set to now) and binds the id to the WHERE placeholder |
| UpdateStatement.PlaceholdersMatchValues | src/lib/database.js:163-166 | the statement holds exactly as many placeholders as values are bound |
| UpdateStatement.AssignmentsApply | src/lib/database.js:157-163 | assigning the pushed pairs in order and then the timestamp is the intended update |
| UpdateStatement.ExecuteAssignments | src/lib/database.js:166-167 | each column clause takes the next bound value and the timestamp clause the clock, leaving the WHERE value |
| UpdateStatement.ClauseFacts | src/lib/database.js:157-161 | each column's clause names that column, differs from the timestamp clause and holds one placeholder |
| Queries.Keep | src/lib/database.js:199 | a WHERE filter keeps exactly the rows satisfying it |
| Queries.KeepPairwise | src/lib/database.js:224 | filtering keeps the table order of the rows it keeps |
| Queries.FindRow | src/lib/database.js:138-146 | a row found satisfies the WHERE condition and every row before it fails it, so it is the first such row; none exactly when no row satisfies it |
| Queries.FindConfiguration | src/lib/database.js:138-141 | a row with the id when one exists, none exactly when no row has it |
| Queries.FindConfigurationByName | src/lib/database.js:143-146 | a row with the name when one exists, none exactly when no row has it |
| Queries.Limit | src/lib/database.js:245 | a prefix of at most `limit` rows, exactly `limit` of them when more exist; all rows when the limit is negative or not reached |
| Queries.KeepCounts | src/lib/database.js:199 | a WHERE filter keeps each row that satisfies it exactly as many times as the table holds it, and drops every other row |
| Queries.Reverse | src/lib/database.js:245 | the rows in the opposite order |
| Queries.WithoutConfigurationFacts | src/lib/database.js:179-180 | deleting removes exactly the row with the id and keeps the table ordered with names unique |
| Queries.ReplaceConfigurationOrdered | src/lib/database.js:166-167 | writing an updated row whose name no other row holds keeps every id in place and names unique |
| Queries.ReplaceConfigurationRows | src/lib/database.js:166-167 | the other rows are unchanged and the updated row is present when its id was |
| Queries.SortRulesFacts | src/lib/database.js:199 | the sort is a permutation and orders by rule_order, then created_at, then id |
| Queries.InsertRuleSorted | src/lib/database.js:199 | inserting into a sorted listing keeps it sorted |
| Queries.InsertRulePermutes | src/lib/database.js:199 | inserting adds exactly that rule |
| Queries.EntityRulesOfFacts | src/lib/database.js:198-201 | the listing holds exactly the configuration's active rules, as often as the table does, in rule order and then creation order |
| Queries.ReviseEntityRuleFacts | src/lib/database.js:203-206 | only text and order of the rule with the id change; every other row is untouched; id order is kept |
| Queries.WithoutEntityRuleFacts | src/lib/database.js:208-211 | deleting removes exactly the rule with the id and keeps id order |
| Queries.RulesOfFacts | src/lib/database.js:223-226 | the listing holds exactly the configuration's active legacy rules, oldest first |
| Queries.LegacyRuleFacts | src/lib/database.js:228-236 | an update changes only text and type; the soft delete changes only the active flag, drops the rule from the listing and keeps the others |
| Queries.ActivityForOrdered | src/lib/database.js:245 | the entries of one configuration keep the log's order |
| Queries.RecentActivityOrder | src/lib/database.js:244-247 | at most `limit` entries, all of the configuration, newest first |
| Queries.RecentActivityComplete | src/lib/database.js:244-247 | every entry left out is older than every entry listed, and nothing is left out when the limit is not reached |
| Store.Database.constructor | src/lib/database.js:30-75 | the four tables start empty with every AUTOINCREMENT counter at 1 |
| Store.Database.Tick | src/lib/database.js:40-41 | the clock that CURRENT_TIMESTAMP reads moves forward by the given seconds, and no table or AUTOINCREMENT counter changes |
| Store.Database.LogActivity | src/lib/database.js:239-242 | one entry with the next id and the current time is appended to the log and nothing else changes |
| Store.Database.CreateConfiguration | src/lib/database.js:127-136 | a taken name fails with a UNIQUE violation and no change; otherwise the row gets the next id and the current time, and a CREATE entry is logged |
| Store.Database.GetConfiguration | src/lib/database.js:138-141 | the row with the id exactly when one exists |
| Store.Database.GetConfigurationByName | src/lib/database.js:143-146 | the row with the name exactly when one exists |
| Store.Database.UpdateConfiguration | src/lib/database.js:153-173 | no row with the id: zero changes; a new name held by another row: a UNIQUE violation, no change and no log; otherwise the row becomes the intended update and one change is reported; an UPDATE entry listing the keys is logged unless the statement failed |
| Store.Database.DeleteConfiguration | src/lib/database.js:175-186 | false and no change when the id is absent; otherwise the row is removed and a DELETE entry with its old name is logged |
| Store.Database.CreateEntityRule | src/lib/database.js:189-196 | an active rule with the next id and the given order is appended and a RULE_ADD entry is logged |
| Store.Database.GetEntityRulesByConfiguration | src/lib/database.js:198-201 | exactly the configuration's active rules, sorted by rule order and then creation time |
| Store.Database.UpdateEntityRule | src/lib/database.js:203-206 | the rule with the id takes the new text and order, one change is reported when it exists, and nothing is logged |
| Store.Database.DeleteEntityRule | src/lib/database.js:208-211 | the rule with the id is removed, one change is reported when it existed, and nothing is logged |
| Store.Database.CreateRule | src/lib/database.js:214-221 | an active legacy rule with the next id and the given type is appended and a RULE_ADD entry is logged |
| Store.Database.GetRulesByConfiguration | src/lib/database.js:223-226 | exactly the configuration's active legacy rules, oldest first |
| Store.Database.UpdateRule | src/lib/database.js:228-231 | the rule with the id takes the new text and type; the changes count is reported |
| Store.Database.DeleteRule | src/lib/database.js:233-236 | the rule with the id is marked inactive and stays in the table; the changes count is reported |
| Store.Database.GetActivityLog | src/lib/database.js:244-247 | at most `limit` of the configuration's entries (50 by default, all when negative), newest first, with every omitted entry older than every listed one |

## Left out

- The HTTP request itself (`fetch`, headers, JSON body encoding) is the `provider` parameter. `response.json()` failing on a body that is not JSON is not modelled.
- Logging to the console is left out.
- Reading the environment and the server configuration is left out: the credential, model and token limit are constructor arguments, with an unset credential as the empty string.
- ClaudeService.ReadReply: a reply without a first text block makes the JavaScript engine throw a TypeError. The model gives it the error `MalformedReply` with an empty message, since the text is the engine's own.
- Only strings are modelled as inputs; `null`, `undefined`, numbers or objects passed for `command`, `jsonData`, the rules or the history parameters are not. An empty string stands for every falsy value of the source.
- JsonParser.ParseNumber: JSON numbers are integers, because floating point is out of scope. The model's parser stops a number at `.`, `e` or `E`, and the text after it is then malformed. So a reply holding a fraction or an exponent, such as `{"minimum":0.5}` or `{"n":1e3}`, makes JsonParser.Parse fail. modifyJson and modifySchemas then fail with InvalidJson, where the source accepts the reply. `-0` is read as 0. The model also keeps integers exact, where JavaScript stores every number as a double. Integers beyond 2^53 are rounded when the source parses them: 9007199254740993 prints back as 9007199254740992. Magnitudes of 1e21 or more are printed in exponent form: 1000000000000000000000 prints as 1e+21. The round-trip lemmas hold for the model's exact integers, not for those inputs.
- Store.Database.UpdateEntityRule, Store.Database.DeleteEntityRule, Store.Database.UpdateRule, Store.Database.DeleteRule: return the changes count only, not the `{ id: lastID, changes }` object that `run` resolves with; `lastID` is the connection's last insert id and is not modelled.
- Extraction.Excerpt: counts Unicode characters, while `substring(0, 200)` counts UTF-16 code units. A reply holding characters outside the Basic Multilingual Plane gets a longer excerpt than the source gives, and the source can cut a surrogate pair in half; the model never does.
- ClaudeService.InvalidJsonMessage: quotes the first 200 characters, not the first 200 UTF-16 code units, for the same reason as Extraction.Excerpt.
- JsonParser.SetMember: puts every new key last. A JavaScript object lists array-index keys ("0", "1", ...) first, in ascending numeric order, and JSON.stringify prints them in that order. So for the reply `{"b":1,"0":2}` the source's modifyJson prints "0" first, and the model prints "b" first. Every other key keeps its insertion order in both.
- JsonParser.DecodeEscape: a `\u` escape of a surrogate code unit (0xD800 to 0xDFFF), paired or lone, makes the model's JsonParser.Parse fail. So a reply such as `{"a":"\ud83d\ude00"}` fails with InvalidJson in modifyJson and modifySchemas, where the source's JSON.parse accepts it (a pair gives one character outside the Basic Multilingual Plane, a lone surrogate stays in the string).
- JSON.stringify's `toJSON`, `undefined` members and non-finite numbers cannot arise from a parsed value, so they are left out.
- Prompts.SchemaPromptShowsWorking: the working structures are parsed JSON values or absent. Functions or other JavaScript values that JSON.stringify drops are not modelled.
- The connection lifecycle is left out: `connect`, `createTables`, `close`, and the generic `run`/`get`/`all` wrappers. The store starts with its tables created and empty.
- `getAllConfigurations` is left out. It sits outside the modelled core and is only used by the listing route.
- The HTTP routes are left out, except for the argument defaults that `/modify-schemas` passes (Prompts.RouteSchemaRequest).
- Store.Database.UpdateConfiguration:
  - it returns the changes count only, not the `lastID` that `run` also resolves with;
  - the SQL text `sql` is not executed; the `fields` and `values` lists are, through `ExecuteSet`;
  - keys whose value is `undefined` are treated as absent, although `Object.keys` lists them in the log text.
- Store.Database.CreateConfiguration: the NOT NULL constraints on `name` and `semantic_schema` cannot fail, since the model has no null.
- Store.Database.UpdateEntityRule and the other change-count methods count one change for an existing id, relying on ids being unique; `Valid` keeps them unique.
- Timestamps are ticks of a clock that only the environment moves forwards (`Tick`). Their text form `YYYY-MM-DD HH:MM:SS` is not modelled.
- SQLite leaves the order of rows with equal sort keys open. The model breaks ties by id: ascending for rules, newest id first for the activity log.
- Concurrency between requests and the asynchronous interleaving of statements are left out: each method runs its statements in order with nothing in between.
