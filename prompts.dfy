/**
 * The two user messages the edit service sends (src/services/claudeService.js): the
 * document prompt of modifyJson (lines 35-42) and the schema prompt of modifySchemas
 * (lines 111-168). A template literal is the concatenation of its fixed pieces and the
 * string values of its substitutions; a piece with `x || 'text'` shows the placeholder
 * when `x` is empty, and JSON.stringify of an absent structure shows `undefined`.
 */
module Prompts {
  import opened Wrappers
  import opened Strings
  import opened JsonValue
  import opened JsonParser
  import JsonRoundTrip

  /* ---------------- modifyJson ---------------- */

  const DocumentIntro: string :=
    "You are a JSON modification assistant. Given a command and JSON data, "
    + "return ONLY the modified JSON object. Do not include any explanations, "
    + "markdown formatting, or additional text. Just return the raw JSON."

  /** The text of the document prompt up to the document. */
  function DocumentHead(command: string): string {
    DocumentIntro + "\n\nCommand: " + command + "\n\nCurrent JSON:\n"
  }

  const DocumentTail: string := "\n\nModified JSON:"

  /** The user message of modifyJson. */
  function DocumentPrompt(command: string, jsonData: string): string {
    DocumentHead(command) + jsonData + DocumentTail
  }

  /** The document a document prompt for `command` carries, read back from the message. */
  function DocumentOf(prompt: string, command: string): Option<string> {
    var head := DocumentHead(command);
    if |head| + |DocumentTail| <= |prompt|
       && prompt[..|head|] == head && prompt[|prompt| - |DocumentTail|..] == DocumentTail
    then Some(prompt[|head|..|prompt| - |DocumentTail|])
    else None
  }

  /** The document is embedded verbatim: it can be read back from the message, and the
      message shows the command after its label. */
  lemma DocumentPromptCarries(command: string, jsonData: string)
    ensures DocumentOf(DocumentPrompt(command, jsonData), command) == Some(jsonData)
    ensures Contains(DocumentPrompt(command, jsonData), "Command: " + command)
  {
    var head, p := DocumentHead(command), DocumentPrompt(command, jsonData);
    assert p[..|head|] == head;
    assert p[|p| - |DocumentTail|..] == DocumentTail;
    assert p[|head|..|p| - |DocumentTail|] == jsonData;
    var intro := DocumentIntro + "\n\n";
    assert head == intro + ("Command: " + command) + "\n\nCurrent JSON:\n";
    ContainsConcat(intro, "Command: " + command, "\n\nCurrent JSON:\n");
    ContainsLeft(head, jsonData + DocumentTail, "Command: " + command);
    assert p == head + (jsonData + DocumentTail);
  }

  /* ---------------- modifySchemas ---------------- */

  /** The arguments of modifySchemas after default parameters have been applied. The
      three working structures are absent (`undefined`) when the caller sent none. */
  datatype SchemaRequest = SchemaRequest(
    command: string,
    target: Option<Json>,
    schema: Option<Json>,
    uiSchema: Option<Json>,
    formData: Option<Json>,
    rules: seq<string>,
    currentFunctions: string,
    currentSemanticSchema: string,
    currentRuleSet: seq<string>,
    lastSemanticSchema: string,
    lastRuleSet: seq<string>,
    lastDataSchema: string,
    lastUISchema: string,
    lastJsFunctionImpl: string)

  /** The call made by the /modify-schemas route: seven arguments, so every history
      parameter takes its default, and `rules` and `currentFunctions` take theirs when
      the request body lacks them. */
  function RouteSchemaRequest(
    command: string, target: Option<Json>, schema: Option<Json>, uiSchema: Option<Json>,
    formData: Option<Json>, rules: Option<seq<string>>, currentFunctions: Option<string>): SchemaRequest
  {
    SchemaRequest(
      command, target, schema, uiSchema, formData,
      if rules.Some? then rules.value else [],
      if currentFunctions.Some? then currentFunctions.value else "",
      "", [], "", [], "{}", "{}", "")
  }

  /** `value || placeholder` for a string value. */
  function OrElse(value: string, placeholder: string): string {
    if value == "" then placeholder else value
  }

  /** `Array.isArray(xs) && xs.length > 0 ? xs.join(', ') : placeholder`. */
  function ListOrElse(xs: seq<string>, placeholder: string): string {
    if |xs| > 0 then Join(xs, ", ") else placeholder
  }

  /** `${JSON.stringify(x, null, 2)}`: an absent structure prints as undefined. */
  function StructureText(x: Option<Json>): string {
    match x
    case None => "undefined"
    case Some(v) => Stringify(v)
  }

  /** `rules.map((rule, index) => `${index + 1}. ${rule}`)`, numbering from `first`. */
  function NumberedRules(rules: seq<string>, first: nat): (lines: seq<string>)
    ensures |lines| == |rules|
    ensures forall i | 0 <= i < |rules| :: lines[i] == NatToDecimal(first + i) + ". " + rules[i]
    decreases |rules|
  {
    if rules == [] then []
    else [NatToDecimal(first) + ". " + rules[0]] + NumberedRules(rules[1..], first + 1)
  }

  /** The functions paragraph: the current functions under a heading, or a sentence
      saying there are none. */
  function FunctionsText(currentFunctions: string): string {
    if currentFunctions != "" then "Current JavaScript Functions:\n" + currentFunctions
    else "No JavaScript functions currently exist."
  }

  /** The fixed paragraphs of the schema prompt. The properties proved below hold
      whatever their wording; SchemaWording holds the wording the service sends. */
  datatype SchemaProse = SchemaProse(
    intro: string,
    contextHeading: string,
    savedHeading: string,
    rulesHeading: string,
    rulesObligation: string,
    workingHeading: string,
    guidance: string,
    rulesCheck: string,
    footer: string)

  const SchemaWording: SchemaProse := SchemaProse(
    intro :=
      "You are a React JSON Schema Form assistant. Given a command and current schemas, "
      + "return the COMPLETE, FULL JSON objects with modifications applied. NEVER return "
      + "partial objects - always return the complete schema/data with all existing fields "
      + "preserved and only the requested changes applied.\n\n"
      + "You must ALWAYS analyze and return ALL THREE: schema, uiSchema, and formData - "
      + "even if the command seems to target only one. Consider how changes affect all "
      + "three schemas.",
    contextHeading :=
      "\n\nCONTEXT - You have access to both current working state and last saved state:"
      + "\n\nCURRENT USER INPUT (what caused this AI call):\n",
    savedHeading := "\n\nLAST SAVED STATE FROM DATABASE (for comparison):\n",
    rulesHeading := "IMPORTANT RULES TO ENFORCE:",
    rulesObligation :=
      "You MUST ensure that ALL modifications comply with these rules. "
      + "If a command conflicts with a rule, prioritize the rule and modify the command "
      + "accordingly. Apply these rules when creating or modifying any schema properties, "
      + "UI configurations, or form data.",
    workingHeading := "\n\nCURRENT WORKING SCHEMAS (what user is editing now):\n",
    guidance :=
      "CRITICAL: Return the result as a JSON object with keys: schema, uiSchema, formData, "
      + "and jsFunctions. Each returned object MUST be the complete object with ALL existing "
      + "fields preserved plus your modifications.\n\n"
      + "FOR COMPLEX RULES that require dynamic behavior (like \"if age > 75, remove bio "
      + "field\"), you MUST generate JavaScript functions in the jsFunctions field. "
      + "These functions should:\n"
      + "1. Listen for form field changes\n"
      + "2. Implement the rule logic\n"
      + "3. Dynamically modify the form schema/data\n"
      + "4. Use function names like: applyRule1, applyRule2, etc.\n\n"
      + "Simple validation rules go in the JSON schema. "
      + "Complex conditional rules become JavaScript functions.",
    rulesCheck :=
      "ENSURE ALL RULES ARE SATISFIED in your response. "
      + "Check each rule against your modifications before returning the result.",
    // The escapes \n inside the template are line feeds; the uiSchema line ends in a space.
    footer :=
      "\n\nReturn format:\n{\n"
      + "  \"schema\": {complete schema with all properties},\n"
      + "  \"uiSchema\": {complete uiSchema with all properties}, \n"
      + "  \"formData\": {complete formData with all properties},\n"
      + "  \"jsFunctions\": \"// Generated JavaScript functions for complex rules\n"
      + "function applyRule1(formData, updateForm) {\n"
      + "  // Rule implementation\n"
      + "}\"\n}")

  /** The rules block: the numbered rules one per line between the heading and the
      obligation, or nothing at all when there are no rules. */
  function RulesBlock(prose: SchemaProse, rules: seq<string>): (r: string)
    ensures r == [] <==> rules == []
  {
    if |rules| > 0 then
      Join(["\n", prose.rulesHeading, "\n" + Join(NumberedRules(rules, 1), "\n"), "\n\n",
        prose.rulesObligation, "\n"], "")
    else ""
  }

  /** The closing sentence asking for every rule to be checked, present only with rules. */
  function RulesReminder(prose: SchemaProse, rules: seq<string>): string {
    if |rules| > 0 then prose.rulesCheck else ""
  }

  /** The command and the context lines, current input and last saved state. */
  function ContextPieces(prose: SchemaProse, r: SchemaRequest): seq<string> {
    [ "Command: " + r.command,
      prose.contextHeading,
      "- Semantic Schema: " + OrElse(r.currentSemanticSchema, "Not provided"),
      "\n",
      "- Rule Set: " + ListOrElse(r.currentRuleSet, "No current rules"),
      prose.savedHeading,
      "- Last Semantic Schema: " + OrElse(r.lastSemanticSchema, "Not saved yet"),
      "\n",
      "- Last Rule Set: " + ListOrElse(r.lastRuleSet, "No saved rules"),
      "\n",
      "- Last Data Schema: " + r.lastDataSchema,
      "\n",
      "- Last UI Schema: " + r.lastUISchema,
      "\n",
      "- Last JS Functions: " + OrElse(r.lastJsFunctionImpl, "No functions saved") ]
  }

  /** The three working structures and the functions paragraph. */
  function WorkingPieces(prose: SchemaProse, r: SchemaRequest): seq<string> {
    [ prose.workingHeading,
      "JSON Schema:\n" + StructureText(r.schema),
      "\n\n",
      "UI Schema:\n" + StructureText(r.uiSchema),
      "\n\n",
      "Form Data:\n" + StructureText(r.formData),
      "\n\n",
      FunctionsText(r.currentFunctions) ]
  }

  /** The sections of the schema prompt in order. */
  function SchemaPieces(prose: SchemaProse, r: SchemaRequest): seq<string> {
    [ prose.intro,
      "\n\n",
      Join(ContextPieces(prose, r), ""),
      "\n\n",
      RulesBlock(prose, r.rules),
      Join(WorkingPieces(prose, r), ""),
      "\n\n",
      prose.guidance,
      "\n\n",
      RulesReminder(prose, r.rules),
      prose.footer ]
  }

  /** The schema prompt with the given wording of its fixed paragraphs. */
  function RenderSchemaPrompt(prose: SchemaProse, r: SchemaRequest): string {
    Join(SchemaPieces(prose, r), "")
  }

  /** The user message of modifySchemas. */
  function SchemaPrompt(r: SchemaRequest): string {
    RenderSchemaPrompt(SchemaWording, r)
  }

  /** What a piece of a template shows, the whole template shows. */
  lemma PieceContains(pieces: seq<string>, k: nat, t: string)
    requires k < |pieces| && Contains(pieces[k], t)
    ensures Contains(Join(pieces, ""), t)
  {
    JoinContains(pieces, "", k);
    ContainsTrans(Join(pieces, ""), pieces[k], t);
  }

  /** What the context section shows is shown by the prompt. */
  lemma InContext(prose: SchemaProse, r: SchemaRequest, t: string)
    requires Contains(Join(ContextPieces(prose, r), ""), t)
    ensures Contains(RenderSchemaPrompt(prose, r), t)
  {
    PieceContains(SchemaPieces(prose, r), 2, t);
  }

  /** What the working section shows is shown by the prompt. */
  lemma InWorking(prose: SchemaProse, r: SchemaRequest, t: string)
    requires Contains(Join(WorkingPieces(prose, r), ""), t)
    ensures Contains(RenderSchemaPrompt(prose, r), t)
  {
    PieceContains(SchemaPieces(prose, r), 5, t);
  }

  /** What the rules block shows is shown by the prompt. */
  lemma InRules(prose: SchemaProse, r: SchemaRequest, t: string)
    requires Contains(RulesBlock(prose, r.rules), t)
    ensures Contains(RenderSchemaPrompt(prose, r), t)
  {
    PieceContains(SchemaPieces(prose, r), 4, t);
  }

  /** The command and the current input are shown on their labelled lines, and an empty
      value is replaced by its placeholder: Not provided, No current rules. */
  lemma SchemaPromptShowsInput(prose: SchemaProse, r: SchemaRequest)
    ensures Contains(RenderSchemaPrompt(prose, r), "Command: " + r.command)
    ensures Contains(RenderSchemaPrompt(prose, r), "- Semantic Schema: "
      + if r.currentSemanticSchema == "" then "Not provided" else r.currentSemanticSchema)
    ensures Contains(RenderSchemaPrompt(prose, r), "- Rule Set: "
      + if r.currentRuleSet == [] then "No current rules" else Join(r.currentRuleSet, ", "))
  {
    ShowsContextPiece(prose, r, 0);
    ShowsContextPiece(prose, r, 2);
    ShowsContextPiece(prose, r, 4);
  }

  /** The last saved state is shown line by line, and an empty value is replaced by its
      placeholder: Not saved yet, No saved rules, No functions saved. */
  lemma SchemaPromptShowsSaved(prose: SchemaProse, r: SchemaRequest)
    ensures Contains(RenderSchemaPrompt(prose, r), "- Last Semantic Schema: "
      + if r.lastSemanticSchema == "" then "Not saved yet" else r.lastSemanticSchema)
    ensures Contains(RenderSchemaPrompt(prose, r), "- Last Rule Set: "
      + if r.lastRuleSet == [] then "No saved rules" else Join(r.lastRuleSet, ", "))
    ensures Contains(RenderSchemaPrompt(prose, r), "- Last Data Schema: " + r.lastDataSchema)
    ensures Contains(RenderSchemaPrompt(prose, r), "- Last UI Schema: " + r.lastUISchema)
    ensures Contains(RenderSchemaPrompt(prose, r), "- Last JS Functions: "
      + if r.lastJsFunctionImpl == "" then "No functions saved" else r.lastJsFunctionImpl)
  {
    ShowsContextPiece(prose, r, 6);
    ShowsContextPiece(prose, r, 8);
    ShowsContextPiece(prose, r, 10);
    ShowsContextPiece(prose, r, 12);
    ShowsContextPiece(prose, r, 14);
  }

  lemma ShowsContextPiece(prose: SchemaProse, r: SchemaRequest, k: nat)
    requires k < |ContextPieces(prose, r)|
    ensures Contains(RenderSchemaPrompt(prose, r), ContextPieces(prose, r)[k])
  {
    JoinContains(ContextPieces(prose, r), "", k);
    InContext(prose, r, ContextPieces(prose, r)[k]);
  }

  /** The three working structures and the current functions are shown under their
      labels; without functions the prompt says that none exist. */
  lemma SchemaPromptShowsWorking(prose: SchemaProse, r: SchemaRequest)
    ensures Contains(RenderSchemaPrompt(prose, r), "JSON Schema:\n" + StructureText(r.schema))
    ensures Contains(RenderSchemaPrompt(prose, r), "UI Schema:\n" + StructureText(r.uiSchema))
    ensures Contains(RenderSchemaPrompt(prose, r), "Form Data:\n" + StructureText(r.formData))
    ensures Contains(RenderSchemaPrompt(prose, r),
      if r.currentFunctions == "" then "No JavaScript functions currently exist."
      else "Current JavaScript Functions:\n" + r.currentFunctions)
  {
    ShowsWorkingPiece(prose, r, 1);
    ShowsWorkingPiece(prose, r, 3);
    ShowsWorkingPiece(prose, r, 5);
    ShowsWorkingPiece(prose, r, 7);
  }

  lemma ShowsWorkingPiece(prose: SchemaProse, r: SchemaRequest, k: nat)
    requires k < |WorkingPieces(prose, r)|
    ensures Contains(RenderSchemaPrompt(prose, r), WorkingPieces(prose, r)[k])
  {
    JoinContains(WorkingPieces(prose, r), "", k);
    InWorking(prose, r, WorkingPieces(prose, r)[k]);
  }

  /** A structure shown in the prompt reads back as itself; an absent one shows the word
      undefined, which is not JSON. */
  lemma StructureTextReadsBack(x: Option<Json>)
    ensures x.Some? && WellFormed(x.value) ==> Parse(StructureText(x)) == x
    ensures x.None? ==> Parse(StructureText(x)) == None
  {
    if x.Some? && WellFormed(x.value) {
      JsonRoundTrip.StringifyRoundTrip(x.value);
    }
  }

  /** What the list of numbered rules shows, the prompt shows. */
  lemma InRuleLines(prose: SchemaProse, r: SchemaRequest, t: string)
    requires r.rules != []
    requires Contains("\n" + Join(NumberedRules(r.rules, 1), "\n"), t)
    ensures Contains(RenderSchemaPrompt(prose, r), t)
  {
    PieceContains(["\n", prose.rulesHeading, "\n" + Join(NumberedRules(r.rules, 1), "\n"), "\n\n",
      prose.rulesObligation, "\n"], 2, t);
    InRules(prose, r, t);
  }

  /** Rule i (counting from zero) is shown on a line of its own as `i+1. rule`. */
  lemma SchemaPromptListsRule(prose: SchemaProse, r: SchemaRequest, i: nat)
    requires i < |r.rules|
    ensures Contains(RenderSchemaPrompt(prose, r), "\n" + NatToDecimal(i + 1) + ". " + r.rules[i])
  {
    var lines := NumberedRules(r.rules, 1);
    JoinLine(lines, "\n", i);
    InRuleLines(prose, r, "\n" + lines[i]);
    assert "\n" + lines[i] == "\n" + NatToDecimal(i + 1) + ". " + r.rules[i];
  }

  /** The line of rule i+1 directly follows the line of rule i: the rules are listed in
      the order given. */
  lemma SchemaPromptRulesInOrder(prose: SchemaProse, r: SchemaRequest, i: nat)
    requires i + 1 < |r.rules|
    ensures Contains(RenderSchemaPrompt(prose, r),
      NatToDecimal(i + 1) + ". " + r.rules[i] + "\n" + NatToDecimal(i + 2) + ". " + r.rules[i + 1])
  {
    var lines := NumberedRules(r.rules, 1);
    var body := Join(lines, "\n");
    JoinAdjacent(lines, "\n", i);
    ContainsRight("\n", body, lines[i] + "\n" + lines[i + 1]);
    InRuleLines(prose, r, lines[i] + "\n" + lines[i + 1]);
    assert lines[i] + "\n" + lines[i + 1]
      == NatToDecimal(i + 1) + ". " + r.rules[i] + "\n" + NatToDecimal(i + 2) + ". " + r.rules[i + 1];
  }

  /** The rules affect the prompt only through the rules block and the closing sentence:
      with rules the prompt is longer by exactly those two texts; without rules it is the
      prompt of an empty rule list. */
  lemma SchemaPromptRulesLength(prose: SchemaProse, r: SchemaRequest)
    ensures |RenderSchemaPrompt(prose, r)| == |RenderSchemaPrompt(prose, r.(rules := []))|
      + |RulesBlock(prose, r.rules)| + |RulesReminder(prose, r.rules)|
    ensures RenderSchemaPrompt(prose, r) == RenderSchemaPrompt(prose, r.(rules := [])) <==> r.rules == []
  {
    var r0 := r.(rules := []);
    var xs, zs := SchemaPieces(prose, r), SchemaPieces(prose, r0);
    assert ContextPieces(prose, r0) == ContextPieces(prose, r);
    assert WorkingPieces(prose, r0) == WorkingPieces(prose, r);
    var ys := xs[4 := ""];
    JoinReplaceLength(xs, ys, "", 4);
    JoinReplaceLength(ys, zs, "", 9);
  }

  /** With rules, the prompt shows the rules heading and the closing sentence asking for
      every rule to be checked. */
  lemma SchemaPromptRulesShown(prose: SchemaProse, r: SchemaRequest)
    requires r.rules != []
    ensures Contains(RenderSchemaPrompt(prose, r), prose.rulesHeading)
    ensures Contains(RenderSchemaPrompt(prose, r), prose.rulesCheck)
  {
    var pieces := ["\n", prose.rulesHeading, "\n" + Join(NumberedRules(r.rules, 1), "\n"), "\n\n",
      prose.rulesObligation, "\n"];
    JoinContains(pieces, "", 1);
    InRules(prose, r, prose.rulesHeading);
    JoinContains(SchemaPieces(prose, r), "", 9);
  }

  /** The unused `target` argument has no effect on the prompt. */
  lemma TargetIgnored(prose: SchemaProse, r: SchemaRequest, target: Option<Json>)
    ensures RenderSchemaPrompt(prose, r.(target := target)) == RenderSchemaPrompt(prose, r)
  {
    assert SchemaPieces(prose, r.(target := target)) == SchemaPieces(prose, r);
  }

  /** Through the route, the history parameters keep their defaults, so the prompt shows
      every history placeholder and `{}` for both last saved schemas. */
  lemma RoutePromptShowsDefaults(prose: SchemaProse, command: string, target: Option<Json>,
    schema: Option<Json>, uiSchema: Option<Json>, formData: Option<Json>,
    rules: Option<seq<string>>, currentFunctions: Option<string>)
    ensures var p := RenderSchemaPrompt(prose,
        RouteSchemaRequest(command, target, schema, uiSchema, formData, rules, currentFunctions));
      && Contains(p, "- Semantic Schema: " + "Not provided")
      && Contains(p, "- Rule Set: " + "No current rules")
      && Contains(p, "- Last Semantic Schema: " + "Not saved yet")
      && Contains(p, "- Last Rule Set: " + "No saved rules")
      && Contains(p, "- Last Data Schema: " + "{}")
      && Contains(p, "- Last UI Schema: " + "{}")
      && Contains(p, "- Last JS Functions: " + "No functions saved")
  {
    var r := RouteSchemaRequest(command, target, schema, uiSchema, formData, rules, currentFunctions);
    SchemaPromptShowsInput(prose, r);
    SchemaPromptShowsSaved(prose, r);
  }
}
