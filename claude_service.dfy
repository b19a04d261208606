/**
 * The model-edit service (src/services/claudeService.js): two operations that check the
 * credential and their inputs, send one user message to the messages endpoint, read the
 * first content block of the reply, extract and parse the JSON it carries, and either
 * re-serialise it (modifyJson) or return it as parsed (modifySchemas).
 *
 * The network call is the `provider` parameter: a function from the request that would be
 * sent to the reply that comes back. Each operation also returns the request it sent, if
 * any, so that "nothing was sent" is part of what the contracts state.
 */
module ClaudeService {
  import opened Wrappers
  import opened Strings
  import opened JsonValue
  import opened JsonParser
  import opened Extraction
  import opened Prompts
  import JsonRoundTrip
  import JsonParseFacts

  /** One block of the reply's content array. */
  datatype Block = TextBlock(text: string) | OtherBlock

  /** What the endpoint answers: a response whose status is not OK, or the content blocks
      of a successful one. */
  datatype Reply = HttpError(statusText: string) | Completion(content: seq<Block>)

  /** The POST request: endpoint, credential header, API version header, and the body's
      model, token limit and single user message. */
  datatype Request = Request(
    url: string, apiKey: string, version: string, model: string, maxTokens: nat, prompt: string)

  /** The errors the operations throw. */
  datatype Failure =
    | MissingApiKey
    | MissingCommandOrData
    | MissingCommand
    | ApiError(statusText: string)
    | MalformedReply
    | InvalidJson(raw: string)

  const InvalidJsonPrefix: string := "Invalid JSON returned from AI. Raw response: "

  /** The message of each error. A reply without a first text block fails inside the
      JavaScript engine with a TypeError whose text is the engine's; it is shown empty. */
  function Message(f: Failure): string {
    match f
    case MissingApiKey => "ANTHROPIC_API_KEY is not set in environment variables"
    case MissingCommandOrData => "Command and JSON data are required"
    case MissingCommand => "Command is required"
    case ApiError(statusText) => "Claude API error: " + statusText
    case MalformedReply => ""
    case InvalidJson(raw) => InvalidJsonPrefix + Excerpt(raw) + "..."
  }

  /** The message of a parse failure quotes the first 200 characters of the trimmed raw
      reply (all of it when shorter) between a fixed prefix and an ellipsis. */
  lemma InvalidJsonMessage(raw: string)
    ensures var m := Message(InvalidJson(raw));
      var n := if |raw| < 200 then |raw| else 200;
      && |m| == |InvalidJsonPrefix| + n + 3
      && m[..|InvalidJsonPrefix|] == InvalidJsonPrefix
      && m[|InvalidJsonPrefix|..|InvalidJsonPrefix| + n] == raw[..n]
      && m[|InvalidJsonPrefix| + n..] == "..."
  {
    var m := Message(InvalidJson(raw));
    var e := Excerpt(raw);
    assert m == InvalidJsonPrefix + e + "...";
    assert m[|InvalidJsonPrefix|..|InvalidJsonPrefix| + |e|] == e;
  }

  /** `data.content[0].text.trim()`: the trimmed text of the first content block. */
  function ReadReply(reply: Reply): (r: Result<string, Failure>)
    ensures reply.HttpError? ==> r == Err(ApiError(reply.statusText))
    ensures reply.Completion? && (reply.content == [] || !reply.content[0].TextBlock?) ==>
      r == Err(MalformedReply)
    ensures reply.Completion? && reply.content != [] && reply.content[0].TextBlock? ==>
      r == Ok(Trim(reply.content[0].text))
    ensures r.Ok? ==>
      && reply.Completion? && reply.content != [] && reply.content[0].TextBlock?
      && r.value == Trim(reply.content[0].text)
  {
    match reply
    case HttpError(statusText) => Err(ApiError(statusText))
    case Completion(content) =>
      if content == [] || !content[0].TextBlock? then Err(MalformedReply)
      else Ok(Trim(content[0].text))
  }

  /** The parse of the JSON extracted from the trimmed reply; on failure the raw reply,
      not the cleaned candidate, is kept for the message. */
  function Validate(raw: string): (r: Result<Json, Failure>)
    ensures r.Err? ==> r.error == InvalidJson(raw) && Parse(ExtractText(raw)).None?
    ensures r.Ok? ==> Parse(ExtractText(raw)) == Some(r.value) && WellFormed(r.value)
  {
    JsonParseFacts.ParseWellFormed(ExtractText(raw));
    match Parse(ExtractText(raw))
    case Some(v) => Ok(v)
    case None => Err(InvalidJson(raw))
  }

  /** What modifyJson answers once the request has been sent. */
  function DocumentOutcome(reply: Reply): Result<string, Failure> {
    match ReadReply(reply)
    case Err(f) => Err(f)
    case Ok(raw) =>
      match Validate(raw)
      case Err(f) => Err(f)
      case Ok(v) => Ok(Stringify(v))
  }

  /** What modifySchemas answers once the request has been sent. */
  function SchemaOutcome(reply: Reply): Result<Json, Failure> {
    match ReadReply(reply)
    case Err(f) => Err(f)
    case Ok(raw) => Validate(raw)
  }

  /** modifyJson answers with text that JSON.parse reads back as exactly the value it
      parsed from the reply: re-serialising loses nothing. */
  lemma DocumentOutcomeReparses(reply: Reply)
    requires DocumentOutcome(reply).Ok?
    ensures ReadReply(reply).Ok?
    ensures Parse(DocumentOutcome(reply).value) == Parse(ExtractText(ReadReply(reply).value))
  {
    var raw := ReadReply(reply).value;
    var v := Validate(raw).value;
    JsonRoundTrip.StringifyRoundTrip(v);
  }

  /** A non-OK response fails with the status text and nothing is extracted; a reply
      without a first text block fails without a message of the service's own. */
  lemma OutcomeOfFailedReply(reply: Reply)
    ensures reply.HttpError? ==>
      && DocumentOutcome(reply) == Err(ApiError(reply.statusText))
      && SchemaOutcome(reply) == Err(ApiError(reply.statusText))
      && Message(ApiError(reply.statusText)) == "Claude API error: " + reply.statusText
    ensures reply.Completion? && (reply.content == [] || !reply.content[0].TextBlock?) ==>
      DocumentOutcome(reply) == Err(MalformedReply) && SchemaOutcome(reply) == Err(MalformedReply)
  {
  }

  /** The two operations differ only in what they return: the value modifySchemas
      returns is the one whose serialisation modifyJson returns, and both fail alike. */
  lemma OutcomesAgree(reply: Reply)
    ensures SchemaOutcome(reply).Ok? <==> DocumentOutcome(reply).Ok?
    ensures SchemaOutcome(reply).Ok? ==> DocumentOutcome(reply).value == Stringify(SchemaOutcome(reply).value)
    ensures SchemaOutcome(reply).Err? ==> DocumentOutcome(reply) == Err(SchemaOutcome(reply).error)
  {
  }

  /** A reply that wraps one JSON object in explanations is understood: when the text
      before the object has no opening brace, the text after it no closing brace, and the
      printed object no backtick, the object is extracted and parsed as itself. This
      covers an object in a ```json fence. */
  lemma ValidateWrappedObject(prefix: string, v: Json, suffix: string)
    requires v.JObject? && WellFormed(v)
    requires forall k | 0 <= k < |prefix| :: prefix[k] != '{'
    requires forall k | 0 <= k < |suffix| :: suffix[k] != '}'
    requires forall k | 0 <= k < |Stringify(v)| :: Stringify(v)[k] != '`'
    ensures Validate(prefix + Stringify(v) + suffix) == Ok(v)
  {
    ObjectTextBraces(v);
    JsonRoundTrip.StringifyRoundTrip(v);
    ValidateWrappedText(prefix, Stringify(v), suffix, v);
  }

  lemma ValidateWrappedText(prefix: string, text: string, suffix: string, v: Json)
    requires |text| >= 2 && text[0] == '{' && text[|text| - 1] == '}'
    requires forall k | 0 <= k < |prefix| :: prefix[k] != '{'
    requires forall k | 0 <= k < |suffix| :: suffix[k] != '}'
    requires forall k | 0 <= k < |text| :: text[k] != '`'
    requires Parse(text) == Some(v)
    ensures Validate(prefix + text + suffix) == Ok(v)
  {
    ExtractWrapped(prefix, text, suffix);
  }

  /** The text handed to JSON.parse for such a reply is the wrapped text itself. */
  lemma ExtractWrapped(prefix: string, text: string, suffix: string)
    requires |text| >= 2 && text[0] == '{' && text[|text| - 1] == '}'
    requires forall k | 0 <= k < |prefix| :: prefix[k] != '{'
    requires forall k | 0 <= k < |suffix| :: suffix[k] != '}'
    requires forall k | 0 <= k < |text| :: text[k] != '`'
    ensures ExtractText(prefix + text + suffix) == text
  {
    assert Candidate(prefix + text + suffix) == text by {
      CandidateOfWrapped(prefix, text, suffix);
    }
    CleanBraced(text);
  }

  lemma BracesNotTrimmable()
    ensures !IsTrimmable('{') && !IsTrimmable('}')
  {
  }

  /** Clean-up leaves braced text without backticks as it is. */
  lemma CleanBraced(text: string)
    requires |text| >= 2 && text[0] == '{' && text[|text| - 1] == '}'
    requires forall k | 0 <= k < |text| :: text[k] != '`'
    ensures Clean(text) == text
  {
    assert Clean(text) == Trim(text) by {
      CleanWithoutTicks(text);
    }
    BracesNotTrimmable();
    TrimUnchanged(text);
  }

  /** Text that opens with the first opening brace and closes with the last closing brace
      is exactly what the brace match picks out. */
  lemma CandidateOfWrapped(prefix: string, text: string, suffix: string)
    requires |text| >= 2 && text[0] == '{' && text[|text| - 1] == '}'
    requires forall k | 0 <= k < |prefix| :: prefix[k] != '{'
    requires forall k | 0 <= k < |suffix| :: suffix[k] != '}'
    ensures Candidate(prefix + text + suffix) == text
  {
    var s := prefix + text + suffix;
    var i, j := |prefix|, |prefix| + |text| - 1;
    assert s[i] == '{' && s[j] == '}';
    assert forall k | 0 <= k < i :: s[k] == prefix[k];
    assert forall k | j < k < |s| :: s[k] == suffix[k - |prefix| - |text|];
    assert FirstIndex(s, '{') == Some(i);
    assert LastIndex(s, '}') == Some(j);
    assert s[i..j + 1] == text;
  }

  /** A printed object starts with an opening brace and ends with a closing one. */
  lemma ObjectTextBraces(v: Json)
    requires v.JObject?
    ensures |Stringify(v)| >= 2 && Stringify(v)[0] == '{' && Stringify(v)[|Stringify(v)| - 1] == '}'
  {
  }

  class ClaudeService {
    const apiKey: string
    const baseUrl: string
    const model: string
    const maxTokens: nat

    /** The service as configured: the credential from the environment (empty when unset)
        and the model and token limit from the server configuration. */
    constructor (apiKey: string, model: string, maxTokens: nat)
      ensures this.apiKey == apiKey && this.model == model && this.maxTokens == maxTokens
      ensures baseUrl == "https://api.anthropic.com/v1/messages"
    {
      this.apiKey := apiKey;
      this.baseUrl := "https://api.anthropic.com/v1/messages";
      this.model := model;
      this.maxTokens := maxTokens;
    }

    /** The request carrying one user message. */
    function RequestFor(prompt: string): Request {
      Request(baseUrl, apiKey, "2023-06-01", model, maxTokens, prompt)
    }

    /** The extraction steps shared by both operations, on the trimmed reply. */
    method Extract(responseText: string) returns (candidate: string)
      ensures candidate == ExtractText(responseText)
      ensures !Contains(candidate, "```")
    {
      candidate := responseText;
      var span := BraceSpan(responseText);
      if span.Some? {
        candidate := responseText[span.value.0..span.value.1];
      }
      candidate := RemoveJsonFences(candidate);
      candidate := RemoveFences(candidate);
      candidate := Trim(candidate);
      CleanLeavesNoFence(Candidate(responseText));
    }

    /** modifyJson: the credential is checked first, then both inputs; only then is the
        document prompt sent, and the reply's JSON comes back re-serialised with two-space
        indentation. */
    method ModifyJson(command: string, jsonData: string, provider: Request -> Reply)
      returns (result: Result<string, Failure>, sent: Option<Request>)
      ensures apiKey == "" ==> result == Err(MissingApiKey) && sent == None
      ensures apiKey != "" && (command == "" || jsonData == "") ==>
        result == Err(MissingCommandOrData) && sent == None
      ensures apiKey != "" && command != "" && jsonData != "" ==>
        && sent == Some(RequestFor(DocumentPrompt(command, jsonData)))
        && result == DocumentOutcome(provider(sent.value))
    {
      if apiKey == "" {
        return Err(MissingApiKey), None;
      }
      if command == "" || jsonData == "" {
        return Err(MissingCommandOrData), None;
      }
      var request := RequestFor(DocumentPrompt(command, jsonData));
      sent := Some(request);
      var reply := provider(request);
      if reply.HttpError? {
        return Err(ApiError(reply.statusText)), sent;
      }
      if reply.content == [] || !reply.content[0].TextBlock? {
        return Err(MalformedReply), sent;
      }
      var responseText := Trim(reply.content[0].text);
      var modifiedJson := Extract(responseText);
      var parsed := Parse(modifiedJson);
      if parsed.None? {
        return Err(InvalidJson(responseText)), sent;
      }
      result := Ok(Stringify(parsed.value));
    }

    /** modifySchemas: the credential is checked first, then the command; only then is the
        schema prompt sent, and the reply's JSON comes back as parsed, whatever its keys. */
    method ModifySchemas(request: SchemaRequest, provider: Request -> Reply)
      returns (result: Result<Json, Failure>, sent: Option<Request>)
      ensures apiKey == "" ==> result == Err(MissingApiKey) && sent == None
      ensures apiKey != "" && request.command == "" ==> result == Err(MissingCommand) && sent == None
      ensures apiKey != "" && request.command != "" ==>
        && sent == Some(RequestFor(SchemaPrompt(request)))
        && result == SchemaOutcome(provider(sent.value))
    {
      if apiKey == "" {
        return Err(MissingApiKey), None;
      }
      if request.command == "" {
        return Err(MissingCommand), None;
      }
      var message := RequestFor(SchemaPrompt(request));
      sent := Some(message);
      var reply := provider(message);
      if reply.HttpError? {
        return Err(ApiError(reply.statusText)), sent;
      }
      if reply.content == [] || !reply.content[0].TextBlock? {
        return Err(MalformedReply), sent;
      }
      var responseText := Trim(reply.content[0].text);
      var modifiedSchemas := Extract(responseText);
      var parsed := Parse(modifiedSchemas);
      if parsed.None? {
        return Err(InvalidJson(responseText)), sent;
      }
      result := Ok(parsed.value);
    }
  }
}
