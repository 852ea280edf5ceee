/**
 * `OllamaClient` (Core_Pipeline_Files/ollama_client.py): the model settings
 * and the conversation history kept between calls. The HTTP round trip is an
 * oracle, `send`, from the request the client builds to what the transport
 * reports.
 */
module Ollama {
  import opened Base
  import opened Json

  datatype Role = System | User | Assistant

  /** `{"role": ..., "content": ...}`. */
  datatype Turn = Turn(role: Role, content: Value)

  /** The fields of the JSON payload of `/api/chat` that depend on the client's state (lines 68-77). */
  datatype Request = Request(
    model: Value,
    messages: seq<Turn>,
    temperature: Value,
    numPredict: Value,
    topP: Value)

  /**
   * What the transport reports: a refused connection, a timeout, or a
   * response with its status code and `result['message']['content']`
   * when the body has one.
   */
  datatype Transport =
    | ConnectFailed
    | TimedOut
    | Response(status: int, content: Option<Value>)

  /** The exceptions `chat` raises. */
  datatype ChatError =
    | NoModel                 // ValueError: model not set (line 59)
    | CannotConnect           // ConnectionError (lines 100-104)
    | Timeout                 // TimeoutError (lines 105-108)
    | ModelNotFound(model: Value)  // ValueError for HTTP 404 (lines 110-114)
    | ApiError(status: int)   // RuntimeError for any other HTTP error (line 116)
    | BadReply                // the body lacks `message.content`; not caught

  const DefaultTemperature: Value := Real(0.7)
  const DefaultMaxTokens: Value := Int(4000)
  const DefaultTopP: Value := Real(0.9)
  const PreviewLength: nat := 100
  const Ellipsis: string := "..."

  /** The history `set_model` and `clear_history` start from: the system turn, when there is a system prompt. */
  function StartHistory(systemPrompt: Value): (h: seq<Turn>)
    ensures |h| <= 1
    ensures h == [] <==> !Truthy(systemPrompt)
    ensures h != [] ==> h[0] == Turn(System, systemPrompt)
  {
    if Truthy(systemPrompt) then [Turn(System, systemPrompt)] else []
  }

  /** `raise_for_status`: any 4xx or 5xx status. */
  predicate IsHttpError(status: int) {
    400 <= status < 600
  }

  /** How `chat` turns what the transport reports into a reply or an exception (lines 79-116). */
  function Respond(t: Transport, model: Value): (r: Result<Value, ChatError>)
    ensures r.Ok? <==> t.Response? && !IsHttpError(t.status) && t.content.Some?
    ensures r.Ok? ==> r.value == t.content.value
    ensures r == Err(CannotConnect) <==> t.ConnectFailed?
    ensures r == Err(Timeout) <==> t.TimedOut?
    ensures r == Err(ModelNotFound(model)) <==> t.Response? && t.status == 404
    ensures r.Err? && r.error.ApiError? <==> t.Response? && IsHttpError(t.status) && t.status != 404
    ensures r.Err? ==> r.error != NoModel
  {
    match t
    case ConnectFailed => Err(CannotConnect)
    case TimedOut => Err(Timeout)
    case Response(status, content) =>
      if IsHttpError(status) then
        if status == 404 then Err(ModelNotFound(model)) else Err(ApiError(status))
      else if content.None? then Err(BadReply)
      else Ok(content.value)
  }

  /** A summary entry: the role, the content or its first 100 characters and "...", and the content length. */
  datatype Preview = Preview(role: Role, contentPreview: Value, contentLength: nat)

  /** `get_conversation_summary`'s dictionary. */
  datatype Summary = Summary(model: Value, temperature: Value, messageCount: nat, messages: seq<Preview>)

  /** `msg['content'][:100] + '...' if len(msg['content']) > 100 else msg['content']` for a string. */
  function PreviewText(s: string): (p: string)
    ensures |s| <= PreviewLength ==> p == s
    ensures |s| > PreviewLength ==> |p| == PreviewLength + |Ellipsis|
    ensures |s| > PreviewLength ==> p[..PreviewLength] == s[..PreviewLength] && p[PreviewLength..] == Ellipsis
  {
    if |s| > PreviewLength then s[..PreviewLength] + Ellipsis else s
  }

  /**
   * The summary entry of one turn (line 129-133). A string content is cut as
   * above; a list or an object has a length and is kept whole when short,
   * but adding "..." to a slice of it raises `TypeError` when long (an object
   * cannot even be sliced); the other values have no `len`, so the summary
   * raises `TypeError`.
   */
  function PreviewTurn(t: Turn): (r: Option<Preview>)
    ensures t.content.Str? ==> r == Some(Preview(t.role, Str(PreviewText(t.content.s)), |t.content.s|))
    ensures r.Some? ==> r.value.role == t.role && (r.value.contentLength <= PreviewLength ==> r.value.contentPreview == t.content)
    ensures r.None? <==>
              !t.content.Str? && !(t.content.Array? && |t.content.items| <= PreviewLength)
              && !(t.content.Object? && |t.content.fields| <= PreviewLength)
  {
    match t.content
    case Str(s) => Some(Preview(t.role, Str(PreviewText(s)), |s|))
    case Array(xs) => if |xs| <= PreviewLength then Some(Preview(t.role, t.content, |xs|)) else None
    case Object(m) => if |m| <= PreviewLength then Some(Preview(t.role, t.content, |m|)) else None
    case _ => None
  }

  /** The entries of the summary, or `None` when one of them raises. */
  function PreviewAll(history: seq<Turn>): (r: Option<seq<Preview>>)
    ensures r.Some? <==> forall i | 0 <= i < |history| :: PreviewTurn(history[i]).Some?
  {
    if history == [] then Some([])
    else match (PreviewTurn(history[0]), PreviewAll(history[1..]))
      case (Some(p), Some(ps)) => Some([p] + ps)
      case _ => None
  }

  /** The summary lists one entry per turn, in order, each previewing that turn. */
  lemma {:induction false} PreviewAllEntries(history: seq<Turn>)
    requires PreviewAll(history).Some?
    ensures |PreviewAll(history).value| == |history|
    ensures forall i | 0 <= i < |history| :: PreviewAll(history).value[i] == PreviewTurn(history[i]).value
  {
    if history != [] {
      PreviewAllEntries(history[1..]);
    }
  }

  class OllamaClient {
    var baseUrl: string
    var history: seq<Turn>
    var modelName: Value
    var systemPrompt: Value
    var temperature: Value
    var maxTokens: Value
    var topP: Value

    /** The state `__init__` and `reset` leave: no model, no history, default options. */
    ghost predicate IsFresh()
      reads this
    {
      history == [] && modelName == Null && systemPrompt == Null
      && temperature == DefaultTemperature && maxTokens == DefaultMaxTokens && topP == DefaultTopP
    }

    /** `__init__` (lines 12-25). */
    constructor(baseUrl: string)
      ensures IsFresh() && this.baseUrl == baseUrl
    {
      this.baseUrl := baseUrl;
      history := [];
      modelName := Null;
      systemPrompt := Null;
      temperature := DefaultTemperature;
      maxTokens := DefaultMaxTokens;
      topP := DefaultTopP;
    }

    /**
     * `set_model` (lines 27-46): a configuration without `name` raises
     * `KeyError` before any field changes; otherwise the options are taken
     * with their defaults and the history restarts from the system prompt.
     */
    method SetModel(config: map<string, Value>) returns (ok: bool)
      modifies this
      ensures ok <==> "name" in config
      ensures !ok ==> (history == old(history) && modelName == old(modelName) && systemPrompt == old(systemPrompt)
        && temperature == old(temperature) && maxTokens == old(maxTokens) && topP == old(topP))
      ensures ok ==> (modelName == config["name"]
        && systemPrompt == Get(config, "system_prompt", Str(""))
        && temperature == Get(config, "temperature", DefaultTemperature)
        && maxTokens == Get(config, "max_tokens", DefaultMaxTokens)
        && topP == Get(config, "top_p", DefaultTopP)
        && history == StartHistory(systemPrompt))
      ensures baseUrl == old(baseUrl)
    {
      if "name" !in config {
        return false;
      }
      modelName := config["name"];
      systemPrompt := Get(config, "system_prompt", Str(""));
      temperature := Get(config, "temperature", DefaultTemperature);
      maxTokens := Get(config, "max_tokens", DefaultMaxTokens);
      topP := Get(config, "top_p", DefaultTopP);
      if Truthy(systemPrompt) {
        history := [Turn(System, systemPrompt)];
      } else {
        history := [];
      }
      ok := true;
    }

    /**
     * `chat` (lines 48-116). Without a model it raises before touching the
     * history. Otherwise the user turn is appended first and stays there
     * whatever happens; a reply is appended after it.
     */
    method Chat(userMessage: string, send: Request -> Transport) returns (r: Result<Value, ChatError>)
      modifies this
      ensures !Truthy(old(modelName)) ==> r == Err(NoModel) && history == old(history)
      ensures Truthy(old(modelName)) ==>
        var sent := old(history) + [Turn(User, Str(userMessage))];
        r == Respond(send(Request(modelName, sent, temperature, maxTokens, topP)), modelName)
        && history == sent + (if r.Ok? then [Turn(Assistant, r.value)] else [])
      ensures modelName == old(modelName) && systemPrompt == old(systemPrompt) && baseUrl == old(baseUrl)
      ensures temperature == old(temperature) && maxTokens == old(maxTokens) && topP == old(topP)
    {
      if !Truthy(modelName) {
        return Err(NoModel);
      }
      history := history + [Turn(User, Str(userMessage))];
      var reply := send(Request(modelName, history, temperature, maxTokens, topP));
      match reply {
        case ConnectFailed =>
          r := Err(CannotConnect);
        case TimedOut =>
          r := Err(Timeout);
        case Response(status, content) =>
          if IsHttpError(status) {
            if status == 404 {
              r := Err(ModelNotFound(modelName));
            } else {
              r := Err(ApiError(status));
            }
          } else if content.None? {
            r := Err(BadReply);
          } else {
            history := history + [Turn(Assistant, content.value)];
            r := Ok(content.value);
          }
      }
    }

    /** `get_conversation_history` (lines 118-120): a copy, so changing it leaves the history alone. */
    method GetConversationHistory() returns (h: seq<Turn>)
      ensures h == history
    {
      h := history;
    }

    /** `get_conversation_summary` (lines 122-136); `None` when a turn's content has no preview. */
    function GetConversationSummary(): (r: Option<Summary>)
      reads this
      ensures r.Some? <==> forall i | 0 <= i < |history| :: PreviewTurn(history[i]).Some?
      ensures r.Some? ==> (r.value.model == modelName && r.value.temperature == temperature
        && r.value.messageCount == |history| && |r.value.messages| == |history|
        && forall i | 0 <= i < |history| :: r.value.messages[i] == PreviewTurn(history[i]).value)
    {
      match PreviewAll(history)
      case None => None
      case Some(ps) =>
        PreviewAllEntries(history);
        Some(Summary(modelName, temperature, |history|, ps))
    }

    /** `clear_history` (lines 138-145): back to the history `set_model` starts from. */
    method ClearHistory()
      modifies this
      ensures history == StartHistory(systemPrompt)
      ensures modelName == old(modelName) && systemPrompt == old(systemPrompt) && baseUrl == old(baseUrl)
      ensures temperature == old(temperature) && maxTokens == old(maxTokens) && topP == old(topP)
    {
      if Truthy(systemPrompt) {
        history := [Turn(System, systemPrompt)];
      } else {
        history := [];
      }
    }

    /** `reset` (lines 147-154): the state of a new client. */
    method Reset()
      modifies this
      ensures IsFresh() && baseUrl == old(baseUrl)
    {
      history := [];
      modelName := Null;
      systemPrompt := Null;
      temperature := DefaultTemperature;
      maxTokens := DefaultMaxTokens;
      topP := DefaultTopP;
    }
  }
}
