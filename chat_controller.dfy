/** The chat endpoint of `ChatController`: check the request body, normalise
    the messages, and answer with the RAG service's reply or a fixed error. */
module ChatController {
  import opened Js
  import opened RagService

  /** A parsed JSON value. Numbers are taken as integers. */
  datatype Json =
    | JNull
    | JBool(b: bool)
    | JNumber(n: int)
    | JString(s: string)
    | JArray(items: seq<Json>)
    | JObject(fields: map<string, Json>)

  /** The status and the `botMessage` field of the JSON response. */
  datatype ChatResponse = ChatResponse(status: nat, botMessage: string)

  const INVALID_MESSAGES: string := "Tin nhắn không hợp lệ"

  const SYSTEM_ERROR: string := "Xin lỗi, hệ thống đang gặp lỗi."

  /** The message of the TypeError thrown when a property of null is read. */
  const NULL_PROPERTY: string := "Cannot read properties of null"

  /** The message of the TypeError thrown when `String()` finds no primitive value. */
  const NO_PRIMITIVE: string := "Cannot convert object to primitive value"

  /** `value[key]` for a value that is not null: an own property of an
      object, and `undefined` (None) for anything else. */
  function Get(value: Json, key: string): (r: Option<Json>)
    ensures r.Some? <==> value.JObject? && key in value.fields
  {
    if value.JObject? && key in value.fields then Some(value.fields[key]) else None
  }

  /** JavaScript truthiness. */
  predicate Truthy(value: Json) {
    match value
    case JNull => false
    case JBool(b) => b
    case JNumber(n) => n != 0
    case JString(s) => s != []
    case JArray(_) => true
    case JObject(_) => true
  }

  /** Whether `String(value)` throws. An object with its own `toString` key
      has no callable `toString` (a JSON value is never a function), and the
      inherited `valueOf` gives back the object itself, so no primitive is
      found and a TypeError is thrown. An array converts every element that
      is not null, so it throws when one of them does. */
  predicate StringThrows(value: Json) {
    match value
    case JObject(fields) => "toString" in fields
    case JArray(items) => exists i | 0 <= i < |items| :: StringThrows(items[i])
    case _ => false
  }

  /** `String(value)`: an array is its elements joined by ',', with null
      elements written as the empty string; an object without its own
      `toString` key is `[object Object]`. */
  function ToJsString(value: Json): (r: Result<string>)
    ensures r.Err? <==> StringThrows(value)
    ensures r.Err? ==> r.error == NO_PRIMITIVE
    ensures value.JString? ==> r == Ok(value.s)
    ensures value.JArray? && r.Ok? ==>
      r.value == Join(seq(|value.items|, i requires 0 <= i < |value.items| =>
                            if value.items[i].JNull? then "" else ToJsString(value.items[i]).value), ",")
  {
    match value
    case JNull => Ok("null")
    case JBool(b) => Ok(if b then "true" else "false")
    case JNumber(n) => Ok(IntToString(n))
    case JString(s) => Ok(s)
    case JArray(items) =>
      if exists i | 0 <= i < |items| :: StringThrows(items[i]) then Err(NO_PRIMITIVE)
      else
        Ok(Join(seq(|items|, i requires 0 <= i < |items| =>
                      if items[i].JNull? then "" else ToJsString(items[i]).value), ","))
    case JObject(fields) => if "toString" in fields then Err(NO_PRIMITIVE) else Ok("[object Object]")
  }

  /** Whether the `messages.map` callback throws on `m`: reading a property of
      null, or converting a content that has no primitive value. */
  predicate Throws(m: Json) {
    m.JNull? || (Get(m, "content").Some? && StringThrows(Get(m, "content").value))
  }

  /** The `messages.map` callback for one element: role 'user' exactly when
      the element's role is the string "user", content `String(content || '')`. */
  function Normalize(m: Json): (r: Result<ChatMessage>)
    ensures r.Err? <==> Throws(m)
    ensures r.Err? ==> r.error == if m.JNull? then NULL_PROPERTY else NO_PRIMITIVE
    ensures r.Ok? ==> (r.value.role == User <==> Get(m, "role") == Some(JString("user")))
    ensures r.Ok? && (Get(m, "content").None? || !Truthy(Get(m, "content").value)) ==> r.value.content == ""
    ensures r.Ok? && Get(m, "content").Some? && Truthy(Get(m, "content").value) ==>
      r.value.content == ToJsString(Get(m, "content").value).value
  {
    if m.JNull? then Err(NULL_PROPERTY)
    else
      var role := if Get(m, "role") == Some(JString("user")) then User else Assistant;
      var content := Get(m, "content");
      if content.Some? && Truthy(content.value) then
        match ToJsString(content.value)
        case Err(e) => Err(e)
        case Ok(text) => Ok(ChatMessage(role, text))
      else Ok(ChatMessage(role, ""))
  }

  /** `messages.map(...)`: the first element that throws ends the map. */
  function NormalizeAll(items: seq<Json>): Result<seq<ChatMessage>> {
    if items == [] then Ok([])
    else
      match Normalize(items[0])
      case Err(e) => Err(e)
      case Ok(m) =>
        match NormalizeAll(items[1..])
        case Err(e) => Err(e)
        case Ok(rest) => Ok([m] + rest)
  }

  /** The map fails exactly when the callback throws on some element;
      otherwise it keeps the length and the order, element by element. */
  lemma {:induction false} NormalizeAllKeepsOrder(items: seq<Json>)
    ensures NormalizeAll(items).Err? <==> exists i | 0 <= i < |items| :: Throws(items[i])
    ensures NormalizeAll(items).Ok? ==>
      && |NormalizeAll(items).value| == |items|
      && forall i | 0 <= i < |items| :: NormalizeAll(items).value[i] == Normalize(items[i]).value
  {
    if items != [] {
      NormalizeAllKeepsOrder(items[1..]);
      if !Throws(items[0]) && !NormalizeAll(items[1..]).Err? {
        forall i | 0 <= i < |items|
          ensures !Throws(items[i])
        {
          if i > 0 {
            assert items[i] == items[1..][i - 1];
          }
        }
      }
      if exists i | 1 <= i < |items| :: Throws(items[i]) {
        var i :| 1 <= i < |items| && Throws(items[i]);
        assert Throws(items[1..][i - 1]);
      }
      if NormalizeAll(items).Ok? {
        var r := NormalizeAll(items).value;
        forall i | 0 <= i < |items|
          ensures r[i] == Normalize(items[i]).value
        {
          if i > 0 {
            assert items[i] == items[1..][i - 1];
          }
        }
      }
    }
  }

  /** The `messages` of the body when it is a non-empty array. */
  predicate HasMessages(body: Json) {
    var messages := Get(body, "messages");
    messages.Some? && messages.value.JArray? && |messages.value.items| > 0
  }

  /** `chat(req, res)` with `answer` as the RAG service's `chat`: a null body
      cannot be destructured, which the catch turns into a 500. */
  function HandleChat(body: Json, answer: seq<ChatMessage> -> Result<string>): ChatResponse {
    if body.JNull? then ChatResponse(500, SYSTEM_ERROR)
    else if !HasMessages(body) then ChatResponse(400, INVALID_MESSAGES)
    else
      match NormalizeAll(Get(body, "messages").value.items)
      case Err(_) => ChatResponse(500, SYSTEM_ERROR)
      case Ok(valid) =>
        match answer(valid)
        case Ok(botMessage) => ChatResponse(200, botMessage)
        case Err(_) => ChatResponse(500, SYSTEM_ERROR)
  }

  /** A body without a non-empty `messages` array gets a 400, whatever the RAG
      service would have said: it is not consulted. */
  lemma MissingMessagesRejected(body: Json, answer: seq<ChatMessage> -> Result<string>,
                                other: seq<ChatMessage> -> Result<string>)
    requires !body.JNull? && !HasMessages(body)
    ensures HandleChat(body, answer) == ChatResponse(400, INVALID_MESSAGES)
    ensures HandleChat(body, answer) == HandleChat(body, other)
  {
  }

  /** The response is one of three kinds, and an internal error text never
      reaches the client: a 200 carries the RAG reply for the normalised
      messages, every failure carries the fixed message. */
  lemma ResponsesAreFixedOrAnswers(body: Json, answer: seq<ChatMessage> -> Result<string>)
    ensures HandleChat(body, answer).status in {200, 400, 500}
    ensures HandleChat(body, answer).status == 500 ==> HandleChat(body, answer).botMessage == SYSTEM_ERROR
    ensures HandleChat(body, answer).status == 200 <==>
      && !body.JNull? && HasMessages(body)
      && NormalizeAll(Get(body, "messages").value.items).Ok?
      && answer(NormalizeAll(Get(body, "messages").value.items).value).Ok?
    ensures HandleChat(body, answer).status == 200 ==>
      HandleChat(body, answer).botMessage == answer(NormalizeAll(Get(body, "messages").value.items).value).value
  {
  }

  /** When the last element's role is not "user" it is normalised to an
      assistant message, so the RAG service rejects the conversation; when the
      map throws first, the catch answers alike. Either way the client gets
      the generic 500. */
  lemma AssistantLastGivesServerError(body: Json, model: Result<Embedding.Extractor>, rows: seq<Database.ChunkRow>,
                                      metric: Database.Metric, percent: Percent, chat: ChatModel, modelName: string)
    requires !body.JNull? && HasMessages(body)
    requires var items := Get(body, "messages").value.items;
      Get(items[|items| - 1], "role") != Some(JString("user"))
    ensures HandleChat(body, m => Answer(m, model, rows, metric, percent, chat, modelName))
      == ChatResponse(500, SYSTEM_ERROR)
  {
    var items := Get(body, "messages").value.items;
    NormalizeAllKeepsOrder(items);
    if NormalizeAll(items).Ok? {
      var valid := NormalizeAll(items).value;
      assert valid[|valid| - 1] == Normalize(items[|items| - 1]).value;
      AnswerRejectsIllFormed(valid, model, rows, metric, percent, chat, modelName);
    }
  }

  /** A message whose content has no primitive value, such as an object with
      its own `toString` key, makes the map throw: the client gets the
      generic 500 and the RAG service is never consulted. */
  lemma UnprintableContentGivesServerError(body: Json, answer: seq<ChatMessage> -> Result<string>,
                                           other: seq<ChatMessage> -> Result<string>, j: nat)
    requires !body.JNull? && HasMessages(body)
    requires j < |Get(body, "messages").value.items|
    requires Get(Get(body, "messages").value.items[j], "content").Some?
    requires StringThrows(Get(Get(body, "messages").value.items[j], "content").value)
    ensures HandleChat(body, answer) == ChatResponse(500, SYSTEM_ERROR)
    ensures HandleChat(body, answer) == HandleChat(body, other)
  {
    var items := Get(body, "messages").value.items;
    assert Throws(items[j]);
    NormalizeAllKeepsOrder(items);
  }
}
