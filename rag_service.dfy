/** The retrieval-augmented chat of `RAGService`: check the conversation,
    embed the last question, take the five nearest chunks, format them as a
    numbered context and ask the chat model with a short window of history. */
module RagService {
  import opened Js
  import opened Embedding
  import opened Database

  datatype Role = User | Assistant

  /** A message of the conversation, as the chat controller normalises it. */
  datatype ChatMessage = ChatMessage(role: Role, content: string)

  /** A message of the chat-model request: `{ role, content }`. */
  datatype LlmMessage = LlmMessage(role: string, content: string)

  /** `ollama.chat({ model, messages, stream: false })`: the content of the
      reply, or the message of the error it throws. */
  type ChatModel = (string, seq<LlmMessage>) -> Result<string>

  /** `(similarity * 100).toFixed(1)`; floating-point formatting stays abstract. */
  type Percent = real -> string

  const INVALID_MESSAGE_FORMAT: string := "Invalid message format"

  /** How many chunks are retrieved for a question. */
  const SEARCH_LIMIT: nat := 5

  const SYSTEM_PROMPT: string := "Bạn là trợ lý AI thông minh của Đại học Kinh tế Quốc dân.\nNhiệm vụ: Trả lời câu hỏi dựa trên thông tin được cung cấp.\n\nQUY TẮC:\n- Chỉ sử dụng thông tin từ tài liệu được cung cấp\n- Nếu không tìm thấy thông tin, hãy nói rõ\n- Trả lời bằng tiếng Việt, rõ ràng và súc tích\n- Không bịa đặt thông tin"

  const QUESTION: string := "Câu hỏi: "

  /** What follows the question when nothing was found. */
  const NOT_FOUND_NOTE: string := "\n\nLưu ý: Không tìm thấy thông tin trong cơ sở dữ liệu. Hãy lịch sự từ chối và đề nghị upload tài liệu."

  const CONTEXT_HEADER: string := "Dựa trên tài liệu:\n\n"

  const CONTEXT_FOOTER: string := "\n\n---\n\n"

  const BLOCK_SEPARATOR: string := "\n\n"

  /** The reply given instead of an error that mentions the model. */
  const APOLOGY: string := "Xin lỗi, mô hình AI chưa sẵn sàng. Vui lòng đợi."

  function RoleName(r: Role): string {
    if r == User then "user" else "assistant"
  }

  // ---------------------------------------------------------------------
  // buildContext
  // ---------------------------------------------------------------------

  /** The label of the block for hit number `index` (counted from 0). */
  function BlockLabel(index: nat): string {
    "[Tài liệu " + NatToString(index + 1) + "]\n"
  }

  /** The text `chunks.map` gives for one hit: label, content, relevance. */
  function Block(index: nat, hit: SearchResult, percent: Percent): (b: string)
    ensures StartsWith(b, BlockLabel(index) + hit.content)
    ensures b[0] == '['
  {
    BlockLabel(index) + hit.content + "\n(Độ liên quan: " + percent(hit.similarity) + "%)"
  }

  function Blocks(hits: seq<SearchResult>, percent: Percent): (bs: seq<string>)
    ensures |bs| == |hits|
    ensures forall i | 0 <= i < |hits| :: bs[i] == Block(i, hits[i], percent)
  {
    seq(|hits|, i requires 0 <= i < |hits| => Block(i, hits[i], percent))
  }

  /** `buildContext(chunks)`. */
  function BuildContext(hits: seq<SearchResult>, percent: Percent): string {
    if |hits| == 0 then "" else Join(Blocks(hits, percent), BLOCK_SEPARATOR)
  }

  /** The context is built block by block: one more hit appends the separator
      and that hit's block, numbered after the others. */
  lemma BuildContextSnoc(hits: seq<SearchResult>, hit: SearchResult, percent: Percent)
    requires hits != []
    ensures BuildContext(hits + [hit], percent)
      == BuildContext(hits, percent) + BLOCK_SEPARATOR + Block(|hits|, hit, percent)
  {
    assert Blocks(hits + [hit], percent) == Blocks(hits, percent) + [Block(|hits|, hit, percent)];
    JoinSnoc(Blocks(hits, percent), Block(|hits|, hit, percent), BLOCK_SEPARATOR);
  }

  /** A context with hits opens with the first one, labelled "[Tài liệu 1]". */
  lemma BuildContextStartsWithFirst(hits: seq<SearchResult>, percent: Percent)
    requires hits != []
    ensures StartsWith(BuildContext(hits, percent), BlockLabel(0) + hits[0].content)
  {
    JoinStartsWithFirst(Blocks(hits, percent), BLOCK_SEPARATOR);
    var b := Block(0, hits[0], percent);
    var p := BlockLabel(0) + hits[0].content;
    assert BuildContext(hits, percent)[..|b|] == b;
    assert BuildContext(hits, percent)[..|p|] == b[..|p|];
  }

  /** The context is blank exactly when there are no hits: every block starts
      with '['. */
  lemma BuildContextBlankIffNoHits(hits: seq<SearchResult>, percent: Percent)
    ensures Trim(BuildContext(hits, percent)) == [] <==> hits == []
  {
    var c := BuildContext(hits, percent);
    TrimFacts(c);
    if hits != [] {
      JoinStartsWithFirst(Blocks(hits, percent), BLOCK_SEPARATOR);
      assert c[0] == Block(0, hits[0], percent)[0] == '[';
      assert !IsSpace(c[0]);
    }
  }

  // ---------------------------------------------------------------------
  // generateResponse
  // ---------------------------------------------------------------------

  /** The question when the context is blank: it asks the model to decline. */
  function NotFoundPrompt(query: string): string {
    QUESTION + query + NOT_FOUND_NOTE
  }

  /** The question after the context it is to be answered from. */
  function ContextPrompt(query: string, context: string): string {
    CONTEXT_HEADER + context + CONTEXT_FOOTER + QUESTION + query
  }

  /** The user prompt: the not-found prompt for a whitespace-only context. */
  function UserPrompt(query: string, context: string): (p: string)
    ensures Trim(context) == [] ==> p == NotFoundPrompt(query)
    ensures Trim(context) != [] ==> p == ContextPrompt(query, context)
  {
    if Trim(context) == [] then NotFoundPrompt(query) else ContextPrompt(query, context)
  }

  /** Both prompts carry the question; the context prompt carries the context
      right after its header and ends with the question. */
  lemma PromptsCarryTheQuestion(query: string, context: string)
    ensures StartsWith(NotFoundPrompt(query), QUESTION + query)
    ensures EndsWith(NotFoundPrompt(query), NOT_FOUND_NOTE)
    ensures StartsWith(ContextPrompt(query, context), CONTEXT_HEADER + context)
    ensures EndsWith(ContextPrompt(query, context), QUESTION + query)
  {
    var nf := NotFoundPrompt(query);
    assert nf[..|QUESTION + query|] == QUESTION + query;
    assert nf[|nf| - |NOT_FOUND_NOTE|..] == NOT_FOUND_NOTE;
    var cp := ContextPrompt(query, context);
    assert cp == (CONTEXT_HEADER + context) + (CONTEXT_FOOTER + QUESTION + query);
    assert cp[..|CONTEXT_HEADER + context|] == CONTEXT_HEADER + context;
    assert cp == (CONTEXT_HEADER + context + CONTEXT_FOOTER) + (QUESTION + query);
    assert cp[|cp| - |QUESTION + query|..] == QUESTION + query;
  }

  /** The two prompts never coincide: they differ in their first character. */
  lemma PromptsDiffer(query: string, context: string)
    ensures NotFoundPrompt(query) != ContextPrompt(query, context)
  {
    assert NotFoundPrompt(query)[0] == 'C';
    assert ContextPrompt(query, context)[0] == 'D';
  }

  /** `conversationHistory.slice(-4, -1)`: the up to three messages just
      before the last one, in order; without a last message it is empty. */
  function History(messages: seq<ChatMessage>): (h: seq<ChatMessage>)
    ensures |h| == Min(3, Max(|messages| - 1, 0))
    ensures messages != [] ==> h == messages[|messages| - 1 - |h|..|messages| - 1]
  {
    Slice(messages, -4, -1)
  }

  function ToLlm(messages: seq<ChatMessage>): (r: seq<LlmMessage>)
    ensures |r| == |messages|
    ensures forall i | 0 <= i < |messages| :: r[i] == LlmMessage(RoleName(messages[i].role), messages[i].content)
  {
    seq(|messages|, i requires 0 <= i < |messages| => LlmMessage(RoleName(messages[i].role), messages[i].content))
  }

  /** The `messages` of the `ollama.chat` request. */
  function Request(query: string, context: string, messages: seq<ChatMessage>): seq<LlmMessage> {
    [LlmMessage("system", SYSTEM_PROMPT)] + ToLlm(History(messages)) + [LlmMessage("user", UserPrompt(query, context))]
  }

  /** The request holds 2 + min(3, n - 1) messages: the system prompt, then
      the messages before the last one of the conversation, unchanged and in
      order, then the user prompt. */
  lemma RequestShape(query: string, context: string, messages: seq<ChatMessage>)
    requires messages != []
    ensures |Request(query, context, messages)| == 2 + Min(3, |messages| - 1)
    ensures Request(query, context, messages)[0] == LlmMessage("system", SYSTEM_PROMPT)
    ensures Request(query, context, messages)[|Request(query, context, messages)| - 1]
      == LlmMessage("user", UserPrompt(query, context))
    ensures forall i | 1 <= i < |Request(query, context, messages)| - 1 ::
      Request(query, context, messages)[i]
      == LlmMessage(RoleName(messages[|messages| - |Request(query, context, messages)| + i].role),
                    messages[|messages| - |Request(query, context, messages)| + i].content)
  {
    FrameShape(LlmMessage("system", SYSTEM_PROMPT), History(messages), LlmMessage("user", UserPrompt(query, context)),
               messages, Request(query, context, messages));
  }

  /** A window `hist` ending just before the last message, framed by two
      messages: each inner message is the conversation's, `|r|` from the end. */
  lemma FrameShape(first: LlmMessage, hist: seq<ChatMessage>, last: LlmMessage, messages: seq<ChatMessage>,
                   r: seq<LlmMessage>)
    requires |hist| < |messages| && hist == messages[|messages| - 1 - |hist|..|messages| - 1]
    requires r == [first] + ToLlm(hist) + [last]
    ensures |r| == |hist| + 2 && r[0] == first && r[|r| - 1] == last
    ensures forall i | 1 <= i < |r| - 1 ::
      r[i] == LlmMessage(RoleName(messages[|messages| - |r| + i].role), messages[|messages| - |r| + i].content)
  {
    var n := |messages|;
    forall i | 1 <= i < |r| - 1
      ensures r[i] == LlmMessage(RoleName(messages[n - |r| + i].role), messages[n - |r| + i].content)
    {
      assert r[i] == ToLlm(hist)[i - 1];
      assert hist[i - 1] == messages[n - |r| + i];
    }
  }

  /** The catch of generateResponse: a reply passes; an error whose message
      contains "model" becomes the apology; any other error is rethrown. */
  function Reply(o: Result<string>): (r: Result<string>)
    ensures r.Err? <==> o.Err? && !Contains(o.error, "model")
    ensures r.Err? || o.Ok? ==> r == o
    ensures o.Err? && Contains(o.error, "model") ==> r == Ok(APOLOGY)
  {
    match o
    case Ok(content) => Ok(content)
    case Err(m) => if Contains(m, "model") then Ok(APOLOGY) else Err(m)
  }

  /** `generateResponse(query, context, conversationHistory)`. */
  function GenerateResponse(chat: ChatModel, modelName: string, query: string, context: string,
                            messages: seq<ChatMessage>): Result<string> {
    Reply(chat(modelName, Request(query, context, messages)))
  }

  // ---------------------------------------------------------------------
  // chat
  // ---------------------------------------------------------------------

  /** The conversation ends with a user message. */
  predicate WellFormed(messages: seq<ChatMessage>) {
    messages != [] && messages[|messages| - 1].role == User
  }

  /** What `chat(messages)` returns or throws when `model` is the embedding
      model and `rows` the chunks table. */
  function Answer(messages: seq<ChatMessage>, model: Result<Extractor>, rows: seq<ChunkRow>, metric: Metric,
                  percent: Percent, chat: ChatModel, modelName: string): Result<string> {
    if !WellFormed(messages) then Err(INVALID_MESSAGE_FORMAT)
    else
      var query := messages[|messages| - 1].content;
      match EmbedWith(model, query)
      case Err(m) => Err(m)
      case Ok(v) =>
        match Search(rows, metric, v, SEARCH_LIMIT)
        case Err(m) => Err(m)
        case Ok(hits) => GenerateResponse(chat, modelName, query, BuildContext(hits, percent), messages)
  }

  /** A conversation that is empty or does not end with a user message is
      rejected before anything else is asked. */
  lemma AnswerRejectsIllFormed(messages: seq<ChatMessage>, model: Result<Extractor>, rows: seq<ChunkRow>,
                               metric: Metric, percent: Percent, chat: ChatModel, modelName: string)
    requires !WellFormed(messages)
    ensures Answer(messages, model, rows, metric, percent, chat, modelName) == Err(INVALID_MESSAGE_FORMAT)
  {
  }

  /** For a well-formed conversation whose question embeds to 384 numbers,
      the model is asked once, about the last message's content, with a
      context built from min(5, rows) hits; the not-found prompt is used
      exactly when the chunks table is empty. */
  lemma AnswerAsksTheModel(messages: seq<ChatMessage>, model: Result<Extractor>, rows: seq<ChunkRow>,
                           metric: Metric, percent: Percent, chat: ChatModel, modelName: string)
    requires WellFormed(messages)
    requires EmbedWith(model, messages[|messages| - 1].content).Ok?
    requires |EmbedWith(model, messages[|messages| - 1].content).value| == VECTOR_DIM
    ensures var query := messages[|messages| - 1].content;
      var hits := Search(rows, metric, EmbedWith(model, query).value, SEARCH_LIMIT).value;
      && |hits| == Min(SEARCH_LIMIT, |rows|)
      && Answer(messages, model, rows, metric, percent, chat, modelName)
         == Reply(chat(modelName, Request(query, BuildContext(hits, percent), messages)))
      && (UserPrompt(query, BuildContext(hits, percent)) == NotFoundPrompt(query) <==> rows == [])
  {
    var query := messages[|messages| - 1].content;
    var hits := Search(rows, metric, EmbedWith(model, query).value, SEARCH_LIMIT).value;
    BuildContextBlankIffNoHits(hits, percent);
    PromptsDiffer(query, BuildContext(hits, percent));
  }

  /** A failure to embed the question, or a question vector of the wrong
      size, is passed on as it is. */
  lemma AnswerPassesRetrievalErrors(messages: seq<ChatMessage>, model: Result<Extractor>, rows: seq<ChunkRow>,
                                    metric: Metric, percent: Percent, chat: ChatModel, modelName: string)
    requires WellFormed(messages)
    ensures EmbedWith(model, messages[|messages| - 1].content).Err? ==>
      Answer(messages, model, rows, metric, percent, chat, modelName)
      == Err(EmbedWith(model, messages[|messages| - 1].content).error)
    ensures (EmbedWith(model, messages[|messages| - 1].content).Ok?
             && |EmbedWith(model, messages[|messages| - 1].content).value| != VECTOR_DIM) ==>
      Answer(messages, model, rows, metric, percent, chat, modelName)
      == Err(QueryDimensionMismatch(|EmbedWith(model, messages[|messages| - 1].content).value|))
  {
  }

  class RAGService {
    const db: DatabaseModel
    const embedder: EmbeddingService
    const chatModel: ChatModel
    const ollamaModel: string
    const metric: Metric
    const percent: Percent

    /** The Ollama host is part of `chatModel`. */
    constructor(db: DatabaseModel, embedder: EmbeddingService, chatModel: ChatModel, ollamaModel: string,
                metric: Metric, percent: Percent)
      ensures this.db == db && this.embedder == embedder && this.chatModel == chatModel
      ensures this.ollamaModel == ollamaModel && this.metric == metric && this.percent == percent
    {
      this.db := db;
      this.embedder := embedder;
      this.chatModel := chatModel;
      this.ollamaModel := ollamaModel;
      this.metric := metric;
      this.percent := percent;
    }

    /** `chat(messages)`: validate, embed the question, search with limit 5,
        build the context and generate the response; every error is rethrown. */
    method Chat(messages: seq<ChatMessage>, load: Loader) returns (r: Result<string>)
      requires embedder.Valid()
      modifies embedder
      ensures embedder.Valid()
      ensures embedder.Model(load) == old(embedder.Model(load))
      ensures r == Answer(messages, old(embedder.Model(load)), db.chunks, metric, percent, chatModel, ollamaModel)
      ensures !WellFormed(messages) ==> unchanged(embedder)
    {
      if |messages| == 0 || messages[|messages| - 1].role != User {
        return Err(INVALID_MESSAGE_FORMAT);
      }
      var query := messages[|messages| - 1].content;
      var queryEmbedding := embedder.GenerateEmbedding(query, load);
      if queryEmbedding.Err? {
        return Err(queryEmbedding.error);
      }
      var similarChunks := db.SearchSimilarChunks(metric, queryEmbedding.value, SEARCH_LIMIT);
      if similarChunks.Err? {
        return Err(similarChunks.error);
      }
      var context := BuildContext(similarChunks.value, percent);
      r := GenerateResponse(chatModel, ollamaModel, query, context, messages);
    }
  }
}
