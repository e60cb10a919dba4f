/** The prompt composer and the request guard of the chat use case
    (`ChatUseCase.build_prompt` and `ChatUseCase.process_message`). The
    embedding service, the vector store's similarity search and the Gemini
    generation call are remote and are passed in as functions that either
    return a value (Some) or raise (None). */
module ChatUseCase {
  import opened Wrappers

  /** A retrieved chunk: a dictionary in which the keys "source" and "text"
      may each be missing. */
  datatype ContextChunk = ContextChunk(source: Option<string>, text: Option<string>)

  /** The fixed instruction every prompt starts with. */
  const SystemMessage: string :=
    "Bạn là một trợ lý AI chuyên nghiệp cho ngân hàng [Tên Ngân Hàng Của Bạn]. " +
    "Hãy trả lời câu hỏi của khách hàng dựa trên thông tin ngữ cảnh được cung cấp. " +
    "Nếu thông tin trong ngữ cảnh không đủ để trả lời câu hỏi, hãy nói rằng bạn không có đủ thông tin " +
    "và khuyên khách hàng liên hệ với bộ phận hỗ trợ khách hàng của ngân hàng.\n" +
    "Tuyệt đối không tự bịa ra thông tin. Trả lời bằng tiếng Việt.\n\n"

  const ContextHeader: string := "Ngữ cảnh:\n"
  const SourceLabel: string := "- Nguồn: "
  const ContentLabel: string := "  Nội dung: "
  const UnknownSource: string := "Unknown"
  const QuestionLabel: string := "Câu hỏi của khách hàng: "
  const AnswerCue: string := "\nTrả lời:"

  /** The reply to an empty query, and the reply to any failure of the pipeline. */
  const EmptyQueryReply: string := "Xin vui lòng nhập câu hỏi của bạn."
  const ApologyReply: string := "Xin lỗi, đã xảy ra lỗi kỹ thuật khi xử lý yêu cầu của bạn. Vui lòng thử lại sau."

  /** How many chunks the similarity search is asked for. */
  const TopK: nat := 3

  /** `chunk.get('source', 'Unknown')` and `chunk.get('text', '')`. */
  function SourceOf(chunk: ContextChunk): string
  {
    chunk.source.GetOr(UnknownSource)
  }

  function TextOf(chunk: ContextChunk): string
  {
    chunk.text.GetOr("")
  }

  /** The two lines one chunk contributes to the context section. */
  function Entry(chunk: ContextChunk): string
  {
    SourceLabel + SourceOf(chunk) + "\n" + ContentLabel + TextOf(chunk) + "\n"
  }

  /** The renderings of `items`, one after another, in order. */
  function Joined<T>(items: seq<T>, render: T -> string): string
  {
    if items == [] then ""
    else Joined(items[..|items| - 1], render) + render(items[|items| - 1])
  }

  /** The entries of all chunks, in the order given. */
  function Entries(chunks: seq<ContextChunk>): string
  {
    Joined(chunks, Entry)
  }

  /** The context section: nothing at all when no chunk was retrieved. */
  function ContextSection(chunks: seq<ContextChunk>): string
  {
    if chunks == [] then "" else ContextHeader + Entries(chunks) + "\n"
  }

  function QuestionLine(userQuery: string): string
  {
    QuestionLabel + userQuery + AnswerCue
  }

  /** A prompt laid out after a given instruction. */
  function Compose(system: string, chunks: seq<ContextChunk>, userQuery: string): string
  {
    system + ContextSection(chunks) + QuestionLine(userQuery)
  }

  /** The prompt `build_prompt` returns. */
  function Prompt(userQuery: string, chunks: seq<ContextChunk>): string
  {
    Compose(SystemMessage, chunks, userQuery)
  }

  /** The two `+=` steps of one loop iteration append the chunk's entry. */
  lemma AppendEntry(text: string, header: string, entries: string, chunk: ContextChunk)
    requires text == header + entries
    ensures text + SourceLabel + SourceOf(chunk) + "\n" + ContentLabel + TextOf(chunk) + "\n" == header + (entries + Entry(chunk))
  {
  }

  /** `build_prompt`: the context text is accumulated chunk by chunk. */
  method BuildPrompt(userQuery: string, contextChunks: seq<ContextChunk>) returns (prompt: string)
    ensures prompt == Prompt(userQuery, contextChunks)
  {
    var contextText := "";
    if contextChunks != [] {
      contextText := ContextHeader;
      for i := 0 to |contextChunks|
        invariant contextText == ContextHeader + Entries(contextChunks[..i])
      {
        var chunk := contextChunks[i];
        ghost var before := contextText;
        contextText := contextText + SourceLabel + SourceOf(chunk) + "\n";
        contextText := contextText + ContentLabel + TextOf(chunk) + "\n";
        AppendEntry(before, ContextHeader, Entries(contextChunks[..i]), chunk);
        assert contextChunks[..i + 1][..i] == contextChunks[..i];
      }
      assert contextChunks[..|contextChunks|] == contextChunks;
      contextText := contextText + "\n";
    }
    prompt := SystemMessage + contextText + QuestionLine(userQuery);
  }

  // ---------------------------------------------------------------------------
  // Properties of the composed prompt

  lemma ConcatPrefix(a: string, b: string)
    ensures (a + b)[..|a|] == a
  {
  }

  /** The middle part of a concatenation is found at its offset. */
  lemma ConcatMiddle(a: string, t: string, b: string)
    ensures (a + t + b)[|a|..|a| + |t|] == t
  {
  }

  lemma Regroup(a: string, b: string, c: string, d: string, e: string)
    ensures a + (b + c + d) + e == a + b + c + (d + e)
  {
  }

  lemma PromptStartsWithSystemMessage(userQuery: string, chunks: seq<ContextChunk>)
    ensures |SystemMessage| <= |Prompt(userQuery, chunks)|
    ensures Prompt(userQuery, chunks)[..|SystemMessage|] == SystemMessage
  {
    ConcatPrefix(SystemMessage, ContextSection(chunks) + QuestionLine(userQuery));
  }

  lemma PromptEndsWithQuestion(userQuery: string, chunks: seq<ContextChunk>)
    ensures var p := Prompt(userQuery, chunks);
      && |QuestionLine(userQuery)| <= |p|
      && p[|p| - |QuestionLine(userQuery)|..] == QuestionLabel + userQuery + AnswerCue
  {
  }

  /** With no retrieved chunk the prompt is the system message followed
      directly by the question. */
  lemma PromptWithoutContext(userQuery: string)
    ensures Prompt(userQuery, []) == SystemMessage + QuestionLabel + userQuery + AnswerCue
  {
  }

  /** Rendering two lists in a row gives the two renderings in a row. */
  lemma {:induction false} JoinedAppend<T>(a: seq<T>, b: seq<T>, render: T -> string)
    ensures Joined(a + b, render) == Joined(a, render) + Joined(b, render)
    decreases |b|
  {
    if b == [] {
      assert a + b == a;
    } else {
      var b' := b[..|b| - 1];
      assert (a + b)[..|a + b| - 1] == a + b';
      JoinedAppend(a, b', render);
    }
  }

  /** Where the entry of the `k`-th chunk starts, after an instruction of
      `systemLength` characters. */
  function EntryOffset(systemLength: nat, chunks: seq<ContextChunk>, k: nat): nat
    requires k <= |chunks|
  {
    systemLength + |ContextHeader| + |Entries(chunks[..k])|
  }

  /** The rendering split around the `k`-th item. */
  lemma JoinedAround<T>(items: seq<T>, render: T -> string, k: nat)
    requires k < |items|
    ensures Joined(items[..k + 1], render) == Joined(items[..k], render) + render(items[k])
    ensures Joined(items, render) == Joined(items[..k], render) + render(items[k]) + Joined(items[k + 1..], render)
  {
    assert items[..k + 1][..k] == items[..k];
    JoinedAppend(items[..k + 1], items[k + 1..], render);
    assert items[..k + 1] + items[k + 1..] == items;
  }

  /** Where the rendering of item `k` sits in `s + h + Joined(items, render) + t`:
      right after those of the items before it, with `h` before all of them
      and `t` after all of them. */
  lemma JoinedPlacement<T>(s: string, h: string, items: seq<T>, render: T -> string, t: string, k: nat)
    requires k < |items|
    ensures var p, j := s + h + Joined(items, render) + t, |s| + |h|;
      && p[|s|..j] == h
      && j + |Joined(items[..k], render)| + |render(items[k])| == j + |Joined(items[..k + 1], render)|
      && j + |Joined(items[..k + 1], render)| <= j + |Joined(items, render)| < |p| + 1
      && p[j + |Joined(items[..k], render)|..j + |Joined(items[..k + 1], render)|] == render(items[k])
      && p[j + |Joined(items, render)|..] == t
  {
    var before, item, after := Joined(items[..k], render), render(items[k]), Joined(items[k + 1..], render);
    JoinedAround(items, render, k);
    var p := s + h + (before + item + after) + t;
    var j := |s| + |h|;
    assert p[|s|..j] == h;
    assert p[j + |before|..j + |before| + |item|] == item;
    assert p[j + |before| + |item| + |after|..] == t;
  }

  /** A slice of a slice is a slice. */
  lemma SliceOfSlice(p: string, e: nat, e': nat, a: nat, b: nat)
    requires e <= e' <= |p| && a <= b <= e' - e
    ensures p[e..e'][a..b] == p[e + a..e + b]
  {
    assert forall x :: 0 <= x < b - a ==> p[e..e'][a..b][x] == p[e + a + x] == p[e + a..e + b][x];
  }

  lemma ComposedEntryPlacement(system: string, userQuery: string, chunks: seq<ContextChunk>, k: nat)
    requires k < |chunks|
    ensures var p, n := Compose(system, chunks, userQuery), |system|;
      && p[n..n + |ContextHeader|] == ContextHeader
      && EntryOffset(n, chunks, k) + |Entry(chunks[k])| == EntryOffset(n, chunks, k + 1)
      && EntryOffset(n, chunks, k + 1) <= EntryOffset(n, chunks, |chunks|) < |p|
      && p[EntryOffset(n, chunks, k)..EntryOffset(n, chunks, k + 1)] == Entry(chunks[k])
      && p[EntryOffset(n, chunks, |chunks|)..] == "\n" + QuestionLine(userQuery)
  {
    var q := QuestionLine(userQuery);
    assert chunks[..|chunks|] == chunks;
    assert ContextSection(chunks) == ContextHeader + Joined(chunks, Entry) + "\n";
    Regroup(system, ContextHeader, Joined(chunks, Entry), "\n", q);
    JoinedPlacement(system, ContextHeader, chunks, Entry, "\n" + q, k);
  }

  /** With chunks, the context section is the header, then the entry of every
      chunk in input order, each directly after the previous one (nothing
      dropped, nothing reordered), then a blank line, then the question. */
  lemma EntryPlacement(userQuery: string, chunks: seq<ContextChunk>, k: nat)
    requires k < |chunks|
    ensures var p, n := Prompt(userQuery, chunks), |SystemMessage|;
      && p[n..n + |ContextHeader|] == ContextHeader
      && EntryOffset(n, chunks, k) + |Entry(chunks[k])| == EntryOffset(n, chunks, k + 1)
      && EntryOffset(n, chunks, k + 1) <= EntryOffset(n, chunks, |chunks|) < |p|
      && p[EntryOffset(n, chunks, k)..EntryOffset(n, chunks, k + 1)] == Entry(chunks[k])
      && p[EntryOffset(n, chunks, |chunks|)..] == "\n" + QuestionLine(userQuery)
  {
    ComposedEntryPlacement(SystemMessage, userQuery, chunks, k);
  }

  predicate QuotedAt(p: string, t: string, i: int)
  {
    0 <= i && i + |t| <= |p| && p[i..i + |t|] == t
  }

  lemma ComposedChunkTextQuoted(system: string, userQuery: string, chunks: seq<ContextChunk>, k: nat)
    requires k < |chunks| && chunks[k].text.Some?
    ensures var p, t := Compose(system, chunks, userQuery), chunks[k].text.value;
      exists i :: QuotedAt(p, t, i) && i + |t| <= |p| - |QuestionLine(userQuery)|
  {
    var p, t := Compose(system, chunks, userQuery), chunks[k].text.value;
    ComposedEntryPlacement(system, userQuery, chunks, k);
    var e, e' := EntryOffset(|system|, chunks, k), EntryOffset(|system|, chunks, k + 1);
    var i := e + |SourceLabel| + |SourceOf(chunks[k])| + 1 + |ContentLabel|;
    ConcatMiddle(SourceLabel + SourceOf(chunks[k]) + "\n" + ContentLabel, t, "\n");
    SliceOfSlice(p, e, e', i - e, i - e + |t|);
    assert QuotedAt(p, t, i);
  }

  /** The text of every retrieved chunk appears verbatim in the prompt, before
      the question. */
  lemma ChunkTextQuotedBeforeQuestion(userQuery: string, chunks: seq<ContextChunk>, k: nat)
    requires k < |chunks| && chunks[k].text.Some?
    ensures var p, t := Prompt(userQuery, chunks), chunks[k].text.value;
      exists i :: QuotedAt(p, t, i) && i + |t| <= |p| - |QuestionLine(userQuery)|
  {
    var p, t := Prompt(userQuery, chunks), chunks[k].text.value;
    ComposedChunkTextQuoted(SystemMessage, userQuery, chunks, k);
    var i :| QuotedAt(Compose(SystemMessage, chunks, userQuery), t, i)
             && i + |t| <= |p| - |QuestionLine(userQuery)|;
    assert QuotedAt(p, t, i);
  }

  /** A chunk without "source" is labelled Unknown; one without "text" has an
      empty content line. */
  lemma MissingKeysRendering(text: string, source: string)
    ensures Entry(ContextChunk(None, Some(text))) == Entry(ContextChunk(Some("Unknown"), Some(text)))
    ensures Entry(ContextChunk(Some(source), None)) == Entry(ContextChunk(Some(source), Some("")))
  {
  }

  // ---------------------------------------------------------------------------
  // process_message

  /** The remote operations the use case calls; None means the call raised. */
  datatype Services<!E> = Services(
    getEmbedding: string -> Option<E>,
    searchSimilar: (E, nat) -> Option<seq<ContextChunk>>,
    generateContent: string -> Option<string>)

  /** One call to a remote service, recorded in the order it was made. */
  datatype ServiceCall<E> =
    | GetEmbedding(text: string)
    | SearchSimilar(embedding: E, topK: nat)
    | GenerateContent(prompt: string)

  /** What `process_message` returns, with the calls it made on the way. */
  datatype Reply<E> = Reply(text: string, calls: seq<ServiceCall<E>>)

  /** `process_message`: empty query guard, then embed, search, compose and
      generate; any raised error becomes the fixed apology. */
  function ProcessMessage<E>(userQuery: string, services: Services<E>): (r: Reply<E>)
    ensures r.calls == [] <==> userQuery == ""
    ensures userQuery == "" ==> r.text == EmptyQueryReply
    ensures r.calls != [] ==> r.calls[0] == GetEmbedding(userQuery)
    ensures |r.calls| <= 3
  {
    if userQuery == "" then Reply(EmptyQueryReply, [])
    else
      var embed := GetEmbedding(userQuery);
      match services.getEmbedding(userQuery)
      case None => Reply(ApologyReply, [embed])
      case Some(queryEmbedding) =>
        var search := SearchSimilar(queryEmbedding, TopK);
        match services.searchSimilar(queryEmbedding, TopK)
        case None => Reply(ApologyReply, [embed, search])
        case Some(contextChunks) =>
          var prompt := Prompt(userQuery, contextChunks);
          match services.generateContent(prompt)
          case None => Reply(ApologyReply, [embed, search, GenerateContent(prompt)])
          case Some(reply) => Reply(reply, [embed, search, GenerateContent(prompt)])
  }

  /** When every call returns, the reply is exactly the generated text for the
      prompt built from the query and the top 3 chunks for its embedding, and
      each service was called once, in pipeline order. */
  lemma ProcessMessageSucceeds<E>(userQuery: string, services: Services<E>,
                                  queryEmbedding: E, chunks: seq<ContextChunk>, reply: string)
    requires userQuery != ""
    requires services.getEmbedding(userQuery) == Some(queryEmbedding)
    requires services.searchSimilar(queryEmbedding, 3) == Some(chunks)
    requires services.generateContent(Prompt(userQuery, chunks)) == Some(reply)
    ensures ProcessMessage(userQuery, services) ==
      Reply(reply, [GetEmbedding(userQuery), SearchSimilar(queryEmbedding, 3),
                    GenerateContent(Prompt(userQuery, chunks))])
  {
  }

  /** A call that raises ends the pipeline there: the reply is the apology,
      never a partial result, and no later service is called. */
  lemma ProcessMessageFailsWithApology<E>(userQuery: string, services: Services<E>)
    requires userQuery != ""
    ensures var r := ProcessMessage(userQuery, services);
      && (services.getEmbedding(userQuery).None? ==> r == Reply(ApologyReply, [GetEmbedding(userQuery)]))
      && (forall e :: services.getEmbedding(userQuery) == Some(e) && services.searchSimilar(e, 3).None? ==>
            r == Reply(ApologyReply, [GetEmbedding(userQuery), SearchSimilar(e, 3)]))
      && (forall e, chunks ::
            (&& services.getEmbedding(userQuery) == Some(e)
             && services.searchSimilar(e, 3) == Some(chunks)
             && services.generateContent(Prompt(userQuery, chunks)).None?) ==>
            r.text == ApologyReply && |r.calls| == 3)
  {
  }

  /** The reply is one of the two fixed messages or the text the generation
      call returned for the prompt it was given. */
  lemma ProcessMessageReplyOrigin<E>(userQuery: string, services: Services<E>)
    ensures var r := ProcessMessage(userQuery, services);
      || r.text == EmptyQueryReply
      || r.text == ApologyReply
      || (|r.calls| == 3 && r.calls[2].GenerateContent? &&
          services.generateContent(r.calls[2].prompt) == Some(r.text))
  {
  }

  /** Only the empty string is caught by the guard: a query of spaces goes to
      the embedding service. */
  lemma WhitespaceQueryNotCaught<E>(services: Services<E>)
    ensures ProcessMessage(" ", services).calls[0] == GetEmbedding(" ")
  {
  }
}
