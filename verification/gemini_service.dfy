/** `GeminiService.stream_response`: the client-supplied history is replayed
    into a fresh conversation memory, the retrieval chain is run on the
    question, and only the "answer" entries of the chain's output stream are
    passed on. The chain (retriever and Gemini model) is a function of the
    question and the memory's messages. */
module GeminiService {
  import opened Schemas

  /** A message held by the conversation memory. */
  datatype BaseMessage = HumanMessage(content: string) | AIMessage(content: string)

  /** The message buffer of a conversation memory (`memory.chat_memory`). */
  class ChatMessageHistory {
    var messages: seq<BaseMessage>

    constructor ()
      ensures messages == []
    {
      messages := [];
    }

    method AddUserMessage(content: string)
      modifies this
      ensures messages == old(messages) + [HumanMessage(content)]
    {
      messages := messages + [HumanMessage(content)];
    }

    method AddAiMessage(content: string)
      modifies this
      ensures messages == old(messages) + [AIMessage(content)]
    {
      messages := messages + [AIMessage(content)];
    }
  }

  /** The roles that are replayed into memory; every other role is skipped. */
  predicate IsReplayed(turn: ChatMessage)
  {
    turn.role == "user" || turn.role == "ai"
  }

  /** The message a replayed turn becomes. */
  predicate Mirrors(turn: ChatMessage, message: BaseMessage)
  {
    && message.content == turn.content
    && (message.HumanMessage? <==> turn.role == "user")
    && (message.AIMessage? <==> turn.role == "ai")
  }

  /** What the replay loop appends for one turn. */
  function ReplayTurn(turn: ChatMessage): seq<BaseMessage>
  {
    if turn.role == "user" then [HumanMessage(turn.content)]
    else if turn.role == "ai" then [AIMessage(turn.content)]
    else []
  }

  /** The memory's messages after replaying `history` in order. */
  function Replayed(history: seq<ChatMessage>): seq<BaseMessage>
  {
    if history == [] then []
    else Replayed(history[..|history| - 1]) + ReplayTurn(history[|history| - 1])
  }

  /** A fresh memory, then one message per 'user' or 'ai' turn of the history, in order. */
  method LoadMemory(history: seq<ChatMessage>) returns (memory: ChatMessageHistory)
    ensures fresh(memory)
    ensures memory.messages == Replayed(history)
  {
    memory := new ChatMessageHistory();
    for i := 0 to |history|
      invariant memory.messages == Replayed(history[..i])
    {
      var message := history[i];
      if message.role == "user" {
        memory.AddUserMessage(message.content);
      } else if message.role == "ai" {
        memory.AddAiMessage(message.content);
      }
      assert history[..i + 1][..i] == history[..i];
    }
    assert history[..|history|] == history;
  }

  lemma {:induction false} ReplayedAppend(a: seq<ChatMessage>, b: seq<ChatMessage>)
    ensures Replayed(a + b) == Replayed(a) + Replayed(b)
    decreases |b|
  {
    if b == [] {
      assert a + b == a;
    } else {
      assert (a + b)[..|a + b| - 1] == a + b[..|b| - 1];
      ReplayedAppend(a, b[..|b| - 1]);
    }
  }

  /** The memory never holds more messages than the history has turns, and
      holds as many exactly when every turn has role 'user' or 'ai'. */
  lemma {:induction false} ReplayedLength(history: seq<ChatMessage>)
    ensures |Replayed(history)| <= |history|
    ensures |Replayed(history)| == |history| <==> forall i :: 0 <= i < |history| ==> IsReplayed(history[i])
  {
    if history != [] {
      var init := history[..|history| - 1];
      ReplayedLength(init);
      if forall i :: 0 <= i < |history| ==> IsReplayed(history[i]) {
        assert forall i :: 0 <= i < |init| ==> IsReplayed(init[i]) by {
          forall i | 0 <= i < |init| ensures IsReplayed(init[i]) {
            assert init[i] == history[i];
          }
        }
      } else if forall i :: 0 <= i < |init| ==> IsReplayed(init[i]) {
        assert !IsReplayed(history[|history| - 1]) by {
          forall i | 0 <= i < |history| - 1 ensures IsReplayed(history[i]) {
            assert init[i] == history[i];
          }
        }
      }
    }
  }

  /** The positions of the replayed turns, in increasing order. */
  function ReplayedPositions(history: seq<ChatMessage>): seq<nat>
  {
    if history == [] then []
    else
      var n := |history| - 1;
      ReplayedPositions(history[..n]) + if IsReplayed(history[n]) then [n] else []
  }

  /** The memory is exactly the subsequence of 'user' and 'ai' turns: its
      `j`-th message mirrors the turn at the `j`-th replayed position, those
      positions increase strictly, and a position is among them exactly when
      its turn has role 'user' or 'ai'. */
  lemma {:induction false} ReplayedIsSubsequence(history: seq<ChatMessage>)
    ensures var memory, pos := Replayed(history), ReplayedPositions(history);
      && |pos| == |memory|
      && (forall j :: 0 <= j < |pos| ==> pos[j] < |history| && Mirrors(history[pos[j]], memory[j]))
      && (forall j, j' :: 0 <= j < j' < |pos| ==> pos[j] < pos[j'])
      && (forall i :: 0 <= i < |history| ==> (IsReplayed(history[i]) <==> i in pos))
  {
    if history != [] {
      var n := |history| - 1;
      var init := history[..n];
      ReplayedIsSubsequence(init);
      var memory, pos := Replayed(history), ReplayedPositions(history);
      var memory0, pos0 := Replayed(init), ReplayedPositions(init);
      assert forall i :: 0 <= i < n ==> init[i] == history[i];
      forall j | 0 <= j < |pos| ensures pos[j] < |history| && Mirrors(history[pos[j]], memory[j]) {
        if j < |pos0| {
          assert pos[j] == pos0[j] && memory[j] == memory0[j];
        }
      }
      forall i | 0 <= i < |history| ensures IsReplayed(history[i]) <==> i in pos {
        if i < n {
          assert i in pos0 ==> i in pos;
          assert i in pos ==> i in pos0 || i == n;
        }
      }
    }
  }

  /** Turns with another role (for example 'assistant') are dropped silently. */
  lemma OtherRolesDropped(history: seq<ChatMessage>, content: string, role: string)
    requires role != "user" && role != "ai"
    ensures Replayed(history + [ChatMessage(role, content)]) == Replayed(history)
  {
    assert (history + [ChatMessage(role, content)])[..|history|] == history;
  }

  // ---------------------------------------------------------------------------
  // The answer stream

  /** What the chain's `astream` produces: dictionaries, in order, and whether
      the stream ended by raising. */
  datatype ChainOutput<V> = ChainOutput(chunks: seq<map<string, V>>, raised: bool)

  /** What `stream_response` yields, and whether it ended by raising. */
  datatype AnswerStream<V> = AnswerStream(fragments: seq<V>, raised: bool)

  const AnswerKey: string := "answer"

  /** The "answer" values of the chunks that have one, in order. */
  function Answers<V>(chunks: seq<map<string, V>>): seq<V>
  {
    if chunks == [] then []
    else
      var last := chunks[|chunks| - 1];
      Answers(chunks[..|chunks| - 1]) + if AnswerKey in last then [last[AnswerKey]] else []
  }

  /** `stream_response`: replay the history, run the chain on the question and
      that memory, and yield the answer of every chunk that has one. */
  method StreamResponse<V>(question: string, history: seq<ChatMessage>,
                           chain: (string, seq<BaseMessage>) -> ChainOutput<V>)
    returns (out: AnswerStream<V>)
    ensures out.fragments == Answers(chain(question, Replayed(history)).chunks)
    ensures out.raised == chain(question, Replayed(history)).raised
  {
    var memory := LoadMemory(history);
    var output := chain(question, memory.messages);
    var fragments := [];
    for k := 0 to |output.chunks|
      invariant fragments == Answers(output.chunks[..k])
    {
      var chunk := output.chunks[k];
      if AnswerKey in chunk {
        fragments := fragments + [chunk[AnswerKey]];
      }
      assert output.chunks[..k + 1][..k] == output.chunks[..k];
    }
    assert output.chunks[..|output.chunks|] == output.chunks;
    out := AnswerStream(fragments, output.raised);
  }

  lemma {:induction false} AnswersAppend<V>(a: seq<map<string, V>>, b: seq<map<string, V>>)
    ensures Answers(a + b) == Answers(a) + Answers(b)
    decreases |b|
  {
    if b == [] {
      assert a + b == a;
    } else {
      assert (a + b)[..|a + b| - 1] == a + b[..|b| - 1];
      AnswersAppend(a, b[..|b| - 1]);
    }
  }

  /** The stream has at most one fragment per chunk, and exactly one per chunk
      when every chunk carries an answer; each fragment is some chunk's answer. */
  lemma {:induction false} AnswersBound<V>(chunks: seq<map<string, V>>)
    ensures |Answers(chunks)| <= |chunks|
    ensures |Answers(chunks)| == |chunks| <==> forall k :: 0 <= k < |chunks| ==> AnswerKey in chunks[k]
    ensures forall v :: v in Answers(chunks) ==> exists k :: 0 <= k < |chunks| && AnswerKey in chunks[k] && chunks[k][AnswerKey] == v
  {
    if chunks != [] {
      var n := |chunks| - 1;
      var init := chunks[..n];
      AnswersBound(init);
      assert forall k :: 0 <= k < n ==> init[k] == chunks[k];
      if forall k :: 0 <= k < |chunks| ==> AnswerKey in chunks[k] {
        assert forall k :: 0 <= k < |init| ==> AnswerKey in init[k];
      } else if forall k :: 0 <= k < |init| ==> AnswerKey in init[k] {
        assert AnswerKey !in chunks[n];
      }
    }
  }

  /** A chunk without "answer" (for example one carrying only the rephrased
      question or the source documents) yields nothing; one with it yields
      exactly its value. */
  lemma AnswerOfOneChunk<V>(prefix: seq<map<string, V>>, chunk: map<string, V>)
    ensures Answers(prefix + [chunk]) ==
      Answers(prefix) + if AnswerKey in chunk then [chunk[AnswerKey]] else []
  {
    assert (prefix + [chunk])[..|prefix|] == prefix;
  }

  /** When every chunk carries "answer", whatever other keys it has, the
      fragments are those answers, one per chunk and in chunk order. With
      `StreamResponse`, a chain that raises after some such chunks leaves the
      consumer with exactly their answers, and then the failure. */
  lemma {:induction false} AllAnswersInOrder<V>(chunks: seq<map<string, V>>)
    requires forall k :: 0 <= k < |chunks| ==> AnswerKey in chunks[k]
    ensures Answers(chunks) == seq(|chunks|, k requires 0 <= k < |chunks| => chunks[k][AnswerKey])
  {
    if chunks != [] {
      var n := |chunks| - 1;
      AllAnswersInOrder(chunks[..n]);
    }
  }
}
