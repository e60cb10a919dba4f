# Verified model of the AI-agent-for-bank- chat core

This repository is a retrieval-augmented chat service for a bank. The
deterministic logic between its remote calls is modelled in Dafny, and its
promises are proved:

- **`ChatUseCase.build_prompt`** builds the prompt sent to Gemini. It is the
  fixed Vietnamese system message, then a "Ngữ cảnh:" block with one
  "Nguồn / Nội dung" entry per retrieved chunk, then the question line.
- **`ChatUseCase.process_message`** runs the RAG pipeline: embed the query,
  search the vector database with top_k = 3, build the prompt, generate.
  - An empty query is answered with a fixed message and calls nothing.
  - Any failure in the pipeline becomes a fixed apology.
- **`GeminiService.stream_response`** replays the request's chat history into
  a fresh conversation memory, keeping only 'user' and 'ai' turns. It then
  yields the "answer" value of every chunk the retrieval chain streams.
- **`scripts/chunk_data.py`**:
  - `load_documents` fills a dictionary with the readable ".txt" files of a
    directory.
  - `chunk_documents` turns every non-blank document into records
    `{text, source, id}`. The id is the file name up to its first '.', then
    `_chunk_`, then the piece number.
- **`scripts/ingest_data.py`** seeds the FAISS index with the text of the
  first split document alone, so its metadata is dropped. It then adds the
  remaining documents, metadata included, in slices of 20 and announces
  each batch.

Files:

| file | contents |
|---|---|
| `wrappers.dfy` | `Option` |
| `py_text.dfy` | Python `str` operations the code relies on: `isspace`, `strip`, `endswith`, `split('.')[0]`, `str(int)` |
| `schemas.dfy` | the request schema's history turn (`ChatMessage`) |
| `chat_use_case.dfy` | prompt composition and the message pipeline |
| `gemini_service.dfy` | the chat memory as a class, history replay, answer filtering |
| `chunk_data.dfy` | document loading, chunk records and their ids |
| `ingest_data.dfy` | the vector store as a class, the batch schedule |

Remote services are parameters of the model, never implementations:

- The embedding, vector-search and generation services are functions that
  return `None` when the call raises.
- The retrieval chain is a function from the question and the memory to the
  chunks it streams.
- The text splitter is a function from a text to its pieces.
- A directory is its listing, with each file's text, or `None` for a file
  that cannot be read.

Loops in the source are methods with loop invariants. Each is proved equal
to a recursive specification function, and the properties are lemmas about
those functions:

- `BuildPrompt` against `Prompt`.
- `LoadMemory` against `Replayed`.
- `StreamResponse` against `Answers`.
- `LoadDocuments` against `Loaded`.
- `ChunkDocuments` against `Records`.
- `Ingest` against `Batches`/`Reports`.

The model follows the code as written, including three behaviours a reader
may not expect:

- The empty-query guard tests for the empty string only. A query of spaces
  goes on to the embedding service.
- History turns with a role other than 'user' or 'ai' are dropped silently.
- The chunk ids, which a source comment calls unique, can collide. Two files
  that share a name up to the first '.' collide when each is non-blank and
  the splitter gives each at least one piece (`RecordIdsCollide`,
  `ChunkIdsCollideAcrossVersions`). Ids are unique when no two files share
  that prefix (`RecordIdsUnique`).

## Model

| member | source | states |
|---|---|---|
| PyText.StripLeadingShape | AI-agent-for-bank-/scripts/chunk_data.py:71 | stripping leading whitespace leaves a suffix that does not start with whitespace, and drops only whitespace |
| PyText.StripTrailingShape | AI-agent-for-bank-/scripts/chunk_data.py:71 | stripping trailing whitespace leaves a prefix that does not end with whitespace, and drops only whitespace |
| PyText.StripEmptyIffBlank | AI-agent-for-bank-/scripts/chunk_data.py:71 | `text.strip()` is empty exactly when every character of the text is Python whitespace |
| PyText.BeforeFirstDot | AI-agent-for-bank-/scripts/chunk_data.py:82 | `split('.')[0]` is the prefix of the name that holds no '.' and stops at the first '.' or at the end |
| PyText.DecimalString | AI-agent-for-bank-/scripts/chunk_data.py:82 | the rendering of the piece number is a non-empty string of decimal digits, with two or more digits exactly from 10 on, and no leading zero unless the number is 0 |
| PyText.ParseDecimalOfDecimalString | AI-agent-for-bank-/scripts/chunk_data.py:82 | reading the rendered piece number back gives the number |
| PyText.DecimalStringInjective | AI-agent-for-bank-/scripts/chunk_data.py:82 | two piece numbers render equally exactly when they are equal |
| ChatUseCase.BuildPrompt | AI-agent-for-bank-/app/use_cases/chat_use_case.py:31-50 | the loop that accumulates the context text yields exactly `Prompt(query, chunks)`: system message, context section, question line |
| ChatUseCase.PromptStartsWithSystemMessage | AI-agent-for-bank-/app/use_cases/chat_use_case.py:33-49 | every prompt begins with the fixed system message, copied verbatim |
| ChatUseCase.PromptWithoutContext | AI-agent-for-bank-/app/use_cases/chat_use_case.py:41-49 | with no chunk the prompt is the system message, "Câu hỏi của khách hàng: ", the query and "\nTrả lời:", with nothing between them |
| ChatUseCase.JoinedAppend | AI-agent-for-bank-/app/use_cases/chat_use_case.py:44-46 | rendering two chunk lists in a row gives the rendering of the first followed by that of the second, so each loop iteration appends exactly one entry |
| ChatUseCase.EntryPlacement | AI-agent-for-bank-/app/use_cases/chat_use_case.py:43-47 | with chunks, the context starts with the "Ngữ cảnh:" header right after the system message; the entry of chunk k sits at its offset, directly after the entry of chunk k-1, so none is dropped or reordered; after the last entry comes "\n" and the question line |
| ChatUseCase.ChunkTextQuotedBeforeQuestion | AI-agent-for-bank-/app/use_cases/chat_use_case.py:44-49 | the text of every retrieved chunk appears verbatim in the prompt, before the question line |
| ChatUseCase.MissingKeysRendering | AI-agent-for-bank-/app/use_cases/chat_use_case.py:45-46 | a chunk without "source" renders exactly like one whose source is "Unknown"; a chunk without "text" renders exactly like one whose text is empty |
| ChatUseCase.PromptEndsWithQuestion | AI-agent-for-bank-/app/use_cases/chat_use_case.py:49 | every prompt ends with "Câu hỏi của khách hàng: " + query + "\nTrả lời:", so the question follows all context |
| ChatUseCase.ProcessMessage | AI-agent-for-bank-/app/use_cases/chat_use_case.py:52-78 | no service is called exactly when the query is empty, and then the reply is "Xin vui lòng nhập câu hỏi của bạn."; otherwise the first call embeds the query, and at most three calls are made |
| ChatUseCase.WhitespaceQueryNotCaught | AI-agent-for-bank-/app/use_cases/chat_use_case.py:56-57 | a query of spaces passes the guard and is sent to the embedding service |
| ChatUseCase.ProcessMessageSucceeds | AI-agent-for-bank-/app/use_cases/chat_use_case.py:59-73 | when every call returns, the reply is the generated text for the prompt built from the query and the top 3 chunks found for its embedding; embed, search and generate are called once each, in that order |
| ChatUseCase.ProcessMessageFailsWithApology | AI-agent-for-bank-/app/use_cases/chat_use_case.py:59-78 | a failing embed, search or generate call yields the fixed apology, never a partial result, and no later service is called |
| ChatUseCase.ProcessMessageReplyOrigin | AI-agent-for-bank-/app/use_cases/chat_use_case.py:52-78 | every reply is the empty-query message, the apology, or exactly what generation returned for the prompt it was sent |
| GeminiService.ChatMessageHistory.constructor | AI-agent-for-bank-/app/services/gemini_service.py:21-24 | a new memory holds no message |
| GeminiService.ChatMessageHistory.AddUserMessage | AI-agent-for-bank-/app/services/gemini_service.py:30 | appends one user message with the given content and changes nothing else |
| GeminiService.ChatMessageHistory.AddAiMessage | AI-agent-for-bank-/app/services/gemini_service.py:32 | appends one AI message with the given content and changes nothing else |
| GeminiService.LoadMemory | AI-agent-for-bank-/app/services/gemini_service.py:21-32 | the memory is freshly created on each call (nothing carries over) and holds `Replayed(history)` after the loop |
| GeminiService.ReplayedIsSubsequence | AI-agent-for-bank-/app/services/gemini_service.py:27-32 | the memory is exactly the subsequence of 'user' and 'ai' turns, in their order: message j mirrors the turn at the j-th kept position, with content unchanged, 'user' as a user message and 'ai' as an AI message; a turn is kept exactly when its role is 'user' or 'ai' |
| GeminiService.ReplayedLength | AI-agent-for-bank-/app/services/gemini_service.py:27-32 | the memory is no longer than the history, and as long exactly when every turn is 'user' or 'ai' |
| GeminiService.OtherRolesDropped | AI-agent-for-bank-/app/services/gemini_service.py:29-32 | a turn with any other role (for example 'assistant') leaves the memory unchanged |
| GeminiService.ReplayedAppend | AI-agent-for-bank-/app/services/gemini_service.py:27-32 | replaying two histories in a row gives the two memories in a row |
| GeminiService.StreamResponse | AI-agent-for-bank-/app/services/gemini_service.py:17-44 | the stream yields exactly `Answers` of what the chain streams for the question and the replayed memory, and ends by raising exactly when the chain does |
| GeminiService.AnswersBound | AI-agent-for-bank-/app/services/gemini_service.py:41-44 | at most one fragment per chunk, exactly one per chunk when every chunk has "answer", and every fragment is the "answer" of some chunk |
| GeminiService.AnswerOfOneChunk | AI-agent-for-bank-/app/services/gemini_service.py:43-44 | a chunk without "answer" yields nothing; one with it yields exactly its value, after the earlier fragments |
| GeminiService.AnswersAppend | AI-agent-for-bank-/app/services/gemini_service.py:41-44 | filtering two chunk streams in a row gives the two fragment streams in a row |
| GeminiService.AllAnswersInOrder | AI-agent-for-bank-/app/services/gemini_service.py:41-44 | when every chunk carries "answer", whatever other keys it has, fragment k is the "answer" of chunk k, for every k |
| ChunkData.DictSetKeys | AI-agent-for-bank-/scripts/chunk_data.py:45 | `documents[filename] = text` makes the keys the old ones plus `filename`, and every item under another key is an old item |
| ChunkData.DictSetDistinct | AI-agent-for-bank-/scripts/chunk_data.py:45 | with distinct keys, `documents[filename] = text` keeps them distinct and the item under `filename` holds `text` |
| ChunkData.LoadDocuments | AI-agent-for-bank-/scripts/chunk_data.py:29-49 | the loop yields `Loaded(directory)`: a missing directory gives an empty dictionary; a path that cannot be listed raises out of the function; otherwise keys are distinct and every key ends with ".txt" |
| ChunkData.LoadedKeys | AI-agent-for-bank-/scripts/chunk_data.py:40-48 | the keys are exactly the names ending in ".txt" whose file could be read, and each stored text is that file's text |
| ChunkData.LoadedInListingOrder | AI-agent-for-bank-/scripts/chunk_data.py:40-48 | since a directory lists each name once, the dictionary holds the readable ".txt" files in listing order, and unreadable ones are skipped |
| ChunkData.ChunkDocuments | AI-agent-for-bank-/scripts/chunk_data.py:51-86 | the nested loops yield exactly `Records(documents, split)` |
| ChunkData.BlankDocumentSkipped | AI-agent-for-bank-/scripts/chunk_data.py:71-73 | a document that is empty or only whitespace contributes no record, wherever it stands |
| ChunkData.DocumentBlock | AI-agent-for-bank-/scripts/chunk_data.py:71-83 | a non-blank document gives one record per splitter piece, in splitter order, with text = piece, source = file name unchanged and id = `ChunkId(source, i)` numbered from 0 |
| ChunkData.RecordCount | AI-agent-for-bank-/scripts/chunk_data.py:70-86 | the record count is the sum of the piece counts of the non-blank documents |
| ChunkData.RecordPlacement | AI-agent-for-bank-/scripts/chunk_data.py:70-86 | the records of one document form one contiguous block, right after those of the documents before it |
| ChunkData.RecordsSplit | AI-agent-for-bank-/scripts/chunk_data.py:70-86 | records of a dictionary are the records of any prefix of its items followed by those of the rest |
| ChunkData.RecordsAppend | AI-agent-for-bank-/scripts/chunk_data.py:70-86 | records of two item lists in a row are their records in a row |
| ChunkData.ChunkIdsEqual | AI-agent-for-bank-/scripts/chunk_data.py:82 | two ids are equal exactly when the sources agree up to their first '.' and the piece numbers are equal |
| ChunkData.ChunkIdsDiffer | AI-agent-for-bank-/scripts/chunk_data.py:82 | different prefixes or different piece numbers give different ids |
| ChunkData.ChunkIdsCollideAcrossVersions | AI-agent-for-bank-/scripts/chunk_data.py:82 | the distinct files "a.v1.txt" and "a.v2.txt" both give the id "a_chunk_0", despite the "unique" comment |
| ChunkData.Origin | AI-agent-for-bank-/scripts/chunk_data.py:78-82 | every record's id is `ChunkId` of the source of some document and a piece number |
| ChunkData.BlockIdsDistinct | AI-agent-for-bank-/scripts/chunk_data.py:78-82 | ids within one source are distinct |
| ChunkData.IdsDistinctAcrossDocuments | AI-agent-for-bank-/scripts/chunk_data.py:70-82 | a document whose prefix differs from that of every earlier one shares no id with their records |
| ChunkData.RecordIdsUnique | AI-agent-for-bank-/scripts/chunk_data.py:70-86 | when no two files agree up to their first '.', all record ids are distinct |
| ChunkData.RecordIdsCollide | AI-agent-for-bank-/scripts/chunk_data.py:70-86 | two files that agree up to their first '.' and are each non-blank with at least one piece give two records with the same id |
| IngestData.VectorStore.FromFirst | AI-agent-for-bank-/scripts/ingest_data.py:40-44 | the index is created holding the one seed entry |
| IngestData.VectorStore.AddDocuments | AI-agent-for-bank-/scripts/ingest_data.py:51 | the batch is added after the documents already held, in order |
| IngestData.Ingest | AI-agent-for-bank-/scripts/ingest_data.py:40-53 | an empty list fails at `docs[0]` before any batch; otherwise the new index holds the text of `docs[0]` with empty metadata, then every later document unchanged, each once and in order; the batches and reports are `Batches(docs, 1)` and `Reports(docs, 1)` |
| IngestData.BatchesPartition | AI-agent-for-bank-/scripts/ingest_data.py:47-49 | the slices `docs[i:i+20]` for i = 1, 21, 41, ... concatenate to `docs[1:]`: in order, no overlap, no gap |
| IngestData.BatchShape | AI-agent-for-bank-/scripts/ingest_data.py:47-49 | batch k is the slice starting at 1 + 20k; every batch has 1 to 20 documents, and all but the last have exactly 20 |
| IngestData.BatchCount | AI-agent-for-bank-/scripts/ingest_data.py:48 | there are ceil((len(docs) - 1) / 20) batches |
| IngestData.ReportsNumbered | AI-agent-for-bank-/scripts/ingest_data.py:48-50 | one report per batch; the reported numbers `i // 20 + 1` run 1, 2, 3, ... and each report gives the size of its batch |

## Left out

- Async/await, the one-second pause between batches, and all console
  printing. They change no value the model describes. The printed batch line
  is kept as data (`BatchReport`).
- The Gemini chat and embedding calls, FAISS search, load and save, the
  retrieval chain and the text splitter. Their internals belong to external
  libraries and services, so they are parameters. Nothing is assumed about
  piece sizes or overlap, so the chunk size and overlap settings are not
  modelled.
- The embedding service, `search_similar` and `generate_content` are not part
  of this model. Each is a call that returns a value or raises.
- `Ingest`: only the documents the index holds are modelled. The embedding of
  each batch and a failure of `add_documents` mid-way are left out, and so is
  `index.save_local`.
- Loading and splitting in `ingest_data.py` (the directory loader with
  `**/*.txt` and `split_documents`) are not modelled. The split documents are
  the input.
- `LoadDocuments`: the order of `os.listdir` is whatever the listing gives.
  Why a path cannot be listed is not modelled; such a path is `Unlistable`. A
  file that is not UTF-8 or cannot be opened is a `None` entry, not a decode
  step.
- `save_chunks` and the script entry points that wire load, chunk and save
  together are I/O.
- The `ChatUseCase` constructor (service construction and the dimension
  warning) and `close_services` only wire and close clients.
- `GeminiService` construction (model name, temperature) is configuration.
- The HTTP endpoints, FastAPI routing, configuration loading, the
  vector-database singleton and the kiosk and web front ends are framework,
  I/O and UI code.
- `ChatRequest` and `ChatResponse` in the schemas are not modelled as
  records. `StreamResponse` takes the request's question and history as two
  parameters, and nothing in the modelled code uses `ChatResponse`.
