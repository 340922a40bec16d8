# Question answering over one document, modelled in Dafny

This project models the question-answering pipeline of `qa_model.py`. A
question about one document's text is answered in one of two ways:

- **Summary path**: summarize the document's first two chunks, then make one
  final call that merges the partial summaries.
- **Retrieval path**: send the question with the two chunks most relevant to
  it to a chat-completions endpoint, then merge the answers.

Five parts are modelled:

- `sequences.dfy` (module `Sequences`): shared sequence helpers. These are
  index ranges and permutations, reordering by an index sequence, mapping,
  dropping empty strings, Python's `sep.join`, and substring search.
- `chunker.dfy` (module `Chunker`): `split_text_into_chunks`. It slides a
  window of `maxTokens` tokens across the encoded text, moving `step` tokens
  each turn.
- `ranker.dfy` (module `Ranker`): `find_relevant_chunks`. It computes
  `argsort()[-top_n:][::-1]` over one score per chunk.
- `completion.dfy` (module `Completion`): `ask_groq`. It makes up to
  `max_retries` POSTs and uses a doubling backoff on HTTP 429.
- `pipeline.dfy` (module `Pipeline`): `ask_question_groq`,
  `summarize_document` and `summarize_final`. These cover keyword routing,
  the two-worker fan-out, filtering out empty answers and the one
  refinement call.

External services become parameters:

- The tokenizer is a pair `encode`/`decode`.
- The embedding similarity is an integer function `relevance(question, chunk)`.
- The HTTP endpoint is `respond(request, attempt)`, which gives the outcome of
  POST number `attempt`.
- The completion client, as the pipeline sees it, is a function
  `ask: Call -> string`. `Pipeline.GroqClient` plugs `ask_groq` in as that
  function.
- `time.sleep` is not called. Its delays are recorded in a list.
- The pipeline logs every completion call in a `Run` value. This lets the
  proofs state how many calls are made and what each call carries.

The thread pool has two workers. Its results are read in completion order.
The model turns this into sequential calls made in a given order of the
submitted tasks. At most two tasks are ever submitted, so one boolean
`swapped` covers every order. `Pipeline.CompletionOrderCoversAll` proves
this.

Facts about the code that the model keeps:

- Ties between equal scores are left open. numpy's default `argsort`
  (quicksort) is not stable, so which of several equal-scoring chunks are
  sent is not fixed. The retrieval path therefore takes the argsort routine
  as a parameter `argsort`, required to return an argsort of every score
  sequence (`Ranker.SortsEvery`). Every statement about the retrieval path
  holds whatever tie-break that routine uses. `Ranker.ArgSort`, an insertion
  sort, shows that such a routine exists.
- Zero non-empty answers also lead to a refinement call, as do two. Only
  exactly one answer is returned without one (qa_model.py:95-98).
- A document of 2851 to 3000 tokens gives two chunks. The step is
  `int(3000 * 0.95) = 2850`, so the loop starts a second window at token
  2850 even though the first window already holds the whole text. The
  second chunk repeats the tail. `Pipeline.ShortDocumentTwoChunks` proves
  this.
- The question is lowered before the keyword test. Only the letters A to Z
  are lowered. Python's wider Unicode lowering cannot add or remove a match
  of these ASCII keywords.

## Model

| member | source | states |
|---|---|---|
| `Chunker.SplitTextIntoChunks` | qa_model.py:29-42 | The loop's chunks are exactly the decoded windows of the encoded text, in document order. |
| `Chunker.WindowCount` | qa_model.py:35-41 | No tokens give no chunks, and the reverse holds too. Otherwise the last window starts inside the tokens and one more step would leave them. There are ceil(len(tokens) / step) chunks. |
| `Chunker.WindowAt` | qa_model.py:37-41 | Chunk k is `tokens[k*step .. min(k*step + maxTokens, len(tokens))]`. It is never longer than maxTokens, and never empty when maxTokens > 0. |
| `Chunker.StartIsProduct` | qa_model.py:35-41 | After k turns the loop index is k * step. |
| `Chunker.Coverage` | qa_model.py:34-41 | When step <= maxTokens, token j lies in chunk j / step at offset j % step. Every token is covered. |
| `Chunker.Overlap` | qa_model.py:34-38 | Chunk k without its first `step` tokens is a prefix of chunk k + 1. That shared part has maxTokens - step tokens unless chunk k was clipped at the end. |
| `Chunker.ClippedWindowRepeats` | qa_model.py:37-41 | Once a window reaches the end of the tokens, the next window is that window without its first `step` tokens. |
| `Ranker.FindRelevantChunks` | qa_model.py:20-26 | Returns min(top_n, len(chunks)) chunks, or all of them when top_n = 0. |
| `Ranker.TopIndicesAt` | qa_model.py:25 | `[-top_n:][::-1]` lists the last kept argsort entries from the highest position down. |
| `Ranker.TopSelection` | qa_model.py:24-26 | The result has min(top_n, len(chunks)) entries, taken at distinct valid indices, in non-increasing score order. |
| `Ranker.TopIsMaximal` | qa_model.py:25 | No chunk left out scores higher than any chunk returned. |
| `Ranker.AllChunksWhenTopNCoversThem` | qa_model.py:25 | With top_n = 0 or top_n >= len(chunks), every chunk is returned exactly once. |
| `Ranker.InsertKeepsSorted` | qa_model.py:25 | Inserting an index in front of the first entry that scores strictly higher keeps the order sorted by score. |
| `Ranker.ArgSortPrefix` | qa_model.py:25 | Insertion sort of the indices 0 to n - 1 gives each index once, ordered by non-decreasing score. |
| `Ranker.ArgSort` | qa_model.py:25 | Every score sequence has an argsort: each index once, with scores non-decreasing. |
| `Completion.Payload` | qa_model.py:49-55 | The request carries the model name, the system message, and the user message `Context: <context>\nQuestion: <question>`. |
| `Completion.Strip` | qa_model.py:69 | The stripped reply is empty, or it starts and ends with a non-whitespace character. |
| `Completion.SkipSpacesOnlySpaces` | qa_model.py:69 | `strip()` drops only leading whitespace, where whitespace means Python's `str.isspace`, and stops at the first character that is not whitespace. |
| `Completion.BackOverSpacesOnlySpaces` | qa_model.py:69 | `strip()` drops only trailing whitespace and stops at the last character that is not whitespace. |
| `Completion.StripIsCore` | qa_model.py:69 | The stripped reply is the piece `s[i:e]` of the reply. Everything before i and from e on is whitespace. When the piece is not empty, it starts and ends with a non-whitespace character. |
| `Completion.StripKeepsCore` | qa_model.py:69 | Text that is empty, or that starts and ends with a non-whitespace character, is not changed by stripping. |
| `Completion.StripIdempotent` | qa_model.py:69 | Stripping twice gives the same result as stripping once. |
| `Completion.ReplyTextShape` | qa_model.py:67-72 | A request error gives `"API request error: "` followed by the description. Missing fields give `""`. Otherwise the answer is the piece `t[i:e]` of the content t, with only whitespace before i and from e on, and it neither starts nor ends with whitespace. |
| `Completion.Attempts` | qa_model.py:58-74 | One exchange never records more waits than POSTs. Which POSTs are followed by a wait is stated by `Schedule`, `FirstDecisiveOutcome` and `WaitsMeanRateLimited`. |
| `Completion.AskGroq` | qa_model.py:44-74 | The retry loop's answer, POST count and recorded waits are those of the attempt-by-attempt specification `Attempts`. |
| `Completion.RetryStep` | qa_model.py:61-65 | A 429 records the current delay, doubles it and moves on to the next attempt. |
| `Completion.Schedule` | qa_model.py:57-65 | At most max_retries POSTs are made, and at least one when max_retries > 0. There are as many waits as POSTs, or one fewer. Wait k is initial_delay * 2^k. `FirstDecisiveOutcome` and `WaitsMeanRateLimited` show the POST without a wait is a last one that was not a 429. |
| `Completion.AllRateLimited` | qa_model.py:58-74 | If every POST is a 429, or max_retries = 0, all max_retries POSTs and waits happen and the answer is the exhaustion message. |
| `Completion.FirstDecisiveOutcome` | qa_model.py:58-72 | If POST j is the first that is not a 429, exactly j + 1 POSTs and j waits happen, and the answer is that outcome's reply. An error is not retried. |
| `Completion.WaitsMeanRateLimited` | qa_model.py:61-74 | As many waits as POSTs means every POST was a 429 and the answer is the exhaustion message. |
| `Pipeline.Lower` | qa_model.py:81 | Lowering keeps the length and lowers each character. |
| `Pipeline.Classify` | qa_model.py:81 | A question takes the summary path exactly when its lowered form contains "summarize" or "summary". The third keyword contains "summary", so it adds no case. |
| `Pipeline.ClassifyIgnoresCase` | qa_model.py:81 | Lowering the question first does not change the route. |
| `Pipeline.Requests` | qa_model.py:89 | One task per chunk, each with the same question and its own chunk. |
| `Pipeline.CompletionOrderIsPermutation` | qa_model.py:88-93 | Each modelled completion order runs every submitted task exactly once. |
| `Pipeline.CompletionOrderCoversAll` | qa_model.py:88-93 | For at most two tasks, every completion order is one of the two modelled ones. |
| `Pipeline.CollectAnswers` | qa_model.py:87-93 | One call per chunk is made in completion order, and exactly the non-empty answers are kept in that order. |
| `Pipeline.CollectStep` | qa_model.py:90-93 | A finished task logs its call and keeps its answer only if the answer is not empty. |
| `Pipeline.FanOutIsOrderFree` | qa_model.py:88-93 | Whatever the completion order, the same calls are made and the same answers are kept. Only their order differs. |
| `Pipeline.SummarizeFinal` | qa_model.py:118-128 | Exactly one call is made, with "Summarize and refine:", and its answer is the result. |
| `Pipeline.RefinePromptCarries` | qa_model.py:120-128 | The refinement context contains the answers joined by a blank line, and the question. |
| `Pipeline.Aggregate` | qa_model.py:95-98 | One answer is returned verbatim with no further call. Zero or several answers lead to exactly one refinement call, whose answer is the result. |
| `Pipeline.AggregateCarriesJoin` | qa_model.py:95-128 | When there is not exactly one answer, none included, the refinement context contains the `"\n\n"`-join of the answers and the question. |
| `Pipeline.AggregateCarriesAnswers` | qa_model.py:95-128 | With several answers, the refinement context contains each answer. |
| `Pipeline.SummarizeDocument` | qa_model.py:100-116 | The summary loop matches `SummarizeDocumentSpec`. It makes one call per chunk of the first two, then the final call on all the parts. |
| `Pipeline.SummaryPath` | qa_model.py:100-116 | Exactly min(2, len(chunks)) "Summarize this text:" calls are made, one per leading chunk. Then exactly one "Generate final summary:" call follows. Its context is the summary prompt around the `"\n\n"`-join of the answers to those calls, in completion order and with empty ones kept. Each part occurs in it, and its answer is the result. |
| `Pipeline.AnswerFromChunks` | qa_model.py:84-98 | For any argsort routine, the retrieval branch matches `RetrieveSpec`: fan out over the chunks that routine ranks highest, then aggregate the non-empty answers. |
| `Pipeline.AskQuestion` | qa_model.py:76-98 | The document is chunked with 3000-token windows every 2850 tokens. A summary request follows the summary path and any other question the retrieval path, whatever the argsort's tie-break. |
| `Pipeline.RetrievePath` | qa_model.py:84-98 | The question goes with min(2, len(chunks)) chunks, one call each. A single non-empty answer is the result with no more calls. Otherwise exactly one refinement call follows. |
| `Pipeline.RetrieveCalls` | qa_model.py:87-98 | The retrieval calls are the fan-out calls followed by those of the aggregation. |
| `Pipeline.RelevantCount` | qa_model.py:85 | min(2, len(chunks)) chunks are sent, each one of the document's. |
| `Pipeline.GroqClientDefaults` | qa_model.py:44-74 | Each completion call of the pipeline is one `ask_groq` exchange with max_retries = 5 and initial_delay = 2: one to five POSTs, waits of 2 * 2^k seconds, and the exchange's answer. |
| `Pipeline.EveryCallGivesUp` | qa_model.py:58-74 | If the endpoint rate-limits every POST, every completion call answers with the exhaustion message. |
| `Pipeline.RateLimitedSummary` | qa_model.py:100-116 | If every POST is rate limited, the summary path answers with the exhaustion message. |
| `Pipeline.RateLimitedRetrieval` | qa_model.py:76-98 | If every POST is rate limited, the retrieval path answers with the exhaustion message. |
| `Pipeline.ShortDocument` | qa_model.py:76-98 | On the retrieval path (a question that is not a summary request), a document of 1 to 2850 tokens gives one chunk, the whole text, and one call. A non-empty answer to that call is the final answer verbatim. |
| `Pipeline.ShortDocumentTwoChunks` | qa_model.py:34-42 | A document of 2851 to 3000 tokens gives two chunks: the whole text, then its tokens from 2850 on. |
| `Sequences.NonEmpty` | qa_model.py:92-93 | The result is no longer than the input. Each kept string is non-empty and one of the answers, and every non-empty answer is kept. |
| `Sequences.NonEmptyAppend` | qa_model.py:90-93 | One more arriving answer appends it to the kept answers when it is not empty, and leaves them unchanged otherwise. So the kept answers are in arrival order. |
| `Sequences.NonEmptyCount` | qa_model.py:92-93 | Each non-empty answer is kept as many times as it arrives, and the empty answer never. |
| `Sequences.NonEmptyMultiset` | qa_model.py:90-93 | Which answers are kept does not depend on the order they arrive in. |
| `Sequences.JoinAppend` | qa_model.py:108 | Joining two non-empty runs of parts is joining each and putting one separator between them. |
| `Sequences.JoinLength` | qa_model.py:120 | The joined text holds all the characters of all the parts, empty ones included, plus one separator between each two neighbours. |
| `Sequences.JoinContainsParts` | qa_model.py:108 | Every part occurs in the joined text. |

## Left out

- Tokenizer: `tiktoken`'s `cl100k_base` encode and decode are the parameters `encode` and `decode`. Chunks are stated over the token sequence.
- Embeddings: the SentenceTransformer embeddings and numpy's float dot products are replaced by a given integer score per chunk.
- Overlap arithmetic: the float `int(max_tokens * (1 - overlap_ratio))` is replaced by the integer `step`. The pipeline uses the value it computes for the defaults, 2850. The model requires step >= 1. In the source, any max_tokens and overlap_ratio that make `int(max_tokens * (1 - overlap_ratio))` zero, such as max_tokens = 1 with the default ratio (`int(0.95) = 0`), leave `i` at 0. The loop at qa_model.py:37-41 then never ends on a non-empty text. That non-terminating case is not modelled.
- HTTP: `requests.post`, the JSON parsing and the bearer header are replaced by `respond(request, attempt)`, which returns an `Outcome`.
- Endpoint behaviour: the endpoint's outcome depends only on the request and the attempt number. Real endpoint behaviour that changes over time is not modelled.
- Python exceptions: an empty `choices` list raises `IndexError` and a `null` content raises `AttributeError`. Neither is caught by the source or modelled here.
- Backoff timing: `time.sleep` and the rate-limit `print` are not performed. The waits are recorded in a list instead.
- Concurrency: the `ThreadPoolExecutor` with two workers is modelled as sequential calls in a given completion order. Timing, blocking and thread interleaving are not modelled.
- Pipeline.Lower: only A to Z are lowered, not Python's full Unicode case mapping. As argued above, the keyword test does not depend on the difference.
- Empty document on the retrieval path: with no chunks, `find_relevant_chunks` (qa_model.py:22-24) embeds an empty list, and numpy's dot product of that with the question's embedding most likely raises a `ValueError`, which nothing catches. The model does not raise. It sends no chunk and makes the one refinement call on zero answers.
- API key check: the import-time check for the API key is not modelled.
- Not part of this model: the Streamlit UI (`app.py`), the MongoDB store (`backend.py`) and the PDF/DOCX/OCR extraction (`extract_text.py`).
