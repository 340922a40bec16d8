/**
 The question-answering pipeline of qa_model.py: `ask_question_groq`,
 `summarize_document` and `summarize_final`.

 A question either asks for a summary (a keyword test on the lowercased
 question) or is answered from the chunks most relevant to it. The
 completion client is the parameter `ask`, one answer per call; every call
 is logged so that the number and content of calls can be stated. The two
 worker threads of the source become calls made in completion order: a
 permutation of the submitted tasks.
 */
module Pipeline {
  import opened Sequences
  import Chunker
  import Ranker
  import Completion

  /** One call to the completion client: a question or instruction, and a context. */
  datatype Call = Call(question: string, context: string)

  /** A final answer and the completion calls made for it, in the order they completed. */
  datatype Run = Run(answer: string, calls: seq<Call>)

  datatype Intent = Summarize | Retrieve

  const MaxTokens: nat := 3000
  /** int(3000 * (1 - 0.05)): the floating-point product rounds to exactly 2850.0. */
  const Step: nat := 2850
  const TopN: nat := 2
  const Separator := "\n\n"
  const SummarizeInstruction := "Summarize this text:"
  const FinalSummaryInstruction := "Generate final summary:"
  const RefineInstruction := "Summarize and refine:"
  const Keywords := ["summarize", "summary", "give me a summary"]

  function LowerChar(c: char): char
  {
    if 'A' <= c <= 'Z' then (c as int - 'A' as int + 'a' as int) as char else c
  }

  /** str.lower() on the letters A to Z. */
  function Lower(s: string): (r: string)
    ensures |r| == |s| && forall k :: 0 <= k < |s| ==> r[k] == LowerChar(s[k])
  {
    if s == [] then [] else [LowerChar(s[0])] + Lower(s[1..])
  }

  /**
   `any(kw in question.lower() for kw in Keywords)` decides the intent. The
   third keyword contains the second, so only "summarize" and "summary"
   matter.
   */
  function Classify(question: string): (r: Intent)
    ensures r == Summarize <==> Contains(Lower(question), "summarize") || Contains(Lower(question), "summary")
  {
    var lowered := Lower(question);
    assert Contains(lowered, "give me a summary") ==> Contains(lowered, "summary") by {
      assert "give me a summary"[10..17] == "summary";
      ContainsAt("give me a summary", "summary", 10);
      if Contains(lowered, "give me a summary") {
        ContainsTransitive(lowered, "give me a summary", "summary");
      }
    }
    if exists kw | kw in Keywords :: Contains(lowered, kw) then Summarize else Retrieve
  }

  /** The test ignores the case of A to Z: lowering the question first changes nothing. */
  lemma ClassifyIgnoresCase(question: string)
    ensures Classify(Lower(question)) == Classify(question)
  {
    assert Lower(Lower(question)) == Lower(question);
  }

  /** The tasks one per context, each with the same question or instruction. */
  function Requests(question: string, contexts: seq<string>): (r: seq<Call>)
    ensures |r| == |contexts|
    ensures forall k :: 0 <= k < |r| ==> r[k] == Call(question, contexts[k])
  {
    if contexts == [] then [] else [Call(question, contexts[0])] + Requests(question, contexts[1..])
  }

  /** The order in which at most two tasks complete: in submission order or, if swapped, the second first. */
  function CompletionOrder(n: nat, swapped: bool): seq<nat>
  {
    if swapped && n == 2 then [1, 0] else Range(n)
  }

  lemma CompletionOrderIsPermutation(n: nat, swapped: bool)
    ensures IsPermutation(CompletionOrder(n, swapped), n)
  {
    if swapped && n == 2 {
      assert Range(2) == [0, 1];
      var swappedOrder: seq<nat> := [1, 0];
      assert multiset(swappedOrder) == multiset(Range(2));
    }
  }

  /** For two tasks or fewer, CompletionOrder gives every possible completion order. */
  lemma CompletionOrderCoversAll(order: seq<nat>, n: nat)
    requires n <= 2 && IsPermutation(order, n)
    ensures order == CompletionOrder(n, false) || order == CompletionOrder(n, true)
  {
    PermutationEntries(order, n);
    if n == 2 {
      assert Range(2) == [0, 1];
    } else if n == 1 {
      assert Range(1) == [0];
    }
  }

  /**
   The retrieval fan-out of ask_question_groq: one call per chunk, the
   answers read in completion order and kept only when not empty.
   */
  method CollectAnswers(question: string, chunks: seq<string>, ask: Call -> string, order: seq<nat>)
    returns (answers: seq<string>, calls: seq<Call>)
    requires IsPermutation(order, |chunks|)
    ensures calls == Permute(Requests(question, chunks), order)
    ensures answers == NonEmpty(Map(ask, calls))
  {
    ghost var requests := Requests(question, chunks);
    answers, calls := [], [];
    for i := 0 to |order|
      invariant AllBelow(order[..i], |requests|)
      invariant calls == Permute(requests, order[..i])
      invariant answers == NonEmpty(Map(ask, calls))
    {
      var call := Call(question, chunks[order[i]]);
      var answer := ask(call);
      CollectStep(requests, ask, order, i);
      calls := calls + [call];
      if answer != [] {
        answers := answers + [answer];
      }
    }
    assert order[..|order|] == order;
  }

  /** One more completed task: its call is logged, and its answer kept when not empty. */
  lemma CollectStep(requests: seq<Call>, ask: Call -> string, order: seq<nat>, i: nat)
    requires AllBelow(order, |requests|) && i < |order|
    ensures AllBelow(order[..i + 1], |requests|)
    ensures var before, after, call := Permute(requests, order[..i]), Permute(requests, order[..i + 1]), requests[order[i]];
      && after == before + [call]
      && NonEmpty(Map(ask, after)) == NonEmpty(Map(ask, before)) + (if ask(call) != [] then [ask(call)] else [])
  {
    PermuteSnoc(requests, order, i);
    var before := Permute(requests, order[..i]);
    var call := requests[order[i]];
    assert Map(ask, before + [call]) == Map(ask, before) + [ask(call)];
    NonEmptyAppend(Map(ask, before), ask(call));
  }

  /**
   Whatever order the tasks complete in, exactly one call is made per chunk,
   and the same answers are collected: only the order of `answers` varies.
   */
  lemma FanOutIsOrderFree(question: string, chunks: seq<string>, ask: Call -> string, order: seq<nat>)
    requires IsPermutation(order, |chunks|)
    ensures var calls := Permute(Requests(question, chunks), order);
      && |calls| == |chunks|
      && multiset(calls) == multiset(Requests(question, chunks))
      && multiset(NonEmpty(Map(ask, calls))) == multiset(NonEmpty(Map(ask, Requests(question, chunks))))
  {
    var requests := Requests(question, chunks);
    PermutationPreservesMultiset(requests, order);
    MapPermute(ask, requests, order);
    PermutationPreservesMultiset(Map(ask, requests), order);
    NonEmptyMultiset(Map(ask, Permute(requests, order)), Map(ask, requests));
  }

  const RefineHead := "\n    Here are multiple answers related to the question:\n\n    "
  const RefineMiddle := "\n\n    Please refine and generate a clear, well-structured response for: "
  const PromptEnd := "\n    "

  function RefinePrompt(question: string, combined: string): string
  {
    RefineHead + combined + RefineMiddle + question + PromptEnd
  }

  const SummaryHead := "\n    Here are multiple partial summaries:\n\n    "
  const SummaryTail := "\n\n    Please refine and generate a clear, well-structured summary of the document.\n    "

  function SummaryPrompt(combined: string): string
  {
    SummaryHead + combined + SummaryTail
  }

  /**
   summarize_final: one call with the refinement instruction and a prompt
   built from the question and the answers; its answer is the result.
   */
  function SummarizeFinal(question: string, answers: seq<string>, ask: Call -> string): (r: Run)
    ensures |r.calls| == 1 && r.calls[0].question == RefineInstruction && r.answer == ask(r.calls[0])
  {
    var call := Call(RefineInstruction, RefinePrompt(question, Join(Separator, answers)));
    Run(ask(call), [call])
  }

  /** The refinement prompt holds the answers joined by a blank line, and the question. */
  lemma RefinePromptCarries(question: string, answers: seq<string>, ask: Call -> string)
    ensures Contains(SummarizeFinal(question, answers, ask).calls[0].context, Join(Separator, answers))
    ensures Contains(SummarizeFinal(question, answers, ask).calls[0].context, question)
  {
    var head, middle := RefineHead, RefineMiddle;
    var combined := Join(Separator, answers);
    ContainsInfix(head, combined, middle + question + "\n    ");
    assert RefinePrompt(question, combined) == head + combined + (middle + question + "\n    ");
    ContainsInfix(head + combined + middle, question, "\n    ");
  }

  /**
   Lines 95-98 of ask_question_groq: a single answer is the result as it
   is, with no further call; otherwise (none, or several) one refinement call
   makes it.
   */
  function Aggregate(question: string, answers: seq<string>, ask: Call -> string): (r: Run)
    ensures |answers| == 1 ==> r == Run(answers[0], [])
    ensures |answers| != 1 ==> |r.calls| == 1 && r.calls[0].question == RefineInstruction
                               && r.answer == ask(r.calls[0])
  {
    if |answers| == 1 then Run(answers[0], []) else SummarizeFinal(question, answers, ask)
  }

  /**
   The refinement call's context holds all the aggregated answers joined by
   a blank line, however many there are (none included), and the question.
   */
  lemma AggregateCarriesJoin(question: string, answers: seq<string>, ask: Call -> string)
    requires |answers| != 1
    ensures Contains(Aggregate(question, answers, ask).calls[0].context, Join(Separator, answers))
    ensures Contains(Aggregate(question, answers, ask).calls[0].context, question)
  {
    RefinePromptCarries(question, answers, ask);
  }

  /** With several answers, the refinement call's context holds each one of them. */
  lemma AggregateCarriesAnswers(question: string, answers: seq<string>, ask: Call -> string, k: nat)
    requires |answers| != 1 && k < |answers|
    ensures Contains(Aggregate(question, answers, ask).calls[0].context, answers[k])
  {
    var context := SummarizeFinal(question, answers, ask).calls[0].context;
    RefinePromptCarries(question, answers, ask);
    JoinContainsParts(Separator, answers, k);
    ContainsTransitive(context, Join(Separator, answers), answers[k]);
  }

  /** `chunks[:2]`. */
  function FirstTwo(chunks: seq<string>): seq<string>
  {
    chunks[..Min(2, |chunks|)]
  }

  /** What summarize_document does, for a given completion order of its two tasks. */
  function SummarizeDocumentSpec(chunks: seq<string>, ask: Call -> string, order: seq<nat>): Run
    requires IsPermutation(order, |FirstTwo(chunks)|)
  {
    var partCalls := Permute(Requests(SummarizeInstruction, FirstTwo(chunks)), order);
    var final := Call(FinalSummaryInstruction, SummaryPrompt(Join(Separator, Map(ask, partCalls))));
    Run(ask(final), partCalls + [final])
  }

  /**
   summarize_document: summarize each of the first two chunks, keep every
   partial summary (empty ones too) in completion order, then make one final
   call on them all.
   */
  method SummarizeDocument(chunks: seq<string>, ask: Call -> string, order: seq<nat>) returns (r: Run)
    requires IsPermutation(order, |FirstTwo(chunks)|)
    ensures r == SummarizeDocumentSpec(chunks, ask, order)
  {
    var firstTwo := FirstTwo(chunks);
    ghost var requests := Requests(SummarizeInstruction, firstTwo);
    var parts: seq<string> := [];
    var calls: seq<Call> := [];
    for i := 0 to |order|
      invariant AllBelow(order[..i], |requests|)
      invariant calls == Permute(requests, order[..i])
      invariant parts == Map(ask, calls)
    {
      var call := Call(SummarizeInstruction, firstTwo[order[i]]);
      PermuteSnoc(requests, order, i);
      assert Map(ask, calls + [call]) == Map(ask, calls) + [ask(call)];
      parts := parts + [ask(call)];
      calls := calls + [call];
    }
    assert order[..|order|] == order;
    var final := Call(FinalSummaryInstruction, SummaryPrompt(Join(Separator, parts)));
    r := Run(ask(final), calls + [final]);
  }

  /**
   The summary path makes one call per chunk among the first two, each with
   "Summarize this text:" on a different one of them, and then exactly one
   "Generate final summary:" call whose context is the summary prompt around
   the partial summaries joined by a blank line, in completion order and
   empty ones included; the final call's answer is the result.
   */
  lemma SummaryPath(chunks: seq<string>, ask: Call -> string, order: seq<nat>)
    requires IsPermutation(order, |FirstTwo(chunks)|)
    ensures var r, n := SummarizeDocumentSpec(chunks, ask, order), Min(2, |chunks|);
      && |r.calls| == n + 1
      && multiset(r.calls[..n]) == multiset(Requests(SummarizeInstruction, chunks[..n]))
      && r.calls[n].question == FinalSummaryInstruction
      && r.calls[n].context == SummaryPrompt(Join(Separator, Map(ask, r.calls[..n])))
      && r.answer == ask(r.calls[n])
      && (forall k :: 0 <= k < n ==> Contains(r.calls[n].context, ask(r.calls[k])))
  {
    var r, n := SummarizeDocumentSpec(chunks, ask, order), Min(2, |chunks|);
    var requests := Requests(SummarizeInstruction, FirstTwo(chunks));
    var partCalls := Permute(requests, order);
    PermutationEntries(order, n);
    PermutationPreservesMultiset(requests, order);
    assert r.calls[..n] == partCalls;
    var parts := Map(ask, partCalls);
    ContainsInfix(SummaryHead, Join(Separator, parts), SummaryTail);
    forall k | 0 <= k < n ensures Contains(r.calls[n].context, ask(r.calls[k])) {
      JoinContainsParts(Separator, parts, k);
      ContainsTransitive(r.calls[n].context, Join(Separator, parts), parts[k]);
    }
  }

  /** What the summary path of ask_question_groq does, for a given completion order. */
  function SummarySpec(chunks: seq<string>, ask: Call -> string, swapped: bool): Run
  {
    CompletionOrderIsPermutation(|FirstTwo(chunks)|, swapped);
    SummarizeDocumentSpec(chunks, ask, CompletionOrder(|FirstTwo(chunks)|, swapped))
  }

  /** The relevance score of each chunk against the question. */
  function Scores(question: string, chunks: seq<string>, relevance: (string, string) -> int): seq<int>
  {
    Map((chunk: string) => relevance(question, chunk), chunks)
  }

  /** The chunks sent to the completion client on the retrieval path. */
  function Relevant(question: string, chunks: seq<string>, relevance: (string, string) -> int,
                    argsort: seq<int> -> seq<nat>): seq<string>
    requires Ranker.SortsEvery(argsort)
  {
    var scores := Scores(question, chunks, relevance);
    Ranker.FindRelevantChunks(chunks, scores, argsort(scores), TopN)
  }

  /** The calls of the retrieval fan-out, in completion order. */
  function FanOut(question: string, relevant: seq<string>, swapped: bool): seq<Call>
  {
    CompletionOrderIsPermutation(|relevant|, swapped);
    Permute(Requests(question, relevant), CompletionOrder(|relevant|, swapped))
  }

  /** What the retrieval path of ask_question_groq does, for a given completion order. */
  function RetrieveSpec(question: string, chunks: seq<string>, relevance: (string, string) -> int,
                        argsort: seq<int> -> seq<nat>, ask: Call -> string, swapped: bool): Run
    requires Ranker.SortsEvery(argsort)
  {
    var calls := FanOut(question, Relevant(question, chunks, relevance, argsort), swapped);
    var final := Aggregate(question, NonEmpty(Map(ask, calls)), ask);
    Run(final.answer, calls + final.calls)
  }

  /** The chunks of a document: the decoded windows of its tokens. */
  function Chunks<T>(text: string, encode: string -> seq<T>, decode: seq<T> -> string): seq<string>
  {
    Map(decode, Chunker.Windows(encode(text), MaxTokens, Step))
  }

  /**
   The retrieval branch of ask_question_groq: the two most relevant chunks,
   one call each, and the non-empty answers aggregated.
   */
  method AnswerFromChunks(question: string, chunks: seq<string>, relevance: (string, string) -> int,
                          argsort: seq<int> -> seq<nat>, ask: Call -> string, swapped: bool)
    returns (r: Run)
    requires Ranker.SortsEvery(argsort)
    ensures r == RetrieveSpec(question, chunks, relevance, argsort, ask, swapped)
  {
    var relevant := Relevant(question, chunks, relevance, argsort);
    CompletionOrderIsPermutation(|relevant|, swapped);
    var answers, calls := CollectAnswers(question, relevant, ask, CompletionOrder(|relevant|, swapped));
    var final := Aggregate(question, answers, ask);
    r := Run(final.answer, calls + final.calls);
  }

  /**
   ask_question_groq: chunk the document, then either summarize it or
   answer from its two most relevant chunks and aggregate the answers.
   */
  method AskQuestion<T>(question: string, fullText: string, encode: string -> seq<T>, decode: seq<T> -> string,
                        relevance: (string, string) -> int, argsort: seq<int> -> seq<nat>,
                        ask: Call -> string, swapped: bool)
    returns (r: Run)
    requires Ranker.SortsEvery(argsort)
    ensures var chunks := Chunks(fullText, encode, decode);
      && (Classify(question) == Summarize ==> r == SummarySpec(chunks, ask, swapped))
      && (Classify(question) == Retrieve ==> r == RetrieveSpec(question, chunks, relevance, argsort, ask, swapped))
  {
    var chunks := Chunker.SplitTextIntoChunks(fullText, MaxTokens, Step, encode, decode);
    if Classify(question) == Summarize {
      var order := CompletionOrder(|FirstTwo(chunks)|, swapped);
      CompletionOrderIsPermutation(|FirstTwo(chunks)|, swapped);
      r := SummarizeDocument(chunks, ask, order);
    } else {
      r := AnswerFromChunks(question, chunks, relevance, argsort, ask, swapped);
    }
  }

  /**
   The retrieval path sends the question with min(2, |chunks|) chunks, one
   call each, and keeps the non-empty answers; a single one is the result,
   with no more calls, and otherwise exactly one refinement call follows.
   */
  lemma RetrievePath(question: string, chunks: seq<string>, relevance: (string, string) -> int,
                     argsort: seq<int> -> seq<nat>, ask: Call -> string, swapped: bool)
    requires Ranker.SortsEvery(argsort)
    ensures var r, n := RetrieveSpec(question, chunks, relevance, argsort, ask, swapped), Min(2, |chunks|);
      var relevant := Relevant(question, chunks, relevance, argsort);
      var answers := NonEmpty(Map(ask, r.calls[..n]));
      && |relevant| == n && n <= |r.calls|
      && multiset(r.calls[..n]) == multiset(Requests(question, relevant))
      && (|answers| == 1 ==> r.answer == answers[0] && |r.calls| == n)
      && (|answers| != 1 ==> |r.calls| == n + 1 && r.calls[n].question == RefineInstruction
                             && r.answer == ask(r.calls[n]))
  {
    var relevant := Relevant(question, chunks, relevance, argsort);
    RelevantCount(question, chunks, relevance, argsort);
    var n := |relevant|;
    CompletionOrderIsPermutation(n, swapped);
    FanOutIsOrderFree(question, relevant, ask, CompletionOrder(n, swapped));
    RetrieveCalls(question, chunks, relevance, argsort, ask, swapped);
  }

  /** The calls of the retrieval path: the fan-out, then those of the aggregation. */
  lemma RetrieveCalls(question: string, chunks: seq<string>, relevance: (string, string) -> int,
                      argsort: seq<int> -> seq<nat>, ask: Call -> string, swapped: bool)
    requires Ranker.SortsEvery(argsort)
    ensures var calls := FanOut(question, Relevant(question, chunks, relevance, argsort), swapped);
      var r, final := RetrieveSpec(question, chunks, relevance, argsort, ask, swapped), Aggregate(question, NonEmpty(Map(ask, calls)), ask);
      && r == Run(final.answer, calls + final.calls)
      && |calls| <= |r.calls| && r.calls[..|calls|] == calls
  {
    var calls := FanOut(question, Relevant(question, chunks, relevance, argsort), swapped);
    var final := Aggregate(question, NonEmpty(Map(ask, calls)), ask);
    assert (calls + final.calls)[..|calls|] == calls;
  }

  /** The retrieval path keeps min(2, |chunks|) chunks, each one of the document's. */
  lemma RelevantCount(question: string, chunks: seq<string>, relevance: (string, string) -> int,
                      argsort: seq<int> -> seq<nat>)
    requires Ranker.SortsEvery(argsort)
    ensures var relevant := Relevant(question, chunks, relevance, argsort);
      |relevant| == Min(2, |chunks|) && forall k :: 0 <= k < |relevant| ==> relevant[k] in chunks
  {
    var scores := Scores(question, chunks, relevance);
    Ranker.TopSelection(chunks, scores, argsort(scores), TopN);
  }

  /** The completion client the pipeline uses: ask_groq with its default settings, on a given endpoint. */
  function GroqClient(respond: (Completion.ChatRequest, nat) -> Completion.Outcome): Call -> string
  {
    (call: Call) => Completion.DefaultAnswer(respond, call.question, call.context)
  }

  /**
   Each call of the pipeline's client is one ask_groq exchange with the
   defaults max_retries = 5 and initial_delay = 2: at most five POSTs, with
   waits of 2, 4, 8, ... seconds in turn, and the exchange's answer.
   */
  lemma GroqClientDefaults(respond: (Completion.ChatRequest, nat) -> Completion.Outcome, call: Call)
    ensures var e := Completion.Attempts(respond, Completion.Payload(call.question, call.context), 0, 5, 2);
      && GroqClient(respond)(call) == e.answer
      && 1 <= e.posts <= 5
      && forall k :: 0 <= k < |e.waits| ==> e.waits[k] == 2 * Completion.Pow2(k)
  {
    Completion.Schedule(respond, Completion.Payload(call.question, call.context), 0, 5, 2);
  }

  /** When the endpoint rate-limits every POST, every call gives up with the retry message. */
  lemma EveryCallGivesUp(respond: (Completion.ChatRequest, nat) -> Completion.Outcome, call: Call)
    requires forall request, k :: respond(request, k).RateLimited?
    ensures GroqClient(respond)(call) == Completion.ExhaustedMessage
  {
    Completion.AllRateLimited(respond, Completion.Payload(call.question, call.context), 0,
                              Completion.MaxRetries, Completion.InitialDelay);
  }

  /** When the endpoint rate-limits every POST, the summary path gives up: the retry message is its answer. */
  lemma RateLimitedSummary(chunks: seq<string>, respond: (Completion.ChatRequest, nat) -> Completion.Outcome,
                           swapped: bool)
    requires forall request, k :: respond(request, k).RateLimited?
    ensures SummarySpec(chunks, GroqClient(respond), swapped).answer == Completion.ExhaustedMessage
  {
    var ask := GroqClient(respond);
    SummaryPath(chunks, ask, CompletionOrder(Min(2, |chunks|), swapped));
    EveryCallGivesUp(respond, SummarySpec(chunks, ask, swapped).calls[Min(2, |chunks|)]);
  }

  /** When the endpoint rate-limits every POST, the retrieval path gives up: the retry message is its answer. */
  lemma RateLimitedRetrieval(question: string, chunks: seq<string>, relevance: (string, string) -> int,
                             argsort: seq<int> -> seq<nat>,
                             respond: (Completion.ChatRequest, nat) -> Completion.Outcome, swapped: bool)
    requires Ranker.SortsEvery(argsort)
    requires forall request, k :: respond(request, k).RateLimited?
    ensures RetrieveSpec(question, chunks, relevance, argsort, GroqClient(respond), swapped).answer
         == Completion.ExhaustedMessage
  {
    var ask := GroqClient(respond);
    var calls := FanOut(question, Relevant(question, chunks, relevance, argsort), swapped);
    var replies := Map(ask, calls);
    var answers := NonEmpty(replies);
    RetrievePath(question, chunks, relevance, argsort, ask, swapped);
    RetrieveCalls(question, chunks, relevance, argsort, ask, swapped);
    if |answers| == 1 {
      var k :| 0 <= k < |replies| && replies[k] == answers[0];
      EveryCallGivesUp(respond, calls[k]);
    } else {
      EveryCallGivesUp(respond, RetrieveSpec(question, chunks, relevance, argsort, ask, swapped).calls[|calls|]);
    }
  }

  /**
   A document no longer than one step, asked a question that is not a
   summary request: one chunk, the whole text; one call; and a non-empty
   answer to it is the final answer, as it is.
   */
  lemma ShortDocument<T>(question: string, fullText: string, encode: string -> seq<T>, decode: seq<T> -> string,
                         relevance: (string, string) -> int, argsort: seq<int> -> seq<nat>,
                         ask: Call -> string, swapped: bool)
    requires Ranker.SortsEvery(argsort)
    requires 0 < |encode(fullText)| <= Step
    requires Classify(question) == Retrieve
    requires ask(Call(question, decode(encode(fullText)))) != []
    ensures var call := Call(question, decode(encode(fullText)));
      RetrieveSpec(question, Chunks(fullText, encode, decode), relevance, argsort, ask, swapped) == Run(ask(call), [call])
  {
    var tokens := encode(fullText);
    Chunker.WindowCount(tokens, MaxTokens, Step);
    var w := Chunker.Windows(tokens, MaxTokens, Step);
    Chunker.StartMonotone(1, |w| - 1, Step);
    Chunker.WindowAt(tokens, MaxTokens, Step, 0);
    assert |w| == 1 && w[0] == tokens[0..|tokens|] == tokens;
    assert w == [tokens];
    var chunks := Chunks(fullText, encode, decode);
    assert chunks == [decode(tokens)];
    var relevant := Relevant(question, chunks, relevance, argsort);
    var scores := Scores(question, chunks, relevance);
    Ranker.TopSelection(chunks, scores, argsort(scores), TopN);
    assert relevant == chunks;
    assert CompletionOrder(1, swapped) == [0];
    var calls := Permute(Requests(question, relevant), [0]);
    assert calls == [Call(question, decode(tokens))];
    assert Map(ask, calls) == [ask(calls[0])];
    assert NonEmpty(Map(ask, calls)) == [ask(calls[0])];
  }

  /**
   A document of more than Step but at most MaxTokens tokens fits in one
   window and still gives two chunks: the whole text, and again its tokens
   from Step on.
   */
  lemma ShortDocumentTwoChunks<T>(fullText: string, encode: string -> seq<T>, decode: seq<T> -> string)
    requires Step < |encode(fullText)| <= MaxTokens
    ensures var tokens := encode(fullText);
      Chunks(fullText, encode, decode) == [decode(tokens), decode(tokens[Step..])]
  {
    var tokens := encode(fullText);
    var w := Chunker.Windows(tokens, MaxTokens, Step);
    Chunker.WindowCount(tokens, MaxTokens, Step);
    assert |w| == 2 by {
      assert Chunker.Start(1, Step) == Step;
      assert Chunker.Start(2, Step) == 2 * Step;
      Chunker.StartMonotone(|w|, 1, Step);
      Chunker.StartMonotone(3, |w|, Step);
      assert Chunker.Start(3, Step) == 3 * Step;
    }
    Chunker.WindowAt(tokens, MaxTokens, Step, 0);
    assert w[0] == tokens;
    Chunker.ClippedWindowRepeats(tokens, MaxTokens, Step, 0);
    assert w == [tokens, tokens[Step..]];
  }
}
