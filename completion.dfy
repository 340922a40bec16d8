/**
 The completion client of qa_model.py (`ask_groq`): one question and one
 context go to the chat-completions endpoint, with up to maxRetries POSTs.
 A 429 reply waits `delay` seconds, doubles the delay and tries again; any
 other failure returns at once as an error string; a success returns the
 reply's message content with surrounding whitespace stripped.

 The endpoint is the parameter `respond`: what the POST numbered `attempt`
 (from 0) of a request comes back with. The waits are recorded, not slept.
 */
module Completion {

  datatype Option<T> = None | Some(value: T)

  /** What one POST to the endpoint comes back with. */
  datatype Outcome =
    | RateLimited
      // HTTP status 429
    | RequestError(description: string)
      // a transport failure, a status that raise_for_status rejects, or a body that is not JSON
    | Completed(content: Option<string>)
      // choices[0].message.content, None when one of those fields is missing

  /** The JSON body the client posts: model name, system message and user message. */
  datatype ChatRequest = ChatRequest(model: string, system: string, user: string)

  const ModelName := "mixtral-8x7b-32768"
  const SystemMessage := "You are an AI assistant answering questions based on provided context."
  const ErrorPrefix := "API request error: "
  const ExhaustedMessage := "Failed after multiple retries due to rate limiting."
  /** The defaults of ask_groq, which every caller in the pipeline uses. */
  const MaxRetries: nat := 5
  const InitialDelay: nat := 2

  /** The request for a question and its context; the user message is "Context: <context>\nQuestion: <question>". */
  function Payload(question: string, context: string): (r: ChatRequest)
    ensures r.model == ModelName && r.system == SystemMessage
    ensures |r.user| == 9 + |context| + 11 + |question|
    ensures r.user[..9] == "Context: " && r.user[9..9 + |context|] == context
    ensures r.user[9 + |context|..9 + |context| + 11] == "\nQuestion: " && r.user[9 + |context| + 11..] == question
  {
    ChatRequest(ModelName, SystemMessage, "Context: " + context + "\nQuestion: " + question)
  }

  /**
   The characters for which Python's str.isspace holds, as inclusive ranges:
   tab to carriage return, U+001C to space, U+0085, no-break space, U+1680,
   U+2000 to U+200A, the line and paragraph separators, U+202F, U+205F and
   U+3000.
   */
  const SpaceRanges: seq<(char, char)> := [
    ('\t', '\r'), ('\U{1C}', ' '), ('\U{85}', '\U{85}'), ('\U{A0}', '\U{A0}'),
    ('\U{1680}', '\U{1680}'), ('\U{2000}', '\U{200A}'), ('\U{2028}', '\U{2029}'),
    ('\U{202F}', '\U{202F}'), ('\U{205F}', '\U{205F}'), ('\U{3000}', '\U{3000}')
  ]

  /** c lies in one of the ranges. */
  predicate InRanges(c: char, ranges: seq<(char, char)>)
  {
    ranges != [] && (ranges[0].0 <= c <= ranges[0].1 || InRanges(c, ranges[1..]))
  }

  /** Python's str.isspace on one character. */
  predicate IsSpace(c: char)
  {
    InRanges(c, SpaceRanges)
  }

  /** Where the text after the leading whitespace of s[i..] starts. */
  function SkipSpaces(s: string, i: nat): (j: nat)
    requires i <= |s|
    ensures i <= j <= |s|
    ensures j < |s| ==> !IsSpace(s[j])
    decreases |s| - i
  {
    if i < |s| && IsSpace(s[i]) then SkipSpaces(s, i + 1) else i
  }

  /** SkipSpaces passes over whitespace only. */
  lemma {:induction false} SkipSpacesOnlySpaces(s: string, i: nat)
    requires i <= |s|
    ensures forall k :: i <= k < SkipSpaces(s, i) ==> IsSpace(s[k])
    decreases |s| - i
  {
    if i < |s| && IsSpace(s[i]) {
      SkipSpacesOnlySpaces(s, i + 1);
    }
  }

  /** Where the trailing whitespace of s[lo..j] starts. */
  function BackOverSpaces(s: string, lo: nat, j: nat): (e: nat)
    requires lo <= j <= |s|
    ensures lo <= e <= j
    ensures lo < e ==> !IsSpace(s[e - 1])
    decreases j
  {
    if lo < j && IsSpace(s[j - 1]) then BackOverSpaces(s, lo, j - 1) else j
  }

  /** BackOverSpaces passes over whitespace only. */
  lemma {:induction false} BackOverSpacesOnlySpaces(s: string, lo: nat, j: nat)
    requires lo <= j <= |s|
    ensures forall k :: BackOverSpaces(s, lo, j) <= k < j ==> IsSpace(s[k])
    decreases j
  {
    if lo < j && IsSpace(s[j - 1]) {
      BackOverSpacesOnlySpaces(s, lo, j - 1);
    }
  }

  /** Python's str.strip() with no argument. */
  function Strip(s: string): (r: string)
    ensures r == [] || (!IsSpace(r[0]) && !IsSpace(r[|r| - 1]))
  {
    var i := SkipSpaces(s, 0);
    s[i..BackOverSpaces(s, i, |s|)]
  }

  /**
   Strip cuts s down to the piece s[i..e] that is empty or starts and ends
   with a non-whitespace character, and has only whitespace before and
   after it in s.
   */
  lemma StripIsCore(s: string)
    ensures var i := SkipSpaces(s, 0); var e := BackOverSpaces(s, i, |s|);
      && Strip(s) == s[i..e]
      && (i < e ==> !IsSpace(s[i]) && !IsSpace(s[e - 1]))
      && (forall k :: 0 <= k < i ==> IsSpace(s[k]))
      && (forall k :: e <= k < |s| ==> IsSpace(s[k]))
  {
    var i := SkipSpaces(s, 0);
    SkipSpacesOnlySpaces(s, 0);
    BackOverSpacesOnlySpaces(s, i, |s|);
  }

  /** Text that is empty or starts and ends with a non-whitespace character is left as it is. */
  lemma StripKeepsCore(r: string)
    requires r == [] || (!IsSpace(r[0]) && !IsSpace(r[|r| - 1]))
    ensures Strip(r) == r
  {
    assert SkipSpaces(r, 0) == 0;
    assert BackOverSpaces(r, 0, |r|) == |r|;
  }

  lemma StripIdempotent(s: string)
    ensures Strip(Strip(s)) == Strip(s)
  {
    StripIsCore(s);
    StripKeepsCore(Strip(s));
  }

  /** The answer a non-429 outcome turns into. */
  function ReplyText(o: Outcome): (r: string)
    requires !o.RateLimited?
  {
    match o
    case RequestError(e) => ErrorPrefix + e
    case Completed(None) => []
    case Completed(Some(text)) => Strip(text)
  }

  /**
   What each outcome that ends the call answers with: an error description
   behind the "API request error: " prefix; for a reply, its stripped
   content, which neither starts nor ends with whitespace, or "" when a
   field is missing. The stripped content is the piece t[i..e] of the
   reply t with only whitespace before and after it.
   */
  lemma ReplyTextShape(o: Outcome)
    requires !o.RateLimited?
    ensures o.RequestError? ==> ErrorPrefix <= ReplyText(o) && ReplyText(o)[|ErrorPrefix|..] == o.description
    ensures o.Completed? ==> ReplyText(o) == [] || (!IsSpace(ReplyText(o)[0]) && !IsSpace(ReplyText(o)[|ReplyText(o)| - 1]))
    ensures o.Completed? && o.content.Some? ==>
      var t := o.content.value; var i := SkipSpaces(t, 0); var e := BackOverSpaces(t, i, |t|);
      && ReplyText(o) == t[i..e]
      && (forall k :: 0 <= k < i ==> IsSpace(t[k]))
      && (forall k :: e <= k < |t| ==> IsSpace(t[k]))
    ensures o == Completed(None) ==> ReplyText(o) == []
  {
    if o.Completed? && o.content.Some? {
      StripIsCore(o.content.value);
    }
  }

  function Pow2(k: nat): (r: nat)
    ensures 1 <= r
  {
    if k == 0 then 1 else 2 * Pow2(k - 1)
  }

  /** The answer, the number of POSTs and the waits of one call. */
  datatype Exchange = Exchange(answer: string, posts: nat, waits: seq<nat>)

  /** The exchange from POST number `attempt` on, when the current delay is `delay`. */
  function Attempts(respond: (ChatRequest, nat) -> Outcome, request: ChatRequest,
                    attempt: nat, maxRetries: nat, delay: nat): (r: Exchange)
    ensures |r.waits| <= r.posts
    decreases maxRetries - attempt
  {
    if maxRetries <= attempt then Exchange(ExhaustedMessage, 0, [])
    else
      var outcome := respond(request, attempt);
      if outcome.RateLimited? then
        var rest := Attempts(respond, request, attempt + 1, maxRetries, delay * 2);
        Exchange(rest.answer, rest.posts + 1, [delay] + rest.waits)
      else Exchange(ReplyText(outcome), 1, [])
  }

  /**
   ask_groq: POST, and on 429 record the wait, double the delay and retry;
   stop at the first other outcome; after maxRetries 429s give up.
   */
  method AskGroq(question: string, context: string, respond: (ChatRequest, nat) -> Outcome,
                 maxRetries: nat, initialDelay: nat)
    returns (answer: string, posts: nat, waits: seq<nat>)
    ensures Exchange(answer, posts, waits)
         == Attempts(respond, Payload(question, context), 0, maxRetries, initialDelay)
  {
    var request := Payload(question, context);
    var delay := initialDelay;
    posts, waits := 0, [];
    for attempt := 0 to maxRetries
      invariant posts == attempt
      invariant var rest := Attempts(respond, request, attempt, maxRetries, delay);
        Attempts(respond, request, 0, maxRetries, initialDelay)
          == Exchange(rest.answer, posts + rest.posts, waits + rest.waits)
    {
      var outcome := respond(request, attempt);
      posts := posts + 1;
      if outcome.RateLimited? {
        RetryStep(respond, request, attempt, maxRetries, delay, waits);
        waits := waits + [delay];
        delay := delay * 2;
        continue;
      }
      answer := ReplyText(outcome);
      return;
    }
    answer := ExhaustedMessage;
  }

  /** A 429 at POST number `attempt`: its wait is recorded and the rest of the exchange follows with twice the delay. */
  lemma RetryStep(respond: (ChatRequest, nat) -> Outcome, request: ChatRequest,
                  attempt: nat, maxRetries: nat, delay: nat, waits: seq<nat>)
    requires attempt < maxRetries && respond(request, attempt).RateLimited?
    ensures var e, rest := Attempts(respond, request, attempt, maxRetries, delay),
                           Attempts(respond, request, attempt + 1, maxRetries, delay * 2);
      && e.answer == rest.answer && e.posts == rest.posts + 1
      && waits + e.waits == (waits + [delay]) + rest.waits
  {
    var rest := Attempts(respond, request, attempt + 1, maxRetries, delay * 2);
    assert waits + ([delay] + rest.waits) == (waits + [delay]) + rest.waits;
  }

  /** The answer of ask_groq(question, context) with its default retry settings. */
  function DefaultAnswer(respond: (ChatRequest, nat) -> Outcome, question: string, context: string): string
  {
    Attempts(respond, Payload(question, context), 0, MaxRetries, InitialDelay).answer
  }

  /**
   At most maxRetries POSTs, at least one when maxRetries > 0; a wait follows
   every POST except a last one that was not rate limited; the k-th wait is
   delay * 2^k.
   */
  lemma {:induction false} Schedule(respond: (ChatRequest, nat) -> Outcome, request: ChatRequest,
                                    attempt: nat, maxRetries: nat, delay: nat)
    requires attempt <= maxRetries
    ensures var e := Attempts(respond, request, attempt, maxRetries, delay);
      && e.posts <= maxRetries - attempt
      && (attempt < maxRetries ==> 1 <= e.posts)
      && (|e.waits| == e.posts || |e.waits| + 1 == e.posts)
      && forall k :: 0 <= k < |e.waits| ==> e.waits[k] == delay * Pow2(k)
    decreases maxRetries - attempt
  {
    if attempt < maxRetries && respond(request, attempt).RateLimited? {
      Schedule(respond, request, attempt + 1, maxRetries, delay * 2);
      var e := Attempts(respond, request, attempt, maxRetries, delay);
      var rest := Attempts(respond, request, attempt + 1, maxRetries, delay * 2);
      assert e.waits[0] == delay * Pow2(0);
      forall k | 0 < k < |e.waits| ensures e.waits[k] == delay * Pow2(k) {
        assert e.waits[k] == rest.waits[k - 1] == delay * 2 * Pow2(k - 1);
        assert delay * 2 * Pow2(k - 1) == delay * (2 * Pow2(k - 1));
      }
    }
  }

  /** When every remaining POST is rate limited, every one of them is made and waited after, and the call gives up. */
  lemma {:induction false} AllRateLimited(respond: (ChatRequest, nat) -> Outcome, request: ChatRequest,
                                          attempt: nat, maxRetries: nat, delay: nat)
    requires attempt <= maxRetries
    requires forall k :: attempt <= k < maxRetries ==> respond(request, k).RateLimited?
    ensures var e := Attempts(respond, request, attempt, maxRetries, delay);
      e.answer == ExhaustedMessage && e.posts == |e.waits| == maxRetries - attempt
    decreases maxRetries - attempt
  {
    if attempt < maxRetries {
      AllRateLimited(respond, request, attempt + 1, maxRetries, delay * 2);
    }
  }

  /**
   When POST number j is the first one that is not rate limited, the call
   makes exactly j + 1 POSTs, waits j times and answers with that outcome:
   an error returns at once, with no retry.
   */
  lemma {:induction false} FirstDecisiveOutcome(respond: (ChatRequest, nat) -> Outcome, request: ChatRequest,
                                                attempt: nat, maxRetries: nat, delay: nat, j: nat)
    requires attempt <= j < maxRetries && !respond(request, j).RateLimited?
    requires forall k :: attempt <= k < j ==> respond(request, k).RateLimited?
    ensures var e := Attempts(respond, request, attempt, maxRetries, delay);
      e.answer == ReplyText(respond(request, j)) && e.posts == j - attempt + 1 && |e.waits| == j - attempt
    decreases j - attempt
  {
    if attempt < j {
      FirstDecisiveOutcome(respond, request, attempt + 1, maxRetries, delay * 2, j);
      RetryStep(respond, request, attempt, maxRetries, delay, []);
    }
  }

  /** Waits are recorded only for rate-limited POSTs: as many waits as POSTs means every POST was rate limited. */
  lemma {:induction false} WaitsMeanRateLimited(respond: (ChatRequest, nat) -> Outcome, request: ChatRequest,
                                                attempt: nat, maxRetries: nat, delay: nat)
    requires var e := Attempts(respond, request, attempt, maxRetries, delay); |e.waits| == e.posts
    ensures forall k :: attempt <= k < maxRetries ==> respond(request, k).RateLimited?
    ensures Attempts(respond, request, attempt, maxRetries, delay).answer == ExhaustedMessage
    decreases maxRetries - attempt
  {
    if attempt < maxRetries {
      assert respond(request, attempt).RateLimited?;
      WaitsMeanRateLimited(respond, request, attempt + 1, maxRetries, delay * 2);
    }
  }
}
