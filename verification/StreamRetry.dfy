/** Streaming a query plan with retries (crates/vlorql/src/retry.rs, `run_stream_with_retry`). */
module StreamRetry {
  import opened Prelude
  import opened Ast
  import opened Channels
  import opened Validation

  // ---- errors and events --------------------------------------------------

  /** Errors, as far as retrying tells them apart. */
  datatype Error =
    | LlmError(details: string)
    | MultipleErrors(errors: seq<Error>)
    | OtherError(details: string, retryable: bool)

  predicate IsRetryable(e: Error) {
    e.LlmError? || (e.OtherError? && e.retryable)
  }

  /** Several validation errors become one, which is not retryable whatever they were. */
  function ValidationErrorsToError(errors: seq<Error>): Error {
    if |errors| == 1 then errors[0] else MultipleErrors(errors)
  }

  datatype StreamEvent =
    | TextChunk(text: string)
    | PlanComplete(plan: QueryPlan)
    | TokenUsage(tokens: nat)
    | ErrorEvent(error: Error)

  type Sent = Result<StreamEvent, Error>

  /** The stages a plan goes through; validation may repair the plan it is given. */
  datatype Checks = Checks(
    leak: string -> Option<string>,
    parse: string -> Result<QueryPlan, string>,
    validate: QueryPlan -> Result<QueryPlan, seq<Error>>,
    compile: QueryPlan -> Result<string, Error>)

  function ProcessAssembledText(buffer: string, checks: Checks): StreamEvent {
    match checks.leak(buffer)
    case Some(details) => ErrorEvent(LlmError(details))
    case None =>
      match checks.parse(buffer)
      case Failure(error) => ErrorEvent(LlmError(error))
      case Success(plan) =>
        match checks.validate(plan)
        case Failure(errors) => ErrorEvent(ValidationErrorsToError(errors))
        case Success(validated) =>
          match checks.compile(validated)
          case Failure(error) => ErrorEvent(error)
          case Success(_) => PlanComplete(plan)
  }

  /** The plan sent is the parsed one; it is its validated form that compiled. */
  lemma PlanCompleteIff(buffer: string, checks: Checks, plan: QueryPlan)
    ensures ProcessAssembledText(buffer, checks) == PlanComplete(plan) <==>
      && checks.leak(buffer).None?
      && checks.parse(buffer) == Success(plan)
      && checks.validate(plan).Success?
      && checks.compile(checks.validate(plan).value).Success?
  {}

  /** No plan is sent exactly when a stage objects; a leak or unreadable text is the model's error. */
  lemma AssembledErrorIff(buffer: string, checks: Checks, e: Error)
    ensures ProcessAssembledText(buffer, checks) == ErrorEvent(e) <==>
      || (exists details :: checks.leak(buffer) == Some(details) && e == LlmError(details))
      || (checks.leak(buffer).None?
          && (|| (exists details :: checks.parse(buffer) == Failure(details) && e == LlmError(details))
              || (exists plan :: checks.parse(buffer) == Success(plan) && Rejects(checks, plan, e))))
    ensures checks.leak(buffer).Some? || checks.parse(buffer).Failure? ==>
      exists f :: ProcessAssembledText(buffer, checks) == ErrorEvent(f) && IsRetryable(f)
  {
    if checks.leak(buffer).Some? {
      assert ProcessAssembledText(buffer, checks) == ErrorEvent(LlmError(checks.leak(buffer).value));
    } else if checks.parse(buffer).Failure? {
      assert ProcessAssembledText(buffer, checks) == ErrorEvent(LlmError(checks.parse(buffer).error));
    } else {
      RejectedIff(checks, checks.parse(buffer).value, e);
    }
  }

  lemma RejectedIff(checks: Checks, plan: QueryPlan, e: Error)
    ensures Rejects(checks, plan, e) <==>
      match checks.validate(plan)
      case Failure(errors) => e == ValidationErrorsToError(errors)
      case Success(validated) => checks.compile(validated) == Failure(e)
  {
    if checks.validate(plan).Failure? {
      var errors := checks.validate(plan).error;
      if |errors| == 1 { assert errors == [errors[0]]; }
    }
  }

  /** The plan fails validation with that error alone, or with several, or its validated form does not compile. */
  ghost predicate Rejects(checks: Checks, plan: QueryPlan, e: Error) {
    || checks.validate(plan) == Failure([e])
    || (e.MultipleErrors? && |e.errors| != 1 && checks.validate(plan) == Failure(e.errors))
    || (checks.validate(plan).Success? && checks.compile(checks.validate(plan).value) == Failure(e))
  }

  /** What is known of a plan that was sent: its validated form compiled, and it may be that form. */
  ghost predicate Vouched(plan: QueryPlan, checks: Checks) {
    && checks.validate(plan).Success?
    && checks.compile(checks.validate(plan).value).Success?
    && (checks.validate(plan) == Success(plan) ==> checks.compile(plan).Success?)
  }

  lemma CarriedPlanIsVouched(buffer: string, checks: Checks, plan: QueryPlan)
    requires ProcessAssembledText(buffer, checks) == PlanComplete(plan)
    ensures Vouched(plan, checks)
  {
    PlanCompleteIff(buffer, checks, plan);
  }

  /**
   With the stages as they are: a plan that the fixes leave alone is sent as it was validated
   and compiled if and only if all its joins are to known tables and no row filter applies. A
   filter that applies is in the validated plan, and in the one sent only if that came with it.
   */
  lemma CarriedPlanThroughStages(buffer: string, checks: Checks, stages: Stages<Error>, plan: QueryPlan)
    requires ProcessAssembledText(buffer, checks) == PlanComplete(plan)
    requires checks.validate == (p => ValidateRepairing(stages, p))
    ensures
      var repaired := Dropped(plan, stages.schema);
      var filter := stages.rowFilter(stages.fix(repaired));
      && (stages.fix(repaired) == repaired ==>
            (checks.validate(plan) == Success(plan) <==>
               AllKnown(plan, stages.schema) && plan.joins != Given([]) && stages.rowFilter(plan).None?))
      && (filter.Some? && !EndsWith(plan.where_, filter.value) ==> checks.validate(plan) != Success(plan))
  {
    hide ValidateRepairing, AllKnown, EndsWith;
    PlanCompleteIff(buffer, checks, plan);
    var repaired := Dropped(plan, stages.schema);
    if stages.fix(repaired) == repaired { ValidatedUnchangedIff(stages, plan); }
    ValidatedEndsWithFilter(stages, plan);
  }

  // ---- one attempt --------------------------------------------------------

  /** What a call of the model gives: an error, or a stream and the usage read after it. */
  datatype Reply = Refused(error: Error) | Streamed(items: seq<Result<string, Error>>, usage: Option<nat>)

  datatype Verdict = Finished(event: StreamEvent) | Broken(error: Error)

  datatype Attempt = Attempt(chunks: seq<string>, verdict: Verdict, usage: Option<nat>)

  function Chunks(items: seq<Result<string, Error>>): (r: seq<string>)
    ensures |r| <= |items|
    ensures forall i :: 0 <= i < |r| ==> items[i] == Success(r[i])
    ensures |r| < |items| ==> items[|r|].Failure?
  {
    if items == [] || items[0].Failure? then [] else [items[0].value] + Chunks(items[1..])
  }

  function Joined(chunks: seq<string>): string {
    if chunks == [] then "" else Joined(chunks[..|chunks| - 1]) + chunks[|chunks| - 1]
  }

  function Try(reply: Reply, checks: Checks): Attempt {
    match reply
    case Refused(error) => Attempt([], Broken(error), None)
    case Streamed(items, usage) =>
      var chunks := Chunks(items);
      if |chunks| < |items| then Attempt(chunks, Broken(items[|chunks|].error), usage)
      else Attempt(chunks, Finished(ProcessAssembledText(Joined(chunks), checks)), usage)
  }

  /** The error another attempt may mend. */
  function RetryableError(a: Attempt): Option<Error> {
    match a.verdict
    case Broken(error) => if IsRetryable(error) then Some(error) else None
    case Finished(event) =>
      if event.ErrorEvent? && IsRetryable(event.error) then Some(event.error) else None
  }

  /** The reply breaks off with this error: the call was refused, or the stream failed before its end. */
  ghost predicate BreaksOff(reply: Reply, e: Error) {
    match reply
    case Refused(error) => e == error
    case Streamed(items, _) =>
      exists i :: 0 <= i < |items| && items[i] == Failure(e) && forall k :: 0 <= k < i ==> items[k].Success?
  }

  predicate IsWhole(reply: Reply) {
    reply.Streamed? && forall i :: 0 <= i < |reply.items| ==> reply.items[i].Success?
  }

  lemma TryIs(reply: Reply, checks: Checks)
    ensures forall e :: Try(reply, checks).verdict == Broken(e) <==> BreaksOff(reply, e)
    ensures forall event :: Try(reply, checks).verdict == Finished(event) <==>
      IsWhole(reply) && event == ProcessAssembledText(Joined(Chunks(reply.items)), checks)
    ensures IsWhole(reply) ==> Try(reply, checks).usage == reply.usage
  {
    hide ProcessAssembledText, Joined;
    if reply.Streamed? {
      var n := |Chunks(reply.items)|;
      forall i | 0 <= i < n ensures reply.items[i].Success? {}
      if n < |reply.items| {
        assert BreaksOff(reply, reply.items[n].error);
        forall e | BreaksOff(reply, e) ensures e == reply.items[n].error {
          var i :| 0 <= i < |reply.items| && reply.items[i] == Failure(e)
            && forall k :: 0 <= k < i ==> reply.items[k].Success?;
          assert i == n;
        }
      }
    }
  }

  /** An attempt is repeated exactly for a retryable error, with which its reply broke off or its whole text ended. */
  lemma RetriedIff(reply: Reply, checks: Checks, e: Error)
    ensures RetryableError(Try(reply, checks)) == Some(e) <==>
      && IsRetryable(e)
      && (BreaksOff(reply, e)
          || (IsWhole(reply) && ProcessAssembledText(Joined(Chunks(reply.items)), checks) == ErrorEvent(e)))
  {
    hide Try, ProcessAssembledText, Joined, IsRetryable, BreaksOff, IsWhole, Chunks;
    TryIs(reply, checks);
    ByVerdict(reply, checks);
  }

  lemma ByVerdict(reply: Reply, checks: Checks)
    ensures match Try(reply, checks).verdict
            case Broken(e) => BreaksOff(reply, e) && !IsWhole(reply)
            case Finished(_) => IsWhole(reply) && forall e :: !BreaksOff(reply, e)
  {
    hide Try, ProcessAssembledText, Joined, BreaksOff, IsWhole, Chunks;
    TryIs(reply, checks);
    WholeIff(reply);
  }

  lemma WholeIff(reply: Reply)
    ensures forall e :: BreaksOff(reply, e) ==> !IsWhole(reply)
  {}

  /** Model errors are worth another attempt; several validation errors together are not. */
  lemma RetryableKinds(details: string, errors: seq<Error>)
    ensures IsRetryable(LlmError(details))
    ensures |errors| != 1 ==> !IsRetryable(ValidationErrorsToError(errors))
  {}

  /** The text is the chunks in order. */
  lemma {:induction false} JoinedOfConcat(a: seq<string>, b: seq<string>)
    ensures Joined(a + b) == Joined(a) + Joined(b)
    ensures forall s :: Joined([s]) == s
  {
    assert forall s: string :: [s][..0] == [];
    if b == [] {
      assert a + b == a;
    } else {
      var n := |b| - 1;
      JoinedOfConcat(a, b[..n]);
      assert (a + b)[..|a| + n] == a + b[..n];
      assert (a + b)[|a| + n] == b[n];
    }
  }

  /** A plan that fails validation is tried again only for a single error, and a retryable one. */
  lemma InvalidPlanIsRetriedIff(reply: Reply, checks: Checks, plan: QueryPlan, errors: seq<Error>)
    requires reply.Streamed? && forall item :: item in reply.items ==> item.Success?
    requires
      var text := Joined(Chunks(reply.items));
      checks.leak(text).None? && checks.parse(text) == Success(plan) && checks.validate(plan) == Failure(errors)
    ensures RetryableError(Try(reply, checks)).Some? <==> |errors| == 1 && IsRetryable(errors[0])
  {
    AllChunksRead(reply.items);
  }

  lemma {:induction false} AllChunksRead(items: seq<Result<string, Error>>)
    requires forall item :: item in items ==> item.Success?
    ensures |Chunks(items)| == |items|
  {
    if items != [] {
      assert items[0] in items;
      AllChunksRead(items[1..]);
    }
  }

  function ChunkEvents(chunks: seq<string>): (r: seq<Sent>)
    ensures |r| == |chunks|
  {
    seq(|chunks|, i requires 0 <= i < |chunks| => Success(TextChunk(chunks[i])))
  }

  /** What the last attempt ends with. */
  function Closing(a: Attempt): seq<Sent> {
    match a.verdict
    case Broken(error) => [Failure(error)]
    case Finished(event) => [Success(event)] + if a.usage.Some? then [Success(TokenUsage(a.usage.value))] else []
  }

  // ---- a whole run --------------------------------------------------------

  /** The model answers its `i`-th call with `replies(i)`, whatever it is asked. */
  type Replies = nat -> Reply

  /** Attempt `n` ends the run: every earlier one failed in a way worth retrying. */
  ghost predicate EndsAt(replies: Replies, checks: Checks, maxRetries: nat, n: nat) {
    && n <= maxRetries
    && (forall i: nat :: i < n ==> RetryableError(Try(replies(i), checks)).Some?)
    && (n < maxRetries ==> RetryableError(Try(replies(n), checks)).None?)
  }

  /** The text of the attempts from `first` until `end`. */
  function AllChunks(replies: Replies, checks: Checks, first: nat, end: nat): seq<string>
    requires first <= end
    decreases end - first
  {
    if first == end then []
    else Try(replies(first), checks).chunks + AllChunks(replies, checks, first + 1, end)
  }

  /** The events of a run that starts at attempt `n`. */
  function Run(replies: Replies, checks: Checks, n: nat, maxRetries: nat): seq<Sent>
    requires n <= maxRetries
    decreases maxRetries - n
  {
    var a := Try(replies(n), checks);
    ChunkEvents(a.chunks) +
    if RetryableError(a).Some? && n < maxRetries then Run(replies, checks, n + 1, maxRetries) else Closing(a)
  }

  lemma {:induction false} RunEndsAt(replies: Replies, checks: Checks, from: nat, maxRetries: nat, n: nat)
    requires EndsAt(replies, checks, maxRetries, n) && from <= n
    ensures Run(replies, checks, from, maxRetries) ==
      ChunkEvents(AllChunks(replies, checks, from, n + 1)) + Closing(Try(replies(n), checks))
    decreases n - from
  {
    hide Try, Closing, RetryableError, Run, ChunkEvents;
    var a := Try(replies(from), checks);
    RunUnfolds(replies, checks, from, maxRetries);
    if from == n {
      OneAttempt(replies, checks, n);
    } else {
      RunEndsAt(replies, checks, from + 1, maxRetries, n);
      var rest := AllChunks(replies, checks, from + 1, n + 1);
      JoinedEvents(a.chunks, rest);
      assert ChunkEvents(a.chunks) + (ChunkEvents(rest) + Closing(Try(replies(n), checks)))
        == ChunkEvents(a.chunks) + ChunkEvents(rest) + Closing(Try(replies(n), checks));
    }
  }

  lemma OneAttempt(replies: Replies, checks: Checks, n: nat)
    ensures AllChunks(replies, checks, n, n + 1) == Try(replies(n), checks).chunks
  {
    hide Try;
    assert AllChunks(replies, checks, n + 1, n + 1) == [];
  }

  lemma JoinedEvents(s: seq<string>, t: seq<string>)
    ensures ChunkEvents(s + t) == ChunkEvents(s) + ChunkEvents(t)
  {}

  lemma {:induction false} SomeEnd(replies: Replies, checks: Checks, from: nat, maxRetries: nat) returns (n: nat)
    requires from <= maxRetries
    requires forall i: nat :: i < from ==> RetryableError(Try(replies(i), checks)).Some?
    ensures EndsAt(replies, checks, maxRetries, n)
    decreases maxRetries - from
  {
    hide Try, RetryableError;
    if from == maxRetries || RetryableError(Try(replies(from), checks)).None? {
      n := from;
    } else {
      n := SomeEnd(replies, checks, from + 1, maxRetries);
    }
  }

  predicate IsTerminal(s: Sent) {
    s.Failure? || s.value.PlanComplete? || s.value.ErrorEvent?
  }

  /** Text, then one terminal event, then possibly usage, but only after a terminal that is no failure. */
  ghost predicate Protocol(events: seq<Sent>, n: nat) {
    && n < |events| <= n + 2
    && (forall i :: 0 <= i < n ==> events[i].Success? && events[i].value.TextChunk?)
    && IsTerminal(events[n])
    && (|events| == n + 2 ==> events[n].Success? && events[n + 1].Success? && events[n + 1].value.TokenUsage?)
  }

  /**
   * Every run follows the protocol, and a complete plan is what the last attempt's own text parses
   * to, with a validated form that compiles.
   */
  lemma RunFollowsProtocol(replies: Replies, checks: Checks, maxRetries: nat) returns (n: nat, terminal: nat)
    ensures EndsAt(replies, checks, maxRetries, n)
    ensures Protocol(Run(replies, checks, 0, maxRetries), terminal)
    ensures
      var last := Run(replies, checks, 0, maxRetries)[terminal];
      last.Success? && last.value.PlanComplete? ==>
        && replies(n).Streamed?
        && (forall item :: item in replies(n).items ==> item.Success?)
        && ProcessAssembledText(Joined(Chunks(replies(n).items)), checks) == last.value
        && checks.parse(Joined(Chunks(replies(n).items))) == Success(last.value.plan)
        && Vouched(last.value.plan, checks)
  {
    hide ProcessAssembledText, Vouched, Run, AllChunks, ChunkEvents, EndsAt, Joined;
    n := SomeEnd(replies, checks, 0, maxRetries);
    RunEndsAt(replies, checks, 0, maxRetries, n);
    var chunks := AllChunks(replies, checks, 0, n + 1);
    terminal := |chunks|;
    EventsAreText(chunks);
    TerminalOf(replies(n), checks);
    ClosingShape(Try(replies(n), checks), ChunkEvents(chunks));
    var v := Try(replies(n), checks).verdict;
    if v.Finished? && v.event.PlanComplete? {
      var text := Joined(Chunks(replies(n).items));
      PlanCompleteIff(text, checks, v.event.plan);
      CarriedPlanIsVouched(text, checks, v.event.plan);
    }
  }

  /**
   The events are the text of all attempts, then how the last one ended, then the usage if that
   reply was whole and told one.
   */
  lemma RunIs(replies: Replies, checks: Checks, maxRetries: nat, n: nat)
    requires EndsAt(replies, checks, maxRetries, n)
    ensures
      var events, text := Run(replies, checks, 0, maxRetries), ChunkEvents(AllChunks(replies, checks, 0, n + 1));
      && text < events
      && (forall e :: events[|text|] == Failure(e) <==> BreaksOff(replies(n), e))
      && (events[|text|].Success? <==> IsWhole(replies(n)))
      && (IsWhole(replies(n)) ==>
            && events[|text|].value == ProcessAssembledText(Joined(Chunks(replies(n).items)), checks)
            && events[|text| + 1..] ==
                 if replies(n).usage.Some? then [Success(TokenUsage(replies(n).usage.value))] else [])
      && (!IsWhole(replies(n)) ==> |events| == |text| + 1)
  {
    hide ProcessAssembledText, Run, AllChunks, ChunkEvents, EndsAt, Joined, Try, BreaksOff, IsWhole, Chunks;
    RunEndsAt(replies, checks, 0, maxRetries, n);
    TryIs(replies(n), checks);
    ByVerdict(replies(n), checks);
  }

  lemma EventsAreText(chunks: seq<string>)
    ensures forall i :: 0 <= i < |chunks| ==> ChunkEvents(chunks)[i] == Success(TextChunk(chunks[i]))
  {}

  lemma TerminalOf(reply: Reply, checks: Checks)
    ensures
      var v := Try(reply, checks).verdict;
      v.Finished? ==>
        && (v.event.PlanComplete? || v.event.ErrorEvent?)
        && reply.Streamed?
        && (forall item :: item in reply.items ==> item.Success?)
        && v.event == ProcessAssembledText(Joined(Chunks(reply.items)), checks)
  {}

  lemma ClosingShape(a: Attempt, text: seq<Sent>)
    requires a.verdict.Finished? ==> a.verdict.event.PlanComplete? || a.verdict.event.ErrorEvent?
    requires forall i :: 0 <= i < |text| ==> text[i].Success? && text[i].value.TextChunk?
    ensures Protocol(text + Closing(a), |text|)
    ensures (text + Closing(a))[|text|] ==
      if a.verdict.Broken? then Failure(a.verdict.error) else Success(a.verdict.event)
  {}

  /** A run completes a plan exactly when some attempt does and every earlier one was worth retrying. */
  lemma RunCompletesIff(replies: Replies, checks: Checks, maxRetries: nat, plan: QueryPlan)
    ensures Success(PlanComplete(plan)) in Run(replies, checks, 0, maxRetries) <==>
      exists n: nat ::
        && EndsAt(replies, checks, maxRetries, n)
        && Try(replies(n), checks).verdict == Finished(PlanComplete(plan))
  {
    hide Try, Run, AllChunks, ChunkEvents, EndsAt, RetryableError;
    var n := SomeEnd(replies, checks, 0, maxRetries);
    ClosesWith(replies, checks, maxRetries, n, plan);
    forall m: nat | EndsAt(replies, checks, maxRetries, m)
      ensures Success(PlanComplete(plan)) in Run(replies, checks, 0, maxRetries) <==>
        Try(replies(m), checks).verdict == Finished(PlanComplete(plan))
    {
      ClosesWith(replies, checks, maxRetries, m, plan);
    }
  }

  lemma ClosesWith(replies: Replies, checks: Checks, maxRetries: nat, n: nat, plan: QueryPlan)
    requires EndsAt(replies, checks, maxRetries, n)
    ensures Success(PlanComplete(plan)) in Run(replies, checks, 0, maxRetries) <==>
      Try(replies(n), checks).verdict == Finished(PlanComplete(plan))
  {
    hide Try, Run, AllChunks, ChunkEvents, EndsAt, RetryableError;
    RunEndsAt(replies, checks, 0, maxRetries, n);
    var chunks := AllChunks(replies, checks, 0, n + 1);
    EventsAreText(chunks);
    var closing := Closing(Try(replies(n), checks));
    assert Success(PlanComplete(plan)) in Run(replies, checks, 0, maxRetries) <==>
      Success(PlanComplete(plan)) in ChunkEvents(chunks) || Success(PlanComplete(plan)) in closing;
    if Try(replies(n), checks).verdict == Finished(PlanComplete(plan)) {
      assert closing[0] == Success(PlanComplete(plan));
    }
  }

  // ---- what the model is asked --------------------------------------------

  /** How a question is put again after an error; the text is left to the caller. */
  type Rephrase = (string, Error, nat) -> string

  function Asked(replies: Replies, checks: Checks, rephrase: Rephrase, question: string, n: nat, maxRetries: nat):
      seq<string>
    requires n <= maxRetries
    decreases maxRetries - n
  {
    var error := RetryableError(Try(replies(n), checks));
    [question] +
    if error.Some? && n < maxRetries
    then Asked(replies, checks, rephrase, rephrase(question, error.value, n), n + 1, maxRetries)
    else []
  }

  /** The question after attempt `n` is the one before it, put again after the error it led to. */
  ghost predicate FollowsUp(
    asked: seq<string>, first: nat, n: nat, replies: Replies, checks: Checks, rephrase: Rephrase)
  {
    && first <= n && n - first + 1 < |asked|
    && RetryableError(Try(replies(n), checks)).Some?
    && asked[n - first + 1] == rephrase(asked[n - first], RetryableError(Try(replies(n), checks)).value, n)
  }

  /** One call per attempt, each question made from the one before and the error it led to. */
  lemma {:induction false} AskedPerAttempt(
    replies: Replies, checks: Checks, rephrase: Rephrase, question: string, first: nat, maxRetries: nat, n: nat)
    requires EndsAt(replies, checks, maxRetries, n) && first <= n
    ensures
      var asked := Asked(replies, checks, rephrase, question, first, maxRetries);
      && |asked| == n - first + 1
      && asked[0] == question
      && forall k: nat :: first <= k < n ==> FollowsUp(asked, first, k, replies, checks, rephrase)
    decreases n - first
  {
    hide Try, RetryableError, Asked;
    AskedUnfolds([], Asked(replies, checks, rephrase, question, first, maxRetries),
      replies, checks, rephrase, question, first, maxRetries);
    if first < n {
      var next := rephrase(question, RetryableError(Try(replies(first), checks)).value, first);
      AskedPerAttempt(replies, checks, rephrase, next, first + 1, maxRetries, n);
      var asked := Asked(replies, checks, rephrase, question, first, maxRetries);
      var rest := Asked(replies, checks, rephrase, next, first + 1, maxRetries);
      assert asked == [question] + rest;
      forall k: nat | first <= k < n
        ensures FollowsUp(asked, first, k, replies, checks, rephrase)
      {
        if k > first { FollowsUpLater(question, rest, first, k, replies, checks, rephrase); }
      }
    }
  }

  lemma FollowsUpLater(
    question: string, rest: seq<string>, first: nat, k: nat, replies: Replies, checks: Checks, rephrase: Rephrase)
    requires FollowsUp(rest, first + 1, k, replies, checks, rephrase)
    ensures FollowsUp([question] + rest, first, k, replies, checks, rephrase)
  {
    hide Try, RetryableError;
    var asked := [question] + rest;
    assert asked[k - first] == rest[k - (first + 1)];
    assert asked[k - first + 1] == rest[k - (first + 1) + 1];
  }

  // ---- the loop -----------------------------------------------------------

  class LlmClient {
    var asked: seq<string>
    const replies: Replies

    constructor (replies: Replies)
      ensures asked == [] && this.replies == replies
    {
      asked := [];
      this.replies := replies;
    }

    method StreamPlan(question: string) returns (reply: Reply)
      modifies this
      ensures asked == old(asked) + [question]
      ensures reply == replies(|old(asked)|)
    {
      reply := replies(|asked|);
      asked := asked + [question];
    }
  }

  method RunStreamWithRetry(
    eventTx: Channel<Sent>, llmClient: LlmClient, firstQuestion: string, checks: Checks, rephrase: Rephrase,
    maxRetries: nat)
    requires eventTx.Valid() && llmClient.asked == []
    modifies eventTx, llmClient
    ensures eventTx.Valid()
    ensures eventTx.sent ==
      eventTx.Taken(old(eventTx.sent) + Run(llmClient.replies, checks, 0, maxRetries))
    ensures llmClient.asked <= Asked(llmClient.replies, checks, rephrase, firstQuestion, 0, maxRetries)
    ensures eventTx.closesAfter.None? ==>
      llmClient.asked == Asked(llmClient.replies, checks, rephrase, firstQuestion, 0, maxRetries)
  {
    hide Try, Run, After, Asked, ProcessAssembledText, ChunkEvents, Joined, Owed;
    var question := firstQuestion;
    ghost var replies := llmClient.replies;
    ghost var whole := old(eventTx.sent) + Run(replies, checks, 0, maxRetries);
    ghost var questions := Asked(replies, checks, rephrase, firstQuestion, 0, maxRetries);
    StartOwed(eventTx.sent, Run(replies, checks, 0, maxRetries));
    StartOwed(llmClient.asked, questions);
    for attempt := 0 to maxRetries + 1
      invariant eventTx.Valid()
      invariant attempt <= maxRetries && |llmClient.asked| == attempt
      invariant Owed(eventTx.sent, Run(replies, checks, attempt, maxRetries), whole)
      invariant Owed(llmClient.asked, Asked(replies, checks, rephrase, question, attempt, maxRetries), questions)
    {
      AskedUnfolds(llmClient.asked, questions, replies, checks, rephrase, question, attempt, maxRetries);
      var reply := llmClient.StreamPlan(question);
      ghost var a := Try(reply, checks);
      ghost var after := After(a, replies, checks, attempt, maxRetries);
      RunUnfolds(replies, checks, attempt, maxRetries);
      AfterIs(a, eventTx.sent, whole, replies, checks, attempt, maxRetries);
      if reply.Refused? {
        RefusedAttempt(reply, checks, eventTx.sent, after, whole);
        if IsRetryable(reply.error) && attempt < maxRetries {
          question := rephrase(question, reply.error, attempt);
          continue;
        }
        var _ := eventTx.Send(Failure(reply.error));
        return;
      }
      var buffer := "";
      var streamOk := true;
      EmptyStart(a.chunks);
      for i := 0 to |reply.items|
        invariant eventTx.Valid() && streamOk
        invariant i <= |a.chunks|
        invariant buffer == Joined(a.chunks[..i])
        invariant Owed(eventTx.sent, ChunkEvents(a.chunks[i..]) + after, whole)
        modifies eventTx
      {
        StreamStep(reply, checks, i, eventTx.sent, after, whole);
        OwedCut(eventTx.sent, ChunkEvents(a.chunks[i..]) + after, whole);
        match reply.items[i]
        case Success(chunk) =>
          buffer := buffer + chunk;
          var ok := eventTx.Send(Success(TextChunk(chunk)));
          if !ok { return; }
        case Failure(error) =>
          AfterIs(a, eventTx.sent, whole, replies, checks, attempt, maxRetries);
          if IsRetryable(error) && attempt < maxRetries {
            question := rephrase(question, error, attempt);
            streamOk := false;
            break;
          }
          var _ := eventTx.Send(Failure(error));
          return;
      }
      if !streamOk { continue; }
      StreamEnd(reply, checks, eventTx.sent, after, whole);
      AfterIs(a, eventTx.sent, whole, replies, checks, attempt, maxRetries);
      var event := ProcessAssembledText(buffer, checks);
      if event.ErrorEvent? && IsRetryable(event.error) && attempt < maxRetries {
        question := rephrase(question, event.error, attempt);
        continue;
      }
      var _ := eventTx.Send(Success(event));
      if reply.usage.Some? {
        var _ := eventTx.Send(Success(TokenUsage(reply.usage.value)));
      }
      return;
    }
  }

  /** What follows the text of an attempt. */
  function After(a: Attempt, replies: Replies, checks: Checks, n: nat, maxRetries: nat): seq<Sent>
    requires n <= maxRetries
  {
    if RetryableError(a).Some? && n < maxRetries then Run(replies, checks, n + 1, maxRetries) else Closing(a)
  }

  /** `left` is what `done` still lacks of `whole`. */
  ghost predicate Owed<T>(done: seq<T>, left: seq<T>, whole: seq<T>) {
    whole == done + left
  }

  lemma StartOwed<T>(done: seq<T>, left: seq<T>)
    ensures Owed(done, left, done + left)
    ensures done == [] ==> Owed(done, left, left)
  {}

  lemma OwedCut<T>(done: seq<T>, left: seq<T>, whole: seq<T>)
    requires Owed(done, left, whole)
    ensures |done| <= |whole| && whole[..|done|] == done
    ensures left != [] ==> |done| < |whole|
  {}

  lemma RunUnfolds(replies: Replies, checks: Checks, n: nat, maxRetries: nat)
    requires n <= maxRetries
    ensures
      var a := Try(replies(n), checks);
      Run(replies, checks, n, maxRetries) == ChunkEvents(a.chunks) + After(a, replies, checks, n, maxRetries)
  {}

  lemma AskedUnfolds(asked: seq<string>, questions: seq<string>,
    replies: Replies, checks: Checks, rephrase: Rephrase, question: string, n: nat, maxRetries: nat)
    requires n <= maxRetries
    requires Owed(asked, Asked(replies, checks, rephrase, question, n, maxRetries), questions)
    ensures asked + [question] <= questions
    ensures
      var error := RetryableError(Try(replies(n), checks));
      if error.Some? && n < maxRetries then
        Owed(asked + [question],
             Asked(replies, checks, rephrase, rephrase(question, error.value, n), n + 1, maxRetries), questions)
      else asked + [question] == questions
  {
    hide Try, RetryableError;
  }

  lemma AfterIs(a: Attempt, done: seq<Sent>, whole: seq<Sent>,
    replies: Replies, checks: Checks, n: nat, maxRetries: nat)
    requires n <= maxRetries
    ensures RetryableError(a).Some? && n < maxRetries ==>
      After(a, replies, checks, n, maxRetries) == Run(replies, checks, n + 1, maxRetries)
    ensures !(RetryableError(a).Some? && n < maxRetries) && Owed(done, After(a, replies, checks, n, maxRetries), whole) ==>
      match a.verdict
      case Broken(error) => whole == done + [Failure(error)]
      case Finished(event) =>
        if a.usage.Some? then whole == done + [Success(event), Success(TokenUsage(a.usage.value))]
        else whole == done + [Success(event)]
  {
    hide Run;
  }

  lemma RefusedAttempt(reply: Reply, checks: Checks, done: seq<Sent>, after: seq<Sent>, whole: seq<Sent>)
    requires reply.Refused?
    ensures Try(reply, checks) == Attempt([], Broken(reply.error), None)
    ensures Owed(done, ChunkEvents([]) + after, whole) ==> Owed(done, after, whole)
  {}

  lemma EmptyStart(chunks: seq<string>)
    ensures Joined([]) == "" && chunks[..0] == [] && chunks[0..] == chunks
  {}

  lemma StreamStep(
    reply: Reply, checks: Checks, i: nat, done: seq<Sent>, after: seq<Sent>, whole: seq<Sent>)
    requires reply.Streamed? && i < |reply.items|
    requires i <= |Try(reply, checks).chunks|
    requires Owed(done, ChunkEvents(Try(reply, checks).chunks[i..]) + after, whole)
    ensures
      var a := Try(reply, checks);
      match reply.items[i]
      case Success(chunk) =>
        && i < |a.chunks| && |done| < |whole|
        && Joined(a.chunks[..i + 1]) == Joined(a.chunks[..i]) + chunk
        && Owed(done + [Success(TextChunk(chunk))], ChunkEvents(a.chunks[i + 1..]) + after, whole)
      case Failure(error) =>
        a.verdict == Broken(error) && Owed(done, after, whole)
  {
    hide ProcessAssembledText, Try, Joined, ChunkEvents;
    StreamShape(reply, checks);
    var chunks := Try(reply, checks).chunks;
    if i < |chunks| {
      NextChunk(chunks, i);
    } else {
      assert chunks[i..] == [];
      assert ChunkEvents(chunks[i..]) == [];
    }
  }

  lemma StreamShape(reply: Reply, checks: Checks)
    requires reply.Streamed?
    ensures
      var a := Try(reply, checks);
      && |a.chunks| <= |reply.items|
      && (forall i :: 0 <= i < |a.chunks| ==> reply.items[i] == Success(a.chunks[i]))
      && (|a.chunks| < |reply.items| ==>
            reply.items[|a.chunks|].Failure? && a.verdict == Broken(reply.items[|a.chunks|].error))
  {
    hide Chunks, ProcessAssembledText;
  }

  lemma NextChunk(chunks: seq<string>, i: nat)
    requires i < |chunks|
    ensures Joined(chunks[..i + 1]) == Joined(chunks[..i]) + chunks[i]
    ensures ChunkEvents(chunks[i..]) == [Success(TextChunk(chunks[i]))] + ChunkEvents(chunks[i + 1..])
  {
    assert chunks[..i + 1][..i] == chunks[..i];
  }

  lemma StreamEnd(reply: Reply, checks: Checks, done: seq<Sent>, after: seq<Sent>, whole: seq<Sent>)
    requires reply.Streamed? && |reply.items| <= |Try(reply, checks).chunks|
    requires Owed(done, ChunkEvents(Try(reply, checks).chunks[|reply.items|..]) + after, whole)
    ensures
      var a := Try(reply, checks);
      && a.usage == reply.usage
      && a.verdict == Finished(ProcessAssembledText(Joined(a.chunks[..|reply.items|]), checks))
      && Owed(done, after, whole)
  {
    hide ProcessAssembledText;
    var chunks := Try(reply, checks).chunks;
    assert chunks[..|reply.items|] == chunks;
    assert ChunkEvents(chunks[|reply.items|..]) == [];
  }
}
