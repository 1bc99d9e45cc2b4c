/** Transport.RoundTrip of internal/retry/transport.go: the attempt loop, what it tells the breaker and the
    caller's BreakerAttempt, and what it does with the pooled request body and with responses it does not return.
  */
module RetryTransport {
  import opened Prelude
  import RetryBuffer

  // ----- Replies and their classification -----

  /** IsNonRetryable and isContextCancellation of an error. */
  datatype Err = Err(nonRetryable: bool, cancellation: bool)

  /** temporaryBan is IsTemporaryBanResponse of the headers, retryAfter is ParseRetryAfter of them. */
  datatype Response = Response(status: int, temporaryBan: bool, retryAfter: nat)

  datatype Reply = Reply(resp: Option<Response>, err: Option<Err>)

  predicate IsFailureStatus(code: int) {
    code == 0 || code == 429 || code == 403 || 500 <= code < 600
  }

  predicate IsFailureStatusWithHeaders(code: int, temporaryBan: bool) {
    if code == 403 then temporaryBan else IsFailureStatus(code)
  }

  predicate DefaultCheckRetry(reply: Reply) {
    match reply.err
    case Some(err) => !err.nonRetryable
    case None => reply.resp.Some? && (reply.resp.value.status == 429 || reply.resp.value.status >= 500)
  }

  /** The policy buildUpstreamTransport installs when 429 is not to be retried. */
  predicate SkipOn429(reply: Reply) {
    match reply.err
    case Some(err) => !err.nonRetryable
    case None => reply.resp.Some? && reply.resp.value.status >= 500
  }

  /** The policy retries nothing that the default would not. */
  ghost predicate NoLaxer(policy: Reply -> bool) {
    forall reply :: policy(reply) ==> DefaultCheckRetry(reply)
  }

  lemma ConfiguredPoliciesAreNoLaxer()
    ensures NoLaxer(DefaultCheckRetry) && NoLaxer(SkipOn429)
  {
  }

  /** The guard against an inner transport that returns neither a response nor an error. */
  function Guarded(reply: Reply): Reply {
    if reply.resp.None? && reply.err.None? then Reply(None, Some(Err(false, false))) else reply
  }

  predicate StatusFails(reply: Reply) {
    reply.resp.Some? && IsFailureStatusWithHeaders(reply.resp.value.status, reply.resp.value.temporaryBan)
  }

  /** suppressBreakerFailureForError: a local defect, or the request's own cancellation. */
  predicate Suppressed(err: Err, abandoned: bool) {
    err.nonRetryable || (abandoned && err.cancellation)
  }

  // ----- A round trip and its trail -----

  datatype Body =
    | Absent       // nil or http.NoBody
    | Unbuffered   // MaxBodyBytes <= 0
    | Unreadable   // reading it into the buffer fails
    | Oversized    // more than MaxBodyBytes
    | Buffered

  datatype Setup = Setup(maxRetries: int, breaker: bool, deferSuccess: bool, epoch: nat, body: Body)

  /** What the environment answers in one turn of the loop; allow is used from the second turn on. */
  datatype Round = Round(allow: Option<nat>, timerFirst: bool, startedAt: int, reply: Reply)

  datatype Report =
    | FailureReport(code: int, retryAfter: nat, failedAt: int, failed: nat)
    | SuccessReport(begunAt: int, succeeded: nat)

  /** One attempt: abandoned is whether the request's context had ended when the reply was classified; started is
      false when the wait before it was interrupted. */
  datatype Attempt = Attempt(
    epoch: nat, started: bool, startedAt: int, reply: Reply, abandoned: bool,
    reports: seq<Report>, cancels: nat, respClosed: bool)

  datatype Result =
    | Running                // the environment has not answered yet
    | Returned(reply: Reply)
    | CircuitOpen
    | ContextError
    | BodyError

  /** retry.BreakerAttempt; startedAt None is its zero time. */
  datatype Record = Record(
    startedAt: Option<int>, epoch: nat, failure: bool, headerFailure: bool, anyFailure: bool, anyHeaderFailure: bool)

  predicate Fails(a: Attempt) {
    a.started && (StatusFails(a.reply) || (a.reply.err.Some? && !Suppressed(a.reply.err.value, a.abandoned)))
  }

  predicate Succeeds(reply: Reply) {
    reply.err.None? && reply.resp.Some? && 200 <= reply.resp.value.status < 300
  }

  /** What one attempt tells the breaker. */
  function Expected(setup: Setup, a: Attempt): seq<Report> {
    if !setup.breaker then []
    else if Fails(a) then
      [FailureReport(
         if StatusFails(a.reply) || (a.reply.err.None? && a.reply.resp.Some?) then a.reply.resp.value.status else 0,
         if a.reply.resp.Some? then a.reply.resp.value.retryAfter else 0, a.startedAt, a.epoch)]
    else if a.started && !setup.deferSuccess && Succeeds(a.reply) then [SuccessReport(a.startedAt, a.epoch)]
    else []
  }

  predicate Replayable(setup: Setup) {
    setup.body == Absent || setup.body == Buffered
  }

  /** One turn that the loop followed with another. */
  predicate Superseded(policy: Reply -> bool, a: Attempt) {
    && a.started
    && policy(a.reply)
    && !a.abandoned
    && a.cancels == 0
    && (a.respClosed <==> a.reply.resp.Some?)
  }

  /** The last turn of a trail, by how the round trip ended. */
  predicate Ends(setup: Setup, policy: Reply -> bool, a: Attempt, turns: nat, result: Result) {
    match result
    case Running => Superseded(policy, a)
    case CircuitOpen => setup.breaker && Superseded(policy, a)
    case Returned(reply) =>
      && a.started && reply == a.reply && a.cancels == 0 && !a.respClosed
      && (setup.body == Oversized || !policy(reply) || turns == setup.maxRetries + 1 || !Replayable(setup))
    case ContextError =>
      && a.cancels == (if setup.breaker then 1 else 0)
      && (a.respClosed <==> a.started && a.reply.resp.Some?)
    case BodyError => false
  }

  ghost predicate Follows(setup: Setup, policy: Reply -> bool, trail: seq<Attempt>, result: Result) {
    && (forall k :: 0 <= k < |trail| ==> trail[k].reports == Expected(setup, trail[k]))
    && (forall k :: 0 <= k < |trail| - 1 ==> Superseded(policy, trail[k]))
    && (trail != [] ==> trail[0].epoch == setup.epoch && trail[0].started)
    && (trail != [] ==> Ends(setup, policy, trail[|trail| - 1], |trail|, result))
    && (trail == [] ==> result == Running || result == BodyError)
    && (setup.maxRetries >= 0 ==> |trail| <= setup.maxRetries + 1)
    && (!Replayable(setup) ==> |trail| <= 1)
  }

  /** Turn k used the epoch Allow issued for it, or the caller's for the first, and the environment's reply. */
  predicate Issues(setup: Setup, round: Round, k: nat, epoch: nat) {
    if k == 0 || !setup.breaker then epoch == setup.epoch else round.allow == Some(epoch)
  }

  predicate TurnOf(setup: Setup, round: Round, k: nat, a: Attempt) {
    && Issues(setup, round, k, a.epoch)
    && (a.started ==> a.reply == Guarded(round.reply) && a.startedAt == round.startedAt)
    && (!a.started ==> !round.timerFirst && a.reply == Reply(None, None) && a.startedAt == 0 && a.abandoned)
  }

  ghost predicate Answers(setup: Setup, script: seq<Round>, trail: seq<Attempt>) {
    |trail| <= |script| && forall k :: 0 <= k < |trail| ==> TurnOf(setup, script[k], k, trail[k])
  }

  /** A reply that says so is the request's own cancellation, if its context has ended. */
  predicate Cancellation(reply: Reply) {
    reply.err.Some? && reply.err.value.cancellation
  }

  /** The loop looks at the request's context five times a turn, which ends with look number patience: before the turn
      and in its wait unless it is the first, then at the reply, at its error, and before the next turn. */
  ghost predicate Watches(setup: Setup, policy: Reply -> bool, script: seq<Round>, patience: nat, trail: seq<Attempt>,
                          result: Result)
  {
    && NoticedInTime(patience, trail)
    && (trail != [] ==> Watched(setup, policy, script, patience, trail[|trail| - 1], |trail| - 1, result))
  }

  /** An attempt is abandoned exactly when the context had ended by the look at its reply. */
  ghost predicate NoticedInTime(patience: nat, trail: seq<Attempt>) {
    forall k :: 0 <= k < |trail| && trail[k].started ==> (trail[k].abandoned <==> patience <= 5 * k)
  }

  /** The same of turn k, the last one. */
  predicate Watched(setup: Setup, policy: Reply -> bool, script: seq<Round>, patience: nat, a: Attempt, k: nat,
                    result: Result)
  {
    && (k > 0 ==> patience > 5 * k - 2)
    && (k > 0 && a.started ==> patience >= 5 * k || (k < |script| && script[k].timerFirst))
    && match result
       case Running => MayRetry(setup, k) && patience > 5 * k + 2
       case Returned(reply) => !(Cancellation(reply) && patience <= 5 * k + 1)
       case CircuitOpen =>
         MayRetry(setup, k) && patience > 5 * k + 3 && k + 1 < |script| && script[k + 1].allow.None?
       case ContextError =>
         if !a.started then patience < 5 * k
         else
           || (Cancellation(a.reply) && patience <= 5 * k + 1)
           || (policy(a.reply) && MayRetry(setup, k) && patience <= 5 * k + if k + 1 < |script| then 3 else 2)
       case BodyError => true
  }

  /** Nothing but the reply keeps the loop from another turn after turn k. */
  predicate MayRetry(setup: Setup, k: nat) {
    Replayable(setup) && (setup.maxRetries >= 0 ==> k < setup.maxRetries)
  }

  /** What is left of the patience after some looks. */
  function Remaining(patience: nat, looks: nat): nat {
    if patience < looks then 0 else patience - looks
  }

  /** The index of the last attempt handed to the inner transport. */
  function LastStarted(trail: seq<Attempt>): int {
    if trail == [] || trail[|trail| - 1].started then |trail| - 1 else |trail| - 2
  }

  /** The caller's record describes the last attempt that started; its cumulative fields describe all of them. */
  ghost predicate Describes(record: Record, trail: seq<Attempt>) {
    var last := LastStarted(trail);
    && (last < 0 ==> record == Record(None, 0, false, false, false, false))
    && (last >= 0 ==>
          && record.startedAt == Some(trail[last].startedAt) && record.epoch == trail[last].epoch
          && record.failure == Fails(trail[last])
          && record.headerFailure == (Fails(trail[last]) && StatusFails(trail[last].reply)))
    && (record.anyFailure <==> exists k :: 0 <= k < |trail| && Fails(trail[k]))
    && (record.anyHeaderFailure <==> exists k :: 0 <= k < |trail| && Fails(trail[k]) && StatusFails(trail[k].reply))
  }

  /** The pooled body's calls in order: bodies first, and finalize last and only once the round trip is over. */
  ghost predicate BufferOrder(calls: seq<RetryBuffer.Step>, tracked: bool, result: Result) {
    && (!tracked ==> calls == [])
    && (forall i :: 0 <= i < |calls| ==> calls[i].CountBody? || calls[i].Finalize?)
    && (forall i :: 0 <= i < |calls| - 1 ==> calls[i].CountBody?)
    && (tracked && !result.Running? ==> calls != [] && calls[|calls| - 1] == RetryBuffer.Finalize(Holds(result)))
    && (result.Running? ==> forall i :: 0 <= i < |calls| ==> calls[i].CountBody?)
  }

  /** The caller gets a response, whose body the round trip's buffer must outlive. */
  predicate Holds(result: Result) {
    result.Returned? && result.reply.resp.Some?
  }

  /** A look at req.Context().Err() when the context ends after `left` more looks. */
  method Look(left: nat) returns (done: bool, rest: nat)
    ensures done <==> left == 0
    ensures rest == Remaining(left, 1)
  {
    if left == 0 {
      return true, 0;
    }
    return false, left - 1;
  }

  /** recordBreakerAttempt, the inner round trip, classification and the report. */
  method Try(setup: Setup, epoch: nat, round: Round, record: Record, left: nat)
    returns (a: Attempt, updated: Record, rest: nat)
    ensures a.epoch == epoch && a.started && a.startedAt == round.startedAt && a.reply == Guarded(round.reply)
    ensures a.reports == Expected(setup, a) && a.cancels == 0 && !a.respClosed
    ensures updated.startedAt == Some(a.startedAt) && updated.epoch == epoch
    ensures updated.failure == Fails(a) && updated.headerFailure == (Fails(a) && StatusFails(a.reply))
    ensures updated.anyFailure == (record.anyFailure || Fails(a))
    ensures updated.anyHeaderFailure == (record.anyHeaderFailure || (Fails(a) && StatusFails(a.reply)))
    ensures (a.abandoned <==> left == 0) && rest == Remaining(left, 1)
  {
    updated := record.(startedAt := Some(round.startedAt), epoch := epoch, failure := false, headerFailure := false);
    var reply := round.reply;
    if reply.resp.None? && reply.err.None? {
      reply := Reply(None, Some(Err(false, false)));
    }
    var abandoned;
    abandoned, rest := Look(left);
    var statusFailure := StatusFails(reply);
    var errorFailure := reply.err.Some? && !Suppressed(reply.err.value, abandoned);
    var reports: seq<Report> := [];
    if statusFailure || errorFailure {
      updated := updated.(failure := true, anyFailure := true);
      if statusFailure {
        updated := updated.(headerFailure := true, anyHeaderFailure := true);
      }
      if setup.breaker {
        var retryAfter := if reply.resp.Some? then reply.resp.value.retryAfter else 0;
        var code := if reply.err.Some? || reply.resp.None? then 0 else reply.resp.value.status;
        if statusFailure {
          code := reply.resp.value.status;
        }
        reports := [FailureReport(code, retryAfter, round.startedAt, epoch)];
      }
    } else if setup.breaker && !setup.deferSuccess && Succeeds(reply) {
      reports := [SuccessReport(round.startedAt, epoch)];
    }
    a := Attempt(epoch, true, round.startedAt, reply, abandoned, reports, 0, false);
  }

  /** finishRequestCancellation on the attempt that holds the current epoch. */
  method Cancel(setup: Setup, a: Attempt) returns (c: Attempt)
    requires a.cancels == 0
    ensures c == a.(cancels := if setup.breaker then 1 else 0,
                    respClosed := a.respClosed || (a.started && a.reply.resp.Some?))
  {
    c := a;
    if setup.breaker {
      c := c.(cancels := 1);
    }
    if a.started && a.reply.resp.Some? {
      c := c.(respClosed := true);
    }
  }

  /** What the loop does with a reply: end the round trip, or close the response and go round again. */
  method Decide(setup: Setup, policy: Reply -> bool, a: Attempt, attempt: nat, left: nat)
    returns (c: Attempt, rest: nat, cancelled: bool, retryable: bool)
    requires a.started && a.cancels == 0 && !a.respClosed && (a.abandoned ==> left == 0)
    ensures c == a.(cancels := c.cancels, respClosed := c.respClosed)
    ensures cancelled ==> Ends(setup, policy, c, attempt + 1, ContextError)
    ensures cancelled ==>
              (Cancellation(a.reply) && left == 0) || (policy(a.reply) && MayRetry(setup, attempt) && left <= 1)
    ensures !cancelled && retryable ==> left > 1 && rest == left - 2
    ensures !cancelled && !retryable ==> !(Cancellation(a.reply) && left == 0)
    ensures !cancelled && retryable ==> Superseded(policy, c) && Replayable(setup)
    ensures !cancelled && retryable && setup.maxRetries >= 0 ==> attempt < setup.maxRetries
    ensures !cancelled && !retryable && setup.body != Oversized ==>
              (setup.maxRetries >= 0 ==> attempt <= setup.maxRetries) ==>
              Ends(setup, policy, c, attempt + 1, Returned(a.reply))
  {
    var done;
    c, cancelled, retryable := a, false, false;
    done, rest := Look(left);
    if a.reply.err.Some? && done && a.reply.err.value.cancellation {
      c := Cancel(setup, a);
      return c, rest, true, false;
    }
    var atLimit := setup.maxRetries >= 0 && attempt >= setup.maxRetries;
    var canRetry := setup.body == Absent || setup.body == Buffered;
    if !policy(a.reply) || atLimit || !canRetry {
      return;
    }
    done, rest := Look(rest);
    if done {
      c := Cancel(setup, a);
      return c, rest, true, false;
    }
    if a.reply.resp.Some? {
      c := c.(respClosed := true);
    }
    retryable := true;
  }

  lemma AddStarted(record: Record, updated: Record, trail: seq<Attempt>, a: Attempt)
    requires Describes(record, trail) && a.started
    requires updated.startedAt == Some(a.startedAt) && updated.epoch == a.epoch
    requires updated.failure == Fails(a) && updated.headerFailure == (Fails(a) && StatusFails(a.reply))
    requires updated.anyFailure == (record.anyFailure || Fails(a))
    requires updated.anyHeaderFailure == (record.anyHeaderFailure || (Fails(a) && StatusFails(a.reply)))
    ensures Describes(updated, trail + [a])
  {
    var longer := trail + [a];
    assert longer[|trail|] == a;
    assert forall k :: 0 <= k < |trail| ==> longer[k] == trail[k];
  }

  lemma AddUnstarted(record: Record, trail: seq<Attempt>, a: Attempt)
    requires Describes(record, trail) && !a.started && trail != [] && trail[|trail| - 1].started
    ensures Describes(record, trail + [a])
  {
    var longer := trail + [a];
    assert longer[|trail|] == a;
    assert forall k :: 0 <= k < |trail| ==> longer[k] == trail[k];
  }

  lemma ReplaceLast(record: Record, trail: seq<Attempt>, a: Attempt)
    requires Describes(record, trail) && trail != []
    requires var was := trail[|trail| - 1]; a == was.(cancels := a.cancels, respClosed := a.respClosed)
    ensures Describes(record, trail[..|trail| - 1] + [a])
  {
    var other := trail[..|trail| - 1] + [a];
    assert forall k :: 0 <= k < |trail| ==> Fails(other[k]) == Fails(trail[k]) && other[k].reply == trail[k].reply;
  }

  /** A turn added to a trail that the loop has not left. */
  lemma Extend(setup: Setup, policy: Reply -> bool, trail: seq<Attempt>, a: Attempt, result: Result)
    requires Follows(setup, policy, trail, Running) && (trail != [] ==> Replayable(setup))
    requires a.reports == Expected(setup, a) && Ends(setup, policy, a, |trail| + 1, result)
    requires trail == [] ==> a.epoch == setup.epoch && a.started
    requires setup.maxRetries >= 0 ==> |trail| <= setup.maxRetries
    ensures Follows(setup, policy, trail + [a], result)
  {
    var longer := trail + [a];
    assert longer[|trail|] == a;
    assert forall k :: 0 <= k < |trail| ==> longer[k] == trail[k];
  }

  lemma AddNotice(patience: nat, trail: seq<Attempt>, a: Attempt)
    requires NoticedInTime(patience, trail) && (a.started ==> (a.abandoned <==> patience <= 5 * |trail|))
    ensures NoticedInTime(patience, trail + [a])
  {
  }

  /** The looks that the turns of a trail have taken when the loop is about to begin another. */
  function Looks(turns: nat): nat {
    if turns == 0 then 0 else 5 * turns - 2
  }

  /** One call for the body of each turn, and one to finalize. */
  predicate OneBodyEach(calls: seq<RetryBuffer.Step>, tracked: bool, turns: nat, result: Result) {
    tracked ==> |calls| == turns + if result.Running? then 0 else 1
  }

  lemma AddAnswer(setup: Setup, script: seq<Round>, trail: seq<Attempt>, a: Attempt)
    requires Answers(setup, script, trail) && |trail| < |script| && TurnOf(setup, script[|trail|], |trail|, a)
    ensures Answers(setup, script, trail + [a])
  {
  }

  /** The last turn given another ending. */
  lemma Reend(setup: Setup, policy: Reply -> bool, trail: seq<Attempt>, a: Attempt, result: Result)
    requires Follows(setup, policy, trail, Running) && trail != []
    requires var was := trail[|trail| - 1]; a == was.(cancels := a.cancels, respClosed := a.respClosed)
    requires Ends(setup, policy, a, |trail|, result)
    ensures Follows(setup, policy, trail[..|trail| - 1] + [a], result)
  {
    var other := trail[..|trail| - 1] + [a];
    assert forall k :: 0 <= k < |trail| - 1 ==> other[k] == trail[k];
  }

  lemma ReplaceAnswer(setup: Setup, script: seq<Round>, patience: nat, trail: seq<Attempt>, a: Attempt)
    requires Answers(setup, script, trail) && NoticedInTime(patience, trail) && trail != []
    requires var was := trail[|trail| - 1]; a == was.(cancels := a.cancels, respClosed := a.respClosed)
    ensures var other := trail[..|trail| - 1] + [a];
            Answers(setup, script, other) && NoticedInTime(patience, other)
  {
    assert TurnOf(setup, script[|trail| - 1], |trail| - 1, trail[|trail| - 1]);
  }

  lemma AddCall(calls: seq<RetryBuffer.Step>, call: RetryBuffer.Step, result: Result)
    requires BufferOrder(calls, true, Running)
    requires if result.Running? then call.CountBody? else call == RetryBuffer.Finalize(Holds(result))
    ensures BufferOrder(calls + [call], true, result)
  {
  }

  /** The body-too-large path: one attempt, reported like any other, and no replay. */
  method RoundTripOversized(setup: Setup, policy: Reply -> bool, script: seq<Round>, left: nat)
    returns (result: Result, trail: seq<Attempt>, record: Record)
    requires setup.body == Oversized && script != []
    ensures Answers(setup, script, trail) && |trail| == 1
    ensures !result.Running? && Follows(setup, policy, trail, result) && Describes(record, trail)
    ensures !result.CircuitOpen? && Watches(setup, policy, script, left, trail, result)
  {
    record := Record(None, 0, false, false, false, false);
    var a, rest;
    a, record, rest := Try(setup, setup.epoch, script[0], record, left);
    var done;
    done, rest := Look(rest);
    if a.reply.err.Some? && done && a.reply.err.value.cancellation {
      a := Cancel(setup, a);
      return ContextError, [a], record;
    }
    return Returned(a.reply), [a], record;
  }

  /** The cancellation check before a retry: the epoch cancelled is the previous attempt's. */
  method EndLast(setup: Setup, policy: Reply -> bool, script: seq<Round>, trail: seq<Attempt>, record: Record,
                 ghost patience: nat)
    returns (ended: seq<Attempt>)
    requires trail != [] && Answers(setup, script, trail)
    requires NoticedInTime(patience, trail) && patience <= Looks(|trail|)
    requires MayRetry(setup, |trail| - 1) && |trail| < |script| && (|trail| > 1 ==> patience > 5 * |trail| - 7)
    requires Follows(setup, policy, trail, Running) && Describes(record, trail)
    ensures Follows(setup, policy, ended, ContextError) && Describes(record, ended) && Answers(setup, script, ended)
    ensures Watches(setup, policy, script, patience, ended, ContextError) && |ended| == |trail|
  {
    var last := Cancel(setup, trail[|trail| - 1]);
    Reend(setup, policy, trail, last, ContextError);
    ReplaceLast(record, trail, last);
    ReplaceAnswer(setup, script, patience, trail, last);
    ended := trail[..|trail| - 1] + [last];
  }

  /** A wait that the request's context ends: the epoch just issued is cancelled. */
  method EndWaiting(setup: Setup, policy: Reply -> bool, script: seq<Round>, trail: seq<Attempt>, record: Record,
                    epoch: nat, ghost patience: nat)
    returns (ended: seq<Attempt>)
    requires NoticedInTime(patience, trail) && Looks(|trail|) < patience < 5 * |trail|
    requires |trail| < |script| && !script[|trail|].timerFirst
    requires Answers(setup, script, trail) && Issues(setup, script[|trail|], |trail|, epoch)
    requires Follows(setup, policy, trail, Running) && Describes(record, trail) && trail != [] && Replayable(setup)
    requires setup.maxRetries >= 0 ==> |trail| <= setup.maxRetries
    ensures Follows(setup, policy, ended, ContextError) && Describes(record, ended) && Answers(setup, script, ended)
    ensures Watches(setup, policy, script, patience, ended, ContextError) && |ended| == |trail| + 1
  {
    var waiting := Attempt(epoch, false, 0, Reply(None, None), true, [], 0, false);
    waiting := Cancel(setup, waiting);
    Extend(setup, policy, trail, waiting, ContextError);
    AddUnstarted(record, trail, waiting);
    AddNotice(patience, trail, waiting);
    ended := trail + [waiting];
  }

  method EndCalls(tracked: bool, calls: seq<RetryBuffer.Step>, ended: Result, hasRespBody: bool)
    returns (all: seq<RetryBuffer.Step>)
    requires BufferOrder(calls, tracked, Running) && !ended.Running? && hasRespBody == Holds(ended)
    ensures BufferOrder(all, tracked, ended) && (tracked ==> |all| == |calls| + 1)
  {
    all := calls;
    if tracked {
      AddCall(calls, RetryBuffer.Finalize(hasRespBody), ended);
      all := calls + [RetryBuffer.Finalize(hasRespBody)];
    }
  }

  method AddBody(calls: seq<RetryBuffer.Step>) returns (all: seq<RetryBuffer.Step>)
    requires BufferOrder(calls, true, Running)
    ensures BufferOrder(all, true, Running) && |all| == |calls| + 1
  {
    AddCall(calls, RetryBuffer.CountBody, Running);
    all := calls + [RetryBuffer.CountBody];
  }

  /** What precedes a retry: the cancellation check, the gauge, Allow, the new body, and the wait. */
  method BeforeRetry(setup: Setup, policy: Reply -> bool, script: seq<Round>, trail: seq<Attempt>, record: Record,
                     calls: seq<RetryBuffer.Step>, left: nat, ghost patience: nat)
    returns (ended: Result, turns: seq<Attempt>, all: seq<RetryBuffer.Step>, gauge: int, epoch: nat, rest: nat)
    requires Follows(setup, policy, trail, Running) && Describes(record, trail) && trail != [] && Replayable(setup)
    requires Answers(setup, script, trail) && |trail| < |script|
    requires BufferOrder(calls, setup.body == Buffered, Running)
    requires setup.maxRetries >= 0 ==> |trail| <= setup.maxRetries
    requires OneBodyEach(calls, setup.body == Buffered, |trail|, Running)
    requires Watches(setup, policy, script, patience, trail, Running) && left == Remaining(patience, Looks(|trail|))
    ensures Follows(setup, policy, turns, ended) && Describes(record, turns) && Answers(setup, script, turns)
    ensures BufferOrder(all, setup.body == Buffered, ended)
    ensures OneBodyEach(all, setup.body == Buffered, |turns| + if ended.Running? then 1 else 0, ended)
    ensures !ended.Running? ==> Watches(setup, policy, script, patience, turns, ended)
    ensures ended.Running? ==> rest == Remaining(patience, 5 * |trail|) && patience > Looks(|trail|)
    ensures ended.Running? ==> patience >= 5 * |trail| || script[|trail|].timerFirst
    ensures ended.Running? ==> turns == trail && gauge == 1 && Issues(setup, script[|trail|], |trail|, epoch)
    ensures ended.Running? || ended.ContextError? || ended.CircuitOpen?
    ensures gauge == 0 || gauge == 1
  {
    var tracked, done, round := setup.body == Buffered, false, script[|trail|];
    gauge := if |trail| >= 2 then 1 else 0;
    epoch, turns, all := trail[|trail| - 1].epoch, trail, calls;
    done, rest := Look(left);
    if done {
      turns := EndLast(setup, policy, script, trail, record, patience);
      all := EndCalls(tracked, calls, ContextError, false);
      return ContextError, turns, all, gauge, epoch, rest;
    }
    if |trail| == 1 {
      gauge := gauge + 1;
    }
    if setup.breaker {
      if round.allow.None? {
        all := EndCalls(tracked, calls, CircuitOpen, false);
        return CircuitOpen, turns, all, gauge, epoch, rest;
      }
      epoch := round.allow.value;
    }
    if tracked {
      all := AddBody(all);
    }
    done, rest := Look(rest);
    if done && !round.timerFirst {
      turns := EndWaiting(setup, policy, script, trail, record, epoch, patience);
      all := EndCalls(tracked, all, ContextError, false);
      return ContextError, turns, all, gauge, epoch, rest;
    }
    ended := Running;
  }

  /** Turn k: an attempt and the decision after it. */
  method AttemptOnce(setup: Setup, policy: Reply -> bool, script: seq<Round>, k: nat, record: Record, epoch: nat,
                     left: nat, ghost patience: nat)
    returns (a: Attempt, updated: Record, rest: nat, ended: Result)
    requires k < |script| && setup.body != Oversized && left == Remaining(patience, 5 * k)
    requires k > 0 ==> patience > Looks(k) && (patience >= 5 * k || script[k].timerFirst)
    requires setup.maxRetries >= 0 ==> k <= setup.maxRetries
    ensures a.epoch == epoch && a.started && a.reply == Guarded(script[k].reply) && a.startedAt == script[k].startedAt
    ensures a.reports == Expected(setup, a) && (a.abandoned <==> patience <= 5 * k)
    ensures updated.startedAt == Some(a.startedAt) && updated.epoch == epoch
    ensures updated.failure == Fails(a) && updated.headerFailure == (Fails(a) && StatusFails(a.reply))
    ensures updated.anyFailure == (record.anyFailure || Fails(a))
    ensures updated.anyHeaderFailure == (record.anyHeaderFailure || (Fails(a) && StatusFails(a.reply)))
    ensures Ends(setup, policy, a, k + 1, ended) && Watched(setup, policy, script, patience, a, k, ended)
    ensures ended.Running? ==> MayRetry(setup, k) && rest == Remaining(patience, Looks(k + 1))
    ensures ended.Running? || ended.Returned? || ended.ContextError?
  {
    var cancelled, retryable;
    a, updated, rest := Try(setup, epoch, script[k], record, left);
    var reply := a.reply;
    a, rest, cancelled, retryable := Decide(setup, policy, a, k, rest);
    ended := if cancelled then ContextError else if retryable then Running else Returned(reply);
  }

  /** A turn added to the trail. */
  method Turn(setup: Setup, policy: Reply -> bool, script: seq<Round>, trail: seq<Attempt>, record: Record,
              epoch: nat, left: nat, ghost patience: nat)
    returns (longer: seq<Attempt>, updated: Record, rest: nat, ended: Result)
    requires Follows(setup, policy, trail, Running) && Describes(record, trail) && setup.body != Oversized
    requires Answers(setup, script, trail) && |trail| < |script| && (trail != [] ==> Replayable(setup))
    requires Issues(setup, script[|trail|], |trail|, epoch)
    requires setup.maxRetries >= 0 ==> |trail| <= setup.maxRetries
    requires NoticedInTime(patience, trail) && left == Remaining(patience, 5 * |trail|)
    requires trail != [] ==>
               patience > Looks(|trail|) && (patience >= 5 * |trail| || script[|trail|].timerFirst)
    ensures Watches(setup, policy, script, patience, longer, ended)
    ensures ended.Running? ==> rest == Remaining(patience, Looks(|longer|))
    ensures Follows(setup, policy, longer, ended) && Describes(updated, longer)
    ensures Answers(setup, script, longer) && |longer| == |trail| + 1
    ensures ended.Running? ==> Replayable(setup) && (setup.maxRetries >= 0 ==> |longer| <= setup.maxRetries)
    ensures ended.Running? || ended.Returned? || ended.ContextError?
  {
    var a;
    a, updated, rest, ended := AttemptOnce(setup, policy, script, |trail|, record, epoch, left, patience);
    Extend(setup, policy, trail, a, ended);
    AddStarted(record, updated, trail, a);
    AddAnswer(setup, script, trail, a);
    AddNotice(patience, trail, a);
    longer := trail + [a];
  }

  /** A round trip at the head of its loop, or over: what it has done and what it knows. */
  ghost predicate Kept(setup: Setup, policy: Reply -> bool, script: seq<Round>, patience: nat, trail: seq<Attempt>,
                       record: Record, calls: seq<RetryBuffer.Step>, result: Result)
  {
    && Follows(setup, policy, trail, result)
    && Describes(record, trail)
    && Answers(setup, script, trail)
    && Watches(setup, policy, script, patience, trail, result)
    && BufferOrder(calls, setup.body == Buffered, result)
    && OneBodyEach(calls, setup.body == Buffered, |trail|, result)
    && (result.Running? && trail != [] ==> Replayable(setup))
    && (result.Running? && setup.maxRetries >= 0 ==> |trail| <= setup.maxRetries)
  }

  /** One turn of the loop. */
  method Iterate(setup: Setup, policy: Reply -> bool, script: seq<Round>, trail: seq<Attempt>, record: Record,
                 calls: seq<RetryBuffer.Step>, left: nat, ghost patience: nat)
    returns (result: Result, turns: seq<Attempt>, updated: Record, all: seq<RetryBuffer.Step>, gauge: int, rest: nat)
    requires Kept(setup, policy, script, patience, trail, record, calls, Running)
    requires |trail| < |script| && setup.body != Oversized && left == Remaining(patience, Looks(|trail|))
    ensures Kept(setup, policy, script, patience, turns, updated, all, result)
    ensures result.Running? ==> |turns| == |trail| + 1 && rest == Remaining(patience, Looks(|turns|))
    ensures !result.BodyError?
    ensures gauge == if result.Running? && |turns| >= 2 then 1 else 0
  {
    var round, tracked := script[|trail|], setup.body == Buffered;
    var epoch := setup.epoch;
    result, turns, all, gauge, rest := Running, trail, calls, 0, left;
    if trail != [] {
      result, turns, all, gauge, epoch, rest :=
        BeforeRetry(setup, policy, script, trail, record, calls, left, patience);
      if !result.Running? {
        return result, turns, record, all, gauge - if gauge > 0 then 1 else 0, rest;
      }
    } else if tracked {
      all := AddBody(calls);
    }
    turns, updated, rest, result := Turn(setup, policy, script, trail, record, epoch, rest, patience);
    if !result.Running? {
      all := EndCalls(tracked, all, result, result.Returned? && result.reply.resp.Some?);
      gauge := 0;
    }
  }

  /** RoundTrip over any environment: script answers the turns of the loop, the request's context ends after
      patience looks at it, and gauge is the change of InFlightRetries. */
  method RoundTrip(setup: Setup, policy: Reply -> bool, script: seq<Round>, patience: nat)
    returns (result: Result, trail: seq<Attempt>, record: Record, calls: seq<RetryBuffer.Step>, gauge: int)
    ensures Follows(setup, policy, trail, result)
    ensures Describes(record, trail)
    ensures Answers(setup, script, trail)
    ensures BufferOrder(calls, setup.body == Buffered, result)
    ensures gauge == if result.Running? && |trail| >= 2 then 1 else 0
    ensures |script| > |trail| ==> !result.Running?
    ensures result.BodyError? <==> setup.body == Unreadable
    ensures Watches(setup, policy, script, patience, trail, result)
    ensures OneBodyEach(calls, setup.body == Buffered, |trail|, result)
  {
    trail, calls, gauge, record := [], [], 0, Record(None, 0, false, false, false, false);
    if setup.body == Unreadable {
      return BodyError, trail, record, calls, gauge;
    }
    if setup.body == Oversized {
      if script == [] {
        return Running, trail, record, calls, gauge;
      }
      result, trail, record := RoundTripOversized(setup, policy, script, patience);
      return;
    }
    var left: nat := patience;
    result := Running;
    while result.Running? && |trail| < |script|
      invariant Kept(setup, policy, script, patience, trail, record, calls, result) && !result.BodyError?
      invariant result.Running? ==> left == Remaining(patience, Looks(|trail|))
      invariant gauge == if result.Running? && |trail| >= 2 then 1 else 0
      decreases result.Running?, |script| - |trail|
    {
      result, trail, record, calls, gauge, left :=
        Iterate(setup, policy, script, trail, record, calls, left, patience);
    }
  }

  // ----- What a round trip leaves to its caller -----

  /** Each attempt is reported at most once, under its own epoch and start, and a failure is reported with a status
      that counts as one. */
  lemma AtMostOneReport(setup: Setup, policy: Reply -> bool, trail: seq<Attempt>, result: Result, k: nat)
    requires Follows(setup, policy, trail, result) && k < |trail|
    ensures |trail[k].reports| <= 1
    ensures forall r :: r in trail[k].reports ==>
              match r
              case FailureReport(code, _, at, epoch) =>
                && epoch == trail[k].epoch && at == trail[k].startedAt && IsFailureStatus(code)
                && (code == 0 || (code == 403 ==> trail[k].reply.resp.value.temporaryBan))
              case SuccessReport(at, epoch) =>
                epoch == trail[k].epoch && at == trail[k].startedAt && Succeeds(trail[k].reply) && !Fails(trail[k])
  {
    assert trail[k].reports == Expected(setup, trail[k]);
  }

  /** The reply is a status of 600 or more: the policies retry it and the breaker does not count it. */
  predicate Beyond600(reply: Reply) {
    reply.err.None? && reply.resp.Some? && reply.resp.value.status >= 600
  }

  /** Under either configured policy an attempt that was retried had been reported as a failure, exactly unless its
      status was 600 or more. */
  lemma RetriedWereReportedUnless600(setup: Setup, policy: Reply -> bool, trail: seq<Attempt>, result: Result, k: nat)
    requires setup.breaker && k < |trail| - 1 && NoLaxer(policy)
    requires Follows(setup, policy, trail, result)
    ensures trail[k].cancels == 0
    ensures trail[k].reports == [] <==> Beyond600(trail[k].reply)
    ensures trail[k].reports != [] ==> |trail[k].reports| == 1 && trail[k].reports[0].FailureReport?
  {
    assert trail[k].reports == Expected(setup, trail[k]);
    assert Superseded(policy, trail[k]);
  }

  /** How each ending leaves the last epoch: a cancelled round trip cancels it, a refused one follows a retried
      attempt, and a returned one leaves exactly the unreported replies to the caller. */
  lemma EndingAccountsForEpoch(setup: Setup, policy: Reply -> bool, trail: seq<Attempt>, result: Result)
    requires Follows(setup, policy, trail, result) && setup.breaker && !result.Running? && !result.BodyError?
    ensures trail != []
    ensures var last := trail[|trail| - 1];
            && (result.ContextError? <==> last.cancels == 1)
            && (result.CircuitOpen? ==> last.started && policy(last.reply))
            && (result.Returned? ==>
                  (last.reports == [] <==> !Fails(last) && (setup.deferSuccess || !Succeeds(last.reply))))
  {
  }

  /** The caller's record says that a failure was recorded exactly when the breaker was told so, under the record's
      epoch; with success deferred nothing else was reported for that attempt. */
  lemma RecordMatchesReports(setup: Setup, policy: Reply -> bool, trail: seq<Attempt>, result: Result, record: Record)
    requires Follows(setup, policy, trail, result) && Describes(record, trail) && setup.breaker && setup.deferSuccess
    ensures trail == [] <==> record.startedAt.None?
    ensures record.startedAt.Some? ==>
              var last := trail[LastStarted(trail)];
              && record.epoch == last.epoch && record.startedAt == Some(last.startedAt)
              && (record.failure <==> last.reports != [])
              && (record.failure ==> |last.reports| == 1 && last.reports[0].FailureReport?)
              && (record.failure ==> last.reports[0].failed == record.epoch)
    ensures result.Returned? ==> LastStarted(trail) == |trail| - 1
  {
    if trail != [] {
      assert trail[|trail| - 1].reports == Expected(setup, trail[|trail| - 1]);
      if !trail[|trail| - 1].started {
        assert trail[|trail| - 1].reports == [];
        assert |trail| >= 2;
        assert trail[|trail| - 2].reports == Expected(setup, trail[|trail| - 2]);
      }
    }
  }

  /** A failure on the caller's record is one the caller sees: the returned reply is an error, or its status is one the
      breaker counts or a banned 403. */
  lemma RecordedFailureIsSeen(setup: Setup, policy: Reply -> bool, trail: seq<Attempt>, result: Result, record: Record)
    requires Follows(setup, policy, trail, result) && Describes(record, trail) && result.Returned? && record.failure
    ensures record.startedAt.Some?
    ensures result.reply.err.Some? || (result.reply.resp.Some? && IsFailureStatus(result.reply.resp.value.status))
    ensures record.headerFailure <==> StatusFails(result.reply)
  {
  }

  /** Every response the caller does not get has been closed, and the one it gets has not. */
  lemma OnlyReturnedResponseStaysOpen(setup: Setup, policy: Reply -> bool, trail: seq<Attempt>, result: Result, k: nat)
    requires Follows(setup, policy, trail, result) && k < |trail| && !result.Running?
    requires trail[k].started && trail[k].reply.resp.Some?
    ensures trail[k].respClosed <==> !(result.Returned? && k == |trail| - 1)
  {
  }

  /** The tracker calls of a round trip are a run of the pooled buffer's model, and it is finalized exactly when the
      round trip is over. */
  lemma {:induction false} CallsAreLegal(calls: seq<RetryBuffer.Step>, result: Result, body: seq<RetryBuffer.Byte>,
                                         capacity: nat)
    requires BufferOrder(calls, true, result)
    ensures var s := RetryBuffer.Initial(body, capacity);
            && RetryBuffer.Legal(s, calls)
            && (RetryBuffer.Exec(s, calls).tracker.finalized <==> !result.Running?)
    decreases |calls|
  {
    if calls != [] {
      CallsAreLegal(calls[..|calls| - 1], Running, body, capacity);
    }
  }
}
