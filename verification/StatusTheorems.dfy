/** Which upstream answers count as failures, by their status, wherever an attempt or an exchange is reported. */
module StatusTheorems {
  import opened Prelude
  import opened RetryTransport
  import opened BreakerTheorems
  import opened Exchange
  import opened ExchangeTheorems

  /** No answer, too many requests, a server error, or a forbidden request under a ban. */
  predicate CountsAgainst(status: int, banned: bool) {
    status == 0 || status == 429 || 500 <= status < 600 || (status == 403 && banned)
  }

  // ----- Attempts -----

  /** The loop's report of an attempt that was answered: a failure, with the answer's own status and Retry-After,
      exactly when there is a breaker and the status counts; else a success when the caller did not ask to make it. */
  lemma AnsweredAttemptReported(setup: Setup, policy: Reply -> bool, trail: seq<Attempt>, result: Result, k: nat)
    requires Follows(setup, policy, trail, result) && k < |trail|
    requires trail[k].started && trail[k].reply.err.None? && trail[k].reply.resp.Some?
    ensures var a, resp := trail[k], trail[k].reply.resp.value;
            a.reports ==
            if !setup.breaker then []
            else if CountsAgainst(resp.status, resp.temporaryBan) then
              [FailureReport(resp.status, resp.retryAfter, a.startedAt, a.epoch)]
            else if !setup.deferSuccess && 200 <= resp.status < 300 then [SuccessReport(a.startedAt, a.epoch)]
            else []
  {
    assert trail[k].reports == Expected(setup, trail[k]);
  }

  /** Of an attempt that ended in an error: a failure unless the error is a local defect or the request's own
      cancellation; a response beside the error counts by its status all the same. */
  lemma FailedAttemptReported(setup: Setup, policy: Reply -> bool, trail: seq<Attempt>, result: Result, k: nat)
    requires Follows(setup, policy, trail, result) && k < |trail|
    requires trail[k].started && trail[k].reply.err.Some?
    ensures var a, err, resp := trail[k], trail[k].reply.err.value, trail[k].reply.resp;
            var counted := resp.Some? && CountsAgainst(resp.value.status, resp.value.temporaryBan);
            a.reports ==
            if setup.breaker && (counted || !(err.nonRetryable || (err.cancellation && a.abandoned))) then
              [FailureReport(if counted then resp.value.status else 0, if resp.Some? then resp.value.retryAfter else 0,
                             a.startedAt, a.epoch)]
            else []
  {
    assert trail[k].reports == Expected(setup, trail[k]);
  }

  /** An attempt that the wait before it ended is not reported. */
  lemma UnstartedAttemptIsSilent(setup: Setup, policy: Reply -> bool, trail: seq<Attempt>, result: Result, k: nat)
    requires Follows(setup, policy, trail, result) && k < |trail| && !trail[k].started
    ensures trail[k].reports == []
  {
    assert trail[k].reports == Expected(setup, trail[k]);
  }

  // ----- Exchanges -----

  /** The status the client was answered with: the recorder's own, or behind a committed stream the failure that
      replaced the answer, or else the answer observed. */
  predicate Shown(rec: Recorder, status: nat) {
    match rec.committed
    case None => rec.status == status
    case Some(c) =>
      || (c.override > 0 && status == c.override)
      || (c.override == 0 && c.okObserved && status == (if c.okStatus == 0 then 200 else c.okStatus))
      || (c.override == 0 && !c.okObserved && status == 0)
  }

  /** When the last attempt began, and the epoch it ran under: the retry loop's, if it got as far as an attempt. */
  function AttemptStart(f: Facts): int {
    match f.attempt.startedAt
    case Some(at) => if f.retries then at else f.startedAt
    case None => f.startedAt
  }

  function AttemptEpoch(f: Facts): nat {
    if f.retries && f.attempt.startedAt != None then f.attempt.epoch else f.epoch
  }

  /** A native exchange that the upstream itself answered with the status. */
  predicate UpstreamAnswered(f: Facts, status: nat) {
    && Plain(f) && f.started && f.rec.outcome.None? && f.handshake.NoHandshake?
    && Shown(f.rec, status) && !f.rec.proxyGenerated && !f.rec.localUpgrade
    && !(f.rec.transportErr.Some? && f.rec.transportErr.value.circuitOpen)
  }

  /** The upstream delivered its body, or the client was the one to break off. */
  predicate UpstreamBodyClean(f: Facts) {
    && (f.copyErr.Some? ==> f.copyErr.value.cancellation && f.Done(f.times.abort))
    && (f.end.AbortPanic? && f.copyErr.None? ==> f.rec.writeFailed || f.Done(f.times.abort))
  }

  /** A status that counts in no exchange. */
  predicate Ordinary(status: nat) {
    status != 0 && status != 429 && status != 403 && !(500 <= status < 600)
  }

  predicate NoFailure(calls: seq<Op>) {
    forall i :: 0 <= i < |calls| ==> !calls[i].Failure?
  }

  lemma OrdinaryHandled(f: Facts, status: nat, p: Progress)
    requires UpstreamAnswered(f, status) && Ordinary(status) && UpstreamBodyClean(f) && p.rec == f.rec
    requires f.end.AbortPanic? || CopyAborted(f, f.rec)
    ensures !AbortIsFailure(f, p)
  {
  }

  lemma OrdinaryVerdict(f: Facts, status: nat, p: Progress)
    requires UpstreamAnswered(f, status) && Ordinary(status) && p.rec == f.rec
    ensures var v := Classify(f, p, false);
            !v.failure && !v.suppressible && v.attempted && v.status == status && !v.local
  {
  }

  lemma ClosingIsNoFailure(f: Facts, p: Progress, v: Verdict)
    requires NoFailure(p.calls) && !v.failure
    ensures NoFailure(Closed(f, p, v, false).calls)
  {
    ClosedSays(f, p, v, false);
  }

  /** An upstream answer with such a status is never reported as a failure, however the client and the copy end,
      unless the upstream broke off its body. */
  lemma OrdinaryAnswerIsNoFailure(f: Facts, status: nat)
    requires UpstreamAnswered(f, status) && Ordinary(status) && UpstreamBodyClean(f) && !f.end.LocalPanic?
    ensures NoFailure(Final(f).calls) && !Resolved(f).abortFailure
    ensures var v := Resolved(f).verdict; !v.failure && !v.suppressible && v.attempted && v.status == status
    ensures Final(f).rec == f.rec && Final(f).attempt == f.attempt
  {
    SilentHandshake(f);
    HandshakeCounts(f);
    if f.end.AbortPanic? {
      OrdinaryHandled(f, status, AfterHandshake(f));
      OrdinaryVerdict(f, status, Final(f));
    } else {
      MarkedKeeps(f);
      if CopyAborted(f, f.rec) {
        OrdinaryHandled(f, status, Marked(f));
      }
      var p := CopyChecked(f);
      assert !CopyFailed(f) && p.calls == [] && p.rec == f.rec && p.attempt == f.attempt;
      OrdinaryVerdict(f, status, p);
      ClosingIsNoFailure(f, p, Classify(f, p, false));
      ClosedSays(f, p, Classify(f, p, false), false);
    }
  }

  /** An exchange that the copy check leaves alone tells the breaker what the closing step says. */
  lemma ClosesWithOneCall(f: Facts, p: Progress, v: Verdict)
    requires p.calls == [] && Final(f) == Closed(f, p, v, false)
    ensures var op := ClosingOp(f, p, v, false);
            && Final(f).calls == (if op.Some? then [op.value] else [])
            && (NoFailure(Final(f).calls) <==> !(op.Some? && op.value.Failure?))
  {
    ClosedSays(f, p, v, false);
    if ClosingOp(f, p, v, false).Some? {
      assert Final(f).calls[0] == ClosingOp(f, p, v, false).value;
    }
  }

  lemma CompleteIsNotAborted(f: Facts, status: nat)
    requires UpstreamAnswered(f, status) && f.end.Finished? && !f.aborted
    requires f.copyErr.None? && !f.rec.writeFailed && !f.Done(f.times.classify)
    ensures !CopyFailed(f) && CopyChecked(f) == Marked(f) && !Marked(f).aborted
    ensures Marked(f).calls == [] && Marked(f).rec == f.rec && Marked(f).attempt == f.attempt
    ensures var p := CopyChecked(f); Final(f) == Closed(f, p, Classify(f, p, false), false)
  {
    SilentHandshake(f);
    HandshakeCounts(f);
    assert !CopyAborted(f, f.rec);
  }

  /** A finished native exchange in which nothing went wrong on the way to the client is reported as a failure exactly
      when its status counts when it is classified, under its own start and epoch, with what is left of Retry-After. */
  lemma CompleteAnswerFailsExactlyWhen(f: Facts, status: nat)
    requires UpstreamAnswered(f, status) && f.breaker && f.end.Finished? && !f.AlreadyReported(f.attempt)
    requires f.copyErr.None? && !f.rec.writeFailed && !f.Done(f.times.classify) && !f.aborted
    ensures var now := f.times.classify;
            var banned := f.rec.headers.banUntil.None? || now < f.rec.headers.banUntil.value;
            && (CountsAgainst(status, banned) <==> !NoFailure(Final(f).calls))
            && (CountsAgainst(status, banned) ==>
                  Final(f).calls ==
                  [Failure(if f.rec.headers.retryAt > now then f.rec.headers.retryAt - now else 0,
                           Some(AttemptStart(f)), AttemptEpoch(f))])
  {
    SilentHandshake(f);
    HandshakeCounts(f);
    CompleteIsNotAborted(f, status);
    var p := CopyChecked(f);
    CompleteVerdict(f, status, p);
    ClosesWithOneCall(f, p, Classify(f, p, false));
  }

  lemma CompleteVerdict(f: Facts, status: nat, p: Progress)
    requires UpstreamAnswered(f, status) && p.rec == f.rec && !f.rec.writeFailed && !f.Done(f.times.classify)
    ensures var v, now := Classify(f, p, false), f.times.classify;
            && !v.suppressible
            && (v.failure <==>
                  CountsAgainst(status, f.rec.headers.banUntil.None? || now < f.rec.headers.banUntil.value))
            && v.retryAfter == (if f.rec.headers.retryAt > now then f.rec.headers.retryAt - now else 0)
  {
  }

  /** A native exchange that the proxy had to answer itself because its transport failed. */
  predicate TransportFailed(f: Facts, err: TransportError) {
    && Plain(f) && f.started && f.rec.outcome.None? && f.handshake.NoHandshake?
    && f.rec.proxyGenerated && f.rec.transportErr == Some(err) && !f.rec.localUpgrade
  }

  lemma TransportVerdict(f: Facts, err: TransportError, p: Progress)
    requires TransportFailed(f, err) && p.rec == f.rec && !f.rec.writeFailed
    ensures var v := Classify(f, p, false);
            var genuine := !err.circuitOpen && !err.nonRetryable && !(err.cancellation && f.Done(f.times.classify));
            && (v.failure <==> genuine) && (genuine ==> !v.suppressible) && (v.failure || v.local) && v.attempted
  {
  }

  /** Of a finished exchange whose transport failed: a failure exactly unless the breaker refused the attempt, the
      defect is local, or the client had left by the time of the classification and that is the error. */
  lemma TransportErrorFailsExactlyWhen(f: Facts, err: TransportError)
    requires TransportFailed(f, err) && f.breaker && f.end.Finished? && !f.AlreadyReported(f.attempt)
    requires f.copyErr.None? && !f.rec.writeFailed && !f.aborted
    ensures NoFailure(Final(f).calls) <==>
              err.circuitOpen || err.nonRetryable || (err.cancellation && f.Done(f.times.classify))
  {
    SilentHandshake(f);
    HandshakeCounts(f);
    MarkedKeeps(f);
    assert !CopyFailed(f);
    var p := CopyChecked(f);
    assert p.calls == [] && p.rec == f.rec && p.attempt == f.attempt;
    TransportVerdict(f, err, p);
    ClosesWithOneCall(f, p, Classify(f, p, false));
  }

  /** Of a transcoded exchange that ended without a panic of the proxy's own: a failure exactly when the recorded
      outcome says so, with the Retry-After it recorded; the client's leaving changes nothing. */
  lemma TranscodedFailureExactlyWhen(f: Facts, o: Outcome)
    requires Plain(f) && f.rec.outcome == Some(o) && f.breaker && f.started && f.end.Finished?
    requires !f.AlreadyReported(f.attempt)
    ensures o.failure <==> !NoFailure(Final(f).calls)
    ensures o.failure ==>
              Final(f).calls ==
              [Failure(match o.retryAfter case Some(d) => d case None => 0, Some(AttemptStart(f)),
                       AttemptEpoch(f))]
  {
    SilentHandshake(f);
    HandshakeCounts(f);
    MarkedKeeps(f);
    var p := CopyChecked(f);
    assert !CopyFailed(f) && p.calls == [] && p.rec == f.rec && p.attempt == f.attempt;
    ClosesWithOneCall(f, p, Classify(f, p, false));
  }

  // ----- Retries -----

  /** An error that is no local defect, too many requests, or a status of 500 or more. */
  predicate Retriable(reply: Reply) {
    match reply.err
    case Some(err) => !err.nonRetryable
    case None => reply.resp.Some? && (reply.resp.value.status == 429 || reply.resp.value.status >= 500)
  }

  /** With the default policy every attempt but the last ended retriably, and a retriable reply is handed to the caller
      only after maxRetries more attempts than the first, or when the body cannot be sent again. */
  lemma RetriesWhatItShould(setup: Setup, trail: seq<Attempt>, result: Result)
    requires Follows(setup, DefaultCheckRetry, trail, result)
    ensures forall k :: 0 <= k < |trail| - 1 ==> trail[k].started && Retriable(trail[k].reply)
    ensures result.Returned? && Retriable(result.reply) ==>
              |trail| == setup.maxRetries + 1 || (setup.body != Absent && setup.body != Buffered)
    ensures result.CircuitOpen? ==> Retriable(trail[|trail| - 1].reply)
    ensures setup.maxRetries >= 0 ==> |trail| <= setup.maxRetries + 1
    ensures setup.body != Absent && setup.body != Buffered ==> |trail| <= 1
  {
    forall k | 0 <= k < |trail| - 1
      ensures trail[k].started && Retriable(trail[k].reply)
    {
      assert Superseded(DefaultCheckRetry, trail[k]);
    }
  }

  /** The policy that skips 429 differs from the default in that status alone. */
  lemma SkippingPolicyDiffersAt429(reply: Reply)
    ensures SkipOn429(reply) <==>
              Retriable(reply) && !(reply.err.None? && reply.resp.Some? && reply.resp.value.status == 429)
    ensures DefaultCheckRetry(reply) <==> Retriable(reply)
  {
  }

  // ----- Protocol switches and aborts -----

  /** A probe that ends in a protocol switch is credited with it at once, a failed handshake cancels it, and nothing
      else is reported for the exchange. */
  lemma HandshakeReported(f: Facts)
    requires Plain(f) && f.breaker && f.Epoch(f.attempt) != 0 && !f.handshake.NoHandshake?
    ensures var calls := Final(f).calls;
            && calls != []
            && calls[0] == (if f.handshake.Switched? then Success(Some(AttemptStart(f)), AttemptEpoch(f))
                            else Cancel(AttemptEpoch(f)))
            && forall i :: 1 <= i < |calls| ==> calls[i] == Cancel(AttemptEpoch(f))
  {
    HandshakeCounts(f);
    HandshakeIsFinal(f);
    MarkedKeeps(f);
    CopyCheckStarts(f);
    HandshakeLeavesCopy(f);
    var p := CopyChecked(f);
    HandshakeCloses(f, p, Classify(f, p, false));
  }

  lemma HandshakeLeavesCopy(f: Facts)
    requires f.breaker && f.Epoch(f.attempt) != 0 && !f.handshake.NoHandshake? && !CopyFailed(f)
    ensures CopyChecked(f).calls ==
              [if f.handshake.Switched? then Success(Some(AttemptStart(f)), AttemptEpoch(f))
               else Cancel(f.Epoch(f.attempt))]
  {
    MarkedKeeps(f);
  }

  lemma HandshakeCloses(f: Facts, p: Progress, v: Verdict)
    requires f.started && !v.failure && !v.success && (v.switched || v.local)
    ensures var q := Closed(f, p, v, false);
            q.calls == p.calls || q.calls == p.calls + [Cancel(f.Epoch(p.attempt))]
  {
    ClosedSays(f, p, v, false);
  }

  /** An abort panic after an upstream refusal is reported as that refusal, with what is left of its Retry-After. */
  lemma AbortedRefusalReported(f: Facts, status: nat)
    requires UpstreamAnswered(f, status) && (status == 429 || 500 <= status < 600)
    requires f.breaker && f.end.AbortPanic? && !f.AlreadyReported(f.attempt)
    ensures var now := f.times.record;
            Final(f).calls ==
            [Failure(if f.rec.headers.retryAt > now then f.rec.headers.retryAt - now else 0,
                     Some(AttemptStart(f)), AttemptEpoch(f))]
  {
    SilentHandshake(f);
    HandshakeCounts(f);
    RefusalAborts(f);
  }

  /** An exchange that never reached the upstream only cancels the epoch it was admitted with, and an answer to it is
      the proxy's own. */
  lemma UnattemptedIsCancelled(f: Facts, status: nat)
    requires f.breaker && !f.started && !f.end.AbortPanic? && f.handshake.NoHandshake?
    ensures Final(f).calls == [Cancel(f.epoch)]
    ensures Plain(f) && f.end.Finished? && f.rec.outcome.None? && Shown(f.rec, status) && status > 0 ==>
              Resolved(f).verdict.local
  {
    SilentHandshake(f);
    MarkedKeeps(f);
    ClosedSays(f, CopyChecked(f), Classify(f, CopyChecked(f), false), false);
  }

  /** A panic of the proxy's own code counts against nobody: it cancels the attempt, unless its failure is on record,
      and a client that has seen nothing yet is shown a 502 of the proxy's own. */
  lemma LocalPanicReported(f: Facts)
    requires Plain(f) && f.breaker && f.started && f.end.LocalPanic? && f.handshake.NoHandshake?
    requires f.copyErr.None? && !f.rec.writeFailed && f.rec.transportErr.None?
    ensures Final(f).calls == if f.retries && f.attempt.failure then [] else [Cancel(AttemptEpoch(f))]
    ensures Final(f).aborted
    ensures f.rec.committed.None? && !f.rec.terminal ==>
              Shown(Final(f).rec, 502) && Final(f).rec.proxyGenerated
    ensures f.rec.committed.None? && f.rec.terminal ==> Final(f).rec == f.rec
    ensures f.rec.committed == Some(Committed(0, false, 0)) ==>
              Shown(Final(f).rec, 502) && Final(f).rec.proxyGenerated
  {
    SilentHandshake(f);
    HandshakeCounts(f);
    var p := CopyChecked(f);
    assert p == Marked(f) && !CopyFailed(f);
    ClosesWithOneCall(f, p, Classify(f, p, false));
    ClosedSays(f, p, Classify(f, p, false), false);
  }

  /** A finished native exchange ends as aborted exactly when it was marked so, its copy failed on either side, or its
      transport gave up because the client had left. */
  lemma AbortedExactlyWhen(f: Facts)
    requires Plain(f) && f.end.Finished? && f.rec.outcome.None?
    ensures Final(f).aborted <==>
              || f.aborted || f.copyErr.Some? || f.rec.writeFailed
              || (f.rec.transportErr.Some? && f.rec.transportErr.value.cancellation && f.Done(f.times.abort))
  {
    CopyCheckStarts(f);
    MarkedKeeps(f);
    HandshakeCounts(f);
    ClosedSays(f, CopyChecked(f), Classify(f, CopyChecked(f), CopyFailed(f)), CopyFailed(f));
  }
}
