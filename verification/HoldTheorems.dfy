/** How long serveLimited holds the slots of a request, by its settings and what became of the exchange. */
module HoldTheorems {
  import opened Prelude
  import opened RetryTransport
  import opened Exchange
  import opened ExchangeTheorems
  import opened ServeLimited
  import opened StatusTheorems

  /** The client had gone when the slots were released, or its connection broke. */
  predicate Left(f: Facts, at: int) {
    f.rec.writeFailed || (f.doneAt.Some? && f.doneAt.value <= at)
  }

  /** The hold of an exchange that did not fail: the cancel cooldown when the client left, and otherwise none. */
  function AfterDisconnect(s: Settings, left: bool): Option<Timer> {
    if left && s.cancelCooldown > 0 then Some(Timer(s.cancelCooldown)) else None
  }

  /** The hold of one that did: the penalty of the breaker, without a breaker the failure hold, and without either
      what would follow anyway. */
  function AfterFailure(s: Settings, penalty: nat, left: bool): Option<Timer> {
    if s.breaker then Some(Timer(penalty))
    else if s.failureHold > 0 then Some(Timer(s.failureHold))
    else AfterDisconnect(s, left)
  }

  /** A 5xx or 429 of the upstream holds the slots for the failure, whoever broke off what, and only a 429 gives up
      headroom. */
  lemma RefusalLease(s: Settings, w: World, status: nat)
    requires UpstreamAnswered(Run(s, w), status) && !w.facts.end.LocalPanic?
    requires status == 429 || 500 <= status < 600
    ensures PlanOf(s, w).lease == AfterFailure(s, w.penalty, Left(w.facts, w.releaseAt))
    ensures PlanOf(s, w).reduces <==> s.adaptiveHeadroom && status == 429
  {
    RefusalVerdict(Run(s, w));
  }

  /** Any other answer with a status that does not count, whose body the upstream delivered, holds nothing for itself:
      only a failure that the retry transport recorded for this very attempt does, and a client that left. */
  lemma OrdinaryLease(s: Settings, w: World, status: nat)
    requires UpstreamAnswered(Run(s, w), status) && Ordinary(status) && UpstreamBodyClean(Run(s, w))
    requires !w.facts.end.LocalPanic?
    ensures PlanOf(s, w).lease ==
              if w.facts.retries && w.facts.attempt.failure
              then AfterFailure(s, w.penalty, Left(w.facts, w.releaseAt))
              else AfterDisconnect(s, Left(w.facts, w.releaseAt))
    ensures !PlanOf(s, w).reduces
  {
    OrdinaryAnswerIsNoFailure(Run(s, w), status);
  }

  /** A complete answer with an ordinary status and a client that stayed: the slots go back at once. */
  lemma CleanAnswerFreesAtOnce(s: Settings, w: World, status: nat)
    requires UpstreamAnswered(Run(s, w), status) && Ordinary(status) && w.facts.end.Finished?
    requires w.facts.copyErr.None? && !w.facts.rec.writeFailed && !w.facts.Done(w.releaseAt)
    requires !w.facts.attempt.failure
    ensures PlanOf(s, w).lease == None
  {
    OrdinaryLease(s, w, status);
  }

  /** A finished exchange whose transport really failed is held like a refusal by the upstream. */
  lemma TransportFailureLease(s: Settings, w: World, err: TransportError)
    requires TransportFailed(Run(s, w), err) && w.facts.end.Finished? && w.facts.copyErr.None?
    requires !err.circuitOpen && !err.nonRetryable && !err.cancellation && !w.facts.rec.writeFailed
    ensures PlanOf(s, w).lease == AfterFailure(s, w.penalty, Left(w.facts, w.releaseAt))
  {
    var f := Run(s, w);
    var p := ResolutionKeepsRecorder(f);
    assert !CopyAborted(f, f.rec);
    TransportVerdict(f, err, p);
    assert Resolved(f).verdict == Classify(f, p, false);
  }

  /** The client left before the upstream answered anything: the attempt is held for the cancel cooldown, and for the
      penalty only after an earlier failure of the loop. */
  lemma UnansweredLease(s: Settings, w: World)
    requires var f := Run(s, w);
             && Plain(f) && f.started && f.rec.outcome.None? && f.handshake.NoHandshake? && !f.end.LocalPanic?
             && f.rec.committed.None? && f.rec.status == 0 && !f.rec.proxyGenerated && !f.rec.localUpgrade
             && f.rec.transportErr.None? && f.copyErr.None? && f.Done(f.times.abort) && f.Done(w.releaseAt)
    ensures PlanOf(s, w).lease ==
              if w.facts.retries && (w.facts.attempt.failure || w.facts.attempt.anyFailure)
              then AfterFailure(s, w.penalty, true)
              else AfterDisconnect(s, true)
  {
    var f := Run(s, w);
    var p := ResolutionKeepsRecorder(f);
    ResolutionKeepsAttempt(f);
  }

  /** What the abort handler leaves alone when it finds no failure. */
  lemma ResolutionKeepsAttempt(f: Facts)
    requires Plain(f) && f.started && f.rec.outcome.None? && f.handshake.NoHandshake? && !f.end.LocalPanic?
    requires f.rec.committed.None? && f.rec.status == 0 && !f.rec.proxyGenerated && !f.rec.localUpgrade
    requires f.rec.transportErr.None? && f.copyErr.None? && f.Done(f.times.abort)
    ensures Resolved(f).progress.attempt == f.attempt && !Resolved(f).abortFailure
  {
    HandshakeCounts(f);
    MarkedKeeps(f);
    ClosedSays(f, CopyChecked(f), Classify(f, CopyChecked(f), false), false);
  }

  /** A transcoded exchange that reached the upstream is held for a recorded failure, of its outcome or of the attempt,
      and else only for a client that left. */
  lemma TranscodedLease(s: Settings, w: World, o: Outcome)
    requires Plain(w.facts) && w.facts.rec.outcome == Some(o) && w.facts.started && w.facts.end.Finished?
    requires !o.provenance.LocalRequestConversion? && !w.facts.rec.localUpgrade && w.facts.handshake.NoHandshake?
    requires !w.facts.retries || !w.facts.attempt.anyFailure || w.facts.attempt.failure
    ensures PlanOf(s, w).lease ==
              if o.failure || (w.facts.retries && w.facts.attempt.failure)
              then AfterFailure(s, w.penalty, Left(w.facts, w.releaseAt))
              else AfterDisconnect(s, Left(w.facts, w.releaseAt))
    ensures PlanOf(s, w).reduces <==> s.adaptiveHeadroom && o.status == Some(429)
  {
    var f := Run(s, w);
    HandshakeCounts(f);
    MarkedKeeps(f);
    assert !CopyFailed(f);
    ClosedSays(f, CopyChecked(f), Classify(f, CopyChecked(f), false), false);
  }

  /** A request that got no further than the proxy: a native one whose attempt never started, or a transcoded one whose
      handler recorded none and that either never started or failed in its own conversion. */
  predicate NeverReached(f: Facts) {
    match f.rec.outcome
    case None => !f.started
    case Some(o) => !o.attempted && (!f.started || o.provenance.LocalRequestConversion?)
  }

  /** A panic of the proxy's own code, and a request that never reached the upstream, hold nothing and give up no
      headroom. */
  lemma NothingToHold(s: Settings, w: World)
    requires w.facts.end.LocalPanic? || NeverReached(w.facts)
    ensures PlanOf(s, w).lease == None && !PlanOf(s, w).reduces
  {
    if !w.facts.end.LocalPanic? {
      var p := ResolutionKeepsRecorder(Run(s, w));
      assert !Resolved(Run(s, w)).verdict.attempted;
    }
  }
}
