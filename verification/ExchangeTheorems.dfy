/** What the breaker hears about one exchange, over every way it can end. */
module ExchangeTheorems {
  import opened Prelude
  import opened RetryTransport
  import B = Breaker
  import opened BreakerTheorems
  import opened Exchange

  predicate IsReport(op: Op) {
    op.Failure? || op.Success?
  }

  function Reports(calls: seq<Op>): nat {
    if calls == [] then 0
    else Reports(calls[..|calls| - 1]) + if IsReport(calls[|calls| - 1]) then 1 else 0
  }

  function EpochOf(op: Op): nat {
    match op
    case Cancel(epoch) => epoch
    case Failure(_, _, epoch) => epoch
    case Success(_, epoch) => epoch
    case _ => 0
  }

  /** How many calls carry the epoch. */
  function CallsFor(calls: seq<Op>, epoch: nat): nat {
    if calls == [] then 0
    else CallsFor(calls[..|calls| - 1], epoch) + if EpochOf(calls[|calls| - 1]) == epoch then 1 else 0
  }

  lemma TellCounts(p: Progress, op: Op, epoch: nat)
    ensures Reports(Tell(p, op).calls) == Reports(p.calls) + if IsReport(op) then 1 else 0
    ensures CallsFor(Tell(p, op).calls, epoch) == CallsFor(p.calls, epoch) + if EpochOf(op) == epoch then 1 else 0
  {
    assert Tell(p, op).calls[..|p.calls|] == p.calls;
  }

  /** What net/http and the attempt marker guarantee: an attempt record is empty without retries and until an attempt
      starts, a recorder that says the upstream was attempted was told so, the proxy's own reply after an attempt is
      a 5xx, and a protocol switch is a 101 whose body nobody copies. */
  predicate Plain(f: Facts) {
    && f.times.Ordered()
    && (!f.retries || f.attempt.startedAt.None? ==> f.attempt == Record(None, 0, false, false, false, false))
    && (f.attempted ==> f.started)
    && (f.rec.proxyGenerated && f.started ==> 500 <= f.rec.Observed() < 600)
    && (!f.handshake.NoHandshake? ==>
          && f.started && f.rec.status == 101 && f.rec.terminal && f.rec.committed.None? && f.rec.outcome.None?
          && !f.rec.proxyGenerated && f.copyErr.None? && !f.end.AbortPanic?)
  }

  /** What the retry transport's report says about the reply it returned: the recorder and a transcoded outcome saw
      that same status, or no upstream status at all. */
  predicate Linked(f: Facts) {
    f.AlreadyReported(f.attempt) ==>
      && f.attempt.startedAt.Some?
      && f.handshake.NoHandshake?
      && (match f.rec.outcome
          case None => f.rec.TransportOrGenerated() || IsFailureStatus(f.rec.Observed())
          case Some(o) =>
            o.status.Some? ==> IsFailureStatus(o.status.value) && (o.status.value != 403 ==> o.failure || o.local))
  }

  function Final(f: Facts): Progress {
    Resolved(f).progress
  }

  // ----- At most one report -----

  lemma AbortRecordedCounts(f: Facts, p: Progress)
    ensures var q := AbortRecorded(f, p);
            var told := if f.breaker && !f.AlreadyReported(p.attempt) then 1 else 0;
            && Reports(q.calls) == Reports(p.calls) + told
            && CallsFor(q.calls, f.Epoch(p.attempt)) == CallsFor(p.calls, f.Epoch(p.attempt)) + told
            && (f.breaker && f.retries ==> q.attempt.failure)
            && f.Epoch(q.attempt) == f.Epoch(p.attempt)
            && q.rec == p.rec && q.attempted == p.attempted && q.aborted == p.aborted && q.resolved == p.resolved
  {
    if f.breaker && !f.AlreadyReported(p.attempt) {
      var op := AbortRecorded(f, p).calls[|p.calls|];
      TellCounts(p, op, f.Epoch(p.attempt));
      assert AbortRecorded(f, p).calls == Tell(p, op).calls;
    }
  }

  lemma CancelCounts(f: Facts, p: Progress)
    ensures var q := ProbeCancelled(f, p);
            && Reports(q.calls) == Reports(p.calls)
            && CallsFor(q.calls, f.Epoch(p.attempt)) ==
               CallsFor(p.calls, f.Epoch(p.attempt)) + if f.breaker && !(f.retries && p.attempt.failure) then 1 else 0
  {
    TellCounts(p, Cancel(f.Epoch(p.attempt)), f.Epoch(p.attempt));
  }

  predicate AbortedSuccess(f: Facts, p: Progress, v: Verdict) {
    !v.failure && f.Epoch(p.attempt) != 0 && v.status >= 300 && Definitive(v)
  }

  predicate FinishedSuccess(f: Facts, p: Progress, v: Verdict) {
    && !(v.failure && !v.suppressible)
    && ((v.success && !v.suppressible) || (f.Epoch(p.attempt) != 0 && v.status > 0 && Definitive(v)))
  }

  /** The one thing the closing step tells the breaker, if any. */
  function ClosingOp(f: Facts, p: Progress, v: Verdict, abortFailure: bool): Option<Op> {
    var start, epoch := Some(f.Start(p.attempt)), f.Epoch(p.attempt);
    var cancelled := if f.retries && p.attempt.failure then None else Some(Cancel(epoch));
    if !f.breaker then None
    else if !f.started then Some(Cancel(f.epoch))
    else if f.end.LocalPanic? then cancelled
    else if p.aborted && abortFailure then None
    else if v.failure && !v.suppressible then
      if f.AlreadyReported(p.attempt) then None else Some(Failure(v.retryAfter, start, epoch))
    else if (if p.aborted then AbortedSuccess(f, p, v) else FinishedSuccess(f, p, v)) then Some(Success(start, epoch))
    else cancelled
  }

  function Said(p: Progress, op: Option<Op>): Progress {
    match op
    case None => p
    case Some(op) => Tell(p, op)
  }

  lemma ClosedSays(f: Facts, p: Progress, v: Verdict, abortFailure: bool)
    requires abortFailure ==> p.aborted
    ensures Closed(f, p, v, abortFailure) == Said(p, ClosingOp(f, p, v, abortFailure))
  {
  }

  /** Whether the closing step of an exchange adds a report. */
  predicate ClosesWithReport(f: Facts, p: Progress, v: Verdict, abortFailure: bool) {
    && f.breaker && f.started && !f.end.LocalPanic? && !(p.aborted && abortFailure)
    && (|| (v.failure && !v.suppressible && !f.AlreadyReported(p.attempt))
        || (if p.aborted then AbortedSuccess(f, p, v) else FinishedSuccess(f, p, v)))
  }

  /** Whom that one thing concerns: the admitted epoch when nothing was attempted, and else the attempt's own. */
  lemma ClosingOpConcerns(f: Facts, p: Progress, v: Verdict, abortFailure: bool)
    ensures var op := ClosingOp(f, p, v, abortFailure);
            && (op.Some? ==> EpochOf(op.value) == if f.started then f.Epoch(p.attempt) else f.epoch)
            && (op.Some? && IsReport(op.value) <==> ClosesWithReport(f, p, v, abortFailure))
            && (op.Some? && !f.started <==> f.breaker && !f.started)
            && (f.breaker && !f.AlreadyReported(p.attempt) && !abortFailure ==> op.Some?)
  {
  }

  lemma SaidCounts(p: Progress, op: Option<Op>, q: Progress, epoch: nat)
    requires q == Said(p, op)
    ensures Reports(q.calls) == Reports(p.calls) + if op.Some? && IsReport(op.value) then 1 else 0
    ensures CallsFor(q.calls, epoch) ==
              CallsFor(p.calls, epoch) + if op.Some? && EpochOf(op.value) == epoch then 1 else 0
  {
    if op.Some? {
      TellCounts(p, op.value, epoch);
    }
  }

  lemma ClosingCounts(f: Facts, p: Progress, v: Verdict, abortFailure: bool)
    requires abortFailure ==> p.aborted
    ensures var q := Closed(f, p, v, abortFailure);
            Reports(q.calls) == Reports(p.calls) + if ClosesWithReport(f, p, v, abortFailure) then 1 else 0
  {
    ClosedSays(f, p, v, abortFailure);
    ClosingOpConcerns(f, p, v, abortFailure);
    SaidCounts(p, ClosingOp(f, p, v, abortFailure), Closed(f, p, v, abortFailure), 0);
  }

  /** The same for the epoch of the last attempt: after an attempt the closing step leaves it settled. */
  lemma ClosingSettles(f: Facts, p: Progress, v: Verdict, abortFailure: bool)
    requires f.breaker && (abortFailure ==> p.aborted)
    ensures var before, after := CallsFor(p.calls, f.Epoch(p.attempt)),
                                 CallsFor(Closed(f, p, v, abortFailure).calls, f.Epoch(p.attempt));
            && before <= after
            && (f.started && !f.AlreadyReported(p.attempt) && !abortFailure ==> before < after)
            && (!f.started ==> after == before + if f.Epoch(p.attempt) == f.epoch then 1 else 0)
  {
    ClosedSays(f, p, v, abortFailure);
    ClosingOpConcerns(f, p, v, abortFailure);
    SaidCounts(p, ClosingOp(f, p, v, abortFailure), Closed(f, p, v, abortFailure), f.Epoch(p.attempt));
  }

  lemma HandshakeCounts(f: Facts)
    ensures var p := AfterHandshake(f);
            && Reports(p.calls) == (if p.resolved && f.handshake.Switched? then 1 else 0)
            && CallsFor(p.calls, f.Epoch(f.attempt)) == (if p.resolved then 1 else 0)
            && (p.resolved ==> f.breaker && f.Epoch(f.attempt) != 0 && !f.handshake.NoHandshake?)
            && p.rec == f.rec && p.attempt == f.attempt && p.aborted == f.aborted && p.attempted == f.attempted
  {
    var epoch := f.Epoch(f.attempt);
    var p := Progress([], f.attempt, f.rec, f.attempted, f.aborted, true);
    assert Reports(p.calls) == 0 && CallsFor(p.calls, epoch) == 0;
    if f.breaker && !f.handshake.NoHandshake? && epoch != 0 {
      var op := if f.handshake.Switched? then Success(Some(f.Start(f.attempt)), epoch) else Cancel(epoch);
      TellCounts(p, op, epoch);
      assert AfterHandshake(f) == Tell(p, op);
    }
  }

  lemma AbortHandledCounts(f: Facts, p: Progress)
    ensures var q := AbortHandled(f, p);
            var told := if f.breaker && AbortIsFailure(f, p) && !f.AlreadyReported(p.attempt) then 1 else 0;
            && Reports(q.calls) == Reports(p.calls) + told
            && CallsFor(q.calls, f.Epoch(p.attempt)) == CallsFor(p.calls, f.Epoch(p.attempt)) + told
            && (q.attempt.failure <==> p.attempt.failure || (f.retries && told == 1))
            && f.Epoch(q.attempt) == f.Epoch(p.attempt)
            && q.rec == p.rec && q.resolved == p.resolved && q.aborted == p.aborted
  {
    AbortRecordedCounts(f, p.(attempted := p.attempted || f.started));
  }

  /** An exchange that ends in an abort panic without a handshake is reported or cancelled, unless its failure is
      already on record. */
  lemma PanicCounts(f: Facts)
    requires f.end.AbortPanic? && !AfterHandshake(f).resolved
    ensures var fails := f.breaker && AbortIsFailure(f, AfterHandshake(f)) && !f.AlreadyReported(f.attempt);
            Reports(Final(f).calls) == if fails then 1 else 0
    ensures CallsFor(Final(f).calls, f.Epoch(f.attempt)) ==
              if f.breaker && !f.AlreadyReported(f.attempt) then 1 else 0
  {
    var p := AfterHandshake(f);
    HandshakeCounts(f);
    AbortHandledCounts(f, p);
    if !AbortIsFailure(f, p) {
      CancelCounts(f, AbortHandled(f, p));
    }
  }

  /** The facts about the copy check that the closing step starts from. */
  lemma CopyCheckStarts(f: Facts)
    requires !f.end.AbortPanic?
    ensures var p := CopyChecked(f);
            var told := if f.breaker && CopyFailed(f) && !f.AlreadyReported(f.attempt) then 1 else 0;
            && Final(f) == Closed(f, p, Classify(f, p, CopyFailed(f)), CopyFailed(f))
            && (CopyFailed(f) ==> p.aborted && f.started)
            && Reports(p.calls) == Reports(AfterHandshake(f).calls) + told
            && CallsFor(p.calls, f.Epoch(f.attempt)) == CallsFor(AfterHandshake(f).calls, f.Epoch(f.attempt)) + told
            && (p.attempt.failure <==> f.attempt.failure || (f.retries && told == 1))
            && f.Epoch(p.attempt) == f.Epoch(f.attempt)
            && p.rec == Marked(f).rec && p.aborted == Marked(f).aborted
  {
    CopyCheckCounts(f);
    MarkedKeeps(f);
  }

  /** What the copy check adds: a report exactly when it finds an upstream failure nobody reported. */
  lemma CopyCheckCounts(f: Facts)
    ensures var p, m := CopyChecked(f), Marked(f);
            var told := if f.breaker && CopyFailed(f) && !f.AlreadyReported(m.attempt) then 1 else 0;
            && Reports(p.calls) == Reports(m.calls) + told
            && CallsFor(p.calls, f.Epoch(m.attempt)) == CallsFor(m.calls, f.Epoch(m.attempt)) + told
            && (p.attempt.failure <==> m.attempt.failure || (f.retries && told == 1))
            && f.Epoch(p.attempt) == f.Epoch(m.attempt)
            && p.rec == m.rec && p.resolved == m.resolved && p.aborted == m.aborted
  {
    AbortHandledCounts(f, Marked(f));
  }

  lemma MarkedKeeps(f: Facts)
    ensures var p, m := AfterHandshake(f), Marked(f);
            && m.calls == p.calls && m.attempt == f.attempt && m.resolved == p.resolved
            && (CopyFailed(f) ==> m.aborted && f.started)
  {
  }

  /** A resolved handshake leaves nothing for the copy check or the closing step to report. */
  lemma HandshakeIsFinal(f: Facts)
    requires Plain(f) && AfterHandshake(f).resolved
    ensures !f.end.AbortPanic? && !CopyFailed(f)
    ensures var v := Classify(f, CopyChecked(f), false); !v.failure && !v.success && (v.switched || v.local)
  {
    HandshakeCounts(f);
    assert Marked(f).rec.Observed() == 101;
  }

  /** Without a report from the retry transport the breaker hears at most one. */
  lemma AtMostOneReport(f: Facts)
    requires Plain(f) && !f.AlreadyReported(f.attempt)
    ensures Reports(Final(f).calls) <= 1
  {
    HandshakeCounts(f);
    if f.end.AbortPanic? {
      PanicCounts(f);
    } else {
      CopyCheckStarts(f);
      var p, failed := CopyChecked(f), CopyFailed(f);
      ClosingCounts(f, p, Classify(f, p, failed), failed);
      if AfterHandshake(f).resolved {
        HandshakeIsFinal(f);
      }
    }
  }

  // ----- The one case of two reports -----

  /** A 403 that was a temporary ban when the retry transport reported it and is none any more at the classification,
      in an exchange that otherwise ended well and that was admitted as a probe, or whose last attempt was one. */
  predicate ExpiredBan(f: Facts) {
    && f.started && f.end.Finished?
    && match f.rec.outcome
       case None =>
         && (f.Epoch(f.attempt) != 0 || (f.epoch != 0 && !f.aborted))
         && f.rec.Observed() == 403 && !f.rec.Banned(f.times.classify) && !f.Done(f.times.classify)
         && !f.rec.proxyGenerated && !f.rec.writeFailed && !f.rec.localUpgrade && !f.rec.CircuitOpen()
         && f.copyErr.None?
       case Some(o) =>
         && f.Epoch(f.attempt) != 0
         && o.status == Some(403) && !o.failure && !o.clientAborted && !o.local && o.provenance.Unremarkable?
  }

  /** The classification of a finished exchange whose attempt the retry transport has reported. */
  lemma ReportedVerdict(f: Facts)
    requires Plain(f) && Linked(f) && f.AlreadyReported(f.attempt) && f.end.Finished? && f.started && !CopyFailed(f)
    ensures var v := Classify(f, CopyChecked(f), false);
            if f.aborted || CopyAborted(f, f.rec) then AbortedSuccess(f, CopyChecked(f), v) <==> ExpiredBan(f)
            else FinishedSuccess(f, CopyChecked(f), v) <==> ExpiredBan(f)
  {
    var v := Classify(f, CopyChecked(f), false);
    if f.rec.outcome.None? && f.rec.Observed() == 403 {
      assert v.status == 403;
    }
  }

  lemma CopyFailureMeansNoExpiry(f: Facts)
    requires Plain(f) && Linked(f) && f.AlreadyReported(f.attempt) && ExpiredBan(f)
    ensures !CopyFailed(f)
  {
  }

  /** Once the retry transport has reported the attempt's failure, the proxy reports it again, as a success, exactly
      when a 403 ban expired while the body was being copied. */
  lemma ReportedTwiceExactlyOnExpiredBan(f: Facts)
    requires Plain(f) && Linked(f) && f.AlreadyReported(f.attempt)
    ensures Reports(Final(f).calls) == if ExpiredBan(f) then 1 else 0
  {
    HandshakeCounts(f);
    if f.end.AbortPanic? {
      PanicCounts(f);
    } else {
      CopyCheckStarts(f);
      var p, failed := CopyChecked(f), CopyFailed(f);
      ClosingCounts(f, p, Classify(f, p, failed), failed);
      if ExpiredBan(f) {
        CopyFailureMeansNoExpiry(f);
      }
      if f.end.Finished? && f.started && !failed {
        ReportedVerdict(f);
      }
    }
  }

  // ----- The retry loop and the proxy together -----

  /** What ReverseProxy makes of a round trip on a native exchange: a returned response's status reaches the recorder,
      or nothing does; any error ends without a status or with the proxy's own reply. */
  predicate Shows(rec: Recorder, result: Result) {
    || rec.TransportOrGenerated()
    || (&& result.Returned? && result.reply.err.None? && result.reply.resp.Some?
        && rec.Observed() == result.reply.resp.value.status)
  }

  lemma RoundTripLinks(setup: Setup, policy: Reply -> bool, trail: seq<Attempt>, result: Result, f: Facts)
    requires Follows(setup, policy, trail, result) && Describes(f.attempt, trail)
    requires setup.breaker && setup.deferSuccess && Plain(f) && f.rec.outcome.None? && Shows(f.rec, result)
    ensures Linked(f)
  {
    RecordMatchesReports(setup, policy, trail, result, f.attempt);
    if f.attempt.failure && result.Returned? {
      RecordedFailureIsSeen(setup, policy, trail, result, f.attempt);
    }
  }

  /** Over the whole of a native exchange, the retry loop and every way the proxy can end it, the last attempt is
      reported once at most, exactly unless the loop reported a 403 ban that expired during the copy. */
  lemma LastAttemptReportedOnce(setup: Setup, policy: Reply -> bool, trail: seq<Attempt>, result: Result, f: Facts)
    requires Follows(setup, policy, trail, result) && Describes(f.attempt, trail) && trail != []
    requires setup.breaker && setup.deferSuccess && f.breaker && f.retries
    requires Plain(f) && f.rec.outcome.None? && Shows(f.rec, result)
    ensures var last := trail[LastStarted(trail)];
            && f.Epoch(f.attempt) == last.epoch
            && (|last.reports| + Reports(Final(f).calls) <= 1 <==> !(last.reports != [] && ExpiredBan(f)))
  {
    RecordMatchesReports(setup, policy, trail, result, f.attempt);
    if f.attempt.failure {
      RoundTripLinks(setup, policy, trail, result, f);
      ReportedTwiceExactlyOnExpiredBan(f);
    } else {
      AtMostOneReport(f);
    }
  }

  // ----- Every admitted epoch is settled -----

  /** The epoch of the exchange's last attempt is reported or cancelled, by the retry transport or by the proxy,
      exactly unless a resend after a credential refresh failed locally in a retry that held another epoch. */
  lemma EpochSettledExactlyWhen(f: Facts)
    requires Plain(f) && f.breaker
    ensures var settled := f.AlreadyReported(f.attempt) || CallsFor(Final(f).calls, f.Epoch(f.attempt)) > 0;
            settled <==> f.started || f.end.AbortPanic? || f.Epoch(f.attempt) == f.epoch || f.AlreadyReported(f.attempt)
  {
    HandshakeCounts(f);
    if f.end.AbortPanic? {
      PanicCounts(f);
    } else {
      CopyCheckStarts(f);
      var p, failed := CopyChecked(f), CopyFailed(f);
      ClosingSettles(f, p, Classify(f, p, failed), failed);
    }
  }

  // ----- Calls under another epoch than the last attempt's -----

  lemma AbortHandledElsewhere(f: Facts, p: Progress, e: nat)
    requires e != f.Epoch(p.attempt)
    ensures CallsFor(AbortHandled(f, p).calls, e) == CallsFor(p.calls, e)
    ensures f.Epoch(AbortHandled(f, p).attempt) == f.Epoch(p.attempt)
  {
    AbortHandledCounts(f, p);
    if AbortHandled(f, p).calls != p.calls {
      TellCounts(p, AbortHandled(f, p).calls[|p.calls|], e);
      assert AbortHandled(f, p).calls == Tell(p, AbortHandled(f, p).calls[|p.calls|]).calls;
    }
  }

  lemma CancelElsewhere(f: Facts, p: Progress, e: nat)
    requires e != f.Epoch(p.attempt)
    ensures CallsFor(ProbeCancelled(f, p).calls, e) == CallsFor(p.calls, e)
  {
    TellCounts(p, Cancel(f.Epoch(p.attempt)), e);
  }

  lemma ClosedElsewhere(f: Facts, p: Progress, v: Verdict, failed: bool, e: nat)
    requires e != f.Epoch(p.attempt) && (failed ==> p.aborted)
    ensures CallsFor(Closed(f, p, v, failed).calls, e) ==
              CallsFor(p.calls, e) + if f.breaker && !f.started && e == f.epoch then 1 else 0
  {
    ClosedSays(f, p, v, failed);
    ClosingOpConcerns(f, p, v, failed);
    SaidCounts(p, ClosingOp(f, p, v, failed), Closed(f, p, v, failed), e);
  }

  lemma HandshakeElsewhere(f: Facts, e: nat)
    requires e != f.Epoch(f.attempt)
    ensures CallsFor(AfterHandshake(f).calls, e) == 0
  {
    var p := Progress([], f.attempt, f.rec, f.attempted, f.aborted, true);
    assert CallsFor(p.calls, e) == 0;
    TellCounts(p, Success(Some(f.Start(f.attempt)), f.Epoch(f.attempt)), e);
    TellCounts(p, Cancel(f.Epoch(f.attempt)), e);
  }

  /** Without an upstream attempt serveLimited cancels the epoch the exchange was admitted with. */
  predicate CancelsAdmitted(f: Facts) {
    !f.started && !f.end.AbortPanic?
  }

  /** An exchange tells the breaker nothing about any other epoch, except that cancellation. */
  lemma OtherEpochs(f: Facts, e: nat)
    requires f.breaker && e != f.Epoch(f.attempt)
    ensures CallsFor(Final(f).calls, e) == if CancelsAdmitted(f) && e == f.epoch then 1 else 0
  {
    HandshakeElsewhere(f, e);
    HandshakeCounts(f);
    if f.end.AbortPanic? {
      AbortHandledElsewhere(f, AfterHandshake(f), e);
      CancelElsewhere(f, AbortHandled(f, AfterHandshake(f)), e);
    } else {
      MarkedKeeps(f);
      AbortHandledElsewhere(f, Marked(f), e);
      ClosedElsewhere(f, CopyChecked(f), Classify(f, CopyChecked(f), CopyFailed(f)), CopyFailed(f), e);
    }
  }

  /** Probe epochs are never reused (BreakerTheorems.AllowIssuesOneProbe). */
  ghost predicate EpochsDiffer(trail: seq<Attempt>) {
    forall i, j :: 0 <= i < j < |trail| && trail[i].epoch == trail[j].epoch ==> trail[i].epoch == 0
  }

  /** The breaker has heard about the epoch of turn k, by a report or a cancellation of the retry transport or of the
      proxy. */
  predicate EpochSettled(trail: seq<Attempt>, f: Facts, k: nat)
    requires k < |trail|
  {
    trail[k].reports != [] || trail[k].cancels > 0 || CallsFor(Final(f).calls, trail[k].epoch) > 0
  }

  /** Retried on a status of 600 or more, which the breaker does not count. */
  predicate SkippedBy600(trail: seq<Attempt>, f: Facts, k: nat)
    requires k < |trail|
  {
    && k < LastStarted(trail)
    && Beyond600(trail[k].reply)
    && !(k == 0 && CancelsAdmitted(f))
  }

  /** A retry whose resend after a credential refresh failed locally: the proxy cancels the admitted epoch instead. */
  predicate Stranded(trail: seq<Attempt>, f: Facts, k: nat)
    requires k < |trail|
  {
    0 < k == LastStarted(trail) && CancelsAdmitted(f) && !Fails(trail[k]) && trail[k].cancels == 0
  }

  /** Every probe epoch that Allow issued in one exchange is reported or cancelled, exactly unless it was skipped by a
      status of 600 or more or stranded by a local failure. The policy is any that retries no more than the default. */
  lemma EveryEpochSettledExactlyWhen(setup: Setup, policy: Reply -> bool, trail: seq<Attempt>, result: Result, f: Facts,
                                     k: nat)
    requires NoLaxer(policy)
    requires Follows(setup, policy, trail, result) && Describes(f.attempt, trail) && !result.Running?
    requires setup.breaker && setup.deferSuccess && f.breaker && f.retries && Plain(f) && f.epoch == setup.epoch
    requires EpochsDiffer(trail) && k < |trail| && trail[k].epoch != 0
    ensures EpochSettled(trail, f, k) <==> !(SkippedBy600(trail, f, k) || Stranded(trail, f, k))
  {
    RecordMatchesReports(setup, policy, trail, result, f.attempt);
    var last := LastStarted(trail);
    assert f.Epoch(f.attempt) == trail[last].epoch && trail[0].epoch == f.epoch;
    if k < last {
      RetriedWereReportedUnless600(setup, policy, trail, result, k);
      assert trail[k].epoch != trail[last].epoch && (k > 0 ==> trail[k].epoch != trail[0].epoch);
      OtherEpochs(f, trail[k].epoch);
    } else if k == last {
      EpochSettledExactlyWhen(f);
      assert trail[k].reports == Expected(setup, trail[k]);
      assert k > 0 ==> trail[k].epoch != trail[0].epoch;
    } else {
      EndingAccountsForEpoch(setup, policy, trail, result);
    }
  }

  // ----- What the reports mean -----

  /** What a native exchange must show for the breaker to hear a success from the proxy. */
  predicate Answered(f: Facts) {
    var status, now := f.rec.Observed(), f.times.classify;
    && f.breaker && f.started && f.end.Finished?
    && !f.rec.proxyGenerated && !f.rec.localUpgrade && !f.rec.CircuitOpen()
    && !f.rec.writeFailed && !f.Done(now) && f.copyErr.None?
    && status > 0 && !IsFailureStatusWithHeaders(status, f.rec.Banned(now))
    && if f.aborted then f.Epoch(f.attempt) != 0 && status >= 300
       else f.Epoch(f.attempt) != 0 || (f.epoch != 0 && !(f.retries && f.attempt.epoch != 0)) || 200 <= status < 300
  }

  lemma AnsweredVerdict(f: Facts)
    requires Plain(f) && f.breaker && f.rec.outcome.None? && f.handshake.NoHandshake? && f.end.Finished? && f.started
    ensures var v := Classify(f, CopyChecked(f), CopyFailed(f));
            if Marked(f).aborted then !CopyFailed(f) && AbortedSuccess(f, CopyChecked(f), v) <==> Answered(f)
            else FinishedSuccess(f, CopyChecked(f), v) <==> Answered(f)
  {
    MarkedKeeps(f);
    CopyCheckCounts(f);
  }

  predicate EndsInSuccess(calls: seq<Op>) {
    calls != [] && calls[|calls| - 1].Success?
  }

  /** The proxy reports a success exactly for a complete answer of the upstream that is no failure and that the client
      waited for; outside a probe only a 2xx counts. */
  lemma SuccessExactlyWhen(f: Facts)
    requires Plain(f) && f.rec.outcome.None? && f.handshake.NoHandshake?
    ensures EndsInSuccess(Final(f).calls) <==> Answered(f)
  {
    if f.breaker && f.end.Finished? && f.started {
      AnsweredVerdict(f);
      ClosesInSuccess(f, CopyChecked(f), Classify(f, CopyChecked(f), CopyFailed(f)), CopyFailed(f));
    } else {
      UnansweredEndsOtherwise(f);
    }
  }

  predicate NoSuccess(calls: seq<Op>) {
    forall i :: 0 <= i < |calls| ==> !calls[i].Success?
  }

  lemma HandlingTellsNoSuccess(f: Facts, p: Progress)
    requires NoSuccess(p.calls)
    ensures NoSuccess(AbortHandled(f, p).calls)
  {
  }

  /** Nothing was told, or one call. */
  predicate TellsOne(before: seq<Op>, after: seq<Op>) {
    after == before || (after != [] && after[..|after| - 1] == before)
  }

  lemma CancelTellsOne(f: Facts, p: Progress)
    ensures TellsOne(p.calls, ProbeCancelled(f, p).calls)
  {
  }

  lemma SilentHandshake(f: Facts)
    requires f.handshake.NoHandshake?
    ensures AfterHandshake(f).calls == [] && Marked(f).calls == []
  {
  }

  /** Without a protocol switch only the last call can be a success. */
  lemma NoEarlierSuccess(f: Facts)
    requires f.handshake.NoHandshake?
    ensures Final(f).calls == [] || NoSuccess(Final(f).calls[..|Final(f).calls| - 1])
  {
    SilentHandshake(f);
    if f.end.AbortPanic? {
      HandlingTellsNoSuccess(f, AfterHandshake(f));
      CancelTellsOne(f, AbortHandled(f, AfterHandshake(f)));
    } else {
      HandlingTellsNoSuccess(f, Marked(f));
      TellsAtMostOne(f, CopyChecked(f), Classify(f, CopyChecked(f), CopyFailed(f)), CopyFailed(f));
    }
  }

  lemma TellsAtMostOne(f: Facts, p: Progress, v: Verdict, abortFailure: bool)
    ensures TellsOne(p.calls, Closed(f, p, v, abortFailure).calls)
  {
  }

  lemma ClosesInSuccess(f: Facts, p: Progress, v: Verdict, abortFailure: bool)
    requires f.breaker && f.end.Finished? && f.started && !EndsInSuccess(p.calls)
    ensures EndsInSuccess(Closed(f, p, v, abortFailure).calls) <==>
              if p.aborted then !abortFailure && AbortedSuccess(f, p, v) else FinishedSuccess(f, p, v)
  {
  }

  lemma UnansweredEndsOtherwise(f: Facts)
    requires Plain(f) && f.handshake.NoHandshake? && !(f.breaker && f.end.Finished? && f.started)
    ensures !EndsInSuccess(Final(f).calls)
  {
    SilentHandshake(f);
    var p := if f.end.AbortPanic? then AfterHandshake(f) else Marked(f);
    HandlingTellsNoSuccess(f, p);
    if f.end.AbortPanic? {
      assert !EndsInSuccess(ProbeCancelled(f, AbortHandled(f, p)).calls);
    } else {
      EndsWithout(f, CopyChecked(f), Classify(f, CopyChecked(f), CopyFailed(f)), CopyFailed(f));
    }
  }

  lemma EndsWithout(f: Facts, p: Progress, v: Verdict, failed: bool)
    requires NoSuccess(p.calls) && !(f.breaker && f.end.Finished? && f.started) && !f.end.AbortPanic?
    ensures !EndsInSuccess(Closed(f, p, v, failed).calls)
  {
  }

  /** The upstream itself answered a native exchange with a 5xx or 429, and the proxy's own code did not panic. */
  predicate UpstreamRefused(f: Facts) {
    && Plain(f) && f.started && !f.end.LocalPanic? && f.rec.outcome.None?
    && (f.rec.Observed() == 429 || 500 <= f.rec.Observed() < 600)
    && !f.rec.proxyGenerated && !f.rec.localUpgrade && !f.rec.CircuitOpen()
  }

  lemma RefusalHasNoHandshake(f: Facts)
    requires UpstreamRefused(f)
    ensures f.handshake.NoHandshake? && !AfterHandshake(f).resolved
    ensures !Answered(f)
  {
  }

  lemma RefusalClassified(f: Facts, p: Progress, failed: bool)
    requires UpstreamRefused(f) && p.rec == f.rec
    ensures var v := Classify(f, p, failed); v.failure && !v.suppressible && v.attempted && v.status == f.rec.Observed()
  {
  }

  lemma RefusalAborts(f: Facts)
    requires UpstreamRefused(f)
    ensures AbortIsFailure(f, AfterHandshake(f))
  {
  }

  /** A definitive 5xx or 429 of the upstream is on record however the copy ended and whatever the client did, unless
      the proxy's own code panicked. */
  lemma DefinitiveFailureSurvivesDisconnect(f: Facts)
    requires UpstreamRefused(f) && f.breaker
    ensures f.AlreadyReported(f.attempt) || Reports(Final(f).calls) == 1
    ensures !EndsInSuccess(Final(f).calls)
  {
    RefusalHasNoHandshake(f);
    SuccessExactlyWhen(f);
    HandshakeCounts(f);
    if f.end.AbortPanic? {
      RefusalAborts(f);
      PanicCounts(f);
    } else {
      CopyCheckStarts(f);
      var p, failed := CopyChecked(f), CopyFailed(f);
      RefusalClassified(f, p, failed);
      ClosingCounts(f, p, Classify(f, p, failed), failed);
    }
  }

  /** A transport error that is not the client's own cancellation, a failure status or no status at all, or an unclean
      upstream body. */
  predicate HasCause(f: Facts) {
    || f.rec.RealTransportError(true, f.Done(f.times.abort))
    || (&& IsFailureStatusWithHeaders(f.rec.Observed(), f.rec.Banned(f.times.abort))
        && !f.rec.localUpgrade && !f.rec.CircuitOpen())
    || (f.copyErr.Some? && !(f.copyErr.value.cancellation && f.Done(f.times.abort)))
  }

  lemma CopyFailureHasCause(f: Facts)
    requires Plain(f) && f.handshake.NoHandshake? && f.end.Finished? && CopyFailed(f)
    ensures HasCause(f)
  {
  }

  lemma VerdictHasCause(f: Facts, p: Progress)
    requires Plain(f) && f.rec.outcome.None? && f.started && p.rec == f.rec
    requires var v := Classify(f, p, false); v.failure && !v.suppressible
    ensures HasCause(f)
  {
  }

  /** The proxy blames the upstream for a finished exchange only with such a cause, and only for an attempt that the
      retry transport has not reported. */
  lemma FailureHasCause(f: Facts)
    requires Plain(f) && f.rec.outcome.None? && f.handshake.NoHandshake? && f.end.Finished?
    requires Reports(Final(f).calls) == 1 && !EndsInSuccess(Final(f).calls)
    ensures f.breaker && f.started && !f.AlreadyReported(f.attempt) && HasCause(f)
  {
    HandshakeCounts(f);
    SilentHandshake(f);
    CopyCheckStarts(f);
    var p, failed := CopyChecked(f), CopyFailed(f);
    ClosingCounts(f, p, Classify(f, p, failed), failed);
    if failed {
      CopyFailureHasCause(f);
    } else {
      if f.breaker && f.started {
        ClosesInSuccess(f, p, Classify(f, p, false), false);
      }
      VerdictHasCause(f, p);
    }
  }

  /** What a transcoded exchange must show for the breaker to hear a success: an upstream answer without any failure,
      abandonment or local defect, and outside a probe a 2xx that was delivered whole. */
  predicate Converted(f: Facts, o: Outcome) {
    && f.breaker && f.started && f.end.Finished?
    && !o.failure && !o.local && !o.clientAborted && o.provenance.Unremarkable?
    && o.status.Some?
    && if f.aborted then f.Epoch(f.attempt) != 0 && o.status.value >= 300
       else || (f.Epoch(f.attempt) != 0 && o.status.value > 0)
            || (!f.rec.writeFailed && o.complete && 200 <= o.status.value < 300)
  }

  lemma ConvertedVerdict(f: Facts, o: Outcome)
    requires Plain(f) && f.breaker && f.rec.outcome == Some(o) && f.end.Finished? && f.started
    ensures !CopyFailed(f) && Marked(f).aborted == f.aborted
    ensures var v := Classify(f, CopyChecked(f), false);
            if f.aborted then AbortedSuccess(f, CopyChecked(f), v) <==> Converted(f, o)
            else FinishedSuccess(f, CopyChecked(f), v) <==> Converted(f, o)
  {
    MarkedKeeps(f);
    CopyCheckCounts(f);
  }

  /** The same for a transcoded exchange, whose recorded outcome alone decides. */
  lemma TranscodedSuccessExactlyWhen(f: Facts, o: Outcome)
    requires Plain(f) && f.rec.outcome == Some(o)
    ensures EndsInSuccess(Final(f).calls) <==> Converted(f, o)
  {
    if f.breaker && f.end.Finished? && f.started {
      ConvertedVerdict(f, o);
      SilentHandshake(f);
      ClosesInSuccess(f, CopyChecked(f), Classify(f, CopyChecked(f), false), false);
    } else {
      UnansweredEndsOtherwise(f);
    }
  }
}
