/** Who tells the breaker what about one limited exchange: internal/proxy/classify.go, the status predicates of
    internal/proxy/recorder.go, the handshake hooks of internal/proxy/upgrade.go and the end of serveLimited in
    internal/proxy/limited.go.

    The transport is the one buildUpstreamTransport makes over a plain base transport: with retries on it owns an
    attempt record, and reports failures itself when there is a breaker.
  */
module Exchange {
  import opened Prelude
  import opened RetryTransport
  import opened BreakerTheorems

  // ----- The recorder -----

  /** errors.Is(err, ErrCircuitOpen) beside the two facts about every error. */
  datatype TransportError = TransportError(nonRetryable: bool, cancellation: bool, circuitOpen: bool)

  datatype Provenance = LocalRequestConversion | LocalOther | ClientAbort | Unremarkable

  datatype Outcome = Outcome(
    attempted: bool, status: Option<int>, failure: bool, retryAfter: Option<nat>, provenance: Provenance,
    clientAborted: bool, complete: bool, local: bool)

  /** The response headers as the breaker reads them: a 403 is a ban until banUntil (always when None), and
      Retry-After counts down to retryAt. */
  datatype Headers = Headers(banUntil: Option<int>, retryAt: int)

  datatype Committed = Committed(override: nat, okObserved: bool, okStatus: nat)

  /** statusRecorder; committed is None until the queue comments committed the stream. Its upstreamAttempted and
      aborted are the flags that a resolution writes: they are passed to the predicates and live in Progress. */
  datatype Recorder = Recorder(
    status: nat, terminal: bool, committed: Option<Committed>, headers: Headers,
    writeFailed: bool, proxyGenerated: bool, transportErr: Option<TransportError>,
    localUpgrade: bool, outcome: Option<Outcome>)
  {
    function Observed(): nat {
      match committed
      case None => status
      case Some(c) =>
        if c.override > 0 then c.override
        else if c.okObserved then (if c.okStatus > 0 then c.okStatus else 200) else 0
    }

    predicate TransportOrGenerated() {
      Observed() == 0 || proxyGenerated
    }

    predicate CircuitOpen() {
      transportErr.Some? && transportErr.value.circuitOpen
    }

    /** hasRealProxyTransportError; done is whether the request's context has ended. */
    predicate RealTransportError(attempted: bool, done: bool) {
      && !localUpgrade
      && !CircuitOpen()
      && attempted
      && proxyGenerated
      && transportErr.Some?
      && !transportErr.value.nonRetryable
      && !(transportErr.value.cancellation && done)
    }

    predicate SuppressibleAbort(attempted: bool, done: bool) {
      && TransportOrGenerated()
      && !RealTransportError(attempted, done)
      && (writeFailed || (done && (transportErr.None? || transportErr.value.cancellation)))
    }

    predicate Banned(now: int) {
      headers.banUntil.None? || now < headers.banUntil.value
    }

    function RetryAfter(now: int): nat {
      Max(0, headers.retryAt - now)
    }

    /** isUpstreamFailureStatus */
    predicate UpstreamFailure(attempted: bool, now: int, done: bool) {
      if proxyGenerated && !RealTransportError(attempted, done) then false
      else if localUpgrade || CircuitOpen() || !attempted then false
      else if done && 200 <= Observed() < 300 then false
      else IsFailureStatusWithHeaders(Observed(), Banned(now))
    }

    /** recoverLocalPanic: http.Error with a 502 on an open stream, a failed close on a committed one. */
    function Recovered(): Recorder {
      match committed
      case None => if terminal then this else this.(proxyGenerated := true, status := 502, terminal := true)
      case Some(c) =>
        if c.override == 0 && !c.okObserved
        then this.(proxyGenerated := true, committed := Some(c.(override := 502)))
        else this.(proxyGenerated := proxyGenerated || !terminal)
    }
  }

  // ----- One exchange -----

  datatype End =
    | Finished
    | AbortPanic   // http.ErrAbortHandler
    | LocalPanic

  datatype Handshake = NoHandshake | Switched | HandshakeFailed

  /** When the three readings of the clock and of the request's context happen: in the abort handler, in
      recordAbortFailure, and at the classification. */
  datatype Times = Times(abort: int, record: int, classify: int) {
    predicate Ordered() {
      abort <= record <= classify
    }
  }

  /** Everything the end of serveLimited looks at. rec and attempt are as the handler left them; a zero attempt
      stands for none when retries are off. */
  datatype Facts = Facts(
    breaker: bool, retries: bool, startedAt: int, epoch: nat, started: bool, attempt: Record, rec: Recorder,
    attempted: bool, aborted: bool, copyErr: Option<Err>, handshake: Handshake, end: End, doneAt: Option<int>,
    times: Times)
  {
    predicate Done(now: int) {
      doneAt.Some? && doneAt.value <= now
    }

    /** retryAttemptOrDefault */
    function Start(a: Record): int {
      if retries && a.startedAt.Some? then a.startedAt.value else startedAt
    }

    function Epoch(a: Record): nat {
      if retries && a.startedAt.Some? then a.epoch else epoch
    }

    /** The proxy leaves a failure to the retry transport that reported it. */
    predicate AlreadyReported(a: Record) {
      retries && breaker && a.failure
    }
  }

  /** What changes while an exchange is resolved: the calls made on the breaker so far, the attempt record and the
      recorder with its flags. resolved is switchingProtocolsProbeResolved. */
  datatype Progress = Progress(
    calls: seq<Op>, attempt: Record, rec: Recorder, attempted: bool, aborted: bool, resolved: bool)

  datatype Verdict = Verdict(
    attempted: bool, status: int, failure: bool, success: bool, retryAfter: nat, clientAborted: bool, local: bool,
    switched: bool, suppressible: bool)

  // ----- Classification -----

  predicate BreakerSuccess(p: Progress, now: int, epoch: nat, done: bool) {
    && !p.rec.TransportOrGenerated()
    && !p.rec.localUpgrade
    && !p.rec.CircuitOpen()
    && p.attempted
    && !(p.rec.status == 101 && p.resolved)
    && (|| 200 <= p.rec.Observed() < 300
        || (epoch != 0 && p.rec.Observed() > 0 && !p.rec.UpstreamFailure(p.attempted, now, done)))
  }

  function ClassifyNative(f: Facts, p: Progress, abortFailure: bool): Verdict {
    var now, done := f.times.classify, f.Done(f.times.classify);
    var q := p.(attempted := p.attempted || f.started);
    var epoch := if f.retries && p.attempt.epoch != 0 then p.attempt.epoch else f.epoch;
    var aborted := done || q.rec.writeFailed;
    var failure := q.rec.UpstreamFailure(q.attempted, now, done) || abortFailure;
    var local := || (q.rec.proxyGenerated && !q.rec.RealTransportError(q.attempted, done))
                 || q.rec.localUpgrade
                 || q.rec.CircuitOpen()
                 || (!f.started && q.rec.Observed() > 0 && !q.rec.RealTransportError(q.attempted, done));
    Verdict(f.started, q.rec.Observed(), failure, !failure && !local && !aborted && BreakerSuccess(q, now, epoch, done),
            q.rec.RetryAfter(now), aborted, local, q.rec.status == 101 && q.resolved,
            q.rec.SuppressibleAbort(q.attempted, done))
  }

  function ClassifyTranscode(f: Facts, rec: Recorder, o: Outcome): Verdict {
    var aborted := o.clientAborted || o.provenance.ClientAbort?;
    var local := o.local || o.provenance.LocalRequestConversion? || o.provenance.LocalOther?;
    var answered := o.status.Some? && 200 <= o.status.value < 300;
    Verdict(o.attempted || (f.started && !o.provenance.LocalRequestConversion?),
            if o.status.Some? then o.status.value else 0, o.failure,
            !o.failure && !local && !aborted && !rec.writeFailed && o.complete && answered,
            if o.retryAfter.Some? then o.retryAfter.value else 0, aborted, local, false, aborted && !o.failure)
  }

  function Classify(f: Facts, p: Progress, abortFailure: bool): Verdict {
    match p.rec.outcome
    case Some(o) => ClassifyTranscode(f, p.rec, o)
    case None => ClassifyNative(f, p, abortFailure)
  }

  // ----- Resolution -----

  function Tell(p: Progress, op: Op): Progress {
    p.(calls := p.calls + [op])
  }

  /** The handshake hooks, installed when there is a breaker: the first one to run for a probe resolves it. */
  function AfterHandshake(f: Facts): Progress {
    var p := Progress([], f.attempt, f.rec, f.attempted, f.aborted, false);
    if !f.breaker || f.handshake.NoHandshake? || f.Epoch(f.attempt) == 0 then p
    else if f.handshake.Switched? then Tell(p.(resolved := true), Success(Some(f.Start(f.attempt)), f.Epoch(f.attempt)))
    else Tell(p.(resolved := true), Cancel(f.Epoch(f.attempt)))
  }

  /** recordAbortFailure */
  function AbortRecorded(f: Facts, p: Progress): Progress {
    if !f.breaker || f.AlreadyReported(p.attempt) then p
    else
      var now := f.times.record;
      var counted := !p.rec.TransportOrGenerated() && p.rec.UpstreamFailure(p.attempted, now, f.Done(now));
      var retryAfter := if counted then p.rec.RetryAfter(now) else 0;
      Tell(p.(attempt := if f.retries then p.attempt.(failure := true, anyFailure := true) else p.attempt),
           Failure(retryAfter, Some(f.Start(p.attempt)), f.Epoch(p.attempt)))
  }

  /** What handleAbortHandler decides: whether the abort is an upstream failure. */
  predicate AbortIsFailure(f: Facts, p: Progress) {
    var now, done := f.times.abort, f.Done(f.times.abort);
    var attempted := p.attempted || f.started;
    || p.rec.RealTransportError(attempted, done)
    || (!p.rec.TransportOrGenerated() && p.rec.UpstreamFailure(attempted, now, done))
    || (if f.copyErr.Some? then !(f.copyErr.value.cancellation && done) else !p.rec.writeFailed && !done)
  }

  function AbortHandled(f: Facts, p: Progress): Progress {
    var q := p.(attempted := p.attempted || f.started);
    if AbortIsFailure(f, p) then AbortRecorded(f, q) else q
  }

  /** cancelSuppressedAbortProbe */
  function ProbeCancelled(f: Facts, p: Progress): Progress {
    if !f.breaker || (f.retries && p.attempt.failure) then p else Tell(p, Cancel(f.Epoch(p.attempt)))
  }

  /** recordFailureOnce */
  function FailureOnce(f: Facts, p: Progress, v: Verdict): Progress {
    if !f.breaker || f.AlreadyReported(p.attempt) then p
    else Tell(p, Failure(v.retryAfter, Some(f.Start(p.attempt)), f.Epoch(p.attempt)))
  }

  predicate Definitive(v: Verdict) {
    !v.clientAborted && !v.failure && !v.local && !v.suppressible && !v.switched
  }

  function ResolvedAborted(f: Facts, p: Progress, v: Verdict, abortFailure: bool): Progress {
    if !f.breaker || abortFailure then p
    else if v.failure && !v.suppressible then FailureOnce(f, p, v)
    else if f.Epoch(p.attempt) != 0 && v.status >= 300 && Definitive(v) then
      Tell(p, Success(Some(f.Start(p.attempt)), f.Epoch(p.attempt)))
    else ProbeCancelled(f, p)
  }

  function ResolvedResult(f: Facts, p: Progress, v: Verdict): Progress {
    if !f.breaker then p
    else if v.failure && !v.suppressible then FailureOnce(f, p, v)
    else if (v.success && !v.suppressible) || (f.Epoch(p.attempt) != 0 && v.status > 0 && Definitive(v)) then
      Tell(p, Success(Some(f.Start(p.attempt)), f.Epoch(p.attempt)))
    else ProbeCancelled(f, p)
  }

  /** handleSuppressedAbort's test: the copy failed, or the transport gave up with the client. */
  predicate CopyAborted(f: Facts, rec: Recorder) {
    && rec.outcome.None?
    && (f.copyErr.Some? || rec.writeFailed ||
        (rec.transportErr.Some? && rec.transportErr.value.cancellation && f.Done(f.times.abort)))
  }

  datatype Resolution = Resolution(progress: Progress, verdict: Verdict, abortFailure: bool)

  /** The recorder once a returned or recovered handler's copy failure has been noticed. */
  function Marked(f: Facts): Progress {
    var p := AfterHandshake(f);
    var rec := if f.end.LocalPanic? then p.rec.Recovered() else p.rec;
    p.(rec := rec, aborted := p.aborted || f.end.LocalPanic? || CopyAborted(f, rec))
  }

  /** handleSuppressedAbort's verdict. */
  predicate CopyFailed(f: Facts) {
    CopyAborted(f, Marked(f).rec) && f.started && AbortIsFailure(f, Marked(f))
  }

  function CopyChecked(f: Facts): Progress {
    if CopyAborted(f, Marked(f).rec) && f.started then AbortHandled(f, Marked(f)) else Marked(f)
  }

  function Closed(f: Facts, p: Progress, v: Verdict, abortFailure: bool): Progress {
    if !f.started then (if f.breaker then Tell(p, Cancel(f.epoch)) else p)
    else if f.end.LocalPanic? then ProbeCancelled(f, p)
    else if p.aborted then ResolvedAborted(f, p, v, abortFailure)
    else ResolvedResult(f, p, v)
  }

  /** serveLimited after its handler has ended. */
  function Resolved(f: Facts): Resolution {
    if f.end.AbortPanic? then
      var p := AfterHandshake(f);
      var failed := AbortIsFailure(f, p);
      var q := if failed then AbortHandled(f, p) else ProbeCancelled(f, AbortHandled(f, p));
      Resolution(q, Classify(f, q, failed), failed)
    else
      var p, failed := CopyChecked(f), CopyFailed(f);
      var v := Classify(f, p, failed);
      Resolution(Closed(f, p, v, failed), v, failed)
  }

  // ----- The proxy's side of an exchange as an object -----

  /** The state serveLimited shares with the functions of classify.go: the breaker's callers see only the calls. */
  class Resolver {
    const facts: Facts
    var calls: seq<Op>
    var attempt: Record
    var rec: Recorder
    var attempted: bool
    var aborted: bool
    var resolved: bool

    ghost function View(): Progress
      reads this
    {
      Progress(calls, attempt, rec, attempted, aborted, resolved)
    }

    constructor (facts: Facts)
      ensures this.facts == facts
      ensures View() == Progress([], facts.attempt, facts.rec, facts.attempted, facts.aborted, false)
    {
      this.facts := facts;
      calls, attempt, resolved := [], facts.attempt, false;
      rec, attempted, aborted := facts.rec, facts.attempted, facts.aborted;
    }

    /** The hook ReverseProxy reaches once the handshake is written, or the error handler when it is not. */
    method OnHandshake(switched: bool)
      requires facts.breaker
      modifies this
      ensures facts.Epoch(old(attempt)) == 0 || old(resolved) ==> View() == old(View())
      ensures facts.Epoch(old(attempt)) != 0 && !old(resolved) ==>
                View() == Tell(old(View()).(resolved := true),
                               if switched then Success(Some(facts.Start(old(attempt))), facts.Epoch(old(attempt)))
                               else Cancel(facts.Epoch(old(attempt))))
    {
      var start, epoch := facts.Start(attempt), facts.Epoch(attempt);
      if epoch == 0 || resolved {
        return;
      }
      resolved := true;
      if switched {
        calls := calls + [Success(Some(start), epoch)];
      } else {
        calls := calls + [Cancel(epoch)];
      }
    }

    method RecordAbortFailure()
      modifies this
      ensures View() == AbortRecorded(facts, old(View()))
    {
      if !facts.breaker {
        return;
      }
      var now, start, epoch := facts.times.record, facts.Start(attempt), facts.Epoch(attempt);
      if facts.retries && attempt.failure {
        return;
      }
      var retryAfter := 0;
      if !rec.TransportOrGenerated() && rec.UpstreamFailure(attempted, now, facts.Done(now)) {
        retryAfter := rec.RetryAfter(now);
      }
      calls := calls + [Failure(retryAfter, Some(start), epoch)];
      if facts.retries {
        attempt := attempt.(failure := true, anyFailure := true);
      }
    }

    /** The branches of handleAbortHandler. */
    method DecideAbort() returns (failed: bool)
      modifies `attempted
      ensures failed == AbortIsFailure(facts, old(View()))
      ensures View() == old(View()).(attempted := old(attempted) || facts.started)
    {
      var now, done := facts.times.abort, facts.Done(facts.times.abort);
      if !attempted {
        attempted := facts.started;
      }
      if rec.RealTransportError(attempted, done) {
        return true;
      }
      if !rec.TransportOrGenerated() && rec.UpstreamFailure(attempted, now, done) {
        return true;
      }
      if facts.copyErr.Some? {
        return !(facts.copyErr.value.cancellation && done);
      }
      return !rec.writeFailed && !done;
    }

    method HandleAbortHandler() returns (failed: bool)
      modifies this
      ensures failed == AbortIsFailure(facts, old(View()))
      ensures View() == AbortHandled(facts, old(View()))
    {
      failed := DecideAbort();
      if failed {
        RecordAbortFailure();
      }
    }

    method HandleSuppressedAbort() returns (failed: bool)
      modifies this
      ensures var p := old(View());
              var marked := if CopyAborted(facts, p.rec) then p.(aborted := true) else p;
              && failed == (CopyAborted(facts, p.rec) && facts.started && AbortIsFailure(facts, marked))
              && View() == (if CopyAborted(facts, p.rec) && facts.started then AbortHandled(facts, marked) else marked)
    {
      if rec.outcome.Some? {
        return false;
      }
      var copyFailed := facts.copyErr.Some? || rec.writeFailed;
      var done := facts.Done(facts.times.abort);
      var transportCanceled := rec.transportErr.Some? && done && rec.transportErr.value.cancellation;
      if !copyFailed && !transportCanceled {
        return false;
      }
      aborted := true;
      if !facts.started {
        return false;
      }
      failed := HandleAbortHandler();
    }

    method CancelSuppressedAbortProbe()
      modifies this
      ensures View() == ProbeCancelled(facts, old(View()))
    {
      if !facts.breaker || (facts.retries && attempt.failure) {
        return;
      }
      calls := calls + [Cancel(facts.Epoch(attempt))];
    }

    method RecordFailureOnce(v: Verdict)
      modifies this
      ensures View() == FailureOnce(facts, old(View()), v)
    {
      if !facts.breaker || (facts.retries && attempt.failure) {
        return;
      }
      calls := calls + [Failure(v.retryAfter, Some(facts.Start(attempt)), facts.Epoch(attempt))];
    }

    method ResolveAbortedExchange(v: Verdict, abortFailure: bool)
      modifies this
      ensures View() == ResolvedAborted(facts, old(View()), v, abortFailure)
    {
      if !facts.breaker || abortFailure {
        return;
      }
      if v.failure && !v.suppressible {
        RecordFailureOnce(v);
        return;
      }
      var start, epoch := facts.Start(attempt), facts.Epoch(attempt);
      if epoch != 0 && v.status >= 300 && Definitive(v) {
        calls := calls + [Success(Some(start), epoch)];
        return;
      }
      CancelSuppressedAbortProbe();
    }

    method ResolveBreakerResult(v: Verdict)
      modifies this
      ensures View() == ResolvedResult(facts, old(View()), v)
    {
      if !facts.breaker {
        return;
      }
      var start, epoch := facts.Start(attempt), facts.Epoch(attempt);
      if v.failure && !v.suppressible {
        RecordFailureOnce(v);
      } else if v.success && !v.suppressible {
        calls := calls + [Success(Some(start), epoch)];
      } else if epoch != 0 && v.status > 0 && Definitive(v) {
        calls := calls + [Success(Some(start), epoch)];
      } else if !(facts.retries && attempt.failure) {
        calls := calls + [Cancel(epoch)];
      }
    }

    /** The recovered panic and the copy check after a handler that did not re-panic. */
    method CheckCopy() returns (failed: bool)
      requires View() == AfterHandshake(facts) && !facts.end.AbortPanic?
      modifies this
      ensures failed == CopyFailed(facts) && View() == CopyChecked(facts)
    {
      if facts.end.LocalPanic? {
        rec, aborted := rec.Recovered(), true;
      }
      failed := HandleSuppressedAbort();
    }

    /** The end of serveLimited after that check. */
    method Close(verdict: Verdict, abortFailure: bool)
      modifies this
      ensures View() == Closed(facts, old(View()), verdict, abortFailure)
    {
      if !facts.started {
        if facts.breaker {
          calls := calls + [Cancel(facts.epoch)];
        }
      } else if facts.end.LocalPanic? {
        CancelSuppressedAbortProbe();
      } else if aborted {
        ResolveAbortedExchange(verdict, abortFailure);
      } else {
        ResolveBreakerResult(verdict);
      }
    }

    /** The end of serveLimited: what happens once the handler has returned or panicked. */
    method Resolve() returns (verdict: Verdict, abortFailure: bool)
      requires View() == Progress([], facts.attempt, facts.rec, facts.attempted, facts.aborted, false)
      modifies this
      ensures Resolution(View(), verdict, abortFailure) == Resolved(facts)
    {
      if facts.breaker && !facts.handshake.NoHandshake? {
        OnHandshake(facts.handshake.Switched?);
      }
      if facts.end.AbortPanic? {
        abortFailure := HandleAbortHandler();
        if !abortFailure {
          CancelSuppressedAbortProbe();
        }
        verdict := Classify(facts, Progress(calls, attempt, rec, attempted, aborted, resolved), abortFailure);
        return;
      }
      abortFailure := CheckCopy();
      verdict := Classify(facts, Progress(calls, attempt, rec, attempted, aborted, resolved), abortFailure);
      Close(verdict, abortFailure);
    }
  }
}
