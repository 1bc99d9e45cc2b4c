/** serveLimited of internal/proxy/limited.go as a sequence of effects: admission, the two limiters, the exchange, and
    how the slots go back.
  */
module ServeLimited {
  import opened Prelude
  import opened BreakerTheorems
  import opened Exchange
  import opened ExchangeTheorems

  datatype Settings = Settings(
    breaker: bool, queueDepthLimit: int, globalLimiter: bool, adaptiveHeadroom: bool, failureHold: int,
    cancelCooldown: int)

  /** What the rest of the system answers, in the order serveLimited asks. The facts are those of the handler's run;
      releaseAt is when the slot-release defer looks at the request's context. */
  datatype World = World(
    wouldAllow: bool, routeWaiters: int, globalWaiters: int, contextEnded: bool, allow: Option<nat>,
    routeGranted: bool, globalGranted: bool, facts: Facts, releaseAt: int, penalty: nat)

  /** The gauges, and how often each limiter's slot was taken and given back. */
  datatype Books = Books(
    queued: int, active: int, routeTaken: nat, routeBack: nat, globalTaken: nat, globalBack: nat, reductions: nat)

  /** A pending time.AfterFunc over the releaseSlots closure. */
  datatype Timer = Timer(delay: int)

  datatype Ending = CircuitOpen | QueueFull | AdmissionFailed | Served(repanics: bool)

  // ----- How long the slots are held -----

  datatype Hold = AtOnce | Penalty | FailureHold | CancelCooldown

  predicate ClientGone(f: Facts, at: int) {
    f.Done(at) || f.rec.writeFailed
  }

  /** retryHistoricalFailureCanDriveSlot */
  predicate HistoryCounts(p: Progress, finalUnclean: bool) {
    finalUnclean && !p.rec.localUpgrade && !(p.rec.Observed() > 0 && !p.rec.TransportOrGenerated())
  }

  /** retryAttemptFailureForSlot */
  predicate RetryFailed(f: Facts, p: Progress, finalUnclean: bool) {
    f.retries && (p.attempt.failure || (HistoryCounts(p, finalUnclean) && p.attempt.anyFailure))
  }

  /** The branch of the slot-release defer for an exchange that did not panic locally. */
  function HoldFor(s: Settings, f: Facts, r: Resolution, at: int): Hold {
    var p, v := r.progress, r.verdict;
    var gone := f.Done(at) || p.rec.writeFailed;
    var retryFailed := RetryFailed(f, p, gone || p.aborted);
    var held := v.attempted && !(v.suppressible && !retryFailed) && (v.failure || retryFailed);
    if s.breaker && held then Penalty
    else if s.failureHold > 0 && held then FailureHold
    else if (gone || p.rec.localUpgrade) && v.attempted && s.cancelCooldown > 0 then CancelCooldown
    else AtOnce
  }

  /** The releaseSlots closure: the global slot when there is one, then the route's. */
  function GiveBack(b: Books): Books
    requires b.routeBack < b.routeTaken && b.globalBack <= b.globalTaken
  {
    b.(globalBack := b.globalTaken, routeBack := b.routeBack + 1)
  }

  predicate Settled(b: Books) {
    && b.queued == 0 && b.active == 0
    && b.routeBack == b.routeTaken <= 1
    && b.globalBack == b.globalTaken <= b.routeTaken
    && b.reductions <= b.routeTaken
  }

  /** Every slot taken goes back exactly once: now, with no timer pending, or when the one timer fires. */
  predicate Balanced(b: Books, timer: Option<Timer>) {
    match timer
    case None => Settled(b)
    case Some(_) => b.routeBack == b.globalBack == 0 && b.routeTaken == 1 && Settled(GiveBack(b))
  }

  function Delay(s: Settings, penalty: nat, h: Hold): Option<Timer> {
    match h
    case AtOnce => None
    case Penalty => Some(Timer(penalty))
    case FailureHold => Some(Timer(s.failureHold))
    case CancelCooldown => Some(Timer(s.cancelCooldown))
  }

  predicate Reduces(s: Settings, f: Facts, v: Verdict) {
    s.adaptiveHeadroom && !f.end.LocalPanic? && v.attempted && v.status == 429
  }

  /** The slot-release defer. */
  method ReleaseSlots(s: Settings, f: Facts, r: Resolution, w: World, b: Books)
    returns (after: Books, timer: Option<Timer>)
    requires b.routeTaken == 1 && b.routeBack == 0 && b.globalBack == 0 && b.globalTaken <= 1
    requires b.queued == 0 && b.active == 0 && b.reductions == 0
    ensures Balanced(after, timer)
    ensures after.routeTaken == 1 && after.globalTaken == b.globalTaken
    ensures timer == if f.end.LocalPanic? then None else Delay(s, w.penalty, HoldFor(s, f, r, w.releaseAt))
    ensures after.reductions == if Reduces(s, f, r.verdict) then 1 else 0
  {
    after := b;
    if f.end.LocalPanic? {
      return GiveBack(after), None;
    }
    var p, v := r.progress, r.verdict;
    if s.adaptiveHeadroom && v.attempted && v.status == 429 {
      after := after.(reductions := 1);
    }
    var clientCancel := f.Done(w.releaseAt) || p.rec.writeFailed;
    var finalUnclean := clientCancel || p.aborted;
    var retryRecordedFailure := RetryFailed(f, p, finalUnclean);
    var suppressed := v.suppressible && !retryRecordedFailure;
    var upstreamFailure := v.failure || retryRecordedFailure;
    if s.breaker && v.attempted && !suppressed && upstreamFailure {
      return after, Some(Timer(w.penalty));
    }
    if s.failureHold > 0 && v.attempted && !suppressed && upstreamFailure {
      return after, Some(Timer(s.failureHold));
    }
    if (clientCancel || p.rec.localUpgrade) && v.attempted && s.cancelCooldown > 0 {
      return after, Some(Timer(s.cancelCooldown));
    }
    return GiveBack(after), None;
  }

  method Exchanged(f: Facts) returns (r: Resolution)
    ensures r == Resolved(f)
  {
    var resolver := new Resolver(f);
    var verdict, abortFailure := resolver.Resolve();
    r := Resolution(
      Progress(resolver.calls, resolver.attempt, resolver.rec, resolver.attempted, resolver.aborted, resolver.resolved),
      verdict, abortFailure);
  }

  // ----- What a request does to its limiters -----

  /** Everything about an admitted request that its limiters notice: what they answer, and what the slot-release defer
      decides once the handler has ended. */
  datatype Plan = Plan(routeGranted: bool, globalGranted: bool, reduces: bool, lease: Option<Timer>)

  function PlanOf(s: Settings, w: World): Plan {
    var f := Run(s, w);
    Plan(w.routeGranted, w.globalGranted, Reduces(s, f, Resolved(f).verdict),
         if f.end.LocalPanic? then None else Delay(s, w.penalty, HoldFor(s, f, Resolved(f), w.releaseAt)))
  }

  /** The request gets every slot it asks for. */
  predicate Runs(globalLimiter: bool, p: Plan) {
    p.routeGranted && (globalLimiter ==> p.globalGranted)
  }

  /** The books of such a request once its slots are back. */
  function FinalBooks(globalLimiter: bool, p: Plan): Books {
    var route, overall := if p.routeGranted then 1 else 0, if globalLimiter && Runs(globalLimiter, p) then 1 else 0;
    Books(0, 0, route, route, overall, overall, if Runs(globalLimiter, p) && p.reduces then 1 else 0)
  }

  /** With retries off, an epoch Allow issued is reported or cancelled however the request ends. */
  predicate SettlesEpoch(s: Settings, w: World, calls: seq<Op>) {
    Admitted(s, w) && s.breaker && !w.facts.retries && Plain(Run(s, w)) ==> CallsFor(calls, w.allow.value) > 0
  }

  lemma ServedSettles(s: Settings, w: World)
    ensures SettlesEpoch(s, w, Final(Run(s, w)).calls)
  {
    if Admitted(s, w) && s.breaker && !w.facts.retries && Plain(Run(s, w)) {
      EpochSettledExactlyWhen(Run(s, w));
    }
  }

  /** The checks before any slot is asked for, in their order: an open circuit, a full queue, a request that has ended,
      and Allow. */
  method Admit(s: Settings, w: World) returns (refused: Option<Ending>, epoch: nat)
    ensures refused.None? <==> Admitted(s, w)
    ensures refused ==
              if s.breaker && !w.wouldAllow then Some(CircuitOpen)
              else if s.queueDepthLimit > 0
                      && (w.routeWaiters >= s.queueDepthLimit
                          || (s.globalLimiter && w.globalWaiters >= s.queueDepthLimit)) then Some(QueueFull)
              else if w.contextEnded then Some(AdmissionFailed)
              else if s.breaker && w.allow.None? then Some(CircuitOpen)
              else None
    ensures epoch == if refused.None? && s.breaker then w.allow.value else 0
  {
    refused, epoch := None, 0;
    if s.breaker && !w.wouldAllow {
      return Some(CircuitOpen), epoch;
    }
    if s.queueDepthLimit > 0 {
      if w.routeWaiters >= s.queueDepthLimit || (s.globalLimiter && w.globalWaiters >= s.queueDepthLimit) {
        return Some(QueueFull), epoch;
      }
    }
    if w.contextEnded {
      return Some(AdmissionFailed), epoch;
    }
    if s.breaker {
      if w.allow.None? {
        return Some(CircuitOpen), epoch;
      }
      epoch := w.allow.value;
    }
  }

  /** An admitted request that has its slots: the handler's run and the defer that gives them back. */
  method RunHandler(s: Settings, w: World, b: Books)
    returns (after: Books, timer: Option<Timer>, calls: seq<Op>, ending: Ending)
    requires b.globalTaken <= 1 && b == Books(1, 0, 1, 0, b.globalTaken, 0, 0)
    ensures timer == PlanOf(s, w).lease && Balanced(after, timer)
    ensures (if timer.None? then after else GiveBack(after)) ==
              Books(0, 0, 1, 1, b.globalTaken, b.globalTaken, if PlanOf(s, w).reduces then 1 else 0)
    ensures calls == Resolved(Run(s, w)).progress.calls && SettlesEpoch(s, w, calls)
    ensures ending == Served(w.facts.end.AbortPanic?)
  {
    after := b.(active := b.active + 1, queued := b.queued - 1);
    var f := Run(s, w);
    var resolution := Exchanged(f);
    calls := resolution.progress.calls;
    ServedSettles(s, w);
    after := after.(active := after.active - 1);
    after, timer := ReleaseSlots(s, f, resolution, w, after);
    ending := Served(f.end.AbortPanic?);
  }

  /** serveLimited; calls is what it and the exchange tell the breaker after Allow. */
  method Serve(s: Settings, w: World) returns (b: Books, timer: Option<Timer>, calls: seq<Op>, ending: Ending)
    ensures Balanced(b, timer)
    ensures Admitted(s, w) ==>
              (if timer.None? then b else GiveBack(b)) == FinalBooks(s.globalLimiter, PlanOf(s, w))
    ensures !Admitted(s, w) ==> b == Books(0, 0, 0, 0, 0, 0, 0)
    ensures ending ==
              if s.breaker && !w.wouldAllow then CircuitOpen
              else if s.queueDepthLimit > 0
                      && (w.routeWaiters >= s.queueDepthLimit
                          || (s.globalLimiter && w.globalWaiters >= s.queueDepthLimit)) then QueueFull
              else if w.contextEnded then AdmissionFailed
              else if s.breaker && w.allow.None? then CircuitOpen
              else if !w.routeGranted || (s.globalLimiter && !w.globalGranted) then AdmissionFailed
              else Served(w.facts.end.AbortPanic?)
    ensures timer == if ending.Served? then PlanOf(s, w).lease else None
    ensures ending.Served? ==> calls == Resolved(Run(s, w)).progress.calls
    ensures !Admitted(s, w) ==> calls == []
    ensures Admitted(s, w) && !ending.Served? ==> calls == if s.breaker then [Cancel(w.allow.value)] else []
    ensures SettlesEpoch(s, w, calls)
  {
    b, timer, calls := Books(0, 0, 0, 0, 0, 0, 0), None, [];
    var refused, epoch := Admit(s, w);
    if refused.Some? {
      return b, timer, calls, refused.value;
    }
    b := b.(queued := b.queued + 1);
    if !w.routeGranted {
      b := b.(queued := b.queued - 1);
      if s.breaker {
        calls := [Cancel(epoch)];
      }
      return b, timer, calls, AdmissionFailed;
    }
    b := b.(routeTaken := b.routeTaken + 1);
    if s.globalLimiter {
      if !w.globalGranted {
        b := b.(queued := b.queued - 1);
        if s.breaker {
          calls := [Cancel(epoch)];
        }
        return GiveBack(b), timer, calls, AdmissionFailed;
      }
      b := b.(globalTaken := b.globalTaken + 1);
    }
    b, timer, calls, ending := RunHandler(s, w, b);
  }

  predicate Admitted(s: Settings, w: World) {
    && (s.breaker ==> w.wouldAllow && w.allow.Some?)
    && (s.queueDepthLimit > 0 ==> w.routeWaiters < s.queueDepthLimit)
    && (s.queueDepthLimit > 0 && s.globalLimiter ==> w.globalWaiters < s.queueDepthLimit)
    && !w.contextEnded
  }

  /** The facts of the handler's run under the epoch Allow issued. */
  function Run(s: Settings, w: World): Facts {
    w.facts.(breaker := s.breaker, epoch := if s.breaker && w.allow.Some? then w.allow.value else 0)
  }

  // ----- What the hold depends on -----

  lemma HandlersKeepRecorder(f: Facts, p: Progress)
    ensures AbortHandled(f, p).rec == p.rec && ProbeCancelled(f, p).rec == p.rec
  {
    AbortHandledCounts(f, p);
  }

  lemma ClosedKeepsRecorder(f: Facts, p: Progress, v: Verdict, failed: bool)
    ensures Closed(f, p, v, failed).rec == p.rec
  {
  }

  /** Resolving leaves the recorder's answer as it was; the verdict is a classification of it. */
  lemma ResolutionKeepsRecorder(f: Facts) returns (p: Progress)
    requires !f.end.LocalPanic?
    ensures Resolved(f).progress.rec == f.rec && p.rec == f.rec
    ensures Resolved(f).verdict == Classify(f, p, Resolved(f).abortFailure)
  {
    HandshakeCounts(f);
    HandlersKeepRecorder(f, AfterHandshake(f));
    HandlersKeepRecorder(f, AbortHandled(f, AfterHandshake(f)));
    if f.end.AbortPanic? {
      p := Resolved(f).progress;
    } else {
      CopyCheckCounts(f);
      p := CopyChecked(f);
      ClosedKeepsRecorder(f, p, Classify(f, p, CopyFailed(f)), CopyFailed(f));
    }
  }

  lemma RefusalVerdict(f: Facts)
    requires UpstreamRefused(f)
    ensures var v := Resolved(f).verdict; v.failure && !v.suppressible && v.attempted && v.status == f.rec.Observed()
    ensures Resolved(f).progress.rec == f.rec
  {
    var p := ResolutionKeepsRecorder(f);
    RefusalClassified(f, p, Resolved(f).abortFailure);
  }

  /** Whether the client left makes no difference to how the slots are held after an upstream 5xx or 429, exactly when
      the breaker or a failure hold covers it, or there is no cancel cooldown to tell the two cases apart. */
  lemma HoldIgnoresDisconnectExactlyWhen(s: Settings, left: Facts, leftAt: int, stayed: Facts, stayedAt: int)
    requires UpstreamRefused(left) && UpstreamRefused(stayed)
    requires ClientGone(left, leftAt) && !ClientGone(stayed, stayedAt)
    ensures HoldFor(s, left, Resolved(left), leftAt) == HoldFor(s, stayed, Resolved(stayed), stayedAt) <==>
              s.breaker || s.failureHold > 0 || s.cancelCooldown <= 0
    ensures s.breaker ==> HoldFor(s, left, Resolved(left), leftAt) == Penalty
    ensures !s.breaker && s.failureHold > 0 ==> HoldFor(s, left, Resolved(left), leftAt) == FailureHold
  {
    RefusalVerdict(left);
    RefusalVerdict(stayed);
  }

  /** A client that leaves after an attempt started, or an upgrade the proxy could not hand over, never frees the slots
      at once when there is a cancel cooldown. */
  lemma AbandonedAttemptIsHeld(s: Settings, f: Facts, at: int)
    requires f.started && f.rec.outcome.None? && !f.end.LocalPanic? && s.cancelCooldown > 0
    requires ClientGone(f, at) || f.rec.localUpgrade
    ensures !HoldFor(s, f, Resolved(f), at).AtOnce?
  {
    var p := ResolutionKeepsRecorder(f);
    assert Resolved(f).verdict.attempted;
  }

  /** Nothing is held for a native exchange that never reached the upstream. */
  lemma UnattemptedIsFreedAtOnce(s: Settings, f: Facts, at: int)
    requires !f.started && f.rec.outcome.None? && !f.end.LocalPanic?
    ensures HoldFor(s, f, Resolved(f), at).AtOnce?
  {
    var p := ResolutionKeepsRecorder(f);
    assert !Resolved(f).verdict.attempted;
  }
}
