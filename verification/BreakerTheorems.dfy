/** What the circuit breaker keeps over every run of calls, with a monotone clock. */
module BreakerTheorems {
  import opened Prelude
  import opened Breaker

  datatype Op =
    | Allow
    | Cancel(epoch: nat)
    | Failure(retryAfter: int, startedAt: Option<int>, failed: nat)
    | Success(begunAt: Option<int>, succeeded: nat)
    | Stats

  datatype Event = Event(op: Op, now: int)

  /** A breaker with the instants of every failure it accepted since its last recovery. */
  datatype History = History(b: State, log: seq<int>, clock: int)

  function Apply(b: State, e: Event): State
    requires b.cfg.Valid()
  {
    match e.op
    case Allow => AllowStep(b, e.now)
    case Cancel(epoch) => CancelStep(b, epoch)
    case Failure(retryAfter, startedAt, epoch) => FailureStep(b, retryAfter, startedAt, epoch, e.now)
    case Success(startedAt, epoch) => SuccessStep(b, startedAt, epoch)
    case Stats => b.(failures := Trimmed(b.failures, e.now - b.cfg.window))
  }

  predicate Accepts(b: State, op: Op) {
    op.Failure? && FailureCounts(b, op.startedAt, op.failed)
  }

  /** A success that takes the breaker from HALF_OPEN back to CLOSED. */
  predicate Recovers(b: State, op: Op) {
    && op.Success?
    && b.mode == HalfOpen
    && (op.succeeded != 0 ==> IsLive(b, op.succeeded))
    && !Ghost(b, op.begunAt)
  }

  predicate Enabled(h: History, e: Event) {
    e.now >= h.clock && (e.op.Failure? ==> e.op.retryAfter >= 0)
  }

  function Next(h: History, e: Event): History
    requires h.b.cfg.Valid()
  {
    History(
      Apply(h.b, e),
      if Recovers(h.b, e.op) then [] else if Accepts(h.b, e.op) then h.log + [e.now] else h.log,
      e.now)
  }

  ghost predicate Legal(h: History, trace: seq<Event>)
    requires h.b.cfg.Valid()
    decreases |trace|, 0
  {
    trace == [] || (Legal(h, trace[..|trace| - 1]) && Enabled(Exec(h, trace[..|trace| - 1]), trace[|trace| - 1]))
  }

  ghost function Exec(h: History, trace: seq<Event>): (r: History)
    requires h.b.cfg.Valid() && Legal(h, trace)
    ensures r.b.cfg == h.b.cfg
    decreases |trace|, 1
  {
    if trace == [] then h else Next(Exec(h, trace[..|trace| - 1]), trace[|trace| - 1])
  }

  function Start(cfg: Config, now: int): History {
    History(Fresh(cfg), [], now)
  }

  // ----- The invariant -----

  /** Live probes have increasing epochs, and each began more than one open timeout after the one before it. */
  ghost predicate Spaced(probes: seq<Probe>, timeout: int) {
    forall i, j :: 0 <= i < j < |probes| ==>
      probes[i].epoch < probes[j].epoch && probes[j].startedAt - probes[i].startedAt > timeout
  }

  ghost predicate ProbesOk(b: State, clock: int)
    requires b.cfg.Valid()
  {
    && (b.probes != [] ==> b.mode == HalfOpen)
    && Spaced(b.probes, OpenTimeout(b.cfg, b.backoff))
    && (forall p :: p in b.probes ==> 0 < p.epoch <= b.issuedEpoch && p.startedAt <= clock)
    && (b.openSince.Some? ==> forall p :: p in b.probes ==> b.openSince.value <= p.startedAt)
    && (b.mode != Closed ==> b.openSince.Some?)
    && (b.openSince.Some? ==> b.openSince.value <= clock)
  }

  predicate Sorted(log: seq<int>) {
    forall i, j :: 0 <= i < j < |log| ==> log[i] <= log[j]
  }

  predicate Below(log: seq<int>, bound: int) {
    forall x :: x in log ==> x < bound
  }

  /** The log is some dropped entries, all before the cutoff, and then the failures. */
  ghost predicate FitsAt(log: seq<int>, dropped: seq<int>, failures: seq<int>, clock: int, cutoff: int) {
    log == dropped + failures && Below(dropped, cutoff) && Sorted(failures) && Below(failures, clock + 1)
  }

  ghost predicate Fits(log: seq<int>, failures: seq<int>, clock: int, cutoff: int) {
    exists dropped :: FitsAt(log, dropped, failures, clock, cutoff)
  }

  ghost predicate FailuresOk(h: History) {
    && Fits(h.log, h.b.failures, h.clock, h.clock - h.b.cfg.window)
    && (h.b.mode == Closed ==> |h.b.failures| < h.b.cfg.failureThreshold)
  }

  ghost predicate Inv(h: History) {
    h.b.cfg.Valid() && h.b.lastRetryAfter >= 0 && ProbesOk(h.b, h.clock) && FailuresOk(h)
  }

  lemma DropOneKeepsSpacing(probes: seq<Probe>, i: nat, timeout: int)
    requires Spaced(probes, timeout) && i < |probes|
    ensures Spaced(probes[..i] + probes[i + 1..], timeout)
  {
    var rest := probes[..i] + probes[i + 1..];
    forall j, k | 0 <= j < k < |rest|
      ensures rest[j].epoch < rest[k].epoch && rest[k].startedAt - rest[j].startedAt > timeout
    {
      var j', k' := if j < i then j else j + 1, if k < i then k else k + 1;
      assert rest[j] == probes[j'] && rest[k] == probes[k'];
    }
  }

  lemma DropOneMembers(probes: seq<Probe>, i: nat, p: Probe)
    requires i < |probes|
    ensures p in probes[..i] + probes[i + 1..] ==> p in probes
    ensures p in probes && p != probes[i] ==> p in probes[..i] + probes[i + 1..]
  {
    assert probes == probes[..i] + [probes[i]] + probes[i + 1..];
  }

  lemma EpochsDistinct(probes: seq<Probe>, i: nat, timeout: int, p: Probe)
    requires Spaced(probes, timeout) && i < |probes|
    ensures p in probes[..i] + probes[i + 1..] ==> p.epoch != probes[i].epoch
  {
    var rest := probes[..i] + probes[i + 1..];
    if p in rest {
      var k :| 0 <= k < |rest| && rest[k] == p;
      assert p == probes[if k < i then k else k + 1];
    }
  }

  /** Cancelling keeps every other probe and adds none. */
  lemma WithoutKeepsOrder(probes: seq<Probe>, epoch: nat, timeout: int)
    requires Spaced(probes, timeout)
    ensures Spaced(Without(probes, epoch), timeout)
    ensures forall p :: p in Without(probes, epoch) <==> p in probes && p.epoch != epoch
  {
    if i :| 0 <= i < |probes| && probes[i].epoch == epoch {
      WithoutAt(probes, epoch, i);
      DropOneKeepsSpacing(probes, i, timeout);
      forall p: Probe
        ensures p in Without(probes, epoch) <==> p in probes && p.epoch != epoch
      {
        DropOneMembers(probes, i, p);
        EpochsDistinct(probes, i, timeout, p);
      }
    } else {
      WithoutAt(probes, epoch, |probes|);
    }
  }

  lemma CancelKeepsProbes(b: State, epoch: nat, now: int, clock: int)
    requires b.cfg.Valid() && ProbesOk(b, clock) && now >= clock
    ensures ProbesOk(CancelStep(b, epoch), now)
  {
    WithoutKeepsOrder(b.probes, epoch, OpenTimeout(b.cfg, b.backoff));
  }

  lemma FailureKeepsProbes(b: State, retryAfter: int, startedAt: Option<int>, epoch: nat, now: int, clock: int)
    requires b.cfg.Valid() && ProbesOk(b, clock) && now >= clock
    ensures ProbesOk(FailureStep(b, retryAfter, startedAt, epoch, now), now)
  {
  }

  lemma SuccessKeepsProbes(b: State, startedAt: Option<int>, epoch: nat, now: int, clock: int)
    requires b.cfg.Valid() && ProbesOk(b, clock) && now >= clock
    ensures ProbesOk(SuccessStep(b, startedAt, epoch), now)
  {
  }

  lemma StatsKeepsProbes(b: State, now: int, clock: int)
    requires b.cfg.Valid() && ProbesOk(b, clock) && now >= clock
    ensures ProbesOk(b.(failures := Trimmed(b.failures, now - b.cfg.window)), now)
  {
  }

  lemma StepKeepsProbes(b: State, e: Event, clock: int)
    requires b.cfg.Valid() && ProbesOk(b, clock) && e.now >= clock
    ensures ProbesOk(Apply(b, e), e.now)
  {
    match e.op {
      case Allow => AllowKeepsProbes(b, e.now, clock);
      case Cancel(epoch) => CancelKeepsProbes(b, epoch, e.now, clock);
      case Failure(retryAfter, startedAt, epoch) => FailureKeepsProbes(b, retryAfter, startedAt, epoch, e.now, clock);
      case Success(startedAt, epoch) => SuccessKeepsProbes(b, startedAt, epoch, e.now, clock);
      case Stats => StatsKeepsProbes(b, e.now, clock);
    }
  }

  lemma AllowKeepsProbes(b: State, now: int, clock: int)
    requires b.cfg.Valid() && ProbesOk(b, clock) && now >= clock
    ensures ProbesOk(AllowStep(b, now), now)
  {
    if b.mode != Closed && Admits(b, now) {
      var t := WithProbe(b, now);
      var n := |b.probes|;
      forall i | 0 <= i < n
        ensures b.probes[i].epoch < b.issuedEpoch + 1 && now - b.probes[i].startedAt > OpenTimeout(b.cfg, b.backoff)
      {
        assert b.probes[i] in b.probes;
        assert i < n - 1 ==> b.probes[n - 1].startedAt - b.probes[i].startedAt > OpenTimeout(b.cfg, b.backoff);
        OpenTimeoutBounds(b.cfg, b.backoff);
      }
    }
  }

  lemma {:induction false} TrimmedSplits(failures: seq<int>, cutoff: int) returns (removed: seq<int>)
    requires Sorted(failures)
    ensures failures == removed + Trimmed(failures, cutoff) && Below(removed, cutoff)
    ensures Sorted(Trimmed(failures, cutoff))
    ensures forall x :: x in Trimmed(failures, cutoff) ==> cutoff <= x && x in failures
  {
    removed := [];
    if failures != [] && failures[0] < cutoff {
      var rest := TrimmedSplits(failures[1..], cutoff);
      removed := [failures[0]] + rest;
    } else {
      forall x | x in failures
        ensures cutoff <= x
      {
      }
    }
  }

  lemma Reassociate(a: seq<int>, b: seq<int>, c: seq<int>)
    ensures a + (b + c) == (a + b) + c
  {
  }

  lemma TrimFits(log: seq<int>, failures: seq<int>, clock: int, cutoff: int)
    requires Fits(log, failures, clock, cutoff)
    ensures Fits(log, Trimmed(failures, cutoff), clock, cutoff) && |Trimmed(failures, cutoff)| <= |failures|
  {
    var dropped :| FitsAt(log, dropped, failures, clock, cutoff);
    var removed := TrimmedSplits(failures, cutoff);
    Reassociate(dropped, removed, Trimmed(failures, cutoff));
    assert FitsAt(log, dropped + removed, Trimmed(failures, cutoff), clock, cutoff);
  }

  lemma LaterFits(log: seq<int>, failures: seq<int>, clock: int, cutoff: int, now: int, later: int)
    requires Fits(log, failures, clock, cutoff) && clock <= now && cutoff <= later
    ensures Fits(log, failures, now, later)
  {
    var dropped :| FitsAt(log, dropped, failures, clock, cutoff);
    assert FitsAt(log, dropped, failures, now, later);
  }

  lemma AppendFits(log: seq<int>, failures: seq<int>, clock: int, cutoff: int, now: int)
    requires Fits(log, failures, clock, cutoff) && clock <= now
    ensures Fits(log + [now], failures + [now], now, cutoff)
  {
    var dropped :| FitsAt(log, dropped, failures, clock, cutoff);
    Reassociate(dropped, failures, [now]);
    forall i | 0 <= i < |failures|
      ensures failures[i] <= now
    {
      assert failures[i] in failures;
    }
    assert FitsAt(log + [now], dropped, failures + [now], now, cutoff);
  }

  /** The bookkeeping of a failure accepted at now. */
  lemma AcceptedFits(log: seq<int>, failures: seq<int>, clock: int, window: int, now: int)
    requires Fits(log, failures, clock, clock - window) && clock <= now
    ensures Fits(log + [now], failures + [now], now, now - window)
    ensures Fits(log + [now], Trimmed(failures + [now], now - window), now, now - window)
    ensures |Trimmed(failures + [now], now - window)| <= |failures| + 1
  {
    AppendFits(log, failures, clock, clock - window, now);
    LaterFits(log + [now], failures + [now], now, clock - window, now, now - window);
    TrimFits(log + [now], failures + [now], now, now - window);
  }

  /** What an accepted failure does to the fields that FailuresOk reads. */
  lemma FailureEffect(h: History, e: Event)
    requires h.b.cfg.Valid() && Accepts(h.b, e.op)
    ensures var t := Next(h, e);
            && t.log == h.log + [e.now]
            && t.b.failures == Trimmed(h.b.failures + [e.now], e.now - h.b.cfg.window)
            && t.clock == e.now && t.b.cfg == h.b.cfg
            && (t.b.mode == Closed ==> |t.b.failures| < h.b.cfg.failureThreshold)
  {
  }

  lemma FailureKeepsFailures(h: History, e: Event, t: History)
    requires FailuresOk(h) && e.now >= h.clock
    requires t.log == h.log + [e.now] && t.clock == e.now && t.b.cfg == h.b.cfg
    requires t.b.failures == Trimmed(h.b.failures + [e.now], e.now - h.b.cfg.window)
    requires t.b.mode == Closed ==> |t.b.failures| < h.b.cfg.failureThreshold
    ensures FailuresOk(t)
  {
    AcceptedFits(h.log, h.b.failures, h.clock, h.b.cfg.window, e.now);
  }

  lemma StatsKeepsFailures(h: History, now: int, t: History)
    requires h.b.cfg.Valid() && FailuresOk(h) && now >= h.clock
    requires t == History(h.b.(failures := Trimmed(h.b.failures, now - h.b.cfg.window)), h.log, now)
    ensures FailuresOk(t)
  {
    var window := h.b.cfg.window;
    LaterFits(h.log, h.b.failures, h.clock, h.clock - window, now, now - window);
    TrimFits(h.log, h.b.failures, now, now - window);
  }

  /** Every other call leaves the failures alone or, on a recovery, forgets them. */
  lemma OtherLeavesFailures(b: State, e: Event)
    requires b.cfg.Valid() && !e.op.Stats? && !Accepts(b, e.op)
    ensures var t := Apply(b, e);
            && t.cfg == b.cfg
            && t.failures == (if Recovers(b, e.op) then [] else b.failures)
            && (t.mode == Closed ==> b.mode == Closed || Recovers(b, e.op))
  {
  }

  lemma EmptyFits(clock: int, cutoff: int)
    ensures Fits([], [], clock, cutoff)
  {
    assert FitsAt([], [], [], clock, cutoff);
  }

  lemma OtherKeepsFailures(h: History, now: int, t: History)
    requires h.b.cfg.Valid() && FailuresOk(h) && now >= h.clock && t.clock == now && t.b.cfg == h.b.cfg
    requires (t.log == [] && t.b.failures == []) || (t.log == h.log && t.b.failures == h.b.failures)
    requires t.b.mode == Closed ==> h.b.mode == Closed || t.b.failures == []
    ensures FailuresOk(t)
  {
    var window := h.b.cfg.window;
    LaterFits(h.log, h.b.failures, h.clock, h.clock - window, now, now - window);
    EmptyFits(now, now - window);
  }

  lemma StepKeepsFailures(h: History, e: Event)
    requires h.b.cfg.Valid() && FailuresOk(h) && Enabled(h, e)
    ensures FailuresOk(Next(h, e))
  {
    if Accepts(h.b, e.op) {
      FailureEffect(h, e);
      FailureKeepsFailures(h, e, Next(h, e));
    } else if e.op.Stats? {
      StatsKeepsFailures(h, e.now, Next(h, e));
    } else {
      OtherLeavesFailures(h.b, e);
      OtherKeepsFailures(h, e.now, Next(h, e));
    }
  }

  lemma StepKeepsInv(h: History, e: Event)
    requires Inv(h) && Enabled(h, e)
    ensures Inv(Next(h, e))
  {
    StepKeepsProbes(h.b, e, h.clock);
    StepKeepsFailures(h, e);
  }

  lemma StartKeepsInv(cfg: Config, now: int)
    requires cfg.Valid()
    ensures Inv(Start(cfg, now))
  {
    EmptyFits(now, now - cfg.window);
  }

  /** The last step of a run. */
  lemma LastStep(h: History, trace: seq<Event>) returns (before: History, e: Event)
    requires h.b.cfg.Valid() && trace != [] && Legal(h, trace)
    ensures Legal(h, trace[..|trace| - 1]) && before == Exec(h, trace[..|trace| - 1]) && e == trace[|trace| - 1]
    ensures Enabled(before, e) && before.b.cfg == h.b.cfg && Exec(h, trace) == Next(before, e)
  {
    before, e := Exec(h, trace[..|trace| - 1]), trace[|trace| - 1];
  }

  lemma {:induction false} RunKeepsInv(cfg: Config, now: int, trace: seq<Event>)
    requires cfg.Valid() && Legal(Start(cfg, now), trace)
    ensures Inv(Exec(Start(cfg, now), trace))
  {
    if trace == [] {
      StartKeepsInv(cfg, now);
    } else {
      var before, e := LastStep(Start(cfg, now), trace);
      RunKeepsInv(cfg, now, trace[..|trace| - 1]);
      StepKeepsInv(before, e);
    }
  }

  // ----- The sliding window -----

  /** The logged failures at or after cutoff, in order. */
  function Since(log: seq<int>, cutoff: int): seq<int> {
    if log == [] then []
    else (if log[0] >= cutoff then [log[0]] else []) + Since(log[1..], cutoff)
  }

  lemma TailMembers(s: seq<int>)
    requires s != []
    ensures forall x :: x in s[1..] ==> x in s
  {
    forall x | x in s[1..]
      ensures x in s
    {
      assert s == [s[0]] + s[1..];
    }
  }

  lemma {:induction false} SinceDrops(dropped: seq<int>, kept: seq<int>, cutoff: int)
    requires Below(dropped, cutoff) && forall x :: x in kept ==> x >= cutoff
    ensures Since(dropped + kept, cutoff) == kept
  {
    if dropped != [] {
      assert (dropped + kept)[1..] == dropped[1..] + kept;
      TailMembers(dropped);
      assert dropped[0] in dropped;
      SinceDrops(dropped[1..], kept, cutoff);
    } else if kept != [] {
      assert dropped + kept == kept && [] + kept[1..] == kept[1..];
      TailMembers(kept);
      assert kept[0] in kept;
      SinceDrops([], kept[1..], cutoff);
    }
  }

  lemma WindowIsSince(log: seq<int>, failures: seq<int>, clock: int, cutoff: int)
    requires Fits(log, failures, clock, cutoff)
    ensures Trimmed(failures, cutoff) == Since(log, cutoff)
  {
    var dropped :| FitsAt(log, dropped, failures, clock, cutoff);
    var removed := TrimmedSplits(failures, cutoff);
    Reassociate(dropped, removed, Trimmed(failures, cutoff));
    SinceDrops(dropped + removed, Trimmed(failures, cutoff), cutoff);
  }

  /** After a failure accepted at t, failures is exactly the log within [t - window, t], and a CLOSED breaker
      opens at t exactly when that window holds failureThreshold entries. */
  ghost predicate RefinesLog(h: History, e: Event)
    requires h.b.cfg.Valid()
  {
    var t, recent := Next(h, e), Since(h.log + [e.now], e.now - h.b.cfg.window);
    && t.log == h.log + [e.now]
    && t.b.failures == recent
    && (h.b.mode == Closed ==>
          && |recent| <= h.b.cfg.failureThreshold
          && t.b.mode == (if |recent| == h.b.cfg.failureThreshold then Open else Closed))
    && (t.b.mode == Open && h.b.mode != Open ==> t.b.openSince == Some(e.now))
  }

  lemma AcceptedFailureRefines(h: History, e: Event)
    requires Inv(h) && Enabled(h, e) && Accepts(h.b, e.op)
    ensures RefinesLog(h, e)
  {
    var window := h.b.cfg.window;
    AcceptedFits(h.log, h.b.failures, h.clock, window, e.now);
    WindowIsSince(h.log + [e.now], h.b.failures + [e.now], e.now, e.now - window);
  }

  lemma FailuresRefineLog(cfg: Config, start: int, trace: seq<Event>, e: Event)
    requires cfg.Valid() && Legal(Start(cfg, start), trace) && Enabled(Exec(Start(cfg, start), trace), e)
    requires Accepts(Exec(Start(cfg, start), trace).b, e.op)
    ensures RefinesLog(Exec(Start(cfg, start), trace), e)
  {
    RunKeepsInv(cfg, start, trace);
    AcceptedFailureRefines(Exec(Start(cfg, start), trace), e);
  }

  // ----- Probe windows -----

  /** Probes only in HALF_OPEN, epochs strictly increasing and never beyond issuedEpoch, and n live probes span more
      than n - 1 open timeouts. */
  ghost predicate Windowed(h: History)
    requires h.b.cfg.Valid()
  {
    && (h.b.probes != [] ==> h.b.mode == HalfOpen)
    && Spaced(h.b.probes, OpenTimeout(h.b.cfg, h.b.backoff))
    && (forall p :: p in h.b.probes ==> 0 < p.epoch <= h.b.issuedEpoch)
    && (|h.b.probes| >= 2 ==>
          (|h.b.probes| - 1) * OpenTimeout(h.b.cfg, h.b.backoff) < h.clock - h.b.probes[0].startedAt)
  }

  lemma InvWindows(h: History)
    requires Inv(h)
    ensures Windowed(h)
  {
    if |h.b.probes| >= 2 {
      SpanOfProbes(h.b.probes, OpenTimeout(h.b.cfg, h.b.backoff));
      assert h.b.probes[|h.b.probes| - 1] in h.b.probes;
    }
  }

  lemma ProbeWindow(cfg: Config, start: int, trace: seq<Event>)
    requires cfg.Valid() && Legal(Start(cfg, start), trace)
    ensures Windowed(Exec(Start(cfg, start), trace))
  {
    RunKeepsInv(cfg, start, trace);
    InvWindows(Exec(Start(cfg, start), trace));
  }

  lemma {:induction false} SpanOfProbes(probes: seq<Probe>, timeout: int)
    requires |probes| >= 2 && Spaced(probes, timeout)
    ensures (|probes| - 1) * timeout < probes[|probes| - 1].startedAt - probes[0].startedAt
  {
    var n := |probes|;
    if n > 2 {
      SpanOfProbes(probes[..n - 1], timeout);
      assert probes[n - 1].startedAt - probes[n - 2].startedAt > timeout;
      Distribute(timeout, n - 2);
    }
  }

  /** An epoch Allow handed out that no longer names a live probe. */
  predicate Dead(b: State, epoch: nat) {
    0 < epoch <= b.issuedEpoch && !IsLive(b, epoch)
  }

  /** A report or cancellation with a dead epoch leaves the breaker as it was. */
  lemma DeadEpochIsInert(b: State, epoch: nat, e: Event)
    requires b.cfg.Valid() && Dead(b, epoch)
    requires || e.op == Cancel(epoch)
             || (e.op.Failure? && e.op.failed == epoch)
             || (e.op.Success? && e.op.succeeded == epoch)
    ensures Apply(b, e) == b
  {
    if e.op.Cancel? {
      WithoutAt(b.probes, epoch, |b.probes|);
    }
  }

  lemma DeadStaysDead(h: History, epoch: nat, e: Event)
    requires Inv(h) && Dead(h.b, epoch)
    ensures Dead(Apply(h.b, e), epoch)
  {
    if e.op.Cancel? {
      WithoutKeepsOrder(h.b.probes, e.op.epoch, OpenTimeout(h.b.cfg, h.b.backoff));
      var rest := Without(h.b.probes, e.op.epoch);
      forall i | 0 <= i < |rest|
        ensures rest[i].epoch != epoch
      {
        assert rest[i] in h.b.probes;
      }
    }
  }

  /** Once an epoch is dead it stays dead and inert through every later call of the run. */
  lemma {:induction false} SealedForever(h: History, epoch: nat, trace: seq<Event>, late: Event)
    requires Inv(h) && Dead(h.b, epoch) && Legal(h, trace)
    requires || late.op == Cancel(epoch)
             || (late.op.Failure? && late.op.failed == epoch)
             || (late.op.Success? && late.op.succeeded == epoch)
    ensures Inv(Exec(h, trace)) && Dead(Exec(h, trace).b, epoch)
    ensures Apply(Exec(h, trace).b, late) == Exec(h, trace).b
  {
    if trace != [] {
      var before, e := LastStep(h, trace);
      SealedForever(h, epoch, trace[..|trace| - 1], late);
      StepKeepsInv(before, e);
      DeadStaysDead(before, epoch, e);
    }
    DeadEpochIsInert(Exec(h, trace).b, epoch, late);
  }

  /** What a call with an issued epoch, made by a request that began no earlier than its probe, does to that epoch:
      it is dead afterwards unless the call was a failure discarded because a newer probe had superseded this one. */
  lemma EpochEndsExactlyWhen(h: History, epoch: nat, e: Event)
    requires Inv(h) && 0 < epoch <= h.b.issuedEpoch
    requires || e.op == Cancel(epoch)
             || (e.op.Failure? && e.op.failed == epoch && Began(h.b, epoch, e.op.startedAt))
             || (e.op.Success? && e.op.succeeded == epoch && Began(h.b, epoch, e.op.begunAt))
    ensures Dead(Apply(h.b, e), epoch) <==> !(e.op.Failure? && IsLive(h.b, epoch) && !IsNewest(h.b, epoch))
  {
    var timeout := OpenTimeout(h.b.cfg, h.b.backoff);
    if !IsLive(h.b, epoch) {
      DeadEpochIsInert(h.b, epoch, e);
    } else if e.op.Cancel? {
      CancelKills(h, epoch);
    } else {
      var i :| 0 <= i < |h.b.probes| && h.b.probes[i].epoch == epoch;
      assert h.b.probes[i] in h.b.probes;
    }
  }

  /** The request that holds the epoch did not begin before the probe was issued. */
  predicate Began(b: State, epoch: nat, startedAt: Option<int>) {
    && startedAt.Some?
    && forall i :: 0 <= i < |b.probes| && b.probes[i].epoch == epoch ==> b.probes[i].startedAt <= startedAt.value
  }

  lemma CancelKills(h: History, epoch: nat)
    requires Inv(h) && 0 < epoch <= h.b.issuedEpoch && IsLive(h.b, epoch)
    ensures Dead(CancelStep(h.b, epoch), epoch)
  {
    WithoutKillsEpoch(h.b.probes, epoch, OpenTimeout(h.b.cfg, h.b.backoff));
  }

  lemma {:induction false} WithoutKillsEpoch(probes: seq<Probe>, epoch: nat, timeout: int)
    requires Spaced(probes, timeout)
    ensures forall p :: p in Without(probes, epoch) ==> p.epoch != epoch
  {
    if probes != [] && probes[0].epoch != epoch {
      WithoutKillsEpoch(probes[1..], epoch, timeout);
    }
  }

  /** A failure and a later report or cancellation with the same probe epoch: at most one of the two changes the
      breaker, whatever happens in between. */
  lemma SecondReportIsInert(h: History, epoch: nat, first: Event, between: seq<Event>, second: Event)
    requires Inv(h) && 0 < epoch <= h.b.issuedEpoch && Enabled(h, first)
    requires first.op.Failure? && first.op.failed == epoch
    requires Next(h, first).b.cfg.Valid() && Legal(Next(h, first), between)
    requires || second.op == Cancel(epoch)
             || (second.op.Failure? && second.op.failed == epoch)
             || (second.op.Success? && second.op.succeeded == epoch)
    ensures || Apply(h.b, first) == h.b
            || Apply(Exec(Next(h, first), between).b, second) == Exec(Next(h, first), between).b
  {
    if Accepts(h.b, first.op) {
      StepKeepsInv(h, first);
      SealedForever(Next(h, first), epoch, between, second);
    }
  }

  /** Without an epoch nothing joins the two: a CLOSED breaker counts the failure and then forgets it again. */
  lemma EpochZeroReportsBothAct(b: State, retryAfter: nat, startedAt: int, now: int)
    requires b.cfg.Valid() && b.mode == Closed && b.openSince.None? && |b.failures| + 1 < b.cfg.failureThreshold
    ensures var failed := Apply(b, Event(Failure(retryAfter, Some(startedAt), 0), now));
            && failed.consecutive == b.consecutive + 1
            && Apply(failed, Event(Success(Some(startedAt), 0), now)).consecutive == 0
            && failed.totalFailures == b.totalFailures + 1
            && Apply(failed, Event(Success(Some(startedAt), 0), now)).totalSuccesses == b.totalSuccesses + 1
  {
    TrimmedShrinks(b.failures + [now], now - b.cfg.window);
  }

  lemma {:induction false} TrimmedShrinks(failures: seq<int>, cutoff: int)
    ensures |Trimmed(failures, cutoff)| <= |failures|
  {
    if failures != [] {
      TrimmedShrinks(failures[1..], cutoff);
    }
  }

  /** Outside HALF_OPEN every epoch ever issued is dead: leaving the state seals its whole probe window. */
  lemma LeavingHalfOpenSeals(h: History, epoch: nat)
    requires Inv(h) && h.b.mode != HalfOpen && 0 < epoch <= h.b.issuedEpoch
    ensures Dead(h.b, epoch)
  {
  }

  /** Probe windows are sealed: if some step of a run ends HALF_OPEN, then however the run goes on, no report or
      cancellation with any epoch issued before that step changes the breaker. */
  lemma EndedWindowStaysSealed(cfg: Config, start: int, trace: seq<Event>, e: Event, after: seq<Event>, epoch: nat,
                               late: Event)
    requires cfg.Valid() && Legal(Start(cfg, start), trace) && Enabled(Exec(Start(cfg, start), trace), e)
    requires var h := Exec(Start(cfg, start), trace); h.b.mode == HalfOpen && 0 < epoch <= h.b.issuedEpoch
    requires var t := Next(Exec(Start(cfg, start), trace), e);
             t.b.mode != HalfOpen && t.b.cfg.Valid() && Legal(t, after)
    requires || late.op == Cancel(epoch)
             || (late.op.Failure? && late.op.failed == epoch)
             || (late.op.Success? && late.op.succeeded == epoch)
    ensures var g := Exec(Next(Exec(Start(cfg, start), trace), e), after); Apply(g.b, late) == g.b
  {
    RunKeepsInv(cfg, start, trace);
    var h := Exec(Start(cfg, start), trace);
    StepKeepsInv(h, e);
    EpochsOnlyGrow(h, e);
    LeavingHalfOpenSeals(Next(h, e), epoch);
    SealedForever(Next(h, e), epoch, after, late);
  }

  lemma EpochsOnlyGrow(h: History, e: Event)
    requires h.b.cfg.Valid()
    ensures Next(h, e).b.issuedEpoch >= h.b.issuedEpoch
  {
  }

  /** Exactly what ends a probe window, and how: a success of a live probe closes, a failure of the newest one
      reopens with one more doubling, and a result without an epoch counts when it is not from before the OPEN
      period. */
  lemma HalfOpenEndsExactlyWhen(h: History, e: Event)
    requires Inv(h) && h.b.mode == HalfOpen && Enabled(h, e)
    ensures var t := Apply(h.b, e);
            && (t.mode != HalfOpen <==> Recovers(h.b, e.op) || Accepts(h.b, e.op))
            && (t.mode == Closed <==> Recovers(h.b, e.op))
            && (t.mode == Closed ==> t.backoff == 0 && t.consecutive == 0 && t.lastRetryAfter == 0 && t.failures == [])
            && (t.mode == Open ==> t.backoff == h.b.backoff + 1 && t.openSince == Some(e.now))
            && (t.mode != HalfOpen ==> t.probes == [])
  {
  }

  /** A superseded probe that fails is discarded and stays live; its later success still closes the breaker. */
  lemma SupersededProbeCanStillClose(h: History, epoch: nat, e: Event)
    requires Inv(h) && IsLive(h.b, epoch) && !IsNewest(h.b, epoch) && epoch != 0
    requires e.op.Failure? && e.op.failed == epoch
    ensures Apply(h.b, e) == h.b
    ensures Recovers(h.b, Success(None, epoch))
  {
  }

  lemma LegalExtends(h: History, trace: seq<Event>, e: Event)
    requires h.b.cfg.Valid() && Legal(h, trace) && Enabled(Exec(h, trace), e)
    ensures Legal(h, trace + [e]) && Exec(h, trace + [e]) == Next(Exec(h, trace), e)
  {
    assert (trace + [e])[..|trace|] == trace;
  }

  /** n failures without an epoch at one instant, on a new breaker. */
  function Burst(n: nat, now: int): seq<Event> {
    if n == 0 then [] else Burst(n - 1, now) + [Event(Failure(0, None, 0), now)]
  }

  function Instants(n: nat, now: int): seq<int> {
    if n == 0 then [] else Instants(n - 1, now) + [now]
  }

  lemma {:induction false} InstantsOfOne(n: nat, now: int)
    ensures |Instants(n, now)| == n && forall x :: x in Instants(n, now) ==> x == now
  {
    if n > 0 {
      InstantsOfOne(n - 1, now);
    }
  }

  /** A breaker after n of them: the last one that fits opens it. */
  function BurstState(cfg: Config, start: int, n: nat): State {
    var tripped := n == cfg.failureThreshold;
    Fresh(cfg).(failures := Instants(n, start), consecutive := n, totalFailures := n,
                mode := if tripped then Open else Closed, openSince := if tripped then Some(start) else None)
  }

  lemma BurstStep(cfg: Config, start: int, n: nat)
    requires cfg.Valid() && n < cfg.failureThreshold
    ensures Apply(BurstState(cfg, start, n), Event(Failure(0, None, 0), start)) == BurstState(cfg, start, n + 1)
  {
    InstantsOfOne(n, start);
    InstantsOfOne(n + 1, start);
    var failures := Instants(n + 1, start);
    assert failures == Instants(n, start) + [start] && failures[0] in failures;
    assert Trimmed(failures, start - cfg.window) == failures;
  }

  lemma {:induction false} BurstRuns(cfg: Config, start: int, n: nat)
    requires cfg.Valid() && n <= cfg.failureThreshold
    ensures Legal(Start(cfg, start), Burst(n, start))
    ensures var h := Exec(Start(cfg, start), Burst(n, start)); h.clock == start && h.b == BurstState(cfg, start, n)
  {
    if n > 0 {
      BurstRuns(cfg, start, n - 1);
      BurstStep(cfg, start, n - 1);
      LegalExtends(Start(cfg, start), Burst(n - 1, start), Event(Failure(0, None, 0), start));
    }
  }

  /** What follows the burst: a probe after the timeout, a second one that supersedes it, the first one's failure,
      which is discarded, and its success. */
  function SupersededEvents(cfg: Config, start: int): seq<Event> {
    var timeout := cfg.openTimeout;
    [Event(Allow, start + timeout), Event(Allow, start + 2 * timeout + 1),
     Event(Failure(0, None, 1), start + 2 * timeout + 2), Event(Success(None, 1), start + 2 * timeout + 3)]
  }

  /** The state after the first k of them. */
  function SupersededState(cfg: Config, start: int, k: nat): State
    requires cfg.Valid() && k <= 4
  {
    var n, timeout := cfg.failureThreshold, cfg.openTimeout;
    var tripped := BurstState(cfg, start, n);
    var first := Probe(1, start + timeout);
    match k
    case 0 => tripped
    case 1 => tripped.(mode := HalfOpen, probes := [first], issuedEpoch := 1)
    case 4 => Fresh(cfg).(totalFailures := n, totalSuccesses := 1, openSince := Some(start),
                         issuedEpoch := 2)
    case _ =>
      tripped.(mode := HalfOpen, probes := [first, Probe(2, start + 2 * timeout + 1)], issuedEpoch := 2)
  }

  lemma SupersededStep(cfg: Config, start: int, k: nat)
    requires cfg.Valid() && k < 4
    ensures Apply(SupersededState(cfg, start, k), SupersededEvents(cfg, start)[k]) ==
              SupersededState(cfg, start, k + 1)
  {
    assert OpenTimeout(cfg, 0) == cfg.openTimeout by {
      assert Pow2(0) == 1;
    }
    var s := SupersededState(cfg, start, k);
    if k == 2 {
      assert s.probes[|s.probes| - 1].epoch == 2;
    } else if k == 3 {
      assert s.probes[0].epoch == 1;
    }
  }

  lemma {:induction false} SupersededRun(cfg: Config, start: int, k: nat) returns (trace: seq<Event>)
    requires cfg.Valid() && k <= 4
    ensures trace == Burst(cfg.failureThreshold, start) + SupersededEvents(cfg, start)[..k]
    ensures Legal(Start(cfg, start), trace)
    ensures var h := Exec(Start(cfg, start), trace);
            && h.b == SupersededState(cfg, start, k)
            && h.clock == if k == 0 then start else SupersededEvents(cfg, start)[k - 1].now
  {
    if k == 0 {
      BurstRuns(cfg, start, cfg.failureThreshold);
      trace := Burst(cfg.failureThreshold, start);
    } else {
      var before := SupersededRun(cfg, start, k - 1);
      var e := SupersededEvents(cfg, start)[k - 1];
      SupersededStep(cfg, start, k - 1);
      LegalExtends(Start(cfg, start), before, e);
      trace := before + [e];
    }
  }

  /** The whole run, for every configuration: the breaker opens, the failure of the superseded probe changes nothing,
      and the success of the same probe leaves the breaker CLOSED. */
  lemma SupersededProbeCloses(cfg: Config, start: int) returns (before: seq<Event>, trace: seq<Event>)
    requires cfg.Valid()
    ensures before + SupersededEvents(cfg, start)[2..] == trace
    ensures Legal(Start(cfg, start), before) && Legal(Start(cfg, start), before + SupersededEvents(cfg, start)[2..3])
    ensures Legal(Start(cfg, start), trace)
    ensures var b := Exec(Start(cfg, start), before).b;
            && b.mode == HalfOpen && IsLive(b, 1) && IsNewest(b, 2)
            && Exec(Start(cfg, start), before + SupersededEvents(cfg, start)[2..3]).b == b
    ensures Exec(Start(cfg, start), trace).b.mode == Closed
  {
    before := SupersededRun(cfg, start, 2);
    var middle := SupersededRun(cfg, start, 3);
    trace := SupersededRun(cfg, start, 4);
    var events := SupersededEvents(cfg, start);
    assert before + events[2..3] == middle && before + events[2..] == trace;
    assert SupersededState(cfg, start, 2).probes[0].epoch == 1;
  }

  // ----- Arithmetic -----

  /** The exact capped power of two, except in one corner of the int64 range. */
  predicate OpenTimeoutIsCappedPower(cfg: Config, backoff: nat)
    requires cfg.Valid()
  {
    OpenTimeout(cfg, backoff) == Min(cfg.openTimeout * Pow2(backoff), cfg.maxOpenTimeout)
  }

  /** Doubling an exponent squares the power. */
  lemma PowerSquares(k: nat, p: int)
    requires Pow2(k) == p
    ensures Pow2(2 * k) == p * p && Pow2(k + 1) == 2 * p
  {
    PowerSum(k, k);
  }

  lemma PowerOf62()
    ensures Pow2(62) == 0x4000_0000_0000_0000
  {
    PowerSquares(0, 1);
    PowerSquares(1, 2);
    PowerSquares(3, 8);
    PowerSquares(7, 128);
    PowerSquares(15, 0x8000);
    PowerSquares(31, 0x8000_0000);
  }

  lemma GuardIsExact(open: int, most: int, m: int)
    requires open > 0 && most > 0 && m > 0
    ensures most / m < open <==> most < open * m
  {
    var q := most / m;
    QuotientBounds(most, m);
    Distribute(m, q);
    if q < open {
      Scale(m, q + 1, open);
    } else {
      Scale(m, open, q);
    }
  }

  lemma SmallExponentExact(cfg: Config, backoff: nat)
    requires cfg.Valid() && backoff < 62
    ensures OpenTimeoutIsCappedPower(cfg, backoff)
  {
    GuardIsExact(cfg.openTimeout, cfg.maxOpenTimeout, Pow2(backoff));
  }

  lemma PowerCoversRange(open: int, backoff: nat)
    requires open >= 1 && backoff >= 62 && (backoff >= 63 || open >= 2)
    ensures open * Pow2(backoff) > MAX_INT64
  {
    PowerOf62();
    if backoff >= 63 {
      Pow2Monotone(63, backoff);
      Scale(Pow2(backoff), 1, open);
    } else {
      Scale(Pow2(62), 2, open);
    }
  }

  lemma LargeExponentExact(cfg: Config, backoff: nat)
    requires cfg.Valid() && backoff >= 62 && (backoff >= 63 || cfg.openTimeout >= 2)
    ensures OpenTimeoutIsCappedPower(cfg, backoff)
  {
    PowerCoversRange(cfg.openTimeout, backoff);
  }

  lemma CornerExponentExactlyWhen(cfg: Config)
    requires cfg.Valid() && cfg.openTimeout == 1
    ensures OpenTimeoutIsCappedPower(cfg, 62) <==> cfg.maxOpenTimeout <= Pow2(62)
  {
  }

  /** The computed timeout is min(openTimeout * 2^k, maxOpenTimeout) except when k is 62, openTimeout is a single
      nanosecond and maxOpenTimeout exceeds 2^62. */
  lemma OpenTimeoutExactlyWhen(cfg: Config, backoff: nat)
    requires cfg.Valid()
    ensures OpenTimeoutIsCappedPower(cfg, backoff) <==>
            !(backoff == 62 && cfg.openTimeout == 1 && cfg.maxOpenTimeout > Pow2(62))
  {
    if backoff < 62 {
      SmallExponentExact(cfg, backoff);
    } else if backoff == 62 && cfg.openTimeout == 1 {
      CornerExponentExactlyWhen(cfg);
    } else {
      LargeExponentExact(cfg, backoff);
    }
  }

  /** No shift or product the computation performs leaves int64. */
  lemma OpenTimeoutStaysInInt64(cfg: Config, backoff: nat)
    requires cfg.Valid() && backoff < 62
    ensures Pow2(backoff) <= MAX_INT64
    ensures cfg.maxOpenTimeout / Pow2(backoff) >= cfg.openTimeout ==>
            cfg.openTimeout * Pow2(backoff) <= cfg.maxOpenTimeout
  {
    PowerOf62();
    Pow2Monotone(backoff, 62);
    GuardIsExact(cfg.openTimeout, cfg.maxOpenTimeout, Pow2(backoff));
  }

  /** The corner is real: a one-nanosecond timeout under the largest cap jumps past its doubling at k = 62. */
  lemma OpenTimeoutCorner()
    ensures var cfg := Config(1, 1, 1, MAX_INT64, 1, 1);
            cfg.Valid() && OpenTimeout(cfg, 62) == MAX_INT64 > Min(1 * Pow2(62), MAX_INT64)
  {
    PowerOf62();
  }

  lemma OpenTimeoutBounds(cfg: Config, backoff: nat)
    requires cfg.Valid()
    ensures cfg.openTimeout <= OpenTimeout(cfg, backoff) <= cfg.maxOpenTimeout
  {
    Scale(cfg.openTimeout, 1, Pow2(backoff));
  }

  lemma OpenTimeoutMonotone(cfg: Config, j: nat, k: nat)
    requires cfg.Valid() && j <= k
    ensures OpenTimeout(cfg, j) <= OpenTimeout(cfg, k)
  {
    OpenTimeoutBounds(cfg, j);
    Pow2Monotone(j, k);
    if k < 62 {
      GuardIsExact(cfg.openTimeout, cfg.maxOpenTimeout, Pow2(j));
      GuardIsExact(cfg.openTimeout, cfg.maxOpenTimeout, Pow2(k));
      Scale(cfg.openTimeout, Pow2(j), Pow2(k));
    }
  }

  /** The penalty the documentation describes, without the overflow guard. */
  function NominalPenalty(b: State): int
    requires b.cfg.Valid()
  {
    Min(Max(b.lastRetryAfter, b.cfg.basePenalty * (1 + b.consecutive)), b.cfg.maxPenalty)
  }

  /** The penalty is at least basePenalty and at most maxPenalty, its product stays in int64, and it falls short of
      the documented value by less than one basePenalty, and not at all while that product fits under maxPenalty. */
  lemma PenaltyBounds(b: State)
    requires b.cfg.Valid()
    ensures b.cfg.basePenalty <= Penalty(b) <= b.cfg.maxPenalty
    ensures b.cfg.basePenalty * PenaltyUnits(b.cfg, b.consecutive) <= b.cfg.maxPenalty
    ensures NominalPenalty(b) - b.cfg.basePenalty < Penalty(b) <= NominalPenalty(b)
    ensures b.cfg.basePenalty * (1 + b.consecutive) <= b.cfg.maxPenalty ==> Penalty(b) == NominalPenalty(b)
  {
    var base, most, q := b.cfg.basePenalty, b.cfg.maxPenalty, b.cfg.maxPenalty / b.cfg.basePenalty;
    QuotientBounds(most, base);
    Distribute(base, q);
    var u := PenaltyUnits(b.cfg, b.consecutive);
    assert 1 <= u <= q && u <= 1 + b.consecutive;
    Scale(base, 1, u);
    Scale(base, u, q);
    Scale(base, u, 1 + b.consecutive);
    if 1 + b.consecutive > q {
      assert u == q;
      Scale(base, q + 1, 1 + b.consecutive);
    }
  }

  // ----- Admission -----

  /** From every reachable state, waiting more than maxOpenTimeout makes Allow admit. */
  lemma WaitingAdmits(cfg: Config, start: int, trace: seq<Event>, now: int)
    requires cfg.Valid() && Legal(Start(cfg, start), trace)
    requires now > Exec(Start(cfg, start), trace).clock + cfg.maxOpenTimeout
    ensures Admits(Exec(Start(cfg, start), trace).b, now)
    ensures AllowResult(Exec(Start(cfg, start), trace).b, now).Some?
  {
    RunKeepsInv(cfg, start, trace);
    var b := Exec(Start(cfg, start), trace).b;
    OpenTimeoutBounds(cfg, b.backoff);
    if b.probes != [] {
      assert b.probes[|b.probes| - 1] in b.probes;
    }
  }

  /** Allow hands out a new live probe exactly when it admits outside CLOSED, and at most one per open timeout. */
  lemma AllowIssuesOneProbe(h: History, now: int, again: int)
    requires Inv(h) && h.clock <= now <= again
    requires h.b.mode != Closed && Admits(h.b, now)
    ensures var t := AllowStep(h.b, now);
            && AllowResult(h.b, now) == Some(t.issuedEpoch)
            && t.issuedEpoch > h.b.issuedEpoch
            && IsNewest(t, t.issuedEpoch)
            && !IsLive(h.b, t.issuedEpoch)
            && (again - now <= OpenTimeout(h.b.cfg, h.b.backoff) ==> AllowResult(t, again) == None)
  {
  }
}
