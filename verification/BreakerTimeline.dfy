/** When the circuit breaker admits a request and how long it holds one, read off the run so far. */
module BreakerTimeline {
  import opened Prelude
  import opened Breaker
  import opened BreakerTheorems

  // ----- How long the circuit stays open -----

  /** The open period after k doublings: a doubled and capped period, but for one exponent. */
  function OpenPeriodAfter(cfg: Config, k: nat): int {
    if k == 62 && cfg.openTimeout == 1 && cfg.maxOpenTimeout > Pow2(62) then cfg.maxOpenTimeout
    else Min(cfg.openTimeout * Pow2(k), cfg.maxOpenTimeout)
  }

  lemma PeriodIsTimeout(cfg: Config, k: nat)
    requires cfg.Valid()
    ensures OpenTimeout(cfg, k) == OpenPeriodAfter(cfg, k)
    ensures cfg.openTimeout <= OpenPeriodAfter(cfg, k) <= cfg.maxOpenTimeout
  {
    OpenTimeoutExactlyWhen(cfg, k);
    OpenTimeoutBounds(cfg, k);
  }

  /** Reopenings from HALF_OPEN since the run last went back to CLOSED. */
  ghost function Reopenings(h: History, trace: seq<Event>): nat
    requires h.b.cfg.Valid() && Legal(h, trace)
  {
    if trace == [] then 0
    else
      var before := trace[..|trace| - 1];
      var from, to := Exec(h, before).b.mode, Exec(h, trace).b.mode;
      if to == Closed then 0 else Reopenings(h, before) + if from == HalfOpen && to == Open then 1 else 0
  }

  lemma StepCountsReopening(h: History, e: Event)
    requires h.b.cfg.Valid() && (h.b.mode == Closed ==> h.b.backoff == 0)
    ensures var from, to := h.b.mode, Next(h, e).b.mode;
            Next(h, e).b.backoff ==
            if to == Closed then 0 else h.b.backoff + if from == HalfOpen && to == Open then 1 else 0
  {
  }

  lemma {:induction false} BackoffCountsReopenings(cfg: Config, start: int, trace: seq<Event>)
    requires cfg.Valid() && Legal(Start(cfg, start), trace)
    ensures var b := Exec(Start(cfg, start), trace).b;
            b.backoff == Reopenings(Start(cfg, start), trace) && (b.mode == Closed ==> b.backoff == 0)
  {
    if trace != [] {
      var before, e := LastStep(Start(cfg, start), trace);
      BackoffCountsReopenings(cfg, start, trace[..|trace| - 1]);
      StepCountsReopening(before, e);
    }
  }

  /** The last event of the run opened the circuit. */
  ghost predicate JustOpened(h: History, trace: seq<Event>)
    requires h.b.cfg.Valid()
  {
    && trace != [] && Legal(h, trace)
    && Exec(h, trace[..|trace| - 1]).b.mode != Open && Exec(h, trace).b.mode == Open
  }

  lemma OpeningStampsClock(cfg: Config, start: int, trace: seq<Event>)
    requires cfg.Valid() && JustOpened(Start(cfg, start), trace)
    ensures var h := Exec(Start(cfg, start), trace);
            h.b.openSince == Some(trace[|trace| - 1].now) && h.clock == trace[|trace| - 1].now
  {
    var before, e := LastStep(Start(cfg, start), trace);
  }

  /** Still in the OPEN period that began at t. */
  predicate StillOpen(b: State, cfg: Config, t: int, k: nat) {
    b.cfg == cfg && b.mode == Open && b.openSince == Some(t) && b.backoff == k
  }

  predicate Quiet(later: seq<Event>) {
    later == [] || (Quiet(later[..|later| - 1]) && !later[|later| - 1].op.Allow?)
  }

  lemma OpenStepWithoutAllow(h: History, t: int, e: Event)
    requires h.b.cfg.Valid() && StillOpen(h.b, h.b.cfg, t, h.b.backoff) && !e.op.Allow?
    ensures StillOpen(Next(h, e).b, h.b.cfg, t, h.b.backoff) && Next(h, e).b.issuedEpoch == h.b.issuedEpoch
  {
  }

  lemma {:induction false} OpenStaysWithoutAllow(h: History, t: int, later: seq<Event>)
    requires h.b.cfg.Valid() && StillOpen(h.b, h.b.cfg, t, h.b.backoff) && Legal(h, later) && Quiet(later)
    ensures StillOpen(Exec(h, later).b, h.b.cfg, t, h.b.backoff)
    ensures Exec(h, later).b.issuedEpoch == h.b.issuedEpoch
  {
    if later != [] {
      var before, e := LastStep(h, later);
      OpenStaysWithoutAllow(h, t, later[..|later| - 1]);
      OpenStepWithoutAllow(before, t, e);
    }
  }

  lemma OpenAdmits(b: State, t: int, now: int)
    requires b.cfg.Valid() && StillOpen(b, b.cfg, t, b.backoff)
    ensures AllowResult(b, now) ==
              if now - t >= OpenPeriodAfter(b.cfg, b.backoff) then Some(b.issuedEpoch + 1) else None
  {
    PeriodIsTimeout(b.cfg, b.backoff);
  }

  /** After an event at t that opens the circuit, and however the run goes on without another Allow, the next Allow
      hands out the next epoch exactly when the open period for the reopenings so far has passed since t, and refuses
      otherwise. */
  lemma OpenAdmitsExactlyWhen(cfg: Config, start: int, trace: seq<Event>, h: History, later: seq<Event>, now: int)
    requires cfg.Valid() && JustOpened(Start(cfg, start), trace) && h == Exec(Start(cfg, start), trace)
    requires Legal(h, later) && Quiet(later) && now >= Exec(h, later).clock
    ensures var k := Reopenings(Start(cfg, start), trace);
            AllowResult(Exec(h, later).b, now) ==
            if now - trace[|trace| - 1].now >= OpenPeriodAfter(cfg, k) then Some(h.b.issuedEpoch + 1) else None
  {
    OpeningStampsClock(cfg, start, trace);
    BackoffCountsReopenings(cfg, start, trace);
    OpenAdmitsLater(h, trace[|trace| - 1].now, later, now);
  }

  lemma OpenAdmitsLater(h: History, t: int, later: seq<Event>, now: int)
    requires h.b.cfg.Valid() && StillOpen(h.b, h.b.cfg, t, h.b.backoff) && Legal(h, later) && Quiet(later)
    ensures AllowResult(Exec(h, later).b, now) ==
              if now - t >= OpenPeriodAfter(h.b.cfg, h.b.backoff) then Some(h.b.issuedEpoch + 1) else None
  {
    OpenStaysWithoutAllow(h, t, later);
    OpenAdmits(Exec(h, later).b, t, now);
  }

  lemma OpenRefusesEarly(h: History, t: int, e: Event)
    requires h.b.cfg.Valid() && StillOpen(h.b, h.b.cfg, t, h.b.backoff) && e.now < t + h.b.cfg.openTimeout
    ensures StillOpen(Next(h, e).b, h.b.cfg, t, h.b.backoff) && AllowResult(h.b, e.now) == None
  {
    PeriodIsTimeout(h.b.cfg, h.b.backoff);
  }

  lemma {:induction false} OpenUntil(h: History, t: int, later: seq<Event>)
    requires h.b.cfg.Valid() && StillOpen(h.b, h.b.cfg, t, h.b.backoff) && Legal(h, later)
    ensures Exec(h, later).clock < t + h.b.cfg.openTimeout ==>
              StillOpen(Exec(h, later).b, h.b.cfg, t, h.b.backoff)
  {
    if later != [] {
      var before, e := LastStep(h, later);
      OpenUntil(h, t, later[..|later| - 1]);
      if e.now < t + h.b.cfg.openTimeout {
        OpenRefusesEarly(before, t, e);
      }
    }
  }

  /** No request is admitted within openTimeout of an opening, whatever the run does in between. */
  lemma NobodyWithinOpenTimeout(cfg: Config, start: int, trace: seq<Event>, h: History, later: seq<Event>, now: int)
    requires cfg.Valid() && JustOpened(Start(cfg, start), trace) && h == Exec(Start(cfg, start), trace)
    requires Legal(h, later) && Exec(h, later).clock <= now < trace[|trace| - 1].now + cfg.openTimeout
    ensures AllowResult(Exec(h, later).b, now) == None && !Admits(Exec(h, later).b, now)
  {
    OpeningStampsClock(cfg, start, trace);
    OpenUntil(h, trace[|trace| - 1].now, later);
    OpenRefusesEarly(Exec(h, later), trace[|trace| - 1].now, Event(Allow, now));
  }

  lemma OthersAdmit(b: State, now: int)
    requires b.cfg.Valid() && b.mode != Open && Spaced(b.probes, OpenPeriodAfter(b.cfg, b.backoff))
    ensures AllowResult(b, now) ==
              if b.mode == Closed then Some(0)
              else if forall p :: p in b.probes ==> now - p.startedAt > OpenPeriodAfter(b.cfg, b.backoff)
              then Some(b.issuedEpoch + 1) else None
  {
    PeriodIsTimeout(b.cfg, b.backoff);
    NewestIsLatest(b.probes, OpenPeriodAfter(b.cfg, b.backoff), now);
  }

  /** A CLOSED breaker admits everybody without an epoch; HALF_OPEN admits exactly when every live probe was issued
      more than one open period ago, and then under the next epoch. */
  lemma OtherStatesAdmitExactlyWhen(cfg: Config, start: int, trace: seq<Event>, h: History, now: int)
    requires cfg.Valid() && Legal(Start(cfg, start), trace) && h == Exec(Start(cfg, start), trace)
    requires now >= h.clock && h.b.mode != Open
    ensures var k := Reopenings(Start(cfg, start), trace);
            AllowResult(h.b, now) ==
            if h.b.mode == Closed then Some(0)
            else if forall p :: p in h.b.probes ==> now - p.startedAt > OpenPeriodAfter(cfg, k)
            then Some(h.b.issuedEpoch + 1) else None
    ensures Admits(h.b, now) <==> AllowResult(h.b, now).Some?
  {
    RunKeepsInv(cfg, start, trace);
    BackoffCountsReopenings(cfg, start, trace);
    PeriodIsTimeout(cfg, h.b.backoff);
    OthersAdmit(h.b, now);
  }

  lemma NewestIsLatest(probes: seq<Probe>, timeout: int, now: int)
    requires Spaced(probes, timeout) && timeout > 0
    ensures probes != [] ==>
              (now - probes[|probes| - 1].startedAt > timeout <==>
               forall p :: p in probes ==> now - p.startedAt > timeout)
  {
    if probes != [] {
      assert probes[|probes| - 1] in probes;
    }
  }

  // ----- The penalty -----

  /** A success that the breaker takes as the end of a streak of failures. */
  predicate EndsStreak(b: State, op: Op) {
    && op.Success?
    && (op.succeeded != 0 ==> exists p :: p in b.probes && p.epoch == op.succeeded)
    && (b.mode == Closed || Recovers(b, op))
  }

  /** Failures counted since the last such success. */
  ghost function Streak(h: History, trace: seq<Event>): nat
    requires h.b.cfg.Valid() && Legal(h, trace)
  {
    if trace == [] then 0
    else
      var before, e := trace[..|trace| - 1], trace[|trace| - 1];
      var b := Exec(h, before).b;
      if EndsStreak(b, e.op) then 0 else Streak(h, before) + if Accepts(b, e.op) then 1 else 0
  }

  /** The longest Retry-After any of them carried. */
  ghost function LongestRetryAfter(h: History, trace: seq<Event>): int
    requires h.b.cfg.Valid() && Legal(h, trace)
  {
    if trace == [] then 0
    else
      var before, e := trace[..|trace| - 1], trace[|trace| - 1];
      var b := Exec(h, before).b;
      if EndsStreak(b, e.op) then 0
      else if Accepts(b, e.op) then Max(LongestRetryAfter(h, before), e.op.retryAfter)
      else LongestRetryAfter(h, before)
  }

  lemma LiveIsMember(b: State, epoch: nat)
    ensures IsLive(b, epoch) <==> exists p :: p in b.probes && p.epoch == epoch
  {
    if IsLive(b, epoch) {
      var i :| 0 <= i < |b.probes| && b.probes[i].epoch == epoch;
      assert b.probes[i] in b.probes;
    }
  }

  lemma StepCountsStreak(h: History, e: Event)
    requires h.b.cfg.Valid()
    ensures var t := Next(h, e).b;
            && t.consecutive ==
               (if EndsStreak(h.b, e.op) then 0 else h.b.consecutive + if Accepts(h.b, e.op) then 1 else 0)
            && t.lastRetryAfter ==
               (if EndsStreak(h.b, e.op) then 0
                else if Accepts(h.b, e.op) then Max(h.b.lastRetryAfter, e.op.retryAfter) else h.b.lastRetryAfter)
  {
    if e.op.Success? {
      LiveIsMember(h.b, e.op.succeeded);
    }
  }

  lemma {:induction false} StreakIsCounted(cfg: Config, start: int, trace: seq<Event>)
    requires cfg.Valid() && Legal(Start(cfg, start), trace)
    ensures var b := Exec(Start(cfg, start), trace).b;
            && b.consecutive == Streak(Start(cfg, start), trace)
            && b.lastRetryAfter == LongestRetryAfter(Start(cfg, start), trace)
  {
    if trace != [] {
      var before, e := LastStep(Start(cfg, start), trace);
      StreakIsCounted(cfg, start, trace[..|trace| - 1]);
      StepCountsStreak(before, e);
    }
  }

  /** In every run the penalty is one base period more than failures counted since the last success, as many as fit
      under the cap, or the longest Retry-After among those failures if that is longer, and never above the cap. */
  lemma PenaltyOfRun(cfg: Config, start: int, trace: seq<Event>)
    requires cfg.Valid() && Legal(Start(cfg, start), trace)
    ensures var units := Min(1 + Streak(Start(cfg, start), trace), cfg.maxPenalty / cfg.basePenalty);
            Penalty(Exec(Start(cfg, start), trace).b) ==
            Min(Max(LongestRetryAfter(Start(cfg, start), trace), cfg.basePenalty * units), cfg.maxPenalty)
  {
    StreakIsCounted(cfg, start, trace);
    PenaltyIs(Exec(Start(cfg, start), trace).b);
  }

  lemma PenaltyIs(b: State)
    requires b.cfg.Valid()
    ensures Penalty(b) ==
              Min(Max(b.lastRetryAfter,
                      b.cfg.basePenalty * Min(1 + b.consecutive, b.cfg.maxPenalty / b.cfg.basePenalty)),
                  b.cfg.maxPenalty)
  {
    QuotientAtLeastOne(b.cfg.maxPenalty, b.cfg.basePenalty);
  }

  lemma QuotientAtLeastOne(most: int, base: int)
    requires 0 < base <= most
    ensures most / base >= 1
  {
    QuotientBounds(most, base);
    if most / base < 1 {
      Scale(base, most / base, 0);
    }
  }

  // ----- Which results count -----

  /** The instant of the last opening. */
  ghost function LastOpening(h: History, trace: seq<Event>): Option<int>
    requires h.b.cfg.Valid() && Legal(h, trace)
  {
    if trace == [] then None
    else if JustOpened(h, trace) then Some(trace[|trace| - 1].now)
    else LastOpening(h, trace[..|trace| - 1])
  }

  lemma {:induction false} OpenSinceIsLastOpening(cfg: Config, start: int, trace: seq<Event>)
    requires cfg.Valid() && Legal(Start(cfg, start), trace)
    ensures Exec(Start(cfg, start), trace).b.openSince == LastOpening(Start(cfg, start), trace)
  {
    if trace != [] {
      var before, e := LastStep(Start(cfg, start), trace);
      OpenSinceIsLastOpening(cfg, start, trace[..|trace| - 1]);
      StepStampsOpening(before, e);
    }
  }

  lemma StepStampsOpening(h: History, e: Event)
    requires h.b.cfg.Valid()
    ensures Next(h, e).b.openSince ==
              if h.b.mode != Open && Next(h, e).b.mode == Open then Some(e.now) else h.b.openSince
  {
  }

  /** The request began before the circuit last opened. */
  predicate FromBefore(startedAt: Option<int>, opening: Option<int>) {
    startedAt.Some? && opening.Some? && startedAt.value < opening.value
  }

  /** No live probe has the epoch, or a newer one is live. */
  predicate NotNewest(b: State, epoch: nat) {
    (forall p :: p in b.probes ==> p.epoch != epoch) || exists p :: p in b.probes && p.epoch > epoch
  }

  lemma NewestHasNoLater(b: State, epoch: nat, timeout: int)
    requires Spaced(b.probes, timeout)
    ensures IsNewest(b, epoch) <==> !NotNewest(b, epoch)
  {
    if b.probes != [] {
      assert b.probes[|b.probes| - 1] in b.probes;
    }
  }

  lemma FailureCountsWhenFresh(b: State, e: Event, opening: Option<int>)
    requires b.cfg.Valid() && b.openSince == opening && e.op.Failure?
    requires IsNewest(b, e.op.failed) <==> !NotNewest(b, e.op.failed)
    ensures var ignored := FromBefore(e.op.startedAt, opening) || (e.op.failed != 0 && NotNewest(b, e.op.failed));
            && (Apply(b, e) == b <==> ignored)
            && (!ignored ==> Apply(b, e).consecutive == b.consecutive + 1)
            && (!ignored ==> Apply(b, e).totalFailures == b.totalFailures + 1)
  {
  }

  /** In every run a failure changes nothing exactly when its request began before the last opening, or it has the
      epoch of a probe that is not the newest live one; any other is counted, and one more failure joins the streak. */
  lemma FailureCountsExactlyWhen(cfg: Config, start: int, trace: seq<Event>, h: History, e: Event)
    requires cfg.Valid() && Legal(Start(cfg, start), trace) && h == Exec(Start(cfg, start), trace)
    requires Enabled(h, e) && e.op.Failure?
    ensures var b, opening := h.b, LastOpening(Start(cfg, start), trace);
            var ignored := FromBefore(e.op.startedAt, opening) || (e.op.failed != 0 && NotNewest(b, e.op.failed));
            && (Apply(b, e) == b <==> ignored)
            && (!ignored ==> Apply(b, e).consecutive == b.consecutive + 1)
            && (!ignored ==> Apply(b, e).totalFailures == b.totalFailures + 1)
  {
    RunKeepsInv(cfg, start, trace);
    OpenSinceIsLastOpening(cfg, start, trace);
    NewestHasNoLater(h.b, e.op.failed, OpenTimeout(cfg, h.b.backoff));
    FailureCountsWhenFresh(h.b, e, h.b.openSince);
  }

  /** What a success does to a breaker whose circuit last opened at that instant. */
  predicate SuccessCounted(b: State, t: State, op: Op, opening: Option<int>)
    requires op.Success?
  {
    var known := op.succeeded == 0 || exists p :: p in b.probes && p.epoch == op.succeeded;
    && (!known ==> t == b)
    && (known ==> t.totalSuccesses == b.totalSuccesses + 1)
    && (b.mode == HalfOpen ==> (t.mode == Closed <==> known && !FromBefore(op.begunAt, opening)))
    && (b.mode != HalfOpen ==> t.mode == b.mode)
    && (b.mode == Closed && known ==> t.consecutive == 0 && t.failures == b.failures)
    && (b.mode == Open && known ==> t.consecutive == b.consecutive)
  }

  lemma SuccessEffect(b: State, e: Event)
    requires b.cfg.Valid() && e.op.Success?
    ensures SuccessCounted(b, Apply(b, e), e.op, b.openSince)
  {
    LiveIsMember(b, e.op.succeeded);
  }

  /** In every run a success closes a HALF_OPEN breaker exactly when its request did not begin before the last opening
      and its epoch is none or that of a live probe; in CLOSED such an epoch is all it takes to end the streak. */
  lemma SuccessCountsExactlyWhen(cfg: Config, start: int, trace: seq<Event>, h: History, e: Event)
    requires cfg.Valid() && Legal(Start(cfg, start), trace) && h == Exec(Start(cfg, start), trace)
    requires Enabled(h, e) && e.op.Success?
    ensures SuccessCounted(h.b, Apply(h.b, e), e.op, LastOpening(Start(cfg, start), trace))
  {
    OpenSinceIsLastOpening(cfg, start, trace);
    SuccessEffect(h.b, e);
  }

  /** A breaker made without options opens at the fifth failure in 30s, for 10s and at most 120s, with penalties from 2s
      to 60s; of two options for one field the later counts. */
  lemma DefaultConfiguration(settings: seq<Setting>, s: Setting)
    ensures SetAll([]).WithDefaults() == Config(5, 30 * SECOND, 10 * SECOND, 120 * SECOND, 2 * SECOND, 60 * SECOND)
    ensures SetAll(settings + [s]) == Set(SetAll(settings), s)
  {
    assert (settings + [s])[..|settings|] == settings;
  }

  /** Options that were given are kept, except that the longest open period is never below the shortest. */
  lemma GivenConfiguration(c: Config)
    requires c.failureThreshold > 0 && c.window > 0 && c.basePenalty > 0 && c.maxPenalty > 0
    ensures c.openTimeout > 0 && c.maxOpenTimeout > 0 ==>
              c.WithDefaults() == c.(maxOpenTimeout := Max(c.maxOpenTimeout, c.openTimeout))
    ensures c.openTimeout > 0 && c.maxOpenTimeout <= 0 ==>
              c.WithDefaults() == c.(maxOpenTimeout := Max(120 * SECOND, c.openTimeout))
    ensures c.openTimeout <= 0 && c.maxOpenTimeout > 0 ==>
              c.WithDefaults() ==
              c.(openTimeout := 10 * SECOND, maxOpenTimeout := Max(c.maxOpenTimeout, 10 * SECOND))
  {
  }
}
