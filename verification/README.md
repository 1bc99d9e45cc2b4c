# Verified models of the concurrency shaper

The shaper is a proxy that keeps an upstream from ever seeing more concurrency than it can take. This project models
its small concurrent state machines and proves what they promise.

- **Slot limiter** (`SlotLimiter`, `SlotLimiterTheorems`): the token channel, the post-release cooldown and the adaptive
  headroom with its restore timer. A step is one channel operation, one section under the mutex, one timer firing or
  one atomic counter update; runs interleave them freely over a monotone clock. The class `Limiter` has one method for
  each atomic step.
- **Circuit breaker** (`Breaker`, `BreakerTheorems`, `BreakerTimeline`): the three states, live probe tickets,
  stale-result filters, the sliding failure window, exponential backoff and penalty arithmetic. Theorems range over
  every run of calls; `BreakerTimeline` says who is admitted, what counts and for how long from the calls of the run
  alone.
- **Rotating credential source** (`ExecSource`, `ExecSourceTheorems`, `ExecSourceSchedule`): single-flight refresh,
  refusals, forced-refresh spacing that doubles, failure backoff and joined runs. The command is an arbitrary success or
  failure; `ExecSourceSchedule` says when it runs from the instants of the run alone.
- **Retry transport** (`RetryBuffer`, `RetryTransport`, `RoundTripTheorems`): the pooled request buffer shared by
  attempts, and the attempt loop with what it tells the breaker and its caller. The request's context ends at an
  arbitrary one of the looks the loop takes at it.
- **Exchange resolution** (`Exchange`, `ExchangeTheorems`, `StatusTheorems`, `ServeLimited`, `HoldTheorems`,
  `ExceptionalRuns`): who reports an exchange to the breaker on every path, which statuses count, how slots are taken,
  held and given back, and the inputs that show each exception is real. `Plain` and `Linked` state what net/http, the
  attempt marker and the retry transport guarantee about the facts an exchange ends with;
  `RetryTransport.RecordMatchesReports` and `RetryTransport.RecordedFailureIsSeen` are the retry transport's half,
  joined in `ExchangeTheorems.LastAttemptReportedOnce`.
- **Concurrent requests** (`SharedLimits`, `SharedLimitsTheorems`, `SharedLimitsProgress`): any number of requests in
  serveLimited at once, each with its route's limiter and the global one, interleaved with every step of the limiters.
  What a request does to its limiters is its `ServeLimited.Plan`, which `ServeLimited.PlanOf` reads off one call of
  `ServeLimited.Serve`; the theorems hold for all plans. A limiter's steps after a release are its own, so a request
  may go on before them, as it does when there is a cooldown.
- **Multi-target dispatcher** (`Ordering`, `Dispatcher`, `DispatcherTheorems`, `DispatcherServes`): which handler
  serves a model name, or which refusal answers it, independent of configuration order.
- **Suite admission pool** (`SuiteAdmission`): a token hand-off tied to the consumption of a buffered body.
- **Mount router and limit patterns** (`Paths`, `Router`, `RouteLimits`): the path resolution that both must agree on.

Each component gives its steps as functions on a state, an object whose methods are proved to perform exactly those
steps, and theorems about all runs of the steps; the concurrent requests are a composition of `ServeLimited` and
`SlotLimiter` and have no object of their own. `Prelude` holds shared values and arithmetic.

Seven expectations a reader might have turn out not to hold. Each is stated with its exact condition and has a lemma
with an input that shows it fails:

- Each attempt is reported to the breaker at most once, except that a 403 ban reported by the retry transport is
  reported again, as a success, when the ban expires while the body is copied
  (`ExchangeTheorems.ReportedTwiceExactlyOnExpiredBan`; `ExceptionalRuns.BanExpiresDuringCopy`). For a probe at most one
  of the two reports has an effect (`BreakerTheorems.SecondReportIsInert`); without an epoch both act
  (`BreakerTheorems.EpochZeroReportsBothAct`).
- Every epoch the breaker issues in an exchange is settled, unless a resend after a credential refresh fails locally,
  which cancels the admitted epoch instead of the retry's own, or the attempt was retried on a status of 600 or more
  (`ExchangeTheorems.EveryEpochSettledExactlyWhen`; `ExceptionalRuns.ResendFailsLocally`,
  `ExceptionalRuns.StatusOf600IsRetriedUnreported`).
- A retried attempt was reported as a failure, except that both configured policies retry statuses of 600 and more,
  which the breaker does not count (`RetryTransport.RetriedWereReportedUnless600`;
  `ExceptionalRuns.StatusOf600IsRetriedUnreported`).
- The slot hold after an upstream 5xx or 429 does not depend on the client staying connected, unless neither the breaker
  nor a failure hold covers it and there is a cancel cooldown (`ServeLimited.HoldIgnoresDisconnectExactlyWhen`;
  `ExceptionalRuns.DisconnectChangesHold`).
- A claimed profile name is served only by a target that defines it, unless the profile names no target model, which
  only the configuration parser rules out (`DispatcherTheorems.ProfileStaysWithItsMapping`;
  `DispatcherTheorems.EmptyTargetModelEscapes`).
- A limit pattern that matches behind a mount matches the whole path too, unless the pattern has no segments and the
  prefix of the mount has some (`RouteLimits.MatchBehindMountMatchesWhole`;
  `RouteLimits.RootPatternMatchesOnlyBehindMount`).
- A limiter never counts more releases than acquisitions, unless reductions withdraw idle tokens
  (`SlotLimiterTheorems.ReleasedExceedsAcquiredExactlyWhen`, `SlotLimiterTheorems.ReleasedAtMostAcquiredAndWithdrawn`;
  `SlotLimiterTheorems.OneReductionCrosses`).

Where the code and its comments disagree the code is modelled: `openTimeout` returns the cap at exponent 62 although the
power can still be below it, and the `withheld <= 0` branch of `restoreAdaptiveSlot` is unreachable.

Times and durations are integers in nanoseconds. Every call reads the clock once; two reads in one call of the source
are taken as one, except in the abort handler, where `Exchange.Times` keeps three.

## Model

| member | source | states |
|---|---|---|
| `SlotLimiter.Limiter.constructor` | internal/queue/queue.go:97-113 | A limiter starts with exactly limit idle tokens and nothing in flight or withheld. |
| `SlotLimiter.Limiter.TakeSlot` | internal/queue/queue.go:135-152 | Receiving a token on either path of Acquire moves one token from the channel into one new flight. |
| `SlotLimiter.Limiter.TrackAcquired` | internal/queue/queue.go:154-157 | The token counts as held, active and acquired. |
| `SlotLimiter.Limiter.CallRelease` | internal/queue/queue.go:158-174 | The first call parks the token for the cooldown or sends it on its way; every later call changes nothing. |
| `SlotLimiter.Limiter.CooldownElapsed` | internal/queue/queue.go:165-170 | No token leaves its cooldown early. |
| `SlotLimiter.Limiter.AbsorbNextRelease` | internal/queue/queue.go:182-190 | A release is absorbed exactly while a reduction is pending, and at most once per reduction. |
| `SlotLimiter.Limiter.SendToken` | internal/queue/queue.go:161-164 | The token is back in the channel, its release not yet counted. |
| `SlotLimiter.Limiter.CountReleased` | internal/queue/queue.go:161-164 | One pending release becomes counted. |
| `SlotLimiter.Limiter.AdaptiveReduce` | internal/queue/queue.go:201-230 | True exactly when a reduction is active or refreshed; the effective limit never drops below one; the restore timer gets a new epoch. |
| `SlotLimiter.Limiter.AdaptiveReduceTake` | internal/queue/queue.go:231-239 | An idle token is withdrawn at once when there is one. |
| `SlotLimiter.Limiter.RestoreTimerFires` | internal/queue/queue.go:215-230 | A fired timer leaves one callback with its epoch. |
| `SlotLimiter.Limiter.RestoreLocked` | internal/queue/queue.go:252-275 | Under the lock: a stale epoch changes nothing, a pending absorb is cancelled, and only a really withdrawn token is sent back. |
| `SlotLimiter.Limiter.RestoreAdaptiveSlot` | internal/queue/queue.go:252-279 | The callback goes on to send a token exactly when one had been withdrawn. |
| `SlotLimiter.Limiter.SendRestored` | internal/queue/queue.go:277-278 | The withdrawn token is back in the channel. |
| `SlotLimiterTheorems.RestoreKeepsInv` | internal/queue/queue.go:258-265 | A callback with the current epoch always finds a slot withheld: the withheld <= 0 branch never runs. |
| `SlotLimiterTheorems.RunKeepsInv` | internal/queue/queue.go:125-279 | Conservation, headroom, counters and cooldown ages hold in every state of every interleaving. |
| `SlotLimiterTheorems.TokensConserved` | internal/queue/queue.go:125-279 | Idle, taken, held, cooling, returning and sending tokens, plus one if a slot is withheld and not pending, are the limit; holders never exceed the effective limit. |
| `SlotLimiterTheorems.SendsNeverBlock` | internal/queue/queue.go:161-164 | Whoever is about to send on the channel, releasing or restoring, finds room. |
| `SlotLimiterTheorems.HeadroomHasOneRestorer` | internal/queue/queue.go:201-279 | A slot is withheld exactly while one outstanding callback carries the current epoch; any other callback is a no-op. |
| `SlotLimiterTheorems.WithheldThroughWindow` | internal/queue/queue.go:192-239 | A successful reduction stays in force for its whole window after the last refresh. |
| `SlotLimiterTheorems.ReductionCanEnd` | internal/queue/queue.go:249-279 | From every state with a slot withheld some run restores it. |
| `SlotLimiterTheorems.OneCooldownBound` | internal/queue/queue.go:90-96 | Within one cooldown at most limit acquisitions succeed. |
| `SlotLimiterTheorems.ThroughputBound` | internal/queue/queue.go:90-96 | A closed interval of length T sees at most limit * (T / cooldown + 1) acquisitions, in every run with reductions. |
| `SlotLimiterTheorems.ReleasedExceedsAcquiredExactlyWhen` | internal/queue/queue.go:231-237 | totalReleased passes totalAcquired exactly when withdrawn idle tokens outnumber the uncounted tokens out of the channel. |
| `SlotLimiterTheorems.ReleasedAtMostAcquiredAndWithdrawn` | internal/queue/queue.go:231-279 | In every run released plus not yet counted tokens are at most the acquisitions plus the idle tokens withdrawn; without such a withdrawal totalReleased never passes totalAcquired. |
| `SlotLimiterTheorems.TotalsCross` | internal/queue/queue.go:231-279 | The bound is tight: for every n some run withdraws n idle tokens, releases n and acquires none. |
| `SlotLimiterTheorems.OneReductionCrosses` | internal/queue/queue.go:231-279 | One reduction of an unused limiter of two slots, restored by its timer, ends with one release and no acquisition. |
| `Breaker.New` | internal/circuitbreaker/circuitbreaker.go:127-312 | Construction fails exactly when some option is out of its range or the penalty cap is below the base; otherwise the breaker is CLOSED with the last value of each option and the defaults filled in. |
| `Breaker.CircuitBreaker.constructor` | internal/circuitbreaker/circuitbreaker.go:287-312 | A new breaker is CLOSED without failures or probes. |
| `Breaker.CircuitBreaker.Allow` | internal/circuitbreaker/circuitbreaker.go:319-349 | Admission, the move to HALF_OPEN and the probe ticket issued, or ErrCircuitOpen. |
| `Breaker.CircuitBreaker.IssueProbe` | internal/circuitbreaker/circuitbreaker.go:351-357 | Each probe gets the next epoch and goes to the end of the list. |
| `Breaker.CircuitBreaker.WouldAllow` | internal/circuitbreaker/circuitbreaker.go:398-412 | The peek agrees with what Allow would decide and changes nothing. |
| `Breaker.CircuitBreaker.FindProbe` | internal/circuitbreaker/circuitbreaker.go:377-386 | The search finds the first ticket with the epoch, and none exactly when the epoch is not live. |
| `Breaker.CircuitBreaker.CancelProbe` | internal/circuitbreaker/circuitbreaker.go:423-438 | Cancelling removes the named live ticket and nothing else. |
| `Breaker.CircuitBreaker.TrimFailures` | internal/circuitbreaker/circuitbreaker.go:839-849 | The loop drops exactly the leading failures before the cutoff. |
| `Breaker.CircuitBreaker.RecordFailure` | internal/circuitbreaker/circuitbreaker.go:451-500 | A failure of a superseded probe or of a request older than the OPEN period is ignored; any other is counted and moves the state. |
| `Breaker.CircuitBreaker.RecordSuccess` | internal/circuitbreaker/circuitbreaker.go:511-547 | A success of a dead epoch is ignored; one of a live probe closes the breaker. |
| `Breaker.CircuitBreaker.PenaltyDuration` | internal/circuitbreaker/circuitbreaker.go:574-578 | The hold time computed under the lock is the specified penalty. |
| `BreakerTheorems.RunKeepsInv` | internal/circuitbreaker/circuitbreaker.go:319-547 | The probe, window and counter invariant holds after every run of calls. |
| `BreakerTheorems.FailuresRefineLog` | internal/circuitbreaker/circuitbreaker.go:451-500 | After a failure accepted at t the trimmed list is the log of accepted failures within the window, in order; a CLOSED breaker opens exactly when it holds the threshold. |
| `BreakerTheorems.ProbeWindow` | internal/circuitbreaker/circuitbreaker.go:267-276 | In every run probes exist only in HALF_OPEN with increasing issued epochs, pairwise more than one open timeout apart, so n of them span more than n - 1 timeouts. |
| `BreakerTheorems.DeadEpochIsInert` | internal/circuitbreaker/circuitbreaker.go:423-547 | A report or cancellation with a dead epoch leaves the breaker as it was. |
| `BreakerTheorems.SealedForever` | internal/circuitbreaker/circuitbreaker.go:388-396 | Once an epoch is dead no later call of any run revives it or has an effect with it. |
| `BreakerTheorems.LeavingHalfOpenSeals` | internal/circuitbreaker/circuitbreaker.go:388-396 | Leaving HALF_OPEN kills every epoch issued so far. |
| `BreakerTheorems.EndedWindowStaysSealed` | internal/circuitbreaker/circuitbreaker.go:388-396 | In every run from a new breaker: once a step ends HALF_OPEN, no report or cancellation with an epoch issued before it ever changes the breaker, however the run goes on. |
| `BreakerTheorems.HalfOpenEndsExactlyWhen` | internal/circuitbreaker/circuitbreaker.go:486-547 | HALF_OPEN ends exactly on a counted failure, which reopens with one more doubling, or on a recovering success, which resets. |
| `BreakerTheorems.SupersededProbeCanStillClose` | internal/circuitbreaker/circuitbreaker.go:451-460 | A superseded probe that fails is discarded yet stays live, and its later success still closes the breaker. |
| `BreakerTheorems.SupersededProbeCloses` | internal/circuitbreaker/circuitbreaker.go:451-547 | For every configuration a whole run from a new breaker: enough failures to open, a probe, a newer probe, the failure of the first one, which changes nothing, and its success, which closes the breaker. |
| `BreakerTheorems.EpochEndsExactlyWhen` | internal/circuitbreaker/circuitbreaker.go:423-547 | A report or cancellation by a probe kills its epoch unless it is a failure discarded because a newer probe superseded it. |
| `BreakerTheorems.SecondReportIsInert` | internal/circuitbreaker/circuitbreaker.go:451-547 | Of a failure and any later report with the same probe epoch at most one changes the breaker, whatever happens between. |
| `BreakerTheorems.EpochZeroReportsBothAct` | internal/circuitbreaker/circuitbreaker.go:511-547 | Without an epoch a failure and then a success of one request both act on a CLOSED breaker. |
| `BreakerTheorems.OpenTimeoutExactlyWhen` | internal/circuitbreaker/circuitbreaker.go:793-811 | openTimeout is min(open * 2^k, max) exactly unless k is 62, open is 1ns and max exceeds 2^62ns. |
| `BreakerTheorems.OpenTimeoutCorner` | internal/circuitbreaker/circuitbreaker.go:802-805 | The one exponent where the cap is returned although the power is below it. |
| `BreakerTheorems.OpenTimeoutStaysInInt64` | internal/circuitbreaker/circuitbreaker.go:806-810 | Neither the multiplier nor the product overflows int64. |
| `BreakerTheorems.OpenTimeoutBounds` | internal/circuitbreaker/circuitbreaker.go:793-811 | The timeout lies between open and max. |
| `BreakerTheorems.OpenTimeoutMonotone` | internal/circuitbreaker/circuitbreaker.go:793-811 | The timeout never shrinks as the exponent grows. |
| `BreakerTheorems.PenaltyBounds` | internal/circuitbreaker/circuitbreaker.go:813-837 | The penalty lies in [base, max], within less than one base of the nominal capped value, without overflow. |
| `BreakerTheorems.WaitingAdmits` | internal/circuitbreaker/circuitbreaker.go:319-349 | From every reachable state, waiting more than maxOpenTimeout makes Allow admit. |
| `BreakerTheorems.AllowIssuesOneProbe` | internal/circuitbreaker/circuitbreaker.go:319-357 | Admission outside CLOSED issues a fresh live newest probe and refuses the next caller for one open timeout. |
| `BreakerTimeline.OpenAdmitsExactlyWhen` | internal/circuitbreaker/circuitbreaker.go:319-349 | In every run: after an event at t that opens the circuit, and without an Allow in between, the next Allow hands out the next epoch exactly when min(open * 2^k, max) have passed since t (max in the one corner of the timeout), k being the reopenings since the run was last CLOSED; else it refuses. |
| `BreakerTimeline.NobodyWithinOpenTimeout` | internal/circuitbreaker/circuitbreaker.go:319-412 | Within openTimeout of an opening neither Allow nor WouldAllow admits anybody, whatever else the run does. |
| `BreakerTimeline.OtherStatesAdmitExactlyWhen` | internal/circuitbreaker/circuitbreaker.go:333-345 | In every run CLOSED admits everybody without an epoch, and HALF_OPEN admits exactly when every live probe is older than one open period, under the next epoch. |
| `BreakerTimeline.PenaltyOfRun` | internal/circuitbreaker/circuitbreaker.go:813-837 | In every run the penalty is one base more than the failures counted since the last success, as many as fit under the cap, or the longest Retry-After among those failures if that is longer, and at most the cap. |
| `BreakerTimeline.FailureCountsExactlyWhen` | internal/circuitbreaker/circuitbreaker.go:451-500 | In every run a failure is ignored exactly when its request began before the last opening or its epoch is not that of the newest live probe; any other joins the streak. |
| `BreakerTimeline.SuccessCountsExactlyWhen` | internal/circuitbreaker/circuitbreaker.go:511-547 | In every run a success closes a HALF_OPEN breaker exactly when its request did not begin before the last opening and its epoch is none or live; in CLOSED such an epoch ends the streak. |
| `BreakerTimeline.DefaultConfiguration` | internal/circuitbreaker/circuitbreaker.go:90-110 | Without options: five failures in 30s open the circuit for 10s to 120s, with penalties from 2s to 60s; of two options for one field the later counts. |
| `BreakerTimeline.GivenConfiguration` | internal/circuitbreaker/circuitbreaker.go:90-110 | Given options are kept, but the longest open period is never below the shortest. |
| `ExecSource.ExecBackoff` | internal/auth/execsource.go:347-355 | The doubling loop yields min(1s * 2^(n-1), 1min). |
| `ExecSource.ExecSecretSource.constructor` | internal/auth/execsource.go:146-170 | A new source holds no credential, no run and no refusal. |
| `ExecSource.ExecSecretSource.StartLocked` | internal/auth/execsource.go:285-309 | Joins the run in flight or starts the only one, or nothing during a backoff; a forced start stamps the spacing. |
| `ExecSource.ExecSecretSource.Secret` | internal/auth/execsource.go:172-198 | A fresh unrefused value is served at once; otherwise the caller waits on the run or gets what is held. |
| `ExecSource.ExecSecretSource.AfterWait` | internal/auth/execsource.go:200-212 | A caller whose run is done gets the held value, or the last error; one whose own context ended can instead get that error. |
| `ExecSource.ExecSecretSource.Invalidate` | internal/auth/execsource.go:214-255 | A refusal withholds the value and forces a refresh when its spacing allows; repeats back off. |
| `ExecSource.ExecSecretSource.Reacquire` | internal/auth/execsource.go:257-269 | Waits only for a run that is replacing the refused value. |
| `ExecSource.ExecSecretSource.RefreshBegins` | internal/auth/execsource.go:311-312 | The run reads the clock before the command. |
| `ExecSource.ExecSecretSource.RunFailed` | internal/auth/execsource.go:317-323 | A failure keeps the value and arms the backoff. |
| `ExecSource.ExecSecretSource.RunProduced` | internal/auth/execsource.go:324-342 | A success replaces the value and clears refusal, backoff and error. |
| `ExecSource.ExecSecretSource.RefreshEnds` | internal/auth/execsource.go:311-345 | The end of a run frees the single flight. |
| `ExecSourceTheorems.RunKeepsInv` | internal/auth/execsource.go:172-345 | The invariant over runs, values, refusals and forced refreshes holds in every interleaving. |
| `ExecSourceTheorems.ValueStays` | internal/auth/execsource.go:172-174 | At most one command is in flight, and a value once acquired is never lost. |
| `ExecSourceTheorems.SecretDecides` | internal/auth/execsource.go:172-198 | Secret never serves an empty value; it errs only when no run ever succeeded; outside a backoff a value served at once is younger than ttl and unrefused. |
| `ExecSourceTheorems.WaitingDecides` | internal/auth/execsource.go:200-212 | A finished wait yields a value if any run ever succeeded, and otherwise an error. |
| `ExecSourceTheorems.ReacquireDecides` | internal/auth/execsource.go:257-283 | Reacquire waits only on the run replacing the refused value and never yields an empty value. |
| `ExecSourceTheorems.FreshValueNeverBlocks` | internal/auth/execsource.go:178-185 | Refresh-ahead never blocks a caller who has a fresh value. |
| `ExecSourceTheorems.ForcedRefreshesSpaced` | internal/auth/execsource.go:214-255 | Consecutive forced refreshes start at least 5s apart, or after the backoff of at least 1s that followed the failure of the earlier one. |
| `ExecSourceTheorems.ForcedRefreshRate` | internal/auth/execsource.go:214-255 | n forced refreshes take at least n - 1 seconds however many refusals arrive. |
| `ExecSourceTheorems.RepeatNeedsDoubledSpacing` | internal/auth/execsource.go:234-254 | The k-th refused replacement forces a refresh exactly when min(5s * 2^k, 5min) have passed since the last forced one and no backoff holds it. |
| `ExecSourceTheorems.ScheduledRefreshResetsChain` | internal/auth/execsource.go:327-336 | A scheduled refresh nobody joined ends the chain of refused replacements. |
| `ExecSourceTheorems.RefusedValueIsWithheld` | internal/auth/execsource.go:244-248 | While a value stands refused no caller is served it except during a failure backoff. |
| `ExecSourceSchedule.RefreshAheadExactlyWhen` | internal/auth/execsource.go:172-198 | In every run: with an unrefused value whose run began at a, no run in flight and no backoff, Secret at now leaves a run in flight exactly when now is at least a + ttl - min(ttl/5, 5min), is served at once exactly before a + ttl, and waits from then on. |
| `ExecSourceSchedule.FailuresDelayExactly` | internal/auth/execsource.go:291-355 | In every run a caller without a usable value starts a run exactly unless the last of n failures in a row is less than min(1s * 2^(n-1), 1min) ago; then nobody waits. |
| `ExecSourceSchedule.RefusalTakesEffectExactlyWhen` | internal/auth/execsource.go:214-255 | The first refusal of a scheduled value withholds it and forces a run exactly when the last forced refresh is at least 5s ago. |
| `ExecSourceSchedule.ReplacementNeedsDoubledSpacing` | internal/auth/execsource.go:214-255 | The first refusal of the value a forced refresh produced forces the next one exactly when min(5s * 2^(k+1), 5min) have passed since, after k repeats, and withholds nothing. |
| `ExecSourceSchedule.FailureKeepsValue` | internal/auth/execsource.go:317-323 | A failed run leaves value, age and refusal as they were; callers without a value get its error. |
| `RetryBuffer.BufferTracker.constructor` | internal/retry/transport.go:716-718 | A tracker starts open, with no body counted. |
| `RetryBuffer.BufferTracker.NewBody` | internal/retry/transport.go:722-730 | A body is counted before its reader exists. |
| `RetryBuffer.BufferTracker.ReadDone` | internal/retry/transport.go:732-737 | One body fewer, and recycling if it was the last condition. |
| `RetryBuffer.BufferTracker.ResponseClosed` | internal/retry/transport.go:739-744 | The response no longer holds the buffer. |
| `RetryBuffer.BufferTracker.Finalize` | internal/retry/transport.go:746-754 | No more attempts; without a response body nothing is left to close. |
| `RetryBuffer.BufferTracker.MaybeReleaseLocked` | internal/retry/transport.go:756-761 | The buffer goes to the pool once, only when nothing can use it, and only when it is small enough. |
| `RetryBuffer.TrackingReader.constructor` | internal/retry/transport.go:722-730 | A reader starts at the first byte. |
| `RetryBuffer.TrackingReader.BeginRead` | internal/retry/transport.go:773-778 | A closed reader refuses to read. |
| `RetryBuffer.TrackingReader.EndRead` | internal/retry/transport.go:779-787 | The chunk is the next bytes of the shared buffer; EOF is reported only at its end. |
| `RetryBuffer.TrackingReader.Close` | internal/retry/transport.go:790-793 | A close is recorded under the reader mutex. |
| `RetryBuffer.TrackingReader.Fire` | internal/retry/transport.go:782-797 | However often EOF and Close happen, the tracker hears of the body once. |
| `RetryBuffer.RunKeepsInv` | internal/retry/transport.go:707-798 | The tracker count is exactly the bodies that have not ended, in every interleaving. |
| `RetryBuffer.RecycledExactlyWhenQuiet` | internal/retry/transport.go:701-761 | The buffer is recycled at most once, exactly when no attempt can follow, the response is closed and every body has ended. |
| `RetryBuffer.BodiesAllowedUntilFinalize` | internal/retry/transport.go:720-754 | A new body is allowed exactly until the first finalize. |
| `RetryBuffer.NoReaderOutlivesBuffer` | internal/retry/transport.go:763-798 | Once recycled, no reader can return another byte, not even one in the middle of a Read. |
| `RetryBuffer.BodiesDeliverOwnBytes` | internal/retry/transport.go:701-798 | Whatever later requests write into the recycled memory, every body delivers a prefix of its own request. |
| `RetryBuffer.LateBodyReadsForeignBytes` | internal/retry/transport.go:722-730 | Why newBody must not follow finalize: such a body reads foreign bytes. |
| `RetryBuffer.ReadsGetTheNextBytes` | internal/retry/transport.go:773-788 | In every run a Read that is under way returns the next n bytes of the client's body or all that is left, and reports EOF only at its very end. |
| `RetryBuffer.EofMeansWholeBody` | internal/retry/transport.go:773-788 | A body that has ended without being closed has delivered everything. |
| `RetryBuffer.EndsAreSeenInRuns` | internal/retry/transport.go:739-797 | In every run a closed response, the end of the round trip, and a body that was closed or read to its end have each told the tracker so, or are about to. |
| `RetryTransport.Try` | internal/retry/transport.go:486-537 | One attempt refreshes the caller record, is classified once, and makes the expected report. |
| `RetryTransport.Decide` | internal/retry/transport.go:539-592 | A reply ends the round trip or is closed and retried; a retry means the policy asked, the limit allows it and the body can be replayed. |
| `RetryTransport.Cancel` | internal/retry/transport.go:595-614 | A cancelled request cancels its current epoch and closes the response. |
| `RetryTransport.RoundTripOversized` | internal/retry/transport.go:318-389 | A body too large to buffer gets one attempt, reported like any other. |
| `RetryTransport.BeforeRetry` | internal/retry/transport.go:414-484 | Before a retry: cancellation, the gauge, Allow, the new body and the wait, in this order; it ends the round trip exactly when the context has ended or Allow refuses. |
| `RetryTransport.RoundTrip` | internal/retry/transport.go:288-593 | Over every environment: a legal trail of attempts under the epochs Allow issued, a record that describes it, cancellation exactly where a look finds the context ended, one body a turn before finalize, and a balanced in-flight gauge. |
| `RetryTransport.AtMostOneReport` | internal/retry/transport.go:519-537 | Each attempt is reported at most once, under its own epoch and start, as a failure only with a failure status. |
| `RetryTransport.RetriedWereReportedUnless600` | internal/retry/transport.go:67-77 | Under the default policy, the one that skips 429, and any other that retries no more than the default, a retried attempt was reported as a failure, exactly unless its status was 600 or more. |
| `RetryTransport.EndingAccountsForEpoch` | internal/retry/transport.go:413-605 | How every ending leaves the last epoch: cancelled, refused after a retried attempt, or returned with exactly the unreported replies left to the caller. |
| `RetryTransport.RecordMatchesReports` | internal/retry/transport.go:170-192 | The record says a failure was recorded exactly when the breaker was told so, under the same epoch and start. |
| `RetryTransport.RecordedFailureIsSeen` | internal/retry/transport.go:565-575 | A recorded failure is visible in the returned reply: an error, or a status the breaker counts. |
| `RetryTransport.OnlyReturnedResponseStaysOpen` | internal/retry/transport.go:580-626 | Every response except the one returned has been closed. |
| `RetryTransport.CallsAreLegal` | internal/retry/transport.go:413-626 | The tracker calls of a round trip are a run of the buffer model, finalized exactly when the round trip is over. |
| `RoundTripTheorems.RoundTripIsDetermined` | internal/retry/transport.go:413-605 | What RoundTrip promises leaves nothing open: setup, policy, environment and the moment the client leaves determine every attempt, its report, what is cancelled and closed, and the result. |
| `RoundTripTheorems.LeftClientGetsOneAttempt` | internal/retry/transport.go:548-590 | A client that has left before the first reply gets one attempt; its reply is returned all the same, exactly unless it is that cancellation or one to retry, and then the epoch is cancelled and the response closed. |
| `RoundTripTheorems.PatientClientGetsAnswer` | internal/retry/transport.go:413-592 | For a client that stays every attempt is made, none is cancelled, and the first reply that is not to be retried is returned, exactly unless the breaker refuses a retry before it. |
| `StatusTheorems.AnsweredAttemptReported` | internal/retry/transport.go:519-537 | Of every answered attempt: with a breaker a failure under its own status and Retry-After exactly for a status of 0, 429, 500 to 599, or 403 with a ban; a success exactly for another 2xx when the caller did not ask to make it; else nothing. |
| `StatusTheorems.FailedAttemptReported` | internal/retry/transport.go:519-537 | Of every attempt that ended in an error: a failure exactly unless the error is local or the client's own cancellation and no counting response came with it. |
| `StatusTheorems.RetriesWhatItShould` | internal/retry/transport.go:67-77 | Under the default policy exactly errors that are not local, 429 and statuses from 500 are tried again, until the limit, a body that cannot be replayed, the breaker or the client ends it. |
| `StatusTheorems.SkippingPolicyDiffersAt429` | internal/proxy/transportchain.go:36-48 | The policy that skips 429 differs from the default in that status alone. |
| `Exchange.Resolver.OnHandshake` | internal/proxy/upgrade.go:34-56 | The first hook of a probe resolves it: a success or a cancellation, once. |
| `Exchange.Resolver.RecordAbortFailure` | internal/proxy/classify.go:560-586 | An abort failure is recorded once and marks the attempt; a failure the retry transport reported is not repeated. |
| `Exchange.Resolver.DecideAbort` | internal/proxy/classify.go:471-532 | Definitive upstream facts win over the upstream read error, which wins over the client side. |
| `Exchange.Resolver.HandleAbortHandler` | internal/proxy/classify.go:471-532 | The abort is recorded exactly when it is an upstream failure. |
| `Exchange.Resolver.HandleSuppressedAbort` | internal/proxy/classify.go:534-558 | A failed copy aborts the exchange and is handled like an abort panic once an attempt started. |
| `Exchange.Resolver.CancelSuppressedAbortProbe` | internal/proxy/classify.go:430-439 | The probe is cancelled unless its failure is on record. |
| `Exchange.Resolver.RecordFailureOnce` | internal/proxy/classify.go:361-379 | A failure already reported by the retry transport is not reported again. |
| `Exchange.Resolver.ResolveAbortedExchange` | internal/proxy/classify.go:274-309 | An aborted exchange reports a definitive failure or a definitive non-2xx answer of a probe, else cancels. |
| `Exchange.Resolver.ResolveBreakerResult` | internal/proxy/classify.go:311-359 | A finished exchange reports failure, success or nothing from its verdict. |
| `Exchange.Resolver.Resolve` | internal/proxy/limited.go:385-464 | The whole end of an exchange, on every path. |
| `ExchangeTheorems.AtMostOneReport` | internal/proxy/limited.go:385-464 | Unless the retry transport reported the attempt, the breaker hears at most one report across abort panics, suppressed aborts, upgrade hooks and the final resolution. |
| `ExchangeTheorems.ReportedTwiceExactlyOnExpiredBan` | internal/proxy/classify.go:326-359 | An attempt the retry transport reported is reported again, as a success, exactly when its 403 ban expired during the copy of an otherwise clean probe exchange. |
| `ExchangeTheorems.RoundTripLinks` | internal/retry/transport.go:507-575 | What the exchange theorems assume about a reported attempt follows from any round trip whose reply the recorder shows. |
| `ExchangeTheorems.LastAttemptReportedOnce` | internal/retry/transport.go:413-592 | Retry loop and proxy together report the last attempt of a native exchange at most once, exactly unless a reported 403 ban expired during the copy. |
| `ExchangeTheorems.EpochSettledExactlyWhen` | internal/proxy/limited.go:416-459 | The epoch of the last started attempt is reported or cancelled, exactly unless a resend after a credential refresh failed locally under another epoch than the admitted one. |
| `ExchangeTheorems.EveryEpochSettledExactlyWhen` | internal/proxy/limited.go:385-464 | Under every such policy: every epoch Allow issued in one exchange, admitted or for a retry, is reported or cancelled by the transport or the proxy, exactly unless its attempt was retried on a status of 600 or more (the admitted epoch escapes when it is cancelled at the end) or it is the last started retry and its resend failed locally. |
| `ExchangeTheorems.SuccessExactlyWhen` | internal/proxy/classify.go:200-272 | A native exchange ends in a success exactly for a complete upstream answer that is no failure and that the client waited for; outside a probe only a 2xx counts. |
| `ExchangeTheorems.TranscodedSuccessExactlyWhen` | internal/proxy/classify.go:131-194 | A transcoded exchange ends in a success exactly when its outcome shows an upstream status without upstream failure, local failure or client abort, and outside a probe only for a 2xx delivered whole. |
| `ExchangeTheorems.NoEarlierSuccess` | internal/proxy/limited.go:385-464 | Without a protocol switch no success is reported before the last call. |
| `ExchangeTheorems.DefinitiveFailureSurvivesDisconnect` | internal/proxy/classify.go:476-500 | An upstream 5xx or 429 is on record whatever the client and the copy did. |
| `ExchangeTheorems.FailureHasCause` | internal/proxy/classify.go:28-61 | The proxy blames the upstream only for an attempt the retry transport has not reported, and only for a transport error that is not the client leaving, a failure or missing status, or an unclean upstream body. |
| `ExchangeTheorems.HandshakeIsFinal` | internal/proxy/classify.go:102-104 | A handshake resolved by the hooks is neither failed nor credited again. |
| `StatusTheorems.OrdinaryAnswerIsNoFailure` | internal/proxy/classify.go:28-61 | An upstream answer whose status is not 0, 403, 429 or 500 to 599 is never reported as a failure by the proxy, however the client and the copy end, unless the upstream broke off its body. |
| `StatusTheorems.CompleteAnswerFailsExactlyWhen` | internal/proxy/classify.go:200-272 | A finished native exchange with nothing amiss towards the client is reported as a failure exactly for a status of 0, 429, 500 to 599, or 403 under a ban that still holds, once, under the attempt's start and epoch and with what is left of Retry-After. |
| `StatusTheorems.TransportErrorFailsExactlyWhen` | internal/proxy/classify.go:200-272 | A finished exchange whose transport failed is reported as a failure exactly unless the breaker refused the attempt, the defect is local, or it is the cancellation of a client that has left. |
| `StatusTheorems.TranscodedFailureExactlyWhen` | internal/proxy/classify.go:131-194 | A finished transcoded exchange is reported as a failure exactly when its recorded outcome says so, with the Retry-After recorded. |
| `StatusTheorems.HandshakeReported` | internal/proxy/upgrade.go:34-56 | A probe that ends in a protocol switch is credited with it at once, a failed handshake cancels it, and nothing but cancellations follows. |
| `StatusTheorems.AbortedRefusalReported` | internal/proxy/classify.go:471-532 | An abort panic after an upstream 429 or 5xx is reported as exactly that refusal. |
| `StatusTheorems.LocalPanicReported` | internal/proxy/limited.go:385-464 | A panic of the proxy's own code counts against nobody: it cancels the attempt unless its failure is on record, and shows a client that has seen nothing a 502 of the proxy's own. |
| `StatusTheorems.AbortedExactlyWhen` | internal/proxy/classify.go:534-558 | A finished native exchange ends as aborted exactly when it was marked so, its copy failed on either side, or its transport gave up because the client had left. |
| `StatusTheorems.UnattemptedIsCancelled` | internal/proxy/limited.go:416-459 | An exchange that never reached the upstream only cancels the epoch it was admitted with, and an answer to it counts as the proxy's own. |
| `ExceptionalRuns.BanExpiresDuringCopy` | internal/proxy/classify.go:326-359 | A round trip and an exchange in which a reported 403 ban expires during the copy and the same attempt is reported again, as a success. |
| `ExceptionalRuns.ResendFailsLocally` | internal/proxy/limited.go:416-429 | A round trip of two attempts and an exchange whose second epoch is neither reported nor cancelled, because the resend failed to be signed. |
| `ExceptionalRuns.StatusOf600IsRetriedUnreported` | internal/retry/transport.go:67-77 | A round trip and an exchange whose first reply has status 600: retried, and its epoch neither reported nor cancelled by the transport or the proxy, although the exchange ends in a success. |
| `ServeLimited.Admit` | internal/proxy/limited.go:58-165 | A request is refused before any slot for an open circuit, a queue at its depth limit on either limiter, an ended context, or a refusal by Allow, in this order; otherwise it has the epoch Allow issued. |
| `ServeLimited.ReleaseSlots` | internal/proxy/limited.go:248-318 | The defer reduces headroom on a 429, then holds both slots under exactly one timer or gives both back now. |
| `ServeLimited.Serve` | internal/proxy/limited.go:36-465 | How the request ends, in the order of the checks; on every path each acquired slot goes back exactly once, now or through one timer, as the plan of the request says; the gauges balance; a request refused before Allow touches no epoch; with retries off every admitted epoch is settled. |
| `ServeLimited.HoldIgnoresDisconnectExactlyWhen` | internal/proxy/limited.go:209-234 | The hold after an upstream 5xx or 429 is the same whether or not the client left, exactly when the breaker or a failure hold covers it or there is no cancel cooldown. |
| `ServeLimited.AbandonedAttemptIsHeld` | internal/proxy/limited.go:297-316 | With a cancel cooldown, leaving after an attempt started never frees the slots at once. |
| `ServeLimited.UnattemptedIsFreedAtOnce` | internal/proxy/limited.go:264-318 | Without an upstream attempt nothing is held. |
| `HoldTheorems.RefusalLease` | internal/proxy/limited.go:264-318 | After an upstream 429 or 5xx the slots are held for exactly the penalty with a breaker, for exactly the failure hold without one, and without either for the cancel cooldown of a client that left; only a 429 gives up headroom. |
| `HoldTheorems.OrdinaryLease` | internal/proxy/limited.go:264-318 | After any other answer that does not count the slots are held for a failure the retry transport recorded for that attempt, else for exactly the cancel cooldown of a client that left, else not at all. |
| `HoldTheorems.CleanAnswerFreesAtOnce` | internal/proxy/limited.go:264-318 | A complete ordinary answer to a client that stayed leaves no timer. |
| `HoldTheorems.TransportFailureLease` | internal/proxy/limited.go:264-318 | A finished exchange whose transport really failed is held like a refusal by the upstream. |
| `HoldTheorems.UnansweredLease` | internal/proxy/classify.go:441-469 | A client that leaves before any answer leaves its cancel cooldown, or the hold for a failure when any attempt of the retry loop failed. |
| `HoldTheorems.TranscodedLease` | internal/proxy/limited.go:264-318 | A transcoded exchange that reached the upstream is held for a recorded failure, of its outcome or of the attempt, else only for a client that left; headroom is given up exactly for a recorded 429. |
| `HoldTheorems.NothingToHold` | internal/proxy/limited.go:248-318 | A panic of the proxy's own code, and a request that never reached the upstream, leave no timer and give up no headroom. |
| `SharedLimitsTheorems.RunKeepsInv` | internal/proxy/limited.go:36-465 | In every interleaving of any number of requests over any limiters, slots, stages, books, tokens and locks agree: every slot of a request is one acquisition of its limiter, no two requests have the same, and no acquisition is without a request. |
| `SharedLimitsTheorems.SeenIsARun` | internal/queue/queue.go:125-279 | Whatever the requests do, each limiter sees a run of its own model, so all theorems about its runs apply. |
| `SharedLimitsTheorems.SharedLimitHolds` | internal/proxy/limited.go:240-318 | For every limiter, the requests inside a handler and those whose slots a timer holds together never outnumber the limit less the slot a reduction has withdrawn; its active count is exactly the requests that have a counted slot. |
| `SharedLimitsTheorems.HandlersHaveSlots` | internal/proxy/limited.go:320-345 | Every handler that runs, and every pending hold, has the slot of its route and of the global limiter. |
| `SharedLimitsTheorems.RequestsAreThrottled` | internal/proxy/limited.go:467-480 | All requests together receive slots of one limiter at most at the rate its cooldown allows. |
| `SharedLimitsTheorems.SlotsReturnOnce` | internal/proxy/limited.go:240-318 | The release closure of each acquisition has been called exactly once when no request has its slot any more, and never before. |
| `SharedLimitsTheorems.EndsAsServed` | internal/proxy/limited.go:36-465 | A request that ends among any others has the books Serve computes for its plan, and one whose slots are held lacks only what its timer will do. |
| `SharedLimitsTheorems.LeaseIsServed` | internal/proxy/limited.go:264-318 | A request that is parked keeps all its slots for the whole penalty, failure hold or cancel cooldown whatever the others do, and no token of it can be received again before one more release cooldown. |
| `SharedLimitsProgress.EveryRequestCanEnd` | internal/proxy/limited.go:36-480 | No interleaving is a deadlock: from every state of every run all requests begun so far can end, and then nobody has a slot. |
| `ExceptionalRuns.DisconnectChangesHold` | internal/proxy/limited.go:209-234 | The same upstream 500 is held for the cooldown when the client left and freed at once when it stayed. |
| `Dispatcher.ExplicitDialects` | internal/proxy/transcodedispatcher.go:488-500 | The loop lists exactly the explicit dialects of the model, sorted and without repetition. |
| `Dispatcher.CollectDecisions` | internal/proxy/transcodedispatcher.go:403-420 | The claims loop finds whether the name is claimed, the doubly mapped models and all decisions. |
| `Dispatcher.Scan` | internal/proxy/transcodedispatcher.go:457-466 | The scan over the sorted decisions lists each pair once, in order, and every tier. |
| `Dispatcher.FindConflict` | internal/proxy/transcodedispatcher.go:390-486 | The refusal, or its absence, is the one determined by the sets of what the claimants declare. |
| `Dispatcher.SelectTarget` | internal/proxy/transcodedispatcher.go:313-375 | The loops find the first deciding claimant, the first indirectly decided one, or the fallback. |
| `Dispatcher.New` | internal/proxy/transcodedispatcher.go:114-158 | Construction fails exactly on conflicting client protocols; the handlers are the first target of each dialect. |
| `Dispatcher.ServeHTTP` | internal/proxy/transcodedispatcher.go:191-277 | The decision of one request, from native miss to handler or refusal. |
| `DispatcherTheorems.ConflictIgnoresOrder` | internal/proxy/transcodedispatcher.go:377-486 | The conflict refusal, word for word, is the same in every registration order, for any number of targets. |
| `DispatcherTheorems.DecisionsAgree` | internal/proxy/transcodedispatcher.go:448-485 | A claimed name without conflict has one dialect, one target model and one tier between its deciding claimants. |
| `DispatcherTheorems.SelectIgnoresOrder` | internal/proxy/transcodedispatcher.go:290-312 | Two orders select the same dialect and target model, and the same target where it matters. |
| `DispatcherTheorems.OutcomeIgnoresOrder` | internal/proxy/transcodedispatcher.go:191-277 | Handler, or refusal with status and message, is invariant under any permutation of targets with one mapping per upstream, for all maps and requests. |
| `DispatcherTheorems.ProfileStaysWithItsMapping` | internal/proxy/transcodedispatcher.go:64-76 | For every claimed name not resolved natively that is served: the target defines the name exactly unless some claimant names no target model, some target maps the empty model, and the handler picked for that dialect does not define the name; it serves the model and tier of a deciding claimant exactly unless that handler does not define the name with the empty model. |
| `DispatcherTheorems.EmptyTargetModelEscapes` | internal/proxy/transcodedispatcher.go:244-249 | The check is skipped for a profile without a target model: its name is then served by a target that does not define it. |
| `DispatcherTheorems.ClaimedRefusedAsNativeExactlyWhen` | internal/proxy/transcodedispatcher.go:264-268 | A claimed name gets the messages-native 404 exactly when the claimants do not conflict, some target model of theirs is mapped explicitly, and every mapped one is mapped to messages alone; the refusal then quotes that model. |
| `DispatcherTheorems.RawRefusedAsNativeExactlyWhen` | internal/proxy/transcodedispatcher.go:264-268 | An unclaimed name gets the messages-native 404 exactly when messages is its one explicit dialect. |
| `DispatcherServes.NamelessServed` | internal/proxy/transcodedispatcher.go:250-277 | A request without a model is served by the first chat target, else by the first responses target, else refused with a 500. |
| `DispatcherServes.UnmappedServed` | internal/proxy/transcodedispatcher.go:250-277 | So is an unclaimed name that no target maps to a dialect. |
| `DispatcherServes.NativelyServed` | internal/proxy/transcodedispatcher.go:250-277 | A dialect that the native route resolved is served by the first target of that upstream, or as above when there is none; messages is refused. |
| `DispatcherServes.MappedServed` | internal/proxy/transcodedispatcher.go:313-375 | An unclaimed name mapped to one dialect is served by the first target of that upstream, or as above when there is none; mapped to messages it gets a 404, and mapped to several a 500 that lists exactly those. |
| `DispatcherServes.UndecidedProfileServed` | internal/proxy/transcodedispatcher.go:313-375 | A claimed name whose target models nobody maps is served by the first chat claimant that can forward its model, else the first claimant that can, else the first chat claimant, else the first. |
| `DispatcherServes.DecidedProfileServed` | internal/proxy/transcodedispatcher.go:517-559 | A claimed name settled without a conflict is served by the handler of the declared dialect exactly if that one fits, and otherwise refused with a 500 that says what is amiss. |
| `DispatcherServes.ConflictExactlyWhen` | internal/proxy/transcodedispatcher.go:390-486 | Claimants conflict exactly when a target model of theirs is mapped to two dialects, or two settled ones differ in dialect, model or tier. |
| `DispatcherServes.NativeProfileRefused` | internal/proxy/transcodedispatcher.go:561-592 | A profile settled on messages is refused with a 404 that names the profile and its model. |
| `DispatcherServes.TwofoldRefusal` | internal/proxy/transcodedispatcher.go:421-447 | The refusal lists exactly the doubly mapped target models, each with exactly the dialects declared for it. |
| `DispatcherServes.DifferentDecisionsListed` | internal/proxy/transcodedispatcher.go:467-485 | The refusal for differing decisions lists exactly the pairs of dialect and model that some claimant settles. |
| `DispatcherServes.DifferentTiersListed` | internal/proxy/transcodedispatcher.go:457-466 | The refusal for differing tiers names the common model and every tier, an empty one as none. |
| `SuiteAdmission.PoolSize` | internal/router/suiteadmission.go:85-89 | At least one slot, the slots times the body limit stay within the larger of 64 MiB and one body, and one slot more would not. |
| `SuiteAdmission.Admission.constructor` | internal/router/suiteadmission.go:85-89 | A new pool is empty. |
| `SuiteAdmission.Admission.Acquire` | internal/router/suiteadmission.go:103-116 | Once a case of the select is ready: a slot is taken only when there is room, a request is turned away only when its client left, and either can win when both hold. |
| `SuiteAdmission.Admission.GiveBack` | internal/router/suiteadmission.go:107-111 | One slot comes back. |
| `SuiteAdmission.Handoff.DrainOnce` | internal/router/suiteadmission.go:136-144 | However many bodies drain, the token goes back once. |
| `SuiteAdmission.HandoffBody.Enter` | internal/router/suiteadmission.go:183-219 | Under the mutex: a closed body refuses, an open one lets one reader or copier in. |
| `SuiteAdmission.HandoffBody.Read` | internal/router/suiteadmission.go:183-196 | The next bytes in order, even when the body was closed meanwhile; draining follows exactly when the primary body is exhausted. |
| `SuiteAdmission.HandoffBody.WriteTo` | internal/router/suiteadmission.go:214-225 | The accepted part of the remainder, even when the body was closed meanwhile; a panicking destination moves nothing and releases nothing. |
| `SuiteAdmission.HandoffBody.Close` | internal/router/suiteadmission.go:227-231 | A close ends reading and drains only the primary body. |
| `SuiteAdmission.RunKeepsInv` | internal/router/suite.go:199-304 | The invariant over tokens, stages and bodies holds in every interleaving. |
| `SuiteAdmission.TokensReturnedOnce` | internal/router/suite.go:199-304 | Occupancy is the number of requests with an unreturned token; a token goes back once, after hand-off only when the primary body is spent or closed or the handler has returned. |
| `SuiteAdmission.GivingBackNeverBlocks` | internal/router/suiteadmission.go:107-111 | Returning a token never waits on an empty pool. |
| `SuiteAdmission.BodiesDeliverPrefix` | internal/router/suiteadmission.go:171-231 | Under any interleaving of Read, WriteTo and Close, a close in the middle of a copy included, each body delivers a prefix of the buffered bytes, none twice or skipped. |
| `SuiteAdmission.ReplaysNeverRelease` | internal/router/suiteadmission.go:152-158 | Reading, copying or closing a replay body never touches the pool or the token. |
| `SuiteAdmission.BodiesStartAtTheFirstByte` | internal/router/suiteadmission.go:148-170 | The target gets one primary body over all that was buffered, and every replay a fresh body over the same bytes. |
| `SuiteAdmission.ReadersGetTheNextBytes` | internal/router/suiteadmission.go:183-196 | In every run a Read that is let in gets the next n bytes of the buffer, or all that is left. |
| `SuiteAdmission.WritersGetTheNextBytes` | internal/router/suiteadmission.go:214-225 | In every run a destination is given exactly the bytes it accepts, in order; one that panics has been given none. |
| `SuiteAdmission.ExhaustionReleases` | internal/router/suiteadmission.go:183-244 | In every run the token of a handed-off request is back, or on its way back, once its primary body was closed or read to its end. |
| `Paths.ComputeSegments` | internal/router/router.go:188-203 | The traversal loop computes the resolved segments. |
| `Paths.ComputeJoin` | internal/router/router.go:205-218 | The builder loop computes the joined path. |
| `Paths.ComputeSplitSegments` | internal/route/route.go:127-160 | The two loops compute the resolved segments split at colons. |
| `Paths.SegmentsAreClean` | internal/router/router.go:188-203 | Resolved segments are never empty, dots or slashes. |
| `Paths.SegmentsOfJoin` | internal/router/router.go:205-218 | Joining clean segments and segmenting again gives them back. |
| `Paths.RebuildingIsInvisible` | internal/route/route.go:127-160 | splitSegments(joinSegments(segments(p))) == splitSegments(p) for every path. |
| `Paths.SegmentsOfConcat` | internal/router/router.go:188-203 | A path joined with one more piece resolves to the front resolved first. |
| `Paths.SegmentsOfParent` | internal/router/router.go:193-199 | A trailing .. drops exactly the last resolved segment. |
| `Paths.MiddlePieces` | internal/router/router.go:188-203 | A repeated slash and a dot in the middle of a path change nothing, and .. undoes the segment before it. |
| `Paths.TokensOfSegment` | internal/route/route.go:127-160 | Colons separate the tokens of a segment, however many there are. |
| `Paths.TokensOfPath` | internal/route/route.go:127-160 | A clean last segment adds its own tokens to those of the path before it. |
| `Paths.JoinedPath` | internal/router/router.go:205-218 | A joined path has a slash before each segment; the root alone is a slash. |
| `Router.PrefixesOverlap` | internal/router/router.go:232-244 | Two mounts overlap exactly when the segments of one begin the segments of the other. |
| `Router.NormalizeProviders` | internal/router/router.go:83-102 | Every prefix is normalized, or the first defect is named. |
| `Router.FindOverlap` | internal/router/router.go:110-121 | The double loop finds an overlap exactly when there is one. |
| `Router.New` | internal/router/router.go:73-127 | A table is built exactly for acceptable providers, and every error names a real defect. |
| `Router.ServeHTTP` | internal/router/router.go:135-182 | The scan dispatches to the first mounting provider with the rest of the path, or 404. |
| `Router.AtMostOneMounts` | internal/router/router.go:73-127 | An accepted table sends no path to two providers. |
| `Router.DispatchFinds` | internal/router/router.go:148-182 | The scan answers with a mounting provider, and 404 only when there is none. |
| `Router.DispatchIgnoresOrder` | internal/router/router.go:73-182 | Acceptance and dispatch do not depend on the provider order. |
| `Router.MountAddsUp` | internal/router/router.go:166-178 | The mount segments followed by the forwarded path segments are the request segments. |
| `Router.NormalizationKeepsMount` | internal/router/router.go:222-230 | Normalizing drops at most one trailing slash, leaves the mount as it is, and makes the empty prefix of exactly the empty one and the slash. |
| `Router.MountsExactlyWhen` | internal/router/router.go:148-182 | A provider serves exactly the paths that begin, segment by segment, with its prefix, and is handed the rest. |
| `RouteLimits.MatchesSuffixSegments` | internal/route/route.go:168-182 | The loop decides whether the pattern is a suffix of the path, folding case. |
| `RouteLimits.Match` | internal/route/route.go:109-123 | A pattern matches by method and by suffix; an empty pattern matches only the root. |
| `RouteLimits.Matcher.constructor` | internal/route/route.go:189-198 | The matcher holds the patterns in order. |
| `RouteLimits.Matcher.AddPattern` | internal/route/route.go:200-205 | A pattern is appended. |
| `RouteLimits.Matcher.FindMatch` | internal/route/route.go:231-240 | The first matching pattern decides. |
| `RouteLimits.Matcher.IsUnlimited` | internal/route/route.go:217-229 | A request is exempt exactly when its first matching pattern is unlimited. |
| `RouteLimits.RebuildingKeepsLimits` | internal/route/route.go:127-160 | The path rebuilt by the router is limited by the same pattern. |
| `RouteLimits.MatchesExactlyWhen` | internal/route/route.go:109-182 | A pattern matches exactly a request with its method whose path ends with its segments, all but for case; one without segments matches the root alone. |
| `RouteLimits.MatchBehindMountMatchesWhole` | internal/route/route.go:109-123 | A pattern that matches behind a mount matches the whole path too, exactly unless it has no segments and the prefix of the mount has some. |
| `RouteLimits.RootPatternMatchesOnlyBehindMount` | internal/route/route.go:109-123 | A pattern without segments matches a request for the mount itself behind the mount and does not match its whole path. |

## Left out

- I/O: sockets, TLS, gRPC, process execution, signals, logging and the terminal interface. Timers, the command and
  other goroutines are nondeterministic steps or inputs.
- Metrics and journal: gauges and totals other than those named in the table, ring buffers, body capture, the waiters
  count and the early-commit queue comments; a committed stream appears only as a field of the recorder.
- Header parsing: Retry-After is an arbitrary non-negative value, a ban an arbitrary expiry, and the default retry
  jitter and wait lengths are not modelled because no property depends on them.
- Conversion: the transcode handlers are their outcome records, and body inspection yields a model name or none.
- Passthrough admission: only the limited path is modelled.
- Counters are unbounded integers: wrap-around of the int64 totals and of the uint64 epochs is not modelled, nor are
  clock steps backwards.
- SlotLimiter.Limiter.constructor: the two panics on a bad limit or cooldown are its precondition.
- SlotLimiter.Limiter.TakeSlot: a waiter that gives up changes only the timeout counter and is not a step.
- Breaker.CircuitBreaker.RecordFailure: the status code, which the source only passes along, and the instants kept for
  display are not modelled.
- ExecSource.ExecSecretSource.RunProduced: the extraction of the first output line is a non-empty credential.
- RetryTransport.RoundTrip: the retry policy is an arbitrary function of the reply, the environment a finite script, so
  that a run that has not ended is a prefix; waiting and draining take no time.
- RetryTransport.RoundTripOversized: the stream behind the buffered prefix is not modelled.
- Exchange.Resolver.Resolve: the response writer is always the proxy's own recorder, and the transport is the one the
  proxy builds; a caller-supplied retry transport without a breaker is not modelled.
- ServeLimited.Serve: the admission deadline and a client that leaves are one fact, and the body inspection before
  admission is not modelled.
- Dispatcher.New: the body bounds are not modelled.
- Dispatcher.ServeHTTP: the texts are the constructors of `Refusal` with the values they quote; shortening a long text
  and writing it in the client's dialect are functions of those.
- SuiteAdmission.RunKeepsInv: the inspection timeout and the error replies are one refusal step.
- RouteLimits.Match: Unicode case folding is an arbitrary function on characters.
- Router.ServeHTTP: the request is its path; cloning it and clearing its raw path are not modelled.
- Parsing of patterns and flags, credential redaction, the catalog, the remaining suite routing and default merging
  would add only easy members.
- Starvation freedom of Go channels cannot be concluded from this code.
