/** The circuit breaker of internal/circuitbreaker/circuitbreaker.go.

    Instants and durations are integers in nanoseconds; None stands for a zero time.Time. Every call
    reads the clock once, and callers hold the breaker's mutex, so a call is one step.
  */
module Breaker {
  import opened Prelude

  /** The configuration New accepts: after applyDefaults and the cross-option check. */
  datatype Config = Config(
    failureThreshold: int,
    window: int,
    openTimeout: int,
    maxOpenTimeout: int,
    basePenalty: int,
    maxPenalty: int
  ) {
    predicate Valid() {
      && failureThreshold >= 1
      && 0 < window <= MAX_INT64
      && 0 < openTimeout <= maxOpenTimeout <= MAX_INT64
      && 0 < basePenalty <= maxPenalty <= MAX_INT64
    }

    /** applyDefaults: a field that is not positive gets its default. */
    function WithDefaults(): Config {
      var timeout := if openTimeout <= 0 then 10 * SECOND else openTimeout;
      Config(
        if failureThreshold <= 0 then 5 else failureThreshold,
        if window <= 0 then 30 * SECOND else window,
        timeout,
        Max(if maxOpenTimeout <= 0 then 120 * SECOND else maxOpenTimeout, timeout),
        if basePenalty <= 0 then 2 * SECOND else basePenalty,
        if maxPenalty <= 0 then 60 * SECOND else maxPenalty)
    }
  }

  const MAX_FAILURE_THRESHOLD: int := 100_000

  /** One option of New. */
  datatype Setting =
    | FailureThreshold(n: int)
    | Window(d: int)
    | OpenPeriod(d: int)
    | MaxOpenPeriod(d: int)
    | BasePenalty(d: int)
    | MaxPenalty(d: int)
  {
    /** The value fits its Go type. */
    predicate Fits() {
      if FailureThreshold? then true else d <= MAX_INT64
    }

    /** Its applyBreakerOption does not return an error. */
    predicate Allowed() {
      if FailureThreshold? then 1 <= n <= MAX_FAILURE_THRESHOLD else d > 0
    }
  }

  const UNSET := Config(0, 0, 0, 0, 0, 0)

  function Set(c: Config, s: Setting): Config {
    match s
    case FailureThreshold(n) => c.(failureThreshold := n)
    case Window(d) => c.(window := d)
    case OpenPeriod(d) => c.(openTimeout := d)
    case MaxOpenPeriod(d) => c.(maxOpenTimeout := d)
    case BasePenalty(d) => c.(basePenalty := d)
    case MaxPenalty(d) => c.(maxPenalty := d)
  }

  /** The options in order: of two for one field the later wins. */
  function SetAll(settings: seq<Setting>): Config {
    if settings == [] then UNSET else Set(SetAll(settings[..|settings| - 1]), settings[|settings| - 1])
  }

  datatype Mode = Closed | Open | HalfOpen

  datatype Probe = Probe(epoch: nat, startedAt: int)

  datatype State = State(
    cfg: Config,
    mode: Mode,
    failures: seq<int>,
    consecutive: nat,
    totalFailures: nat,
    totalSuccesses: nat,
    openSince: Option<int>,
    backoff: nat,               // backoffMultiple
    lastRetryAfter: int,
    probes: seq<Probe>,
    issuedEpoch: nat
  )

  function Fresh(cfg: Config): State {
    State(cfg, Closed, [], 0, 0, 0, None, 0, 0, [], 0)
  }

  // ----- Arithmetic -----

  /** openTimeout as the code computes it, with its guard before the multiplication. */
  function OpenTimeout(cfg: Config, backoff: nat): int
    requires cfg.Valid()
  {
    if backoff >= 62 then cfg.maxOpenTimeout
    else if cfg.maxOpenTimeout / Pow2(backoff) < cfg.openTimeout then cfg.maxOpenTimeout
    else Min(cfg.openTimeout * Pow2(backoff), cfg.maxOpenTimeout)
  }

  /** The multiplier of currentPenaltyLocked: 1 plus the capped number of consecutive failures. */
  function PenaltyUnits(cfg: Config, consecutive: nat): int
    requires cfg.Valid()
  {
    1 + if consecutive > 0 then Min(consecutive, Max(cfg.maxPenalty / cfg.basePenalty - 1, 0)) else consecutive
  }

  function Penalty(s: State): int
    requires s.cfg.Valid()
  {
    Min(Max(s.lastRetryAfter, s.cfg.basePenalty * PenaltyUnits(s.cfg, s.consecutive)), s.cfg.maxPenalty)
  }

  // ----- Steps -----

  predicate IsLive(s: State, epoch: nat) {
    exists i :: 0 <= i < |s.probes| && s.probes[i].epoch == epoch
  }

  predicate IsNewest(s: State, epoch: nat) {
    s.probes != [] && s.probes[|s.probes| - 1].epoch == epoch
  }

  /** The stale-request filter: the request began before the current OPEN period did. */
  predicate Ghost(s: State, startedAt: Option<int>) {
    startedAt.Some? && s.openSince.Some? && startedAt.value < s.openSince.value
  }

  /** Whether the breaker admits a request at now; this is what WouldAllow reports. */
  predicate Admits(s: State, now: int)
    requires s.cfg.Valid()
  {
    match s.mode
    case Closed => true
    case Open => s.openSince.None? || now - s.openSince.value >= OpenTimeout(s.cfg, s.backoff)
    case HalfOpen => s.probes == [] || now - s.probes[|s.probes| - 1].startedAt > OpenTimeout(s.cfg, s.backoff)
  }

  function WithProbe(s: State, now: int): State {
    s.(mode := HalfOpen, issuedEpoch := s.issuedEpoch + 1, probes := s.probes + [Probe(s.issuedEpoch + 1, now)])
  }

  function AllowStep(s: State, now: int): State
    requires s.cfg.Valid()
  {
    if s.mode == Closed || !Admits(s, now) then s else WithProbe(s, now)
  }

  /** The epoch Allow returns, or None for ErrCircuitOpen. */
  function AllowResult(s: State, now: int): Option<nat>
    requires s.cfg.Valid()
  {
    if !Admits(s, now) then None else if s.mode == Closed then Some(0) else Some(s.issuedEpoch + 1)
  }

  function Without(probes: seq<Probe>, epoch: nat): seq<Probe> {
    if probes == [] then []
    else if probes[0].epoch == epoch then probes[1..]
    else [probes[0]] + Without(probes[1..], epoch)
  }

  function CancelStep(s: State, epoch: nat): State {
    if epoch == 0 || s.mode != HalfOpen then s else s.(probes := Without(s.probes, epoch))
  }

  /** trimFailures: drops the leading entries older than the cutoff. */
  function Trimmed(failures: seq<int>, cutoff: int): seq<int> {
    if failures == [] || failures[0] >= cutoff then failures else Trimmed(failures[1..], cutoff)
  }

  predicate FailureCounts(s: State, startedAt: Option<int>, epoch: nat) {
    (epoch != 0 ==> IsNewest(s, epoch)) && !Ghost(s, startedAt)
  }

  /** The bookkeeping of an accepted failure, before the state transition. */
  function Noted(s: State, retryAfter: int, now: int): State {
    s.(lastRetryAfter := Max(s.lastRetryAfter, retryAfter),
       consecutive := s.consecutive + 1,
       totalFailures := s.totalFailures + 1,
       failures := Trimmed(s.failures + [now], now - s.cfg.window))
  }

  function FailureStep(s: State, retryAfter: int, startedAt: Option<int>, epoch: nat, now: int): State {
    if !FailureCounts(s, startedAt, epoch) then s
    else
      var t := Noted(s, retryAfter, now);
      match s.mode
      case Closed =>
        if |t.failures| >= s.cfg.failureThreshold then t.(mode := Open, openSince := Some(now), probes := []) else t
      case HalfOpen => t.(mode := Open, openSince := Some(now), probes := [], backoff := s.backoff + 1)
      case Open => t
  }

  function SuccessStep(s: State, startedAt: Option<int>, epoch: nat): State {
    if epoch != 0 && !IsLive(s, epoch) then s
    else
      var t := s.(totalSuccesses := s.totalSuccesses + 1);
      match s.mode
      case HalfOpen =>
        if Ghost(s, startedAt) then t
        else t.(backoff := 0, consecutive := 0, lastRetryAfter := 0, failures := [], mode := Closed, probes := [])
      case Closed => t.(consecutive := 0, lastRetryAfter := 0)
      case Open => t
  }

  // ----- The breaker as an object -----

  class CircuitBreaker {
    const cfg: Config
    var mode: Mode
    var failures: seq<int>
    var consecutive: nat
    var totalFailures: nat
    var totalSuccesses: nat
    var openSince: Option<int>
    var backoff: nat
    var lastRetryAfter: int
    var probes: seq<Probe>
    var issuedEpoch: nat

    ghost function View(): State
      reads this
    {
      State(cfg, mode, failures, consecutive, totalFailures, totalSuccesses, openSince, backoff, lastRetryAfter,
            probes, issuedEpoch)
    }

    constructor (cfg: Config)
      requires cfg.Valid()
      ensures View() == Fresh(cfg)
    {
      this.cfg := cfg;
      mode, failures, consecutive, totalFailures, totalSuccesses := Closed, [], 0, 0, 0;
      openSince, backoff, lastRetryAfter, probes, issuedEpoch := None, 0, 0, [], 0;
    }

    method Allow(now: int) returns (epoch: Option<nat>)
      requires cfg.Valid()
      modifies this
      ensures View() == AllowStep(old(View()), now)
      ensures epoch == AllowResult(old(View()), now)
    {
      var timeout := OpenTimeout(cfg, backoff);
      match mode {
        case Closed => return Some(0);
        case Open =>
          if openSince.None? || now - openSince.value >= timeout {
            mode := HalfOpen;
            epoch := IssueProbe(now);
            return;
          }
          return None;
        case HalfOpen =>
          if probes == [] || now - probes[|probes| - 1].startedAt > timeout {
            epoch := IssueProbe(now);
            return;
          }
          return None;
      }
    }

    method IssueProbe(now: int) returns (epoch: Option<nat>)
      requires mode == HalfOpen
      modifies `issuedEpoch, `probes
      ensures View() == WithProbe(old(View()), now) && epoch == Some(issuedEpoch)
    {
      issuedEpoch := issuedEpoch + 1;
      probes := probes + [Probe(issuedEpoch, now)];
      return Some(issuedEpoch);
    }

    method WouldAllow(now: int) returns (admits: bool)
      requires cfg.Valid()
      ensures admits == Admits(View(), now)
    {
      match mode {
        case Closed => return true;
        case Open => return openSince.None? || now - openSince.value >= OpenTimeout(cfg, backoff);
        case HalfOpen => return probes == [] || now - probes[|probes| - 1].startedAt > OpenTimeout(cfg, backoff);
      }
    }

    /** The search loop of isLiveProbe and CancelProbe: the index of the first probe with this epoch. */
    method FindProbe(epoch: nat) returns (i: nat)
      ensures i <= |probes|
      ensures i < |probes| ==> probes[i].epoch == epoch
      ensures forall k :: 0 <= k < i ==> probes[k].epoch != epoch
      ensures i < |probes| <==> IsLive(View(), epoch)
    {
      i := 0;
      while i < |probes| && probes[i].epoch != epoch
        invariant i <= |probes|
        invariant forall k :: 0 <= k < i ==> probes[k].epoch != epoch
      {
        i := i + 1;
      }
    }

    method CancelProbe(epoch: nat)
      modifies this
      ensures View() == CancelStep(old(View()), epoch)
    {
      if epoch == 0 || mode != HalfOpen {
        return;
      }
      var i := FindProbe(epoch);
      WithoutAt(probes, epoch, i);
      if i < |probes| {
        probes := probes[..i] + probes[i + 1..];
      }
    }

    method TrimFailures(now: int)
      modifies `failures
      ensures failures == Trimmed(old(failures), now - cfg.window)
    {
      var cutoff := now - cfg.window;
      var i := 0;
      while i < |failures| && failures[i] < cutoff
        invariant 0 <= i <= |failures|
        invariant Trimmed(failures[i..], cutoff) == Trimmed(failures, cutoff)
      {
        i := i + 1;
      }
      failures := failures[i..];
    }

    method NoteFailure(retryAfter: int, now: int)
      modifies `lastRetryAfter, `consecutive, `totalFailures, `failures
      ensures View() == Noted(old(View()), retryAfter, now)
    {
      if retryAfter > lastRetryAfter {
        lastRetryAfter := retryAfter;
      }
      consecutive := consecutive + 1;
      totalFailures := totalFailures + 1;
      failures := failures + [now];
      TrimFailures(now);
    }

    method RecordFailure(retryAfter: int, startedAt: Option<int>, epoch: nat, now: int)
      modifies this
      ensures View() == FailureStep(old(View()), retryAfter, startedAt, epoch, now)
    {
      if epoch != 0 && !(probes != [] && probes[|probes| - 1].epoch == epoch) {
        return;
      }
      if startedAt.Some? && openSince.Some? && startedAt.value < openSince.value {
        return;
      }
      NoteFailure(retryAfter, now);
      match mode {
        case Closed =>
          if |failures| >= cfg.failureThreshold {
            mode, openSince, probes := Open, Some(now), [];
          }
        case HalfOpen =>
          backoff := backoff + 1;
          mode, openSince, probes := Open, Some(now), [];
        case Open =>
      }
    }

    method RecordSuccess(startedAt: Option<int>, epoch: nat)
      modifies this
      ensures View() == SuccessStep(old(View()), startedAt, epoch)
    {
      if epoch != 0 {
        var i := FindProbe(epoch);
        if i == |probes| {
          return;
        }
      }
      totalSuccesses := totalSuccesses + 1;
      match mode {
        case HalfOpen =>
          if startedAt.Some? && openSince.Some? && startedAt.value < openSince.value {
            return;
          }
          backoff, consecutive, lastRetryAfter, failures := 0, 0, 0, [];
          mode, probes := Closed, [];
        case Closed =>
          consecutive, lastRetryAfter := 0, 0;
        case Open =>
      }
    }

    method PenaltyDuration() returns (penalty: int)
      requires cfg.Valid()
      ensures penalty == Penalty(View())
    {
      var c := consecutive;
      if c > 0 {
        var maxConsecutive := Max(cfg.maxPenalty / cfg.basePenalty - 1, 0);
        if c > maxConsecutive {
          c := maxConsecutive;
        }
      }
      var scaled := cfg.basePenalty * (1 + c);
      penalty := Min(Max(lastRetryAfter, scaled), cfg.maxPenalty);
    }
  }

  /** New: None for an option out of range or a penalty cap below the base. */
  method New(settings: seq<Setting>) returns (breaker: Option<CircuitBreaker>)
    requires forall s :: s in settings ==> s.Fits()
    ensures breaker.Some? <==>
              && (forall s :: s in settings ==> s.Allowed())
              && SetAll(settings).WithDefaults().maxPenalty >= SetAll(settings).WithDefaults().basePenalty
    ensures breaker.Some? ==>
              breaker.value.View() == Fresh(SetAll(settings).WithDefaults()) && breaker.value.cfg.Valid()
  {
    var cfg := UNSET;
    for i := 0 to |settings|
      invariant cfg == SetAll(settings[..i])
      invariant forall k :: 0 <= k < i ==> settings[k].Allowed()
      invariant cfg.window <= MAX_INT64 && cfg.openTimeout <= MAX_INT64 && cfg.maxOpenTimeout <= MAX_INT64
      invariant cfg.basePenalty <= MAX_INT64 && cfg.maxPenalty <= MAX_INT64
    {
      if !settings[i].Allowed() {
        return None;
      }
      assert settings[i] in settings && settings[..i + 1][..i] == settings[..i];
      cfg := Set(cfg, settings[i]);
    }
    assert settings[..|settings|] == settings;
    cfg := cfg.WithDefaults();
    if cfg.maxPenalty < cfg.basePenalty {
      return None;
    }
    var b := new CircuitBreaker(cfg);
    return Some(b);
  }

  /** Removing the first probe with an epoch is removing the one at the index a search for it finds. */
  lemma {:induction false} WithoutAt(probes: seq<Probe>, epoch: nat, i: nat)
    requires i <= |probes|
    requires i < |probes| ==> probes[i].epoch == epoch
    requires forall k :: 0 <= k < i ==> probes[k].epoch != epoch
    ensures Without(probes, epoch) == if i < |probes| then probes[..i] + probes[i + 1..] else probes
  {
    if i > 0 {
      WithoutAt(probes[1..], epoch, i - 1);
    }
  }
}
