/** The rotating credential source of internal/auth/execsource.go.

    A step is one section under the source's mutex; the command itself ends in an arbitrary
    success or failure at an arbitrary later instant. The empty string is "no credential".
  */
module ExecSource {
  import opened Prelude

  const REFRESH_AHEAD_CAP: int := 5 * MINUTE
  const BACKOFF_MIN: int := SECOND
  const BACKOFF_MAX: int := MINUTE
  const INVALIDATE_INTERVAL: int := 5 * SECOND
  const INVALIDATE_INTERVAL_MAX: int := 5 * MINUTE

  /** A credential that execute may return: firstLineCredential refuses an empty one. */
  type Credential = v: string | v != "" witness "x"

  datatype Outcome = Produced(value: Credential) | Failed(err: string)

  /** An execRun: id stands for its done channel, started for the clock reading of its goroutine. */
  datatype Run = Run(id: nat, forced: bool, started: Option<int>)

  datatype State = State(
    ttl: int,
    value: string,
    expires: int,
    refreshAt: int,
    lastForced: Option<int>,
    forcedSpacing: int,
    forcedValue: string,
    refused: string,
    retryAt: Option<int>,
    failures: nat,
    lastErr: Option<string>,
    inflight: Option<Run>,
    nextRun: nat
  )

  /** What a call of Secret or Reacquire does at the end of its first section, or after its wait; GaveUp is the error
      of the caller's own context. */
  datatype Reply = Served(value: string) | Waits(run: nat) | Errors(err: Option<string>) | GaveUp

  function Fresh(ttl: int): State {
    State(ttl, "", 0, 0, None, 0, "", "", None, 0, None, None, 0)
  }

  function Backoff(failures: nat): int {
    Min(BACKOFF_MIN * Pow2(if failures == 0 then 0 else failures - 1), BACKOFF_MAX)
  }

  predicate BackingOff(s: State, now: int) {
    s.retryAt.Some? && now < s.retryAt.value
  }

  predicate Refusing(s: State) {
    s.value != "" && s.value == s.refused
  }

  function StartRun(s: State, now: int, forced: bool): State {
    if s.inflight.Some? then
      if forced && !s.inflight.value.forced then
        s.(inflight := Some(s.inflight.value.(forced := true)), lastForced := Some(now))
      else s
    else if BackingOff(s, now) then s
    else
      s.(inflight := Some(Run(s.nextRun, forced, None)), nextRun := s.nextRun + 1,
         lastForced := if forced then Some(now) else s.lastForced)
  }

  /** The run startLocked returns. */
  function StartedRun(s: State, now: int): Option<nat> {
    if s.inflight.Some? then Some(s.inflight.value.id)
    else if BackingOff(s, now) then None
    else Some(s.nextRun)
  }

  predicate ServesAtOnce(s: State, now: int) {
    s.value != "" && now < s.expires && !Refusing(s)
  }

  function SecretStep(s: State, now: int): State {
    if ServesAtOnce(s, now) then (if now >= s.refreshAt then StartRun(s, now, false) else s)
    else StartRun(s, now, Refusing(s))
  }

  function Held(s: State): Reply {
    if s.value != "" then Served(s.value) else Errors(s.lastErr)
  }

  function SecretReply(s: State, now: int): Reply {
    if ServesAtOnce(s, now) then Served(s.value)
    else match StartedRun(s, now)
         case Some(run) => Waits(run)
         case None => Held(s)
  }

  function RefusalSpacing(s: State, rejected: string): int {
    if rejected == s.forcedValue
    then Min(2 * Max(s.forcedSpacing, INVALIDATE_INTERVAL), INVALIDATE_INTERVAL_MAX)
    else INVALIDATE_INTERVAL
  }

  function InvalidateStep(s: State, rejected: string, now: int): State {
    if rejected == "" || rejected != s.value then s
    else if rejected == s.refused then StartRun(s, now, true)
    else if s.inflight.Some? && s.inflight.value.forced then s
    else
      var spacing := RefusalSpacing(s, rejected);
      if s.lastForced.Some? && now - s.lastForced.value < spacing then s
      else if rejected == s.forcedValue then
        var t := StartRun(s, now, true);
        if StartedRun(s, now).Some? then t.(forcedSpacing := spacing) else t
      else StartRun(s.(refused := rejected, forcedSpacing := spacing), now, true)
  }

  function ReacquireReply(s: State, rejected: string): Reply {
    if s.inflight.None? || rejected != s.value then Held(s) else Waits(s.inflight.value.id)
  }

  function EndStep(s: State, outcome: Outcome, now: int): State
    requires s.inflight.Some? && s.inflight.value.started.Some?
  {
    var run := s.inflight.value;
    match outcome
    case Failed(err) =>
      s.(inflight := None, failures := s.failures + 1, lastErr := Some(err),
         retryAt := Some(now + Backoff(s.failures + 1)))
    case Produced(value) =>
      var expires := run.started.value + s.ttl;
      s.(inflight := None, value := value, refused := "", forcedValue := if run.forced then value else "",
         expires := expires, refreshAt := expires - Min(s.ttl / 5, REFRESH_AHEAD_CAP),
         failures := 0, lastErr := None, retryAt := None)
  }

  /** execBackoff: doubles from the minimum once per failure after the first, up to the maximum. */
  method ExecBackoff(failures: nat) returns (d: int)
    ensures d == Backoff(failures)
  {
    d := BACKOFF_MIN;
    var i := 1;
    while i < failures && d < BACKOFF_MAX
      invariant 1 <= i && (i <= failures || i == 1)
      invariant d == BACKOFF_MIN * Pow2(i - 1)
    {
      d := 2 * d;
      i := i + 1;
    }
    if i < failures {
      Pow2Monotone(i - 1, failures - 1);
    }
    d := Min(d, BACKOFF_MAX);
  }

  class ExecSecretSource {
    const ttl: int
    var value: string
    var expires: int
    var refreshAt: int
    var lastForced: Option<int>
    var forcedSpacing: int
    var forcedValue: string
    var refused: string
    var retryAt: Option<int>
    var failures: nat
    var lastErr: Option<string>
    var inflight: Option<Run>
    var nextRun: nat

    ghost function View(): State
      reads this
    {
      State(ttl, value, expires, refreshAt, lastForced, forcedSpacing, forcedValue, refused, retryAt, failures,
            lastErr, inflight, nextRun)
    }

    constructor (ttl: int)
      requires ttl > 0
      ensures View() == Fresh(ttl)
    {
      this.ttl := ttl;
      value, expires, refreshAt, forcedValue, refused := "", 0, 0, "", "";
      lastForced, forcedSpacing, retryAt, failures, lastErr, inflight, nextRun := None, 0, None, 0, None, None, 0;
    }

    method StartLocked(now: int, forced: bool) returns (run: Option<nat>)
      modifies `inflight, `lastForced, `nextRun
      ensures View() == StartRun(old(View()), now, forced)
      ensures run == StartedRun(old(View()), now)
    {
      if inflight.Some? {
        if forced && !inflight.value.forced {
          inflight := Some(inflight.value.(forced := true));
          lastForced := Some(now);
        }
        return Some(inflight.value.id);
      }
      if retryAt.Some? && now < retryAt.value {
        return None;
      }
      if forced {
        lastForced := Some(now);
      }
      run := Some(nextRun);
      inflight := Some(Run(nextRun, forced, None));
      nextRun := nextRun + 1;
    }

    /** Secret up to the point where it returns or waits on a run. */
    method Secret(now: int) returns (reply: Reply)
      modifies this
      ensures View() == SecretStep(old(View()), now)
      ensures reply == SecretReply(old(View()), now)
    {
      var isRefused := value != "" && value == refused;
      if value != "" && now < expires && !isRefused {
        if now >= refreshAt {
          var _ := StartLocked(now, false);
        }
        return Served(value);
      }
      var run := StartLocked(now, isRefused);
      if run.None? {
        return if value != "" then Served(value) else Errors(lastErr);
      }
      return Waits(run.value);
    }

    /** The rest of Secret or Reacquire once a case of its select is ready: the run is done, the caller's context has
        ended, or both, and then runFirst is the choice. */
    method AfterWait(done: bool, gone: bool, runFirst: bool) returns (reply: Reply)
      requires done || gone
      ensures reply == if done && (!gone || runFirst) then Held(View()) else GaveUp
    {
      if !done || (gone && !runFirst) {
        return GaveUp;
      }
      return if value != "" then Served(value) else Errors(lastErr);
    }

    method Invalidate(rejected: string, now: int)
      modifies this
      ensures View() == InvalidateStep(old(View()), rejected, now)
    {
      if rejected == "" || rejected != value {
        return;
      }
      if rejected == refused {
        var _ := StartLocked(now, true);
        return;
      }
      if inflight.Some? && inflight.value.forced {
        return;
      }
      var repeat := rejected == forcedValue;
      var spacing := INVALIDATE_INTERVAL;
      if repeat {
        spacing := Min(2 * Max(forcedSpacing, INVALIDATE_INTERVAL), INVALIDATE_INTERVAL_MAX);
      }
      if lastForced.Some? && now - lastForced.value < spacing {
        return;
      }
      if !repeat {
        refused := rejected;
        forcedSpacing := spacing;
      }
      var run := StartLocked(now, true);
      if run.Some? && repeat {
        forcedSpacing := spacing;
      }
    }

    method Reacquire(rejected: string) returns (reply: Reply)
      ensures reply == ReacquireReply(View(), rejected)
    {
      if inflight.None? || rejected != value {
        return if value == "" then Errors(lastErr) else Served(value);
      }
      return Waits(inflight.value.id);
    }

    /** refresh before it takes the lock: the run's clock reading. */
    method RefreshBegins(now: int)
      requires inflight.Some? && inflight.value.started.None?
      modifies `inflight
      ensures View() == old(View()).(inflight := Some(old(inflight.value).(started := Some(now))))
    {
      inflight := Some(inflight.value.(started := Some(now)));
    }

    method RunFailed(err: string, now: int)
      requires inflight.Some? && inflight.value.started.Some?
      modifies `inflight, `failures, `lastErr, `retryAt
      ensures View() == EndStep(old(View()), Failed(err), now)
    {
      inflight := None;
      failures := failures + 1;
      lastErr := Some(err);
      var d := ExecBackoff(failures);
      retryAt := Some(now + d);
    }

    method AdoptValue(produced: string, run: Run)
      modifies `value, `refused, `forcedValue
      ensures View() ==
                old(View()).(value := produced, refused := "", forcedValue := if run.forced then produced else "")
    {
      value, refused := produced, "";
      forcedValue := if run.forced then produced else "";
    }

    method ClearFailures()
      modifies `failures, `lastErr, `retryAt
      ensures View() == old(View()).(failures := 0, lastErr := None, retryAt := None)
    {
      failures, lastErr, retryAt := 0, None, None;
    }

    method RunProduced(produced: Credential, now: int)
      requires inflight.Some? && inflight.value.started.Some?
      modifies this
      ensures View() == EndStep(old(View()), Produced(produced), now)
    {
      var run := inflight.value;
      var until := run.started.value + ttl;
      inflight := None;
      AdoptValue(produced, run);
      expires, refreshAt := until, until - Min(ttl / 5, REFRESH_AHEAD_CAP);
      ClearFailures();
    }

    /** refresh's section under the lock. */
    method RefreshEnds(outcome: Outcome, now: int)
      requires inflight.Some? && inflight.value.started.Some?
      modifies this
      ensures View() == EndStep(old(View()), outcome, now)
    {
      match outcome {
        case Failed(err) => RunFailed(err, now);
        case Produced(produced) => RunProduced(produced, now);
      }
    }
  }
}
