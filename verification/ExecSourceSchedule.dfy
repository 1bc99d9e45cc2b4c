/** When the rotating credential source runs its command, read off the run so far. */
module ExecSourceSchedule {
  import opened Prelude
  import opened ExecSource
  import opened ExecSourceTheorems

  lemma LastStep(h: History, trace: seq<Event>) returns (before: History, e: Event)
    requires trace != [] && Legal(h, trace)
    ensures Legal(h, trace[..|trace| - 1]) && before == Exec(h, trace[..|trace| - 1]) && e == trace[|trace| - 1]
    ensures Enabled(before, e) && Exec(h, trace) == Next(before, e)
  {
    before, e := Exec(h, trace[..|trace| - 1]), trace[|trace| - 1];
  }

  // ----- Refresh-ahead -----

  /** How long before its end a value of that ttl is replaced: a fifth of it, and five minutes at most. */
  function Ahead(ttl: int): int {
    Min(ttl / 5, 5 * MINUTE)
  }

  lemma StepKeepsAhead(h: History, e: Event)
    requires Enabled(h, e)
    requires h.acquired.Some? ==> h.s.refreshAt == h.acquired.value + h.s.ttl - Ahead(h.s.ttl)
    ensures var t := Next(h, e); t.acquired.Some? ==> t.s.refreshAt == t.acquired.value + t.s.ttl - Ahead(t.s.ttl)
    ensures Next(h, e).s.ttl == h.s.ttl
  {
  }

  lemma {:induction false} RunKeepsAhead(ttl: int, start: int, trace: seq<Event>)
    requires Legal(Start(ttl, start), trace)
    ensures var h := Exec(Start(ttl, start), trace);
            h.s.ttl == ttl && (h.acquired.Some? ==> h.s.refreshAt == h.acquired.value + ttl - Ahead(ttl))
  {
    if trace != [] {
      var before, e := LastStep(Start(ttl, start), trace);
      RunKeepsAhead(ttl, start, trace[..|trace| - 1]);
      StepKeepsAhead(before, e);
    }
  }

  /** The start of the run that produced the current value. */
  ghost function AcquiredAt(h: History, trace: seq<Event>): Option<int>
    requires Legal(h, trace)
  {
    if trace == [] then None
    else
      var before, e := trace[..|trace| - 1], trace[|trace| - 1];
      if e.op.RunEnds? && e.op.outcome.Produced? then BegunAt(h, before) else AcquiredAt(h, before)
  }

  /** The clock reading of the last run that began. */
  ghost function BegunAt(h: History, trace: seq<Event>): Option<int>
    requires Legal(h, trace)
  {
    if trace == [] then None
    else if trace[|trace| - 1].op.RunBegins? then Some(trace[|trace| - 1].now)
    else BegunAt(h, trace[..|trace| - 1])
  }

  lemma StepKeepsStarted(h: History, e: Event, begun: Option<int>)
    requires Enabled(h, e)
    requires h.s.inflight.Some? && h.s.inflight.value.started.Some? ==> h.s.inflight.value.started == begun
    ensures var t, b := Next(h, e), if e.op.RunBegins? then Some(e.now) else begun;
            && (t.s.inflight.Some? && t.s.inflight.value.started.Some? ==> t.s.inflight.value.started == b)
            && (e.op.RunEnds? && e.op.outcome.Produced? ==> t.acquired == begun)
            && (!(e.op.RunEnds? && e.op.outcome.Produced?) ==> t.acquired == h.acquired)
  {
  }

  lemma {:induction false} AcquiredIsRead(ttl: int, start: int, trace: seq<Event>)
    requires Legal(Start(ttl, start), trace)
    ensures var h := Exec(Start(ttl, start), trace);
            && h.acquired == AcquiredAt(Start(ttl, start), trace)
            && (h.s.inflight.Some? && h.s.inflight.value.started.Some? ==>
                  h.s.inflight.value.started == BegunAt(Start(ttl, start), trace))
  {
    if trace != [] {
      var before, e := LastStep(Start(ttl, start), trace);
      AcquiredIsRead(ttl, start, trace[..|trace| - 1]);
      StepKeepsStarted(before, e, BegunAt(Start(ttl, start), trace[..|trace| - 1]));
    }
  }

  /** With an unrefused value, no run in flight and no backoff, a caller who finds the value fresh leaves a run in
      flight exactly from a fifth of the ttl, or five minutes, before its end; an older value always starts one. */
  lemma RefreshAheadExactlyWhen(ttl: int, start: int, trace: seq<Event>, h: History, now: int)
    requires ttl > 0 && Legal(Start(ttl, start), trace) && h == Exec(Start(ttl, start), trace) && now >= h.clock
    requires AcquiredAt(Start(ttl, start), trace).Some?
    requires h.s.refused == "" && h.s.inflight.None? && !BackingOff(h.s, now)
    ensures var a := AcquiredAt(Start(ttl, start), trace).value;
            && (Next(h, Event(Secret, now)).s.inflight.Some? <==> now >= a + ttl - Min(ttl / 5, 5 * MINUTE))
            && (SecretReply(h.s, now) == Served(h.s.value) <==> now < a + ttl)
            && (now >= a + ttl ==> SecretReply(h.s, now).Waits?)
  {
    RunKeepsInv(ttl, start, trace);
    RunKeepsAhead(ttl, start, trace);
    AcquiredIsRead(ttl, start, trace);
    RefreshesAhead(h, now);
  }

  lemma RefreshesAhead(h: History, now: int)
    requires Inv(h) && now >= h.clock && h.acquired.Some?
    requires h.s.refreshAt == h.acquired.value + h.s.ttl - Ahead(h.s.ttl)
    requires h.s.refused == "" && h.s.inflight.None? && !BackingOff(h.s, now)
    ensures var a, ttl := h.acquired.value, h.s.ttl;
            && (Next(h, Event(Secret, now)).s.inflight.Some? <==> now >= a + ttl - Min(ttl / 5, 5 * MINUTE))
            && (SecretReply(h.s, now) == Served(h.s.value) <==> now < a + ttl)
            && (now >= a + ttl ==> SecretReply(h.s, now).Waits?)
  {
    FifthIsLess(h.s.ttl);
  }

  lemma FifthIsLess(ttl: int)
    requires ttl > 0
    ensures 0 <= Ahead(ttl) < ttl
  {
  }

  // ----- Failure backoff -----

  /** Runs that have failed since the last one that produced a value. */
  ghost function FailuresInARow(h: History, trace: seq<Event>): nat
    requires Legal(h, trace)
  {
    if trace == [] then 0
    else
      var before, e := trace[..|trace| - 1], trace[|trace| - 1];
      if !e.op.RunEnds? then FailuresInARow(h, before)
      else if e.op.outcome.Produced? then 0
      else FailuresInARow(h, before) + 1
  }

  ghost function LastFailureAt(h: History, trace: seq<Event>): int
    requires Legal(h, trace)
  {
    if trace == [] then 0
    else
      var before, e := trace[..|trace| - 1], trace[|trace| - 1];
      if e.op.RunEnds? && e.op.outcome.Failed? then e.now else LastFailureAt(h, before)
  }

  /** The wait after n failures in a row. */
  function DoubledDelay(n: nat): int
    requires n > 0
  {
    Min(SECOND * Pow2(n - 1), MINUTE)
  }

  /** What the source remembers of n failures in a row, the last of them at that instant. */
  predicate BackoffOk(s: State, n: nat, at: int) {
    s.failures == n && s.retryAt == if n == 0 then None else Some(at + DoubledDelay(n))
  }

  lemma StepKeepsBackoff(h: History, e: Event, n: nat, at: int)
    requires Enabled(h, e) && BackoffOk(h.s, n, at)
    ensures var s := Next(h, e).s;
            if e.op.RunEnds? then
              if e.op.outcome.Produced? then BackoffOk(s, 0, at) else BackoffOk(s, n + 1, e.now)
            else BackoffOk(s, n, at)
  {
  }

  lemma LastFailures(h: History, trace: seq<Event>)
    requires trace != [] && Legal(h, trace)
    ensures var before, e := trace[..|trace| - 1], trace[|trace| - 1];
            && FailuresInARow(h, trace) ==
               (if !e.op.RunEnds? then FailuresInARow(h, before)
                else if e.op.outcome.Produced? then 0 else FailuresInARow(h, before) + 1)
            && LastFailureAt(h, trace) ==
               (if e.op.RunEnds? && e.op.outcome.Failed? then e.now else LastFailureAt(h, before))
  {
  }

  lemma {:induction false} BackoffIsCounted(h: History, trace: seq<Event>)
    requires h.s.failures == 0 && h.s.retryAt == None && Legal(h, trace)
    ensures BackoffOk(Exec(h, trace).s, FailuresInARow(h, trace), LastFailureAt(h, trace))
  {
    if trace != [] {
      var before := trace[..|trace| - 1];
      var g, e := LastStep(h, trace);
      BackoffIsCounted(h, before);
      LastFailures(h, trace);
      StepKeepsBackoff(g, e, FailuresInARow(h, before), LastFailureAt(h, before));
    }
  }

  lemma BackoffDelays(h: History, now: int, n: nat, at: int)
    requires Inv(h) && BackoffOk(h.s, n, at) && now >= h.clock && h.s.inflight.None?
    requires h.s.refused != "" || h.acquired.None? || now >= h.acquired.value + h.s.ttl
    ensures var delayed := n > 0 && now < at + Min(SECOND * Pow2(n - 1), MINUTE);
            && (Next(h, Event(Secret, now)).s.inflight.None? <==> delayed)
            && (SecretReply(h.s, now).Waits? <==> !delayed)
            && (delayed ==> Next(h, Event(Secret, now)).s == h.s)
  {
  }

  /** A caller without a usable value starts a run exactly unless one is in flight or the last of n failures in a row
      is less than min(1s * 2^(n-1), 1min) ago; then nobody waits. */
  lemma FailuresDelayExactly(ttl: int, start: int, trace: seq<Event>, h: History, now: int)
    requires ttl > 0 && Legal(Start(ttl, start), trace) && h == Exec(Start(ttl, start), trace) && now >= h.clock
    requires h.s.inflight.None? && (h.s.refused != "" || h.acquired.None? || now >= h.acquired.value + ttl)
    ensures var n, at := FailuresInARow(Start(ttl, start), trace), LastFailureAt(Start(ttl, start), trace);
            var delayed := n > 0 && now < at + Min(SECOND * Pow2(n - 1), MINUTE);
            && (Next(h, Event(Secret, now)).s.inflight.None? <==> delayed)
            && (SecretReply(h.s, now).Waits? <==> !delayed)
            && (delayed ==> Next(h, Event(Secret, now)).s == h.s)
  {
    RunKeepsInv(ttl, start, trace);
    RunKeepsAhead(ttl, start, trace);
    BackoffIsCounted(Start(ttl, start), trace);
    BackoffDelays(h, now, FailuresInARow(Start(ttl, start), trace), LastFailureAt(Start(ttl, start), trace));
  }

  // ----- Refusals -----

  /** The first refusal of a value that did not come from a forced refresh withholds it from everyone and forces a run,
      exactly when the last forced refresh is at least 5s ago. */
  lemma RefusalTakesEffectExactlyWhen(ttl: int, start: int, trace: seq<Event>, now: int)
    requires ttl > 0 && Legal(Start(ttl, start), trace) && now >= Exec(Start(ttl, start), trace).clock
    requires var h := Exec(Start(ttl, start), trace);
             && h.s.value != "" && h.s.value != h.s.refused && h.s.inflight.None? && !BackingOff(h.s, now)
             && h.s.value != h.s.forcedValue
    ensures var h := Exec(Start(ttl, start), trace);
            var t := Next(h, Event(Invalidate(h.s.value), now));
            var due := h.forced == [] || now - h.forced[|h.forced| - 1].at >= 5 * SECOND;
            && (due <==> t.s.refused == h.s.value)
            && (due <==> t.s.inflight.Some? && t.s.inflight.value.forced)
            && (!due ==> t.s == h.s)
  {
    RunKeepsInv(ttl, start, trace);
  }

  lemma ForcedRunEnds(h: History, value: Credential, ended: int)
    requires Inv(h) && Enabled(h, Event(RunEnds(Produced(value)), ended)) && h.s.inflight.value.forced
    ensures var g := Next(h, Event(RunEnds(Produced(value)), ended));
            && h.forced != [] && g.s.lastForced == Some(h.forced[|h.forced| - 1].at)
            && g.s.value == g.s.forcedValue == value && g.s.refused == "" && g.s.inflight.None?
            && g.s.retryAt.None? && g.repeats == h.repeats && g.s.forcedSpacing == ChainSpacing(h.repeats)
  {
  }

  lemma RefusedReplacement(g: History, at: int, now: int)
    requires g.s.value != "" && g.s.value == g.s.forcedValue && g.s.refused == "" && g.s.inflight.None?
    requires g.s.lastForced == Some(at) && g.s.retryAt.None? && g.s.forcedSpacing == ChainSpacing(g.repeats)
    requires now >= g.clock
    ensures var t := Next(g, Event(Invalidate(g.s.value), now));
            && (t.s.inflight.Some? <==> now - at >= Min(5 * SECOND * Pow2(g.repeats + 1), 5 * MINUTE))
            && (t.s.inflight.Some? ==> t.s.inflight.value.forced && t.repeats == g.repeats + 1)
            && t.s.refused == "" && t.s.value == g.s.value
  {
    ChainDoubles(g.repeats);
  }

  /** The first refusal of a value that a forced refresh produced forces the next one exactly when the time since that
      one is min(5s * 2^(k+1), 5min), after k such repeats, and marks nothing as refused. */
  lemma ReplacementNeedsDoubledSpacing(ttl: int, start: int, trace: seq<Event>, h: History, value: Credential,
                                       ended: int, now: int)
    requires ttl > 0 && Legal(Start(ttl, start), trace) && h == Exec(Start(ttl, start), trace)
    requires Enabled(h, Event(RunEnds(Produced(value)), ended)) && h.s.inflight.value.forced && now >= ended
    ensures var g := Next(h, Event(RunEnds(Produced(value)), ended));
            var t := Next(g, Event(Invalidate(value), now));
            && h.forced != []
            && (t.s.inflight.Some? <==>
                  now - h.forced[|h.forced| - 1].at >= Min(5 * SECOND * Pow2(h.repeats + 1), 5 * MINUTE))
            && (t.s.inflight.Some? ==> t.s.inflight.value.forced && t.repeats == h.repeats + 1)
            && t.s.refused == "" && t.s.value == value
  {
    RunKeepsInv(ttl, start, trace);
    ForcedRunEnds(h, value, ended);
    RefusedReplacement(Next(h, Event(RunEnds(Produced(value)), ended)), h.forced[|h.forced| - 1].at, now);
  }

  /** Refusing anything but the current value changes nothing. */
  lemma StaleRefusalIsIgnored(h: History, rejected: string, now: int)
    requires now >= h.clock && (rejected == "" || rejected != h.s.value)
    ensures Next(h, Event(Invalidate(rejected), now)).s == h.s
  {
  }

  // ----- What a failed run leaves -----

  /** A failed run leaves the value, its age and its refusal as they were, and callers without a value get its error. */
  lemma FailureKeepsValue(h: History, err: string, now: int)
    requires Enabled(h, Event(RunEnds(Failed(err)), now))
    ensures var s, t := h.s, Next(h, Event(RunEnds(Failed(err)), now)).s;
            && t.value == s.value && t.refused == s.refused && t.expires == s.expires && t.refreshAt == s.refreshAt
            && t.forcedValue == s.forcedValue && t.forcedSpacing == s.forcedSpacing && t.lastForced == s.lastForced
            && (s.value == "" ==> Held(t) == Errors(Some(err)))
            && t.inflight.None?
  {
  }

  /** A run that produced a value makes it the held one, whatever was refused before. */
  lemma SuccessReplacesValue(h: History, value: Credential, now: int)
    requires Enabled(h, Event(RunEnds(Produced(value)), now))
    ensures var t := Next(h, Event(RunEnds(Produced(value)), now)).s;
            Held(t) == Served(value) && t.refused == "" && t.inflight.None? && t.lastErr.None?
  {
  }
}
