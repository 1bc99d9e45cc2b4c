/** What the rotating credential source keeps over every run of its callers and its command. */
module ExecSourceTheorems {
  import opened Prelude
  import opened ExecSource

  datatype Op =
    | Secret
    | Invalidate(rejected: string)
    | RunBegins
    | RunEnds(outcome: Outcome)

  datatype Event = Event(op: Op, now: int)

  datatype End = Running | Succeeded | Failing(at: int, delay: int)

  /** A forced refresh: the instant it started or an unforced run became one, and how its run ended. */
  datatype Forced = Forced(at: int, run: nat, end: End)

  /** The source with what an observer of its runs remembers. */
  datatype History = History(
    s: State,
    forced: seq<Forced>,
    repeats: nat,      // repeats admitted in the current chain of refused replacements
    ended: nat,        // runs that have ended
    acquired: Option<int>,  // start of the run that produced the current value
    clock: int
  )

  predicate Enabled(h: History, e: Event) {
    e.now >= h.clock &&
    match e.op
    case RunBegins => h.s.inflight.Some? && h.s.inflight.value.started.None?
    case RunEnds(_) => h.s.inflight.Some? && h.s.inflight.value.started.Some?
    case _ => true
  }

  function Apply(s: State, e: Event): State
    requires e.op.RunBegins? ==> s.inflight.Some?
    requires e.op.RunEnds? ==> s.inflight.Some? && s.inflight.value.started.Some?
  {
    match e.op
    case Secret => SecretStep(s, e.now)
    case Invalidate(rejected) => InvalidateStep(s, rejected, e.now)
    case RunBegins => s.(inflight := Some(s.inflight.value.(started := Some(e.now))))
    case RunEnds(outcome) => EndStep(s, outcome, e.now)
  }

  /** Whether a run became a forced one between two states: a new forced run, or an unforced one joined. */
  predicate BecomesForced(s: State, t: State) {
    t.inflight.Some? && t.inflight.value.forced && !(s.inflight.Some? && s.inflight.value.forced)
  }

  /** Refusals that the source treats as one more refused replacement, or as the first refusal of a value. */
  predicate IsRepeat(s: State, op: Op) {
    && op.Invalidate?
    && op.rejected == s.value == s.forcedValue
    && op.rejected != "" && op.rejected != s.refused
    && !(s.inflight.Some? && s.inflight.value.forced)
  }

  function EndOf(outcome: Outcome, s: State, now: int): End {
    match outcome
    case Produced(_) => Succeeded
    case Failed(_) => Failing(now, Backoff(s.failures + 1))
  }

  function Next(h: History, e: Event): History
    requires Enabled(h, e)
  {
    var t := Apply(h.s, e);
    var n := |h.forced|;
    History(
      t,
      if BecomesForced(h.s, t) then h.forced + [Forced(e.now, t.inflight.value.id, Running)]
      else if e.op.RunEnds? && n > 0 && h.forced[n - 1].run == h.s.inflight.value.id then
        h.forced[n - 1 := h.forced[n - 1].(end := EndOf(e.op.outcome, h.s, e.now))]
      else h.forced,
      if BecomesForced(h.s, t) && IsRepeat(h.s, e.op) then h.repeats + 1
      else if t.refused != h.s.refused && t.refused != "" then 0 else h.repeats,
      h.ended + if e.op.RunEnds? then 1 else 0,
      if e.op.RunEnds? && e.op.outcome.Produced? then h.s.inflight.value.started else h.acquired,
      e.now)
  }

  ghost predicate Legal(h: History, trace: seq<Event>)
    decreases |trace|, 0
  {
    trace == [] || (Legal(h, trace[..|trace| - 1]) && Enabled(Exec(h, trace[..|trace| - 1]), trace[|trace| - 1]))
  }

  ghost function Exec(h: History, trace: seq<Event>): History
    requires Legal(h, trace)
    decreases |trace|, 1
  {
    if trace == [] then h else Next(Exec(h, trace[..|trace| - 1]), trace[|trace| - 1])
  }

  function Start(ttl: int, now: int): History {
    History(Fresh(ttl), [], 0, 0, None, now)
  }

  // ----- The invariant -----

  /** The spacing the k-th repeat of a chain needs. */
  function ChainSpacing(k: nat): int {
    Min(INVALIDATE_INTERVAL * Pow2(k), INVALIDATE_INTERVAL_MAX)
  }

  predicate Gap(a: Forced, b: Forced) {
    || b.at - a.at >= INVALIDATE_INTERVAL
    || (a.end.Failing? && b.at >= a.end.at + a.end.delay && a.end.at >= a.at && a.end.delay >= BACKOFF_MIN)
  }

  ghost predicate Spaced(forced: seq<Forced>) {
    forall i {:trigger forced[i]} :: 0 <= i < |forced| - 1 ==> Gap(forced[i], forced[i + 1])
  }

  predicate RunsOk(h: History) {
    && h.s.nextRun == h.ended + (if h.s.inflight.Some? then 1 else 0)
    && (h.s.inflight.Some? ==> h.s.inflight.value.id == h.ended)
    && (h.s.inflight.Some? && h.s.inflight.value.started.Some? ==> h.s.inflight.value.started.value <= h.clock)
  }

  predicate ValueOk(h: History) {
    && h.s.ttl > 0
    && (h.s.value == "" <==> h.acquired.None?)
    && (h.acquired.Some? ==> h.s.expires == h.acquired.value + h.s.ttl && h.acquired.value <= h.clock)
    && (h.s.refused != "" ==> h.s.refused == h.s.value)
    && (h.s.forcedValue != "" ==> h.s.forcedValue == h.s.value)
    && (h.s.value == "" && h.ended > 0 ==> h.s.lastErr.Some?)
    && (h.s.retryAt.Some? ==> h.ended > 0)
  }

  predicate LastForcedOk(h: History) {
    var n := |h.forced|;
    if n == 0 then
      && h.s.lastForced.None?
      && (h.s.inflight.Some? ==> !h.s.inflight.value.forced)
    else
      var last := h.forced[n - 1];
      && h.s.lastForced == Some(last.at)
      && last.at <= h.clock
      && last.run < h.s.nextRun
      && (last.end.Running? <==> h.s.inflight.Some? && h.s.inflight.value.id == last.run)
      && (h.s.inflight.Some? ==> (h.s.inflight.value.forced <==> last.end.Running?))
      && (last.end.Succeeded? && h.s.refused != "" ==> h.clock - last.at >= INVALIDATE_INTERVAL)
      && (last.end.Failing? ==>
            && last.at <= last.end.at <= h.clock
            && last.end.delay >= BACKOFF_MIN
            && (h.clock >= last.end.at + last.end.delay
                || (h.s.inflight.None? && h.s.retryAt == Some(last.end.at + last.end.delay))))
  }

  predicate ChainOk(h: History) {
    && (h.s.refused != "" && h.s.inflight.Some? ==> h.s.inflight.value.forced)
    && (h.s.forcedSpacing == 0 ==> h.forced == [] && h.s.refused == "" && h.s.forcedValue == "" && h.repeats == 0)
    && (h.s.forcedSpacing != 0 ==> h.s.forcedSpacing == ChainSpacing(h.repeats))
    && (h.s.forcedValue != "" ==> h.forced != [])
  }

  ghost predicate Inv(h: History) {
    RunsOk(h) && ValueOk(h) && LastForcedOk(h) && ChainOk(h) && Spaced(h.forced)
  }

  lemma BackoffAtLeastMin(failures: nat)
    ensures BACKOFF_MIN <= Backoff(failures) <= BACKOFF_MAX
  {
  }

  lemma ChainDoubles(k: nat)
    ensures Min(2 * Max(ChainSpacing(k), INVALIDATE_INTERVAL), INVALIDATE_INTERVAL_MAX) == ChainSpacing(k + 1)
    ensures ChainSpacing(k) >= INVALIDATE_INTERVAL && ChainSpacing(0) == INVALIDATE_INTERVAL
  {
  }

  lemma {:induction false} AppendKeepsSpaced(forced: seq<Forced>, f: Forced)
    requires Spaced(forced)
    requires forced != [] ==> Gap(forced[|forced| - 1], f)
    ensures Spaced(forced + [f])
  {
    var longer := forced + [f];
    forall i | 0 <= i < |longer| - 1
      ensures Gap(longer[i], longer[i + 1])
    {
      assert longer[i] == forced[i];
    }
  }

  /** The history after a call of startLocked made by s, when the call counts as a repeat or not. */
  function AfterStart(h: History, s: State, now: int, forced: bool, repeats: nat): History {
    var t := StartRun(s, now, forced);
    History(
      t,
      if BecomesForced(h.s, t) then h.forced + [Forced(now, t.inflight.value.id, Running)] else h.forced,
      repeats, h.ended, h.acquired, now)
  }

  /** Nothing but a failed run or the minimum spacing lies between the last forced refresh and now. */
  predicate MayForce(h: History, now: int) {
    var n := |h.forced|;
    n > 0 ==> h.forced[n - 1].end.Failing? || now - h.forced[n - 1].at >= INVALIDATE_INTERVAL
  }

  lemma StartKeepsRuns(h: History, s: State, now: int, forced: bool, repeats: nat)
    requires RunsOk(h) && LastForcedOk(h) && now >= h.clock
    requires s == h.s.(refused := s.refused, forcedSpacing := s.forcedSpacing)
    requires s.refused != "" && h.forced != [] && h.forced[|h.forced| - 1].end.Succeeded? ==> MayForce(h, now)
    ensures var g := AfterStart(h, s, now, forced, repeats); RunsOk(g) && LastForcedOk(g)
  {
  }

  lemma StartKeepsSpaced(h: History, s: State, now: int, forced: bool, repeats: nat)
    requires RunsOk(h) && LastForcedOk(h) && Spaced(h.forced) && now >= h.clock
    requires s == h.s.(refused := s.refused, forcedSpacing := s.forcedSpacing)
    requires BecomesForced(h.s, StartRun(s, now, forced)) ==> MayForce(h, now)
    ensures Spaced(AfterStart(h, s, now, forced, repeats).forced)
  {
    var t := StartRun(s, now, forced);
    if BecomesForced(h.s, t) {
      AppendKeepsSpaced(h.forced, Forced(now, t.inflight.value.id, Running));
    }
  }

  lemma SecretStartKeepsInv(h: History, now: int, forced: bool)
    requires Inv(h) && now >= h.clock && (forced <==> h.s.refused != "")
    ensures Inv(AfterStart(h, h.s, now, forced, h.repeats))
  {
    StartKeepsRuns(h, h.s, now, forced, h.repeats);
    StartKeepsSpaced(h, h.s, now, forced, h.repeats);
  }

  lemma SecretKeepsInv(h: History, now: int)
    requires Inv(h) && Enabled(h, Event(Secret, now))
    ensures Inv(Next(h, Event(Secret, now)))
  {
    var e := Event(Secret, now);
    if ServesAtOnce(h.s, now) && now < h.s.refreshAt {
      assert Next(h, e) == h.(clock := now);
    } else {
      var forced := h.s.refused != "";
      assert Next(h, e) == AfterStart(h, h.s, now, forced, h.repeats);
      SecretStartKeepsInv(h, now, forced);
    }
  }

  lemma RefusalKeepsInv(h: History, rejected: string, now: int)
    requires Inv(h) && Enabled(h, Event(Invalidate(rejected), now)) && rejected != "" && rejected == h.s.refused
    ensures Inv(Next(h, Event(Invalidate(rejected), now)))
  {
    assert Next(h, Event(Invalidate(rejected), now)) == AfterStart(h, h.s, now, true, h.repeats);
    StartKeepsRuns(h, h.s, now, true, h.repeats);
    StartKeepsSpaced(h, h.s, now, true, h.repeats);
  }

  predicate SpacingElapsed(s: State, rejected: string, now: int) {
    s.lastForced.Some? ==> now - s.lastForced.value >= RefusalSpacing(s, rejected)
  }

  predicate NewRefusal(s: State, rejected: string) {
    && rejected != "" && rejected == s.value && rejected != s.refused
    && !(s.inflight.Some? && s.inflight.value.forced)
  }

  lemma SpacingAtLeastMin(s: State, rejected: string)
    ensures RefusalSpacing(s, rejected) >= INVALIDATE_INTERVAL
  {
  }

  lemma FirstRefusalKeepsInv(h: History, rejected: string, now: int)
    requires Inv(h) && Enabled(h, Event(Invalidate(rejected), now))
    requires NewRefusal(h.s, rejected) && SpacingElapsed(h.s, rejected, now) && rejected != h.s.forcedValue
    ensures Inv(Next(h, Event(Invalidate(rejected), now)))
  {
    var s := h.s.(refused := rejected, forcedSpacing := INVALIDATE_INTERVAL);
    assert Next(h, Event(Invalidate(rejected), now)) == AfterStart(h, s, now, true, 0);
    ChainDoubles(0);
    StartKeepsRuns(h, s, now, true, 0);
    StartKeepsSpaced(h, s, now, true, 0);
  }

  lemma RepeatStartKeepsInv(h: History, rejected: string, now: int)
    requires Inv(h) && now >= h.clock
    requires NewRefusal(h.s, rejected) && SpacingElapsed(h.s, rejected, now) && rejected == h.s.forcedValue
    requires h.s.inflight.Some? || !BackingOff(h.s, now)
    ensures var g := AfterStart(h, h.s, now, true, h.repeats + 1);
            Inv(g.(s := g.s.(forcedSpacing := RefusalSpacing(h.s, rejected))))
  {
    SpacingAtLeastMin(h.s, rejected);
    ChainDoubles(h.repeats);
    StartKeepsRuns(h, h.s, now, true, h.repeats + 1);
    StartKeepsSpaced(h, h.s, now, true, h.repeats + 1);
  }

  lemma RepeatKeepsInv(h: History, rejected: string, now: int)
    requires Inv(h) && Enabled(h, Event(Invalidate(rejected), now))
    requires NewRefusal(h.s, rejected) && SpacingElapsed(h.s, rejected, now) && rejected == h.s.forcedValue
    ensures Inv(Next(h, Event(Invalidate(rejected), now)))
  {
    if h.s.inflight.Some? || !BackingOff(h.s, now) {
      var g := AfterStart(h, h.s, now, true, h.repeats + 1);
      RepeatStartKeepsInv(h, rejected, now);
      assert Next(h, Event(Invalidate(rejected), now)) == g.(s := g.s.(forcedSpacing := RefusalSpacing(h.s, rejected)));
    } else {
      assert Next(h, Event(Invalidate(rejected), now)) == h.(clock := now);
    }
  }

  lemma InvalidateKeepsInv(h: History, rejected: string, now: int)
    requires Inv(h) && Enabled(h, Event(Invalidate(rejected), now))
    ensures Inv(Next(h, Event(Invalidate(rejected), now)))
  {
    if rejected != "" && rejected == h.s.refused {
      RefusalKeepsInv(h, rejected, now);
    } else if !NewRefusal(h.s, rejected) || !SpacingElapsed(h.s, rejected, now) {
      assert Next(h, Event(Invalidate(rejected), now)) == h.(clock := now);
    } else if rejected != h.s.forcedValue {
      FirstRefusalKeepsInv(h, rejected, now);
    } else {
      RepeatKeepsInv(h, rejected, now);
    }
  }

  lemma BeginKeepsInv(h: History, now: int)
    requires Inv(h) && Enabled(h, Event(RunBegins, now))
    ensures Inv(Next(h, Event(RunBegins, now)))
  {
  }

  lemma EndKeepsInv(h: History, outcome: Outcome, now: int)
    requires Inv(h) && Enabled(h, Event(RunEnds(outcome), now))
    ensures Inv(Next(h, Event(RunEnds(outcome), now)))
  {
    BackoffAtLeastMin(h.s.failures + 1);
  }

  lemma StepKeepsInv(h: History, e: Event)
    requires Inv(h) && Enabled(h, e)
    ensures Inv(Next(h, e))
  {
    match e.op {
      case Secret => SecretKeepsInv(h, e.now);
      case Invalidate(rejected) => InvalidateKeepsInv(h, rejected, e.now);
      case RunBegins => BeginKeepsInv(h, e.now);
      case RunEnds(outcome) => EndKeepsInv(h, outcome, e.now);
    }
  }

  lemma {:induction false} RunKeepsInv(ttl: int, now: int, trace: seq<Event>)
    requires ttl > 0 && Legal(Start(ttl, now), trace)
    ensures Inv(Exec(Start(ttl, now), trace))
  {
    if trace != [] {
      RunKeepsInv(ttl, now, trace[..|trace| - 1]);
      StepKeepsInv(Exec(Start(ttl, now), trace[..|trace| - 1]), trace[|trace| - 1]);
    }
  }

  // ----- Single flight, and what callers are given -----

  /** At most one command is in flight; once a run has succeeded the stored value is never empty again. */
  lemma {:induction false} ValueStays(h: History, trace: seq<Event>)
    requires Inv(h) && Legal(h, trace)
    ensures var g := Exec(h, trace);
            && Inv(g)
            && 0 <= g.s.nextRun - g.ended <= 1
            && (h.s.value != "" ==> g.s.value != "")
  {
    if trace != [] {
      var before := trace[..|trace| - 1];
      ValueStays(h, before);
      StepKeepsInv(Exec(h, before), trace[|trace| - 1]);
    }
  }

  /** What the first section of Secret decides, in every reachable state: no value is empty, an error means that no
      run ever succeeded, and outside a failure backoff a value served at once is unrefused and younger than ttl. */
  lemma SecretDecides(ttl: int, start: int, trace: seq<Event>, now: int)
    requires ttl > 0 && Legal(Start(ttl, start), trace) && now >= Exec(Start(ttl, start), trace).clock
    ensures var h := Exec(Start(ttl, start), trace);
            match SecretReply(h.s, now)
            case Served(v) =>
              && v == h.s.value != ""
              && (!BackingOff(h.s, now) ==> v != h.s.refused && h.acquired.Some? && now < h.acquired.value + ttl)
            case Errors(err) => err.Some? && h.acquired.None? && BackingOff(h.s, now)
            case Waits(run) => SecretStep(h.s, now).inflight.Some? && SecretStep(h.s, now).inflight.value.id == run
            case GaveUp => false
  {
    RunKeepsInv(ttl, start, trace);
    TtlIsConstant(Start(ttl, start), trace);
  }

  lemma {:induction false} TtlIsConstant(h: History, trace: seq<Event>)
    requires Legal(h, trace)
    ensures Exec(h, trace).s.ttl == h.s.ttl
  {
    if trace != [] {
      TtlIsConstant(h, trace[..|trace| - 1]);
    }
  }

  /** A caller whose run is done gets a value if any run ever succeeded, and otherwise an error. */
  lemma WaitingDecides(ttl: int, start: int, trace: seq<Event>, run: nat)
    requires ttl > 0 && Legal(Start(ttl, start), trace)
    requires run < Exec(Start(ttl, start), trace).ended
    ensures var h := Exec(Start(ttl, start), trace);
            match Held(h.s)
            case Served(v) => v == h.s.value != ""
            case Errors(err) => err.Some? && h.acquired.None?
            case _ => false
  {
    RunKeepsInv(ttl, start, trace);
  }

  /** Reacquire waits only for the run replacing the refused value; otherwise it answers as Secret would after a
      wait. */
  lemma ReacquireDecides(ttl: int, start: int, trace: seq<Event>, rejected: string)
    requires ttl > 0 && Legal(Start(ttl, start), trace)
    ensures var h := Exec(Start(ttl, start), trace);
            match ReacquireReply(h.s, rejected)
            case Served(v) => v == h.s.value != ""
            case Waits(run) => rejected == h.s.value && run == h.ended && h.s.inflight.Some?
            case Errors(err) => h.acquired.None? && (h.ended > 0 ==> err.Some?)
            case GaveUp => false
    ensures var h := Exec(Start(ttl, start), trace);
            ReacquireReply(h.s, rejected).Waits? <==> h.s.inflight.Some? && rejected == h.s.value
  {
    RunKeepsInv(ttl, start, trace);
  }

  /** A fresh, unrefused value is served without waiting, and inside the refresh-ahead window a run replaces it. */
  lemma FreshValueNeverBlocks(h: History, now: int)
    requires Inv(h) && now >= h.clock && h.acquired.Some? && h.s.refused == ""
    requires now < h.acquired.value + h.s.ttl
    ensures SecretReply(h.s, now) == Served(h.s.value)
    ensures now >= h.s.refreshAt && !BackingOff(h.s, now) ==> SecretStep(h.s, now).inflight.Some?
    ensures now < h.s.refreshAt ==> SecretStep(h.s, now) == h.s
  {
  }

  // ----- Forced refreshes -----

  /** Consecutive forced refreshes start at least 5s apart, unless the earlier one failed: then the later one starts
      at least its failure's backoff, itself at least 1s, after it ended. */
  lemma ForcedRefreshesSpaced(ttl: int, start: int, trace: seq<Event>, i: nat)
    requires ttl > 0 && Legal(Start(ttl, start), trace)
    requires i + 1 < |Exec(Start(ttl, start), trace).forced|
    ensures var f := Exec(Start(ttl, start), trace).forced;
            Gap(f[i], f[i + 1]) && f[i + 1].at - f[i].at >= BACKOFF_MIN
  {
    RunKeepsInv(ttl, start, trace);
    assert Spaced(Exec(Start(ttl, start), trace).forced);
  }

  /** So n forced refreshes take at least n - 1 seconds, however many refusals arrive. */
  lemma {:induction false} ForcedRefreshRate(forced: seq<Forced>)
    requires Spaced(forced) && forced != []
    ensures forced[|forced| - 1].at - forced[0].at >= BACKOFF_MIN * (|forced| - 1)
  {
    var n := |forced|;
    if n > 1 {
      assert Gap(forced[n - 2], forced[n - 1]);
      ForcedRefreshRate(forced[..n - 1]);
    }
  }

  /** A refused replacement forces the next refresh exactly when min(5s * 2^k, 5min) have passed since the last forced
      one, k counting the repeats before it, and a run is under way or the failure backoff is over. */
  lemma RepeatNeedsDoubledSpacing(ttl: int, start: int, trace: seq<Event>, now: int)
    requires ttl > 0 && Legal(Start(ttl, start), trace) && now >= Exec(Start(ttl, start), trace).clock
    requires IsRepeat(Exec(Start(ttl, start), trace).s, Invalidate(Exec(Start(ttl, start), trace).s.value))
    ensures var h := Exec(Start(ttl, start), trace);
            var e := Event(Invalidate(h.s.value), now);
            var g := Next(h, e);
            && h.forced != []
            && (BecomesForced(h.s, g.s) <==>
                  && now - h.forced[|h.forced| - 1].at >= ChainSpacing(h.repeats + 1)
                  && (h.s.inflight.Some? || !BackingOff(h.s, now)))
            && g.repeats == h.repeats + (if BecomesForced(h.s, g.s) then 1 else 0)
            && g.s.refused == h.s.refused
  {
    RunKeepsInv(ttl, start, trace);
    ChainDoubles(Exec(Start(ttl, start), trace).repeats);
  }

  /** A run that no refusal joined ends the chain: the next refusal needs only the minimum spacing, is withheld from
      every caller, and starts a chain of its own. */
  lemma ScheduledRefreshResetsChain(h: History, value: Credential, ended: int, now: int)
    requires Inv(h) && Enabled(h, Event(RunEnds(Produced(value)), ended)) && now >= ended
    requires !h.s.inflight.value.forced
    requires h.forced == [] || now - h.forced[|h.forced| - 1].at >= INVALIDATE_INTERVAL
    ensures var g := Next(h, Event(RunEnds(Produced(value)), ended));
            var k := Next(g, Event(Invalidate(value), now));
            && g.s.forcedValue == "" && !IsRepeat(g.s, Invalidate(value))
            && Refusing(k.s) && k.repeats == 0 && k.s.forcedSpacing == ChainSpacing(0)
            && BecomesForced(g.s, k.s)
  {
    EndKeepsInv(h, Produced(value), ended);
    ChainDoubles(0);
  }

  /** While a value stands refused, no caller is served it without a forced run being tried for its replacement. */
  lemma RefusedValueIsWithheld(h: History, now: int)
    requires Inv(h) && now >= h.clock && h.s.refused != ""
    ensures match SecretReply(h.s, now)
            case Waits(run) => var t := SecretStep(h.s, now); t.inflight.value.id == run && t.inflight.value.forced
            case Served(v) => v == h.s.refused && h.s.inflight.None? && BackingOff(h.s, now)
            case _ => false
  {
  }
}
