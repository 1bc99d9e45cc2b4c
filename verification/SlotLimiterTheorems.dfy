/** What every run of the slot limiter keeps: tokens, adaptive headroom, and the throughput bound. */
module SlotLimiterTheorems {
  import opened Prelude
  import opened SlotLimiter

  ghost function InPhase(flights: map<nat, Flight>, p: Phase): set<nat> {
    set id | id in flights && flights[id].phase == p
  }

  /** The token AdaptiveReduce has really taken out of circulation, if any. */
  function Removed(h: Headroom): int {
    if h.withheld == 1 && !h.absorbNext then 1 else 0
  }

  /** Outstanding calls of restoreAdaptiveSlot that carry the current epoch. */
  function LiveRestorers(h: Headroom): nat {
    (if h.adaptiveTimer.Some? && h.adaptiveTimer.value.epoch == h.timerEpoch then 1 else 0) + h.fired[h.timerEpoch]
  }

  ghost predicate Conserved(s: State) {
    s.slots + |s.flights| + s.restoring + Removed(s.headroom) == s.limit
  }

  ghost predicate HeadroomOk(h: Headroom, limit: nat) {
    && 0 <= h.withheld <= MAX_ADAPTIVE_SLOTS
    && (h.withheld == 1 ==> limit >= 2)
    && (h.absorbNext ==> h.withheld == 1)
    && (h.locked ==> h.absorbNext)
    && (h.adaptiveTimer.Some? ==> h.adaptiveTimer.value.epoch == h.timerEpoch)
    && (forall e :: e in h.fired ==> e <= h.timerEpoch)
    && LiveRestorers(h) == h.withheld
  }

  ghost predicate CountersOk(s: State) {
    var c := s.counters;
    && c.active == |InPhase(s.flights, Held)|
    && c.totalAcquired - c.totalReleased ==
       s.limit - s.slots - |InPhase(s.flights, Taken)| - c.drawn + c.uncounted
    && (forall id :: id in s.flights ==> id < s.nextFlight)
  }

  /** A token is back in circulation no earlier than one cooldown after its acquisition. */
  ghost predicate Timely(flights: map<nat, Flight>, cooldown: nat, clock: int) {
    forall id :: id in flights ==> FlightTimely(flights[id], cooldown, clock)
  }

  predicate FlightTimely(f: Flight, cooldown: nat, clock: int) {
    && f.since <= clock
    && (f.phase.Cooling? ==> f.since <= f.phase.released <= clock)
    && (f.phase.Returning? || f.phase.Sending? ==> f.since + cooldown <= clock)
  }

  ghost predicate Inv(s: State) {
    && s.limit >= 1
    && Conserved(s)
    && HeadroomOk(s.headroom, s.limit)
    && CountersOk(s)
    && Timely(s.flights, s.cooldown, s.clock)
  }

  // ----- One step keeps the invariant -----

  lemma PhaseAfterMove(m: map<nat, Flight>, id: nat, f: Flight, p: Phase)
    ensures InPhase(m[id := f], p) == if f.phase == p then InPhase(m, p) + {id} else InPhase(m, p) - {id}
    ensures id in InPhase(m, p) <==> id in m && m[id].phase == p
  {
  }

  lemma PhaseAfterLanding(m: map<nat, Flight>, id: nat, p: Phase)
    requires id in m
    ensures InPhase(m - {id}, p) == InPhase(m, p) - {id}
    ensures |m - {id}| == |m| - 1
  {
    assert (m - {id}).Keys == m.Keys - {id};
  }

  lemma MoveKeepsInv(s: State, id: nat, f: Flight)
    requires Inv(s) && id in s.flights
    ensures |s.flights[id := f]| == |s.flights|
    ensures InPhase(s.flights[id := f], Held) ==
            if f.phase == Held then InPhase(s.flights, Held) + {id} else InPhase(s.flights, Held) - {id}
    ensures InPhase(s.flights[id := f], Taken) ==
            if f.phase == Taken then InPhase(s.flights, Taken) + {id} else InPhase(s.flights, Taken) - {id}
  {
    PhaseAfterMove(s.flights, id, f, Held);
    PhaseAfterMove(s.flights, id, f, Taken);
    assert s.flights[id := f].Keys == s.flights.Keys;
  }

  /** A new flight adds one to the flights and to those just taken. */
  lemma PhaseAfterTake(m: map<nat, Flight>, id: nat, f: Flight)
    requires id !in m && f.phase == Taken
    ensures |m[id := f]| == |m| + 1
    ensures InPhase(m[id := f], Held) == InPhase(m, Held)
    ensures InPhase(m[id := f], Taken) == InPhase(m, Taken) + {id} && id !in InPhase(m, Taken)
  {
    PhaseAfterMove(m, id, f, Held);
    PhaseAfterMove(m, id, f, Taken);
    assert m[id := f].Keys == m.Keys + {id};
  }

  lemma TakeKeepsInv(s: State, now: int)
    requires Inv(s) && s.slots > 0 && s.clock <= now
    ensures Inv(TakeStep(s, now).(clock := now))
  {
    PhaseAfterTake(s.flights, s.nextFlight, Flight(now, Taken));
  }

  lemma TrackKeepsInv(s: State, id: nat, now: int)
    requires Inv(s) && In(s, id, Taken) && s.clock <= now
    ensures Inv(TrackStep(s, id).(clock := now))
  {
    MoveKeepsInv(s, id, s.flights[id].(phase := Held));
  }

  lemma ReleaseKeepsInv(s: State, id: nat, now: int)
    requires Inv(s) && s.clock <= now
    ensures Inv(ReleaseStep(s, id, now).(clock := now))
  {
    if In(s, id, Held) {
      MoveKeepsInv(s, id, s.flights[id].(phase := if s.cooldown > 0 then Cooling(now) else Returning));
    }
  }

  lemma ExpireKeepsInv(s: State, id: nat, now: int)
    requires Inv(s) && Enabled(s, Event(Expire(id), now))
    ensures Inv(s.(flights := Moved(s, id, Returning), clock := now))
  {
    MoveKeepsInv(s, id, s.flights[id].(phase := Returning));
  }

  lemma AbsorbKeepsInv(s: State, id: nat, now: int)
    requires Inv(s) && Enabled(s, Event(Absorb(id), now))
    ensures Inv(AbsorbStep(s, id).(clock := now))
  {
    if s.headroom.absorbNext {
      PhaseAfterLanding(s.flights, id, Held);
      PhaseAfterLanding(s.flights, id, Taken);
    } else {
      MoveKeepsInv(s, id, s.flights[id].(phase := Sending));
    }
  }

  lemma SendKeepsInv(s: State, id: nat, now: int)
    requires Inv(s) && Enabled(s, Event(Send(id), now))
    ensures Inv(SendStep(s, id).(clock := now))
  {
    PhaseAfterLanding(s.flights, id, Held);
    PhaseAfterLanding(s.flights, id, Taken);
  }

  lemma ReduceKeepsInv(s: State, window: int, now: int)
    requires Inv(s) && Enabled(s, Event(Reduce(window), now))
    ensures Inv(s.(headroom := Reduced(s.headroom, s.limit, window, now), clock := now))
  {
    assert s.headroom.fired[s.headroom.timerEpoch + 1] == 0;
  }

  lemma ReduceTakeKeepsInv(s: State, now: int)
    requires Inv(s) && s.headroom.locked && s.clock <= now
    ensures Inv(ReduceTakeStep(s).(clock := now))
  {
  }

  lemma FireKeepsInv(s: State, now: int)
    requires Inv(s) && s.headroom.adaptiveTimer.Some? && s.clock <= now
    ensures Inv(s.(headroom := Fired(s.headroom), clock := now))
  {
  }

  /** A callback with the current epoch always finds a slot withheld, so the withheld <= 0 branch never runs. */
  lemma RestoreKeepsInv(s: State, epoch: nat, now: int)
    requires Inv(s) && epoch in s.headroom.fired && !s.headroom.locked && s.clock <= now
    ensures Inv(RestoreStep(s, epoch).(clock := now))
    ensures epoch == s.headroom.timerEpoch ==> s.headroom.withheld == 1
  {
    assert s.headroom.fired[epoch] >= 1;
  }

  lemma CountReleaseKeepsInv(s: State, now: int)
    requires Inv(s) && s.counters.uncounted > 0 && s.clock <= now
    ensures Inv(CountReleaseStep(s).(clock := now))
  {
  }

  lemma RestoreSendKeepsInv(s: State, now: int)
    requires Inv(s) && s.restoring > 0 && s.clock <= now
    ensures Inv(RestoreSendStep(s).(clock := now))
  {
  }

  lemma StepKeepsInv(s: State, e: Event)
    requires Inv(s) && Enabled(s, e)
    ensures Inv(Next(s, e))
    ensures Next(s, e).limit == s.limit && Next(s, e).cooldown == s.cooldown
  {
    match e.step {
      case Take => TakeKeepsInv(s, e.now);
      case Track(id) => TrackKeepsInv(s, id, e.now);
      case Release(id) => ReleaseKeepsInv(s, id, e.now);
      case Expire(id) => ExpireKeepsInv(s, id, e.now);
      case Absorb(id) => AbsorbKeepsInv(s, id, e.now);
      case Send(id) => SendKeepsInv(s, id, e.now);
      case CountRelease => CountReleaseKeepsInv(s, e.now);
      case Reduce(window) => ReduceKeepsInv(s, window, e.now);
      case ReduceTake => ReduceTakeKeepsInv(s, e.now);
      case FireRestore => FireKeepsInv(s, e.now);
      case Restore(epoch) => RestoreKeepsInv(s, epoch, e.now);
      case RestoreSend => RestoreSendKeepsInv(s, e.now);
    }
  }

  lemma {:induction false} RunKeepsInv(limit: nat, cooldown: nat, trace: seq<Event>)
    requires limit >= 1 && Legal(Initial(limit, cooldown), trace)
    ensures Inv(Exec(Initial(limit, cooldown), trace))
    ensures Exec(Initial(limit, cooldown), trace).limit == limit
    ensures Exec(Initial(limit, cooldown), trace).cooldown == cooldown
  {
    if trace == [] {
      assert InPhase(map[], Held) == {} && InPhase(map[], Taken) == {};
    } else {
      RunKeepsInv(limit, cooldown, trace[..|trace| - 1]);
      StepKeepsInv(Exec(Initial(limit, cooldown), trace[..|trace| - 1]), trace[|trace| - 1]);
    }
  }

  // ----- Conservation -----

  ghost function CoolingIds(flights: map<nat, Flight>): set<nat> {
    set id | id in flights && flights[id].phase.Cooling?
  }

  lemma PhaseSize(m: map<nat, Flight>, id: nat, p: Phase)
    requires id in m
    ensures |InPhase(m, p)| == |InPhase(m - {id}, p)| + if m[id].phase == p then 1 else 0
  {
    assert InPhase(m - {id}, p) == InPhase(m, p) - {id};
  }

  lemma CoolingSize(m: map<nat, Flight>, id: nat)
    requires id in m
    ensures |CoolingIds(m)| == |CoolingIds(m - {id})| + if m[id].phase.Cooling? then 1 else 0
  {
    assert CoolingIds(m - {id}) == CoolingIds(m) - {id};
  }

  lemma {:induction false} PhasesPartition(m: map<nat, Flight>)
    ensures |m| == |InPhase(m, Taken)| + |InPhase(m, Held)| + |CoolingIds(m)|
                   + |InPhase(m, Returning)| + |InPhase(m, Sending)|
    decreases |m|
  {
    if |m| == 0 {
      assert InPhase(m, Taken) == InPhase(m, Held) == InPhase(m, Returning) == InPhase(m, Sending) == {};
      assert CoolingIds(m) == {};
    } else {
      var id :| id in m;
      PhaseAfterLanding(m, id, Taken);
      PhasesPartition(m - {id});
      PhaseSize(m, id, Taken);
      PhaseSize(m, id, Held);
      PhaseSize(m, id, Returning);
      PhaseSize(m, id, Sending);
      CoolingSize(m, id);
    }
  }

  /** Every token is in exactly one place, in every state of every run. */
  lemma TokensConserved(limit: nat, cooldown: nat, trace: seq<Event>)
    requires limit >= 1 && Legal(Initial(limit, cooldown), trace)
    ensures var s := Exec(Initial(limit, cooldown), trace);
            && s.slots + |InPhase(s.flights, Taken)| + |InPhase(s.flights, Held)| + |CoolingIds(s.flights)|
               + |InPhase(s.flights, Returning)| + |InPhase(s.flights, Sending)| + s.restoring + Removed(s.headroom)
               == limit
            && s.counters.active == |InPhase(s.flights, Held)| <= limit - Removed(s.headroom)
  {
    RunKeepsInv(limit, cooldown, trace);
    PhasesPartition(Exec(Initial(limit, cooldown), trace).flights);
  }

  /** Whoever is about to send on the slots channel finds room in it. */
  lemma SendsNeverBlock(limit: nat, cooldown: nat, trace: seq<Event>, id: nat)
    requires limit >= 1 && Legal(Initial(limit, cooldown), trace)
    ensures var s := Exec(Initial(limit, cooldown), trace);
            && (In(s, id, Sending) ==> Enabled(s, Event(Send(id), s.clock)))
            && (s.restoring > 0 ==> Enabled(s, Event(RestoreSend, s.clock)))
  {
    RunKeepsInv(limit, cooldown, trace);
    var s := Exec(Initial(limit, cooldown), trace);
    if id in s.flights {
      PhaseAfterLanding(s.flights, id, Sending);
    }
  }

  // ----- Adaptive headroom -----

  /** A slot is withheld exactly while one outstanding callback can give it back; any other callback does nothing. */
  lemma HeadroomHasOneRestorer(limit: nat, cooldown: nat, trace: seq<Event>, epoch: nat)
    requires limit >= 1 && Legal(Initial(limit, cooldown), trace)
    ensures var s := Exec(Initial(limit, cooldown), trace);
            var h := s.headroom;
            && 0 <= h.withheld <= 1 && h.withheld < limit
            && (h.absorbNext ==> h.withheld == 1)
            && (h.withheld == 1 <==> LiveRestorers(h) == 1)
            && (h.withheld == 0 <==> LiveRestorers(h) == 0)
            && (epoch != h.timerEpoch ==>
                  RestoreStep(s, epoch) == s.(headroom := h.(fired := h.fired - multiset{epoch})))
  {
    RunKeepsInv(limit, cooldown, trace);
  }

  /** Whether AdaptiveReduce returns true. */
  predicate ReduceSucceeds(h: Headroom, limit: nat, window: int) {
    window > 0 && (h.withheld >= MAX_ADAPTIVE_SLOTS || limit - h.withheld > 1)
  }

  /** The slot stays withheld at every instant before due, under a timer for that instant. */
  predicate Withholds(s: State, due: int) {
    s.clock < due ==>
      && s.headroom.withheld == 1
      && s.headroom.adaptiveTimer == Some(Timer(s.headroom.timerEpoch, due))
  }

  lemma ReduceWithholds(s: State, window: int, now: int)
    requires Inv(s) && Enabled(s, Event(Reduce(window), now)) && ReduceSucceeds(s.headroom, s.limit, window)
    ensures Withholds(Next(s, Event(Reduce(window), now)), now + window)
  {
  }

  lemma StepWithholds(s: State, e: Event, due: int)
    requires Inv(s) && Enabled(s, e) && Withholds(s, due) && !e.step.Reduce?
    ensures Withholds(Next(s, e), due)
  {
    if e.now < due && e.step.Restore? {
      assert s.headroom.fired[s.headroom.timerEpoch] == 0;
    }
  }

  /** While no more than window has passed since the last successful AdaptiveReduce(window), the slot stays withheld. */
  lemma {:induction false} WithheldThroughWindow(s: State, window: int, now: int, later: seq<Event>)
    requires Inv(s) && Enabled(s, Event(Reduce(window), now)) && ReduceSucceeds(s.headroom, s.limit, window)
    requires Legal(Next(s, Event(Reduce(window), now)), later)
    requires forall i :: 0 <= i < |later| ==> !later[i].step.Reduce?
    ensures var t := Exec(Next(s, Event(Reduce(window), now)), later); Inv(t) && Withholds(t, now + window)
  {
    if later == [] {
      StepKeepsInv(s, Event(Reduce(window), now));
      ReduceWithholds(s, window, now);
    } else {
      WithheldThroughWindow(s, window, now, later[..|later| - 1]);
      var t := Exec(Next(s, Event(Reduce(window), now)), later[..|later| - 1]);
      StepKeepsInv(t, later[|later| - 1]);
      StepWithholds(t, later[|later| - 1], now + window);
    }
  }

  lemma LegalExtends(s: State, trace: seq<Event>, e: Event)
    requires Legal(s, trace) && Enabled(Exec(s, trace), e)
    ensures Legal(s, trace + [e]) && Exec(s, trace + [e]) == Next(Exec(s, trace), e)
  {
    assert (trace + [e])[..|trace|] == trace;
  }

  lemma Extend(s: State, trace: seq<Event>, e: Event) returns (longer: seq<Event>, t: State)
    requires Inv(s) && Legal(s, trace) && Inv(Exec(s, trace)) && Enabled(Exec(s, trace), e)
    ensures longer == trace + [e] && Legal(s, longer)
    ensures t == Exec(s, longer) == Next(Exec(s, trace), e) && Inv(t)
  {
    LegalExtends(s, trace, e);
    StepKeepsInv(Exec(s, trace), e);
    longer, t := trace + [e], Next(Exec(s, trace), e);
  }

  lemma RestorerEnds(s: State, trace: seq<Event>) returns (plan: seq<Event>)
    requires Inv(s) && Legal(s, trace) && Inv(Exec(s, trace))
    requires var h := Exec(s, trace).headroom; !h.locked && h.withheld == 1 && h.timerEpoch in h.fired
    ensures Legal(s, plan) && Exec(s, plan).headroom.withheld == 0
  {
    var t := Exec(s, trace);
    plan, t := Extend(s, trace, Event(Restore(t.headroom.timerEpoch), t.clock));
  }

  lemma TimerEnds(s: State, trace: seq<Event>) returns (plan: seq<Event>)
    requires Inv(s) && Legal(s, trace) && Inv(Exec(s, trace))
    requires var h := Exec(s, trace).headroom; !h.locked && h.withheld == 1
    ensures Legal(s, plan) && Exec(s, plan).headroom.withheld == 0
  {
    var t := Exec(s, trace);
    plan := trace;
    if t.headroom.adaptiveTimer.Some? {
      plan, t := Extend(s, trace, Event(FireRestore, Max(t.clock, t.headroom.adaptiveTimer.value.due)));
    }
    plan := RestorerEnds(s, plan);
  }

  /** No reduction is permanent: AdaptiveReduce finishes, the timer fires, and its callback restores the slot. */
  lemma ReductionCanEnd(s: State) returns (plan: seq<Event>)
    requires Inv(s) && s.headroom.withheld == 1
    ensures Legal(s, plan) && Exec(s, plan).headroom.withheld == 0
  {
    plan := [];
    if s.headroom.locked {
      var t;
      plan, t := Extend(s, [], Event(ReduceTake, s.clock));
    }
    plan := TimerEnds(s, plan);
  }

  // ----- Throughput -----

  /** Successful acquisitions of the run at an instant in the closed interval [a, b]. */
  function Acquisitions(trace: seq<Event>, a: int, b: int): nat {
    if trace == [] then 0
    else
      var e := trace[|trace| - 1];
      Acquisitions(trace[..|trace| - 1], a, b) + if e.step.Take? && a <= e.now <= b then 1 else 0
  }

  ghost function Fresh(flights: map<nat, Flight>, a: int): set<nat> {
    set id | id in flights && flights[id].since >= a
  }

  /** Within one cooldown of instant a, no token acquired since a can leave its flight. */
  lemma FreshGrows(s: State, e: Event, a: int)
    requires Inv(s) && Enabled(s, e) && e.now < a + s.cooldown
    ensures Fresh(Next(s, e).flights, a) ==
            if e.step.Take? && a <= e.now then Fresh(s.flights, a) + {s.nextFlight} else Fresh(s.flights, a)
    ensures s.nextFlight !in Fresh(s.flights, a)
  {
    match e.step {
      case Absorb(id) => assert FlightTimely(s.flights[id], s.cooldown, s.clock);
      case Send(id) => assert FlightTimely(s.flights[id], s.cooldown, s.clock);
      case _ =>
    }
  }

  lemma FreshStep(s: State, e: Event, a: int)
    requires Inv(s) && Enabled(s, e) && e.now < a + s.cooldown
    ensures |Fresh(Next(s, e).flights, a)| ==
              |Fresh(s.flights, a)| + if e.step.Take? && a <= e.now <= a + s.cooldown - 1 then 1 else 0
    ensures |Fresh(Next(s, e).flights, a)| <= s.limit
  {
    FreshGrows(s, e, a);
    StepKeepsInv(s, e);
    FreshBounded(Next(s, e).flights, a);
  }

  lemma {:induction false} OneCooldownBound(limit: nat, cooldown: nat, trace: seq<Event>, a: int)
    requires limit >= 1 && Legal(Initial(limit, cooldown), trace)
    ensures Acquisitions(trace, a, a + cooldown - 1) <= limit
    ensures var s := Exec(Initial(limit, cooldown), trace);
            s.clock < a + cooldown ==> Acquisitions(trace, a, a + cooldown - 1) == |Fresh(s.flights, a)|
  {
    if trace == [] {
      assert Fresh(map[], a) == {};
    } else {
      var before, e := trace[..|trace| - 1], trace[|trace| - 1];
      OneCooldownBound(limit, cooldown, before, a);
      RunKeepsInv(limit, cooldown, before);
      if e.now < a + cooldown {
        FreshStep(Exec(Initial(limit, cooldown), before), e, a);
      }
    }
  }

  lemma FreshBounded(m: map<nat, Flight>, a: int)
    ensures |Fresh(m, a)| <= |m|
  {
    assert m.Keys == Fresh(m, a) + (m.Keys - Fresh(m, a));
  }

  lemma {:induction false} AcquisitionsSplit(trace: seq<Event>, a: int, m: int, b: int)
    requires a <= m <= b + 1
    ensures Acquisitions(trace, a, b) == Acquisitions(trace, a, m - 1) + Acquisitions(trace, m, b)
  {
    if trace != [] {
      AcquisitionsSplit(trace[..|trace| - 1], a, m, b);
    }
  }

  lemma {:induction false} AcquisitionsWiden(trace: seq<Event>, a: int, b: int, c: int)
    requires b <= c
    ensures Acquisitions(trace, a, b) <= Acquisitions(trace, a, c)
  {
    if trace != [] {
      AcquisitionsWiden(trace[..|trace| - 1], a, b, c);
    }
  }

  /** k times n, by repeated addition. */
  function Times(n: nat, k: nat): nat {
    if k == 0 then 0 else n + Times(n, k - 1)
  }

  lemma {:induction false} TimesIsProduct(n: nat, k: nat)
    ensures Times(n, k) == n * k
  {
    if k > 0 {
      TimesIsProduct(n, k - 1);
      Distribute(n, k - 1);
    }
  }

  lemma {:induction false} CooldownsBound(limit: nat, cooldown: nat, trace: seq<Event>, a: int, k: nat)
    requires limit >= 1 && cooldown > 0 && Legal(Initial(limit, cooldown), trace)
    ensures Acquisitions(trace, a, a + Times(cooldown, k) - 1) <= Times(limit, k)
    decreases k
  {
    if k == 0 {
      NoInstant(trace, a);
    } else {
      OneCooldownBound(limit, cooldown, trace, a);
      CooldownsBound(limit, cooldown, trace, a + cooldown, k - 1);
      AcquisitionsSplit(trace, a, a + cooldown, a + Times(cooldown, k) - 1);
    }
  }

  lemma {:induction false} NoInstant(trace: seq<Event>, a: int)
    ensures Acquisitions(trace, a, a - 1) == 0
  {
    if trace != [] {
      NoInstant(trace[..|trace| - 1], a);
    }
  }

  /** limit / cooldown bounds the rate: any closed interval of length T sees at most limit * (T / cooldown + 1). */
  lemma ThroughputBound(limit: nat, cooldown: nat, trace: seq<Event>, a: int, b: int)
    requires limit >= 1 && cooldown > 0 && Legal(Initial(limit, cooldown), trace) && a <= b
    ensures Acquisitions(trace, a, b) <= limit * ((b - a) / cooldown + 1)
  {
    var k: nat := (b - a) / cooldown + 1;
    CooldownsBound(limit, cooldown, trace, a, k);
    TimesIsProduct(limit, k);
    CoversInterval(cooldown, b - a);
    AcquisitionsWiden(trace, a, b, a + Times(cooldown, k) - 1);
  }

  lemma CoversInterval(cooldown: nat, t: nat)
    requires cooldown > 0
    ensures t < Times(cooldown, t / cooldown + 1)
  {
    TimesIsProduct(cooldown, t / cooldown + 1);
    Distribute(cooldown, t / cooldown);
    QuotientBounds(t, cooldown);
  }

  // ----- The acquired and released totals -----

  /** The totals cross exactly when withdrawn idle tokens outnumber the tokens out of the channel. */
  lemma ReleasedExceedsAcquiredExactlyWhen(limit: nat, cooldown: nat, trace: seq<Event>)
    requires limit >= 1 && Legal(Initial(limit, cooldown), trace)
    ensures var s := Exec(Initial(limit, cooldown), trace);
            var c := s.counters;
            c.totalReleased > c.totalAcquired <==>
            c.drawn > limit - s.slots - |InPhase(s.flights, Taken)| + c.uncounted
  {
    RunKeepsInv(limit, cooldown, trace);
  }

  /** The receives of AdaptiveReduce that found an idle token, read off a run. */
  ghost function Withdrawals(s: State, trace: seq<Event>): nat
    requires Legal(s, trace)
  {
    if trace == [] then 0
    else
      Withdrawals(s, trace[..|trace| - 1])
      + if trace[|trace| - 1].step.ReduceTake? && Exec(s, trace[..|trace| - 1]).slots > 0 then 1 else 0
  }

  lemma {:induction false} DrawnCountsWithdrawals(s: State, trace: seq<Event>)
    requires Legal(s, trace)
    ensures Exec(s, trace).counters.drawn == s.counters.drawn + Withdrawals(s, trace)
  {
    if trace != [] {
      DrawnCountsWithdrawals(s, trace[..|trace| - 1]);
    }
  }

  /** Releases outnumber acquisitions by at most the idle tokens withdrawn, so without a withdrawal never. */
  lemma ReleasedAtMostAcquiredAndWithdrawn(limit: nat, cooldown: nat, trace: seq<Event>)
    requires limit >= 1 && Legal(Initial(limit, cooldown), trace)
    ensures var c := Exec(Initial(limit, cooldown), trace).counters;
            c.totalReleased + c.uncounted <= c.totalAcquired + Withdrawals(Initial(limit, cooldown), trace)
  {
    RunKeepsInv(limit, cooldown, trace);
    DrawnCountsWithdrawals(Initial(limit, cooldown), trace);
    var s := Exec(Initial(limit, cooldown), trace);
    PhasesPartition(s.flights);
  }

  /** A limiter nobody has used, after n reductions have each withdrawn an idle token and given it back, and the
      stages of one more: reduced, withdrawn, timer fired, restoring, sent, counted. */
  function AfterCycles(limit: nat, cooldown: nat, n: nat, stage: nat): State
    requires limit >= 2 && stage <= 6
  {
    var withdrawn := Headroom(1, false, n + 1, Some(Timer(n + 1, n + 1)), multiset{}, false);
    var restored := Headroom(0, false, n + 1, None, multiset{}, false);
    var idle := State(limit, cooldown, limit - 1, map[], 0, 0, restored, Counters(0, 0, n, 0, n + 1), n + 1);
    match stage
    case 0 =>
      idle.(slots := limit, headroom := restored.(timerEpoch := n), counters := Counters(0, 0, n, 0, n), clock := n)
    case 1 =>
      idle.(slots := limit, headroom := withdrawn.(absorbNext := true, locked := true),
            counters := Counters(0, 0, n, 0, n), clock := n)
    case 2 => idle.(headroom := withdrawn, clock := n)
    case 3 => idle.(headroom := withdrawn.(adaptiveTimer := None, fired := multiset{n + 1}))
    case 4 => idle.(restoring := 1)
    case 5 => idle.(slots := limit, counters := Counters(0, 0, n, 1, n + 1))
    case _ => idle.(slots := limit, counters := Counters(0, 0, n + 1, 0, n + 1))
  }

  function CycleEvent(n: nat, stage: nat): Event {
    match stage
    case 0 => Event(Reduce(1), n)
    case 1 => Event(ReduceTake, n)
    case 2 => Event(FireRestore, n + 1)
    case 3 => Event(Restore(n + 1), n + 1)
    case 4 => Event(RestoreSend, n + 1)
    case _ => Event(CountRelease, n + 1)
  }

  lemma CycleStep(limit: nat, cooldown: nat, n: nat, stage: nat)
    requires limit >= 2 && stage < 6
    ensures Enabled(AfterCycles(limit, cooldown, n, stage), CycleEvent(n, stage))
    ensures Next(AfterCycles(limit, cooldown, n, stage), CycleEvent(n, stage)) ==
              AfterCycles(limit, cooldown, n, stage + 1)
  {
    assert multiset{n + 1} - multiset{n + 1} == multiset{};
  }

  lemma {:induction false} StagesRun(limit: nat, cooldown: nat, n: nat, stage: nat) returns (trace: seq<Event>)
    requires limit >= 2 && stage <= 6
    ensures Legal(Initial(limit, cooldown), trace)
    ensures Exec(Initial(limit, cooldown), trace) == AfterCycles(limit, cooldown, n, stage)
    decreases n, stage
  {
    if stage > 0 {
      trace := StagesRun(limit, cooldown, n, stage - 1);
      CycleStep(limit, cooldown, n, stage - 1);
      LegalExtends(Initial(limit, cooldown), trace, CycleEvent(n, stage - 1));
      trace := trace + [CycleEvent(n, stage - 1)];
    } else if n > 0 {
      trace := StagesRun(limit, cooldown, n - 1, 6);
    } else {
      trace := [];
    }
  }

  /** The bound is met for every number of withdrawals: n reductions of an idle limiter end with n releases counted
      and none acquired. */
  lemma TotalsCross(limit: nat, cooldown: nat, n: nat) returns (trace: seq<Event>)
    requires limit >= 2
    ensures Legal(Initial(limit, cooldown), trace) && Withdrawals(Initial(limit, cooldown), trace) == n
    ensures var c := Exec(Initial(limit, cooldown), trace).counters; c.totalReleased == n && c.totalAcquired == 0
  {
    trace := StagesRun(limit, cooldown, n, 0);
    DrawnCountsWithdrawals(Initial(limit, cooldown), trace);
  }

  /** The first k events of one reduction of an idle limiter. */
  function FirstCycle(k: nat): seq<Event> {
    if k == 0 then [] else FirstCycle(k - 1) + [CycleEvent(0, k - 1)]
  }

  lemma {:induction false} FirstCycleRuns(k: nat)
    requires k <= 6
    ensures Legal(Initial(2, 0), FirstCycle(k)) && Exec(Initial(2, 0), FirstCycle(k)) == AfterCycles(2, 0, 0, k)
  {
    if k > 0 {
      FirstCycleRuns(k - 1);
      CycleStep(2, 0, 0, k - 1);
      LegalExtends(Initial(2, 0), FirstCycle(k - 1), CycleEvent(0, k - 1));
    }
  }

  /** The shortest crossing: reduce, withdraw, timer, callback, send and count on an idle limiter of two. */
  lemma OneReductionCrosses()
    ensures Legal(Initial(2, 0), FirstCycle(6))
    ensures var c := Exec(Initial(2, 0), FirstCycle(6)).counters; c.totalReleased == 1 && c.totalAcquired == 0
  {
    FirstCycleRuns(6);
  }
}
