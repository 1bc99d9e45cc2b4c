/** The concurrency limiter of internal/queue/queue.go.

    The protocol state below holds the limiter's own fields and, beside them, the
    position of every goroutine that is between two atomic operations: a receive or
    send on the slots channel, a section under adaptiveMu, a timer callback, or an
    atomic counter update. A run interleaves those operations freely.
  */
module SlotLimiter {
  import opened Prelude

  const MAX_ADAPTIVE_SLOTS: int := 1

  /** Where the token of one acquisition is. */
  datatype Phase =
    | Taken                   // received from the channel, not yet counted
    | Held                    // owned by the caller until its release closure runs
    | Cooling(released: int)  // parked until the post-release timer fires
    | Returning               // about to enter absorbNextRelease
    | Sending                 // about to send on the channel

  datatype Flight = Flight(since: int, phase: Phase)

  /** A scheduled call of restoreAdaptiveSlot(epoch) that has not fired. */
  datatype Timer = Timer(epoch: nat, due: int)

  /** The fields under adaptiveMu, with the restore callbacks that refer to them. */
  datatype Headroom = Headroom(
    withheld: int,
    absorbNext: bool,
    timerEpoch: nat,
    adaptiveTimer: Option<Timer>,
    fired: multiset<nat>,           // restore callbacks running but not yet under the lock
    locked: bool                    // AdaptiveReduce is between its bookkeeping and its receive
  )

  datatype Counters = Counters(
    active: int,
    totalAcquired: int,
    totalReleased: int,
    uncounted: nat,                 // tokens sent whose totalReleased update is pending
    drawn: nat                      // idle tokens ever withdrawn by AdaptiveReduce
  )

  datatype State = State(
    limit: nat,
    cooldown: nat,
    slots: nat,                     // tokens in the channel
    flights: map<nat, Flight>,
    nextFlight: nat,
    restoring: nat,                 // restore callbacks past the unlock, about to send
    headroom: Headroom,
    counters: Counters,
    clock: int
  )

  datatype Step =
    | Take
    | Track(id: nat)
    | Release(id: nat)
    | Expire(id: nat)
    | Absorb(id: nat)
    | Send(id: nat)
    | CountRelease
    | Reduce(window: int)
    | ReduceTake
    | FireRestore
    | Restore(epoch: nat)
    | RestoreSend

  datatype Event = Event(step: Step, now: int)

  function Initial(limit: nat, cooldown: nat): State {
    State(limit, cooldown, limit, map[], 0, 0, Headroom(0, false, 0, None, multiset{}, false),
          Counters(0, 0, 0, 0, 0), 0)
  }

  predicate In(s: State, id: nat, p: Phase) {
    id in s.flights && s.flights[id].phase == p
  }

  predicate Enabled(s: State, e: Event) {
    e.now >= s.clock &&
    match e.step
    case Take => s.slots > 0
    case Track(id) => In(s, id, Taken)
    case Release(id) => id < s.nextFlight && !In(s, id, Taken)
    case Expire(id) =>
      id in s.flights && s.flights[id].phase.Cooling? && e.now >= s.flights[id].phase.released + s.cooldown
    case Absorb(id) => In(s, id, Returning) && !s.headroom.locked
    case Send(id) => In(s, id, Sending) && s.slots < s.limit
    case CountRelease => s.counters.uncounted > 0
    case Reduce(window) => window <= 0 || !s.headroom.locked
    case ReduceTake => s.headroom.locked
    case FireRestore => s.headroom.adaptiveTimer.Some? && e.now >= s.headroom.adaptiveTimer.value.due
    case Restore(epoch) => epoch in s.headroom.fired && !s.headroom.locked
    case RestoreSend => s.restoring > 0 && s.slots < s.limit
  }

  function TakeStep(s: State, now: int): State
    requires s.slots > 0
  {
    s.(slots := s.slots - 1, flights := s.flights[s.nextFlight := Flight(now, Taken)], nextFlight := s.nextFlight + 1)
  }

  function Moved(s: State, id: nat, p: Phase): map<nat, Flight>
    requires id in s.flights
  {
    s.flights[id := s.flights[id].(phase := p)]
  }

  function TrackStep(s: State, id: nat): State
    requires id in s.flights
  {
    s.(flights := Moved(s, id, Held),
       counters := s.counters.(active := s.counters.active + 1, totalAcquired := s.counters.totalAcquired + 1))
  }

  /** The release closure: its sync.Once makes every call after the first a no-op. */
  function ReleaseStep(s: State, id: nat, now: int): State {
    if !In(s, id, Held) then s
    else
      s.(flights := Moved(s, id, if s.cooldown > 0 then Cooling(now) else Returning),
         counters := s.counters.(active := s.counters.active - 1))
  }

  function AbsorbStep(s: State, id: nat): State
    requires id in s.flights
  {
    if s.headroom.absorbNext then s.(flights := s.flights - {id}, headroom := s.headroom.(absorbNext := false))
    else s.(flights := Moved(s, id, Sending))
  }

  function SendStep(s: State, id: nat): State {
    s.(flights := s.flights - {id}, slots := s.slots + 1,
       counters := s.counters.(uncounted := s.counters.uncounted + 1))
  }

  function CountReleaseStep(s: State): State
    requires s.counters.uncounted > 0
  {
    s.(counters := s.counters.(uncounted := s.counters.uncounted - 1, totalReleased := s.counters.totalReleased + 1))
  }

  /** The part of AdaptiveReduce before its non-blocking receive. */
  function Reduced(h: Headroom, limit: nat, window: int, now: int): Headroom {
    if window <= 0 then h
    else if h.withheld >= MAX_ADAPTIVE_SLOTS then
      h.(timerEpoch := h.timerEpoch + 1, adaptiveTimer := Some(Timer(h.timerEpoch + 1, now + window)))
    else if limit - h.withheld <= 1 then h
    else
      h.(withheld := h.withheld + 1, absorbNext := true, timerEpoch := h.timerEpoch + 1,
         adaptiveTimer := Some(Timer(h.timerEpoch + 1, now + window)), locked := true)
  }

  function ReduceTakeStep(s: State): State {
    if s.slots > 0 then
      s.(slots := s.slots - 1, headroom := s.headroom.(absorbNext := false, locked := false),
         counters := s.counters.(drawn := s.counters.drawn + 1))
    else
      s.(headroom := s.headroom.(locked := false))
  }

  function Fired(h: Headroom): Headroom
    requires h.adaptiveTimer.Some?
  {
    h.(fired := h.fired + multiset{h.adaptiveTimer.value.epoch}, adaptiveTimer := None)
  }

  /** restoreAdaptiveSlot under its lock. */
  function Restored(h: Headroom, epoch: nat): Headroom {
    var g := h.(fired := h.fired - multiset{epoch});
    if epoch != h.timerEpoch then g
    else if h.withheld <= 0 then g.(absorbNext := false)
    else g.(withheld := h.withheld - 1, absorbNext := false)
  }

  /** Whether restoreAdaptiveSlot goes on to send a token. */
  predicate RestoreSends(h: Headroom, epoch: nat) {
    epoch == h.timerEpoch && h.withheld > 0 && !h.absorbNext
  }

  function RestoreStep(s: State, epoch: nat): State {
    s.(headroom := Restored(s.headroom, epoch),
       restoring := s.restoring + if RestoreSends(s.headroom, epoch) then 1 else 0)
  }

  function RestoreSendStep(s: State): State
    requires s.restoring > 0
  {
    s.(restoring := s.restoring - 1, slots := s.slots + 1,
       counters := s.counters.(uncounted := s.counters.uncounted + 1))
  }

  function Effect(s: State, e: Event): State
    requires Enabled(s, e)
  {
    match e.step
    case Take => TakeStep(s, e.now)
    case Track(id) => TrackStep(s, id)
    case Release(id) => ReleaseStep(s, id, e.now)
    case Expire(id) => s.(flights := Moved(s, id, Returning))
    case Absorb(id) => AbsorbStep(s, id)
    case Send(id) => SendStep(s, id)
    case CountRelease => CountReleaseStep(s)
    case Reduce(window) => s.(headroom := Reduced(s.headroom, s.limit, window, e.now))
    case ReduceTake => ReduceTakeStep(s)
    case FireRestore => s.(headroom := Fired(s.headroom))
    case Restore(epoch) => RestoreStep(s, epoch)
    case RestoreSend => RestoreSendStep(s)
  }

  function Next(s: State, e: Event): State
    requires Enabled(s, e)
  {
    Effect(s, e).(clock := e.now)
  }

  /** The run from s that performs the events of trace, if every one of them can happen in turn. */
  ghost predicate Legal(s: State, trace: seq<Event>)
    decreases |trace|, 0
  {
    trace == [] || (Legal(s, trace[..|trace| - 1]) && Enabled(Exec(s, trace[..|trace| - 1]), trace[|trace| - 1]))
  }

  ghost function Exec(s: State, trace: seq<Event>): State
    requires Legal(s, trace)
    decreases |trace|, 1
  {
    if trace == [] then s else Next(Exec(s, trace[..|trace| - 1]), trace[|trace| - 1])
  }

  // ----- The limiter as an object: one method for each atomic operation -----

  class Limiter {
    const limit: nat
    const cooldown: nat
    var slots: nat
    var active: int
    var totalAcquired: int
    var totalReleased: int
    var withheld: int
    var absorbNext: bool
    var timerEpoch: nat
    var adaptiveTimer: Option<Timer>
    var locked: bool
    var flights: map<nat, Flight>
    var nextFlight: nat
    var restoring: nat
    var uncounted: nat
    var fired: multiset<nat>
    ghost var drawn: nat
    ghost var clock: int

    ghost function View(): State
      reads this
    {
      State(limit, cooldown, slots, flights, nextFlight, restoring,
            Headroom(withheld, absorbNext, timerEpoch, adaptiveTimer, fired, locked),
            Counters(active, totalAcquired, totalReleased, uncounted, drawn), clock)
    }

    /** NewLimiterWithCooldown past its two panics: one token sent per unit of the limit. */
    constructor (limit: nat, cooldown: nat)
      requires limit >= 1
      ensures View() == Initial(limit, cooldown)
    {
      this.limit, this.cooldown := limit, cooldown;
      active, totalAcquired, totalReleased := 0, 0, 0;
      withheld, absorbNext, timerEpoch, adaptiveTimer := 0, false, 0, None;
      locked, flights, nextFlight, restoring, uncounted, fired := false, map[], 0, 0, 0, multiset{};
      drawn, clock := 0, 0;
      slots := 0;
      new;
      while slots < limit
        invariant slots <= limit
        invariant View() == Initial(limit, cooldown).(slots := slots)
      {
        slots := slots + 1;
      }
    }

    /** The receive on either path of Acquire; the id names this acquisition's release closure. */
    method TakeSlot(now: int) returns (id: nat)
      requires Enabled(View(), Event(Take, now))
      modifies this
      ensures View() == Next(old(View()), Event(Take, now))
      ensures id == old(nextFlight) && In(View(), id, Taken)
    {
      slots := slots - 1;
      id := nextFlight;
      flights := flights[id := Flight(now, Taken)];
      nextFlight := nextFlight + 1;
      clock := now;
    }

    method TrackAcquired(id: nat, now: int)
      requires Enabled(View(), Event(Track(id), now))
      modifies this
      ensures View() == Next(old(View()), Event(Track(id), now))
    {
      totalAcquired := totalAcquired + 1;
      active := active + 1;
      flights := flights[id := flights[id].(phase := Held)];
      clock := now;
    }

    method CallRelease(id: nat, now: int)
      requires Enabled(View(), Event(Release(id), now))
      modifies this
      ensures View() == Next(old(View()), Event(Release(id), now))
    {
      clock := now;
      if id in flights && flights[id].phase == Held {
        active := active - 1;
        if cooldown > 0 {
          flights := flights[id := flights[id].(phase := Cooling(now))];
        } else {
          flights := flights[id := flights[id].(phase := Returning)];
        }
      }
    }

    method CooldownElapsed(id: nat, now: int)
      requires Enabled(View(), Event(Expire(id), now))
      modifies this
      ensures View() == Next(old(View()), Event(Expire(id), now))
    {
      flights := flights[id := flights[id].(phase := Returning)];
      clock := now;
    }

    method AbsorbNextRelease(id: nat, now: int) returns (absorbed: bool)
      requires Enabled(View(), Event(Absorb(id), now))
      modifies this
      ensures View() == Next(old(View()), Event(Absorb(id), now))
      ensures absorbed == old(absorbNext) && !absorbNext
    {
      clock := now;
      if !absorbNext {
        flights := flights[id := flights[id].(phase := Sending)];
        return false;
      }
      absorbNext := false;
      flights := flights - {id};
      return true;
    }

    method SendToken(id: nat, now: int)
      requires Enabled(View(), Event(Send(id), now))
      modifies this
      ensures View() == Next(old(View()), Event(Send(id), now))
    {
      slots := slots + 1;
      flights := flights - {id};
      uncounted := uncounted + 1;
      clock := now;
    }

    method CountReleased(now: int)
      requires Enabled(View(), Event(CountRelease, now))
      modifies this
      ensures View() == Next(old(View()), Event(CountRelease, now))
    {
      uncounted := uncounted - 1;
      totalReleased := totalReleased + 1;
      clock := now;
    }

    /** AdaptiveReduce up to its receive; pending says that the receive follows, still under the lock. */
    method AdaptiveReduce(window: int, now: int) returns (reduced: bool, pending: bool)
      requires Enabled(View(), Event(Reduce(window), now))
      modifies this
      ensures View() == Next(old(View()), Event(Reduce(window), now))
      ensures reduced <==> window > 0 && (old(withheld) >= MAX_ADAPTIVE_SLOTS || limit - old(withheld) > 1)
      ensures pending ==> locked
    {
      clock := now;
      if window <= 0 {
        return false, false;
      }
      if withheld >= MAX_ADAPTIVE_SLOTS {
        timerEpoch := timerEpoch + 1;
        adaptiveTimer := Some(Timer(timerEpoch, now + window));
        return true, false;
      }
      if limit - withheld <= 1 {
        return false, false;
      }
      withheld := withheld + 1;
      absorbNext := true;
      timerEpoch := timerEpoch + 1;
      adaptiveTimer := Some(Timer(timerEpoch, now + window));
      locked := true;
      return true, true;
    }

    method AdaptiveReduceTake(now: int)
      requires Enabled(View(), Event(ReduceTake, now))
      modifies this
      ensures View() == Next(old(View()), Event(ReduceTake, now))
    {
      if slots > 0 {
        slots := slots - 1;
        drawn := drawn + 1;
        absorbNext := false;
      }
      locked := false;
      clock := now;
    }

    method RestoreTimerFires(now: int)
      requires Enabled(View(), Event(FireRestore, now))
      modifies this
      ensures View() == Next(old(View()), Event(FireRestore, now))
    {
      fired := fired + multiset{adaptiveTimer.value.epoch};
      adaptiveTimer := None;
      clock := now;
    }

    /** restoreAdaptiveSlot between its Lock and Unlock. */
    method RestoreLocked(epoch: nat) returns (send: bool)
      modifies `withheld, `absorbNext, `fired
      ensures View().headroom == Restored(old(View()).headroom, epoch)
      ensures send == RestoreSends(old(View()).headroom, epoch)
    {
      fired := fired - multiset{epoch};
      if epoch != timerEpoch {
        return false;
      }
      if withheld <= 0 {
        absorbNext := false;
        return false;
      }
      withheld := withheld - 1;
      if absorbNext {
        absorbNext := false;
        return false;
      }
      return true;
    }

    method RestoreAdaptiveSlot(epoch: nat, now: int) returns (send: bool)
      requires Enabled(View(), Event(Restore(epoch), now))
      modifies this
      ensures View() == Next(old(View()), Event(Restore(epoch), now))
      ensures send ==> restoring > 0
    {
      send := RestoreLocked(epoch);
      if send {
        restoring := restoring + 1;
      }
      clock := now;
    }

    method SendRestored(now: int)
      requires Enabled(View(), Event(RestoreSend, now))
      modifies this
      ensures View() == Next(old(View()), Event(RestoreSend, now))
    {
      slots := slots + 1;
      restoring := restoring - 1;
      uncounted := uncounted + 1;
      clock := now;
    }
  }
}
