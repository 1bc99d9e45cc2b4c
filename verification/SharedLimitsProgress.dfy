/** No interleaving of concurrent requests over shared limiters is a deadlock: every request can end. */
module SharedLimitsProgress {
  import opened Prelude
  import opened ServeLimited
  import opened SharedLimits
  import opened SharedLimitsTheorems
  import L = SlotLimiter
  import T = SlotLimiterTheorems

  /** How far a request is from its end. */
  function Rank(r: Request): nat {
    match r.stage
    case Waiting(k) => if k == r.route then 13 else 11
    case Counting(k) => if k == r.route then 12 else 10
    case Serving => 9
    case Reducing => 8
    case Drawing => 7
    case Parking => 6
    case Holding(_) => 5
    case Releasing => if 0 in r.slots && r.route != 0 then 4 else 3
    case Done => 0
  }

  function Remaining(requests: seq<Request>): nat {
    if requests == [] then 0 else Remaining(requests[..|requests| - 1]) + Rank(requests[|requests| - 1])
  }

  lemma {:induction false} RemainingAfter(requests: seq<Request>, i: nat, r: Request)
    requires i < |requests|
    ensures Remaining(requests[i := r]) == Remaining(requests) - Rank(requests[i]) + Rank(r)
  {
    var last := |requests| - 1;
    if i == last {
      assert requests[i := r][..last] == requests[..last];
    } else {
      assert requests[i := r][..last] == requests[..last][i := r];
      RemainingAfter(requests[..last], i, r);
    }
  }

  lemma MoveLowersRank(y: System, r: Request, move: Move, now: int)
    requires RequestOk(y.globalLimiter, |y.pools|, r) && Ready(r, move, now)
    requires MoveTouches(y, r, move).Some? ==> MoveTouches(y, r, move).value.pool < |y.pools|
    ensures Rank(Moved(y, r, move, now)) < Rank(r)
  {
  }

  predicate Stalled(r: Request) {
    r.stage.Waiting? || r.stage.Done?
  }

  lemma CanTrack(y: System, i: nat)
    requires Inv(y) && i < |y.requests| && y.requests[i].stage.Counting?
    ensures Enabled(y, Event(Go(i, Track), y.clock))
  {
    var r := y.requests[i];
    var k := r.stage.pool;
    assert Owns(y, i, k, r.slots[k]) && PoolAt(y, k, r.slots[k], Some(L.Taken));
  }

  lemma CanRelease(y: System, i: nat)
    requires Inv(y) && i < |y.requests| && y.requests[i].stage.Releasing?
    ensures Enabled(y, Event(Go(i, Release), y.clock))
  {
    var r := y.requests[i];
    ReturnKeepsRequest(y.globalLimiter, |y.pools|, r);
    var k := LastPool(r);
    assert Owns(y, i, k, r.slots[k]) && PoolAt(y, k, r.slots[k], Some(L.Held));
    NewTokensAreOut(y, k, r.slots[k]);
  }

  lemma CanDraw(y: System, i: nat, k: nat)
    requires Inv(y) && Draws(y, i, k)
    ensures Enabled(y, Event(Go(i, Draw), y.clock))
  {
    assert k < |y.pools| && Drawn(y, k);
  }

  lemma CanReduce(y: System, i: nat) returns (e: Event)
    requires Inv(y) && i < |y.requests| && y.requests[i].stage.Reducing?
    ensures Enabled(y, e) && e.act.Go?
  {
    var k := y.requests[i].route;
    if y.window > 0 && y.pools[k].headroom.locked {
      assert Drawn(y, k);
      var j: nat :| Draws(y, j, k);
      CanDraw(y, j, k);
      e := Event(Go(j, Draw), y.clock);
    } else {
      e := Event(Go(i, Reduce), y.clock);
    }
  }

  /** A step that touches no limiter needs only its stage. */
  lemma CanGo(y: System, i: nat, move: Move, now: int)
    requires i < |y.requests| && Ready(y.requests[i], move, now) && now >= y.clock
    requires move.Finish? || move.Park? || move.Fire?
    ensures Enabled(y, Event(Go(i, move), now))
  {
  }

  /** A request that does not wait for a token has a step, unless another one is inside AdaptiveReduce, which has. */
  lemma CanMove(y: System, i: nat) returns (e: Event)
    requires Inv(y) && i < |y.requests| && !Stalled(y.requests[i])
    ensures Enabled(y, e) && e.act.Go?
  {
    e := Event(Go(i, Finish), y.clock);
    match y.requests[i].stage {
      case Counting(_) =>
        CanTrack(y, i);
        e := Event(Go(i, Track), y.clock);
      case Serving => CanGo(y, i, Finish, y.clock);
      case Reducing => e := CanReduce(y, i);
      case Drawing =>
        CanDraw(y, i, y.requests[i].route);
        e := Event(Go(i, Draw), y.clock);
      case Parking =>
        CanGo(y, i, Park, y.clock);
        e := Event(Go(i, Park), y.clock);
      case Holding(due) =>
        CanGo(y, i, Fire, Max(y.clock, due));
        e := Event(Go(i, Fire), Max(y.clock, due));
      case Releasing =>
        CanRelease(y, i);
        e := Event(Go(i, Release), y.clock);
      case _ =>
    }
  }

  lemma {:induction false} LegalConcat(y: System, a: seq<Event>, b: seq<Event>)
    requires Legal(y, a) && Legal(Exec(y, a), b)
    ensures Legal(y, a + b) && Exec(y, a + b) == Exec(Exec(y, a), b)
  {
    if b == [] {
      assert a + b == a;
    } else {
      LegalConcat(y, a, b[..|b| - 1]);
      assert (a + b)[..|a + b| - 1] == a + b[..|b| - 1];
    }
  }

  lemma OneStep(y: System, e: Event)
    requires Enabled(y, e)
    ensures Legal(y, [e]) && Exec(y, [e]) == Next(y, e)
  {
    assert [e][..0] == [];
  }

  /** No request has a slot of the limiter, and none is inside its AdaptiveReduce. */
  ghost predicate Unowned(y: System, k: nat) {
    && k < |y.pools| && !y.pools[k].headroom.locked
    && forall i :: 0 <= i < |y.requests| ==> k !in y.requests[i].slots
  }

  function Distance(p: L.Phase): nat {
    match p
    case Cooling(_) => 3
    case Returning => 2
    case Sending => 1
    case _ => 0
  }

  /** The next step of a token on its way back. */
  function Homeward(s: L.State, id: nat, now: int): L.Event
    requires id in s.flights
  {
    match s.flights[id].phase
    case Cooling(released) => L.Event(L.Expire(id), Max(now, released + s.cooldown))
    case Returning => L.Event(L.Absorb(id), now)
    case _ => L.Event(L.Send(id), now)
  }

  lemma HomewardStep(s: L.State, id: nat, now: int)
    requires T.Inv(s) && id in s.flights && At(s, id).None? && !s.headroom.locked && s.clock <= now
    ensures var e := Homeward(s, id, now);
            && L.Enabled(s, e) && e.now >= now
            && !L.Next(s, e).headroom.locked
            && (id in L.Next(s, e).flights ==>
                  && L.Next(s, e).flights.Keys == s.flights.Keys
                  && Distance(L.Next(s, e).flights[id].phase) < Distance(s.flights[id].phase))
            && (id !in L.Next(s, e).flights ==> L.Next(s, e).flights.Keys == s.flights.Keys - {id})
  {
    T.PhaseAfterLanding(s.flights, id, L.Sending);
  }

  lemma InternalStep(y: System, k: nat, step: L.Step, now: int) returns (e: Event, z: System)
    requires Inv(y) && Unowned(y, k) && IsInternal(step) && now >= y.clock
    requires L.Enabled(y.pools[k], L.Event(step, now))
    ensures e == Event(Internal(k, step), now) && Enabled(y, e) && z == Next(y, e) && Inv(z)
    ensures z.requests == y.requests && Unowned(z, k)
    ensures z.pools[k] == L.Next(y.pools[k], L.Event(step, now)) && Legal(y, [e]) && Exec(y, [e]) == z
  {
    e := Event(Internal(k, step), now);
    z := Next(y, e);
    StepKeepsInv(y, e);
    LockedAfter(y.pools[k], L.Event(step, now));
    OneStep(y, e);
  }

  /** One token on its way back reaches the channel, or pays for a reduction. */
  lemma {:induction false} Land(y: System, k: nat, id: nat) returns (plan: seq<Event>)
    requires Inv(y) && Unowned(y, k) && id in y.pools[k].flights && At(y.pools[k], id).None?
    ensures Legal(y, plan) && Inv(Exec(y, plan)) && Unowned(Exec(y, plan), k)
    ensures Exec(y, plan).requests == y.requests
    ensures Exec(y, plan).pools[k].flights.Keys == y.pools[k].flights.Keys - {id}
    decreases Distance(y.pools[k].flights[id].phase)
  {
    var s := y.pools[k];
    HomewardStep(s, id, y.clock);
    var step := Homeward(s, id, y.clock);
    var e, z := InternalStep(y, k, step.step, step.now);
    plan := [e];
    if id in z.pools[k].flights {
      AtAfter(s, step, id);
      var rest := Land(z, k, id);
      LegalConcat(y, [e], rest);
      plan := [e] + rest;
    }
  }

  /** A limiter whose tokens nobody has comes to have one in its channel. */
  lemma {:induction false} FreeSlot(y: System, k: nat) returns (plan: seq<Event>)
    requires Inv(y) && Unowned(y, k)
    ensures Legal(y, plan) && Inv(Exec(y, plan)) && Unowned(Exec(y, plan), k)
    ensures Exec(y, plan).requests == y.requests && Exec(y, plan).pools[k].slots > 0
    decreases |y.pools[k].flights.Keys|
  {
    var s := y.pools[k];
    plan := [];
    if s.slots == 0 && s.flights.Keys != {} {
      var id :| id in s.flights.Keys;
      OwnedIsOut(y, k, id);
      plan := Land(y, k, id);
      var rest := FreeSlot(Exec(y, plan), k);
      LegalConcat(y, plan, rest);
      plan := plan + rest;
    } else if s.slots == 0 {
      assert s.flights == map[];
      var e, z := InternalStep(y, k, L.RestoreSend, y.clock);
      plan := [e];
    }
  }

  predicate AllDone(y: System) {
    forall i :: 0 <= i < |y.requests| ==> y.requests[i].stage.Done?
  }

  /** A request to serve next when all the others wait: one that already has its route's slot, if there is one. */
  lemma ChooseWaiter(y: System) returns (i: nat)
    requires Inv(y) && !AllDone(y) && forall j :: 0 <= j < |y.requests| ==> Stalled(y.requests[j])
    ensures i < |y.requests| && y.requests[i].stage.Waiting? && Unowned(y, y.requests[i].stage.pool)
  {
    if j: nat :| j < |y.requests| && y.requests[j].stage.Waiting? && y.requests[j].stage.pool != y.requests[j].route {
      i := j;
    } else {
      i :| 0 <= i < |y.requests| && !y.requests[i].stage.Done?;
      assert forall j :: 0 <= j < |y.requests| ==> y.requests[j].slots == map[];
    }
    var k := y.requests[i].stage.pool;
    assert forall j: nat :: !Draws(y, j, k);
  }

  lemma ServeWaiter(y: System) returns (plan: seq<Event>, e: Event)
    requires Inv(y) && !AllDone(y) && forall j :: 0 <= j < |y.requests| ==> Stalled(y.requests[j])
    ensures Legal(y, plan) && Inv(Exec(y, plan)) && Exec(y, plan).requests == y.requests
    ensures Enabled(Exec(y, plan), e) && e.act.Go?
  {
    var i := ChooseWaiter(y);
    var k := y.requests[i].stage.pool;
    if Granted(y.requests[i], k) {
      plan := FreeSlot(y, k);
      e := Event(Go(i, Take), Exec(y, plan).clock);
    } else {
      plan, e := [], Event(Go(i, GiveUp), y.clock);
    }
  }

  /** From every state some run brings a request one step nearer its end, and leaves the others where they are. */
  lemma Advance(y: System) returns (plan: seq<Event>)
    requires Inv(y) && !AllDone(y)
    ensures Legal(y, plan) && Inv(Exec(y, plan)) && |Exec(y, plan).requests| == |y.requests|
    ensures Remaining(Exec(y, plan).requests) < Remaining(y.requests)
  {
    var e;
    if i: nat :| i < |y.requests| && !Stalled(y.requests[i]) {
      plan := [];
      e := CanMove(y, i);
    } else {
      plan, e := ServeWaiter(y);
    }
    var x := Exec(y, plan);
    StepKeepsInv(x, e);
    GoLowersRemaining(x, e);
    OneStep(x, e);
    LegalConcat(y, plan, [e]);
    plan := plan + [e];
  }

  lemma GoLowersRemaining(y: System, e: Event)
    requires Inv(y) && Enabled(y, e) && e.act.Go?
    ensures |Next(y, e).requests| == |y.requests| && Remaining(Next(y, e).requests) < Remaining(y.requests)
  {
    var r := y.requests[e.act.who];
    MoveLowersRank(y, r, e.act.move, e.now);
    RemainingAfter(y.requests, e.act.who, Moved(y, r, e.act.move, e.now));
  }

  lemma {:induction false} AllCanEndFrom(y: System) returns (plan: seq<Event>)
    requires Inv(y)
    ensures Legal(y, plan) && Inv(Exec(y, plan)) && |Exec(y, plan).requests| == |y.requests| && AllDone(Exec(y, plan))
    decreases Remaining(y.requests)
  {
    if AllDone(y) {
      plan := [];
    } else {
      plan := Advance(y);
      var rest := AllCanEndFrom(Exec(y, plan));
      LegalConcat(y, plan, rest);
      plan := plan + rest;
    }
  }

  /** No interleaving of requests, timers and reductions is a deadlock: from every state of every run, the requests
      begun so far can all end, and then every limiter is unowned. */
  lemma EveryRequestCanEnd(g: bool, window: int, limits: seq<Limit>, trace: seq<Event>) returns (plan: seq<Event>)
    requires Usable(limits) && Legal(Start(g, window, limits), trace)
    ensures var y := Exec(Start(g, window, limits), trace);
            && Legal(y, plan)
            && |Exec(y, plan).requests| == |y.requests| && AllDone(Exec(y, plan))
            && forall k :: 0 <= k < |Exec(y, plan).pools| ==> |Owners(Exec(y, plan), k)| == 0
  {
    RunKeepsInv(g, window, limits, trace);
    var y := Exec(Start(g, window, limits), trace);
    plan := AllCanEndFrom(y);
    var z := Exec(y, plan);
    forall k | 0 <= k < |z.pools|
      ensures |Owners(z, k)| == 0
    {
      assert Owners(z, k) == {};
    }
  }
}
