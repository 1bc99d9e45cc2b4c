/** What the limiters promise to any number of concurrent requests. */
module SharedLimitsTheorems {
  import opened Prelude
  import opened ServeLimited
  import opened SharedLimits
  import L = SlotLimiter
  import T = SlotLimiterTheorems

  // ----- One request -----

  function Both(g: bool, r: Request): set<nat> {
    if g then {r.route, 0} else {r.route}
  }

  /** Which slots a request has in each stage. */
  predicate StageOk(g: bool, r: Request) {
    match r.stage
    case Waiting(k) =>
      if k == r.route then r.slots == map[] else g && k == 0 && r.plan.routeGranted && r.slots.Keys == {r.route}
    case Counting(k) =>
      && r.plan.routeGranted
      && if k == r.route then r.slots.Keys == {r.route}
         else g && k == 0 && r.plan.globalGranted && r.slots.Keys == {r.route, 0}
    case Releasing =>
      && r.plan.routeGranted && r.route in r.slots && r.slots.Keys <= Both(g, r)
      && (r.slots.Keys == Both(g, r) ==> Runs(g, r.plan))
    case Done => r.slots == map[]
    case _ =>
      && r.slots.Keys == Both(g, r) && Runs(g, r.plan)
      && (r.stage.Reducing? || r.stage.Drawing? ==> r.plan.reduces)
      && (r.stage.Holding? ==> r.plan.lease.Some?)
  }

  /** The books a request has kept when it reaches a stage with some slots. */
  function Ledger(g: bool, r: Request): Books {
    var ends := r.stage.Releasing? || r.stage.Done?;
    var reduced := ends || r.stage.Drawing? || r.stage.Parking? || r.stage.Holding?;
    var back := g && 0 !in r.slots && ends && Runs(g, r.plan);
    Books(
      if r.stage.Waiting? || r.stage.Counting? then 1 else 0,
      if r.stage.Serving? then 1 else 0,
      if r.route in r.slots || (r.stage.Done? && r.plan.routeGranted) then 1 else 0,
      if r.stage.Done? && r.plan.routeGranted then 1 else 0,
      if back || (g && 0 in r.slots) then 1 else 0,
      if back then 1 else 0,
      if reduced && r.plan.reduces && Runs(g, r.plan) then 1 else 0)
  }

  predicate RequestOk(g: bool, pools: nat, r: Request) {
    && r.route < pools && (g ==> r.route != 0)
    && StageOk(g, r)
    && r.books == Ledger(g, r)
  }

  lemma TakeKeepsRequest(g: bool, pools: nat, r: Request, id: nat)
    requires RequestOk(g, pools, r) && r.stage.Waiting? && Granted(r, r.stage.pool)
    ensures RequestOk(g, pools, TookToken(r, r.stage.pool, id)) && r.stage.pool !in r.slots && r.stage.pool < pools
  {
  }

  lemma ReturnKeepsRequest(g: bool, pools: nat, r: Request)
    requires RequestOk(g, pools, r) && r.stage.Releasing?
    ensures RequestOk(g, pools, Returned(r, LastPool(r))) && LastPool(r) in r.slots && LastPool(r) < pools
  {
    assert (r.slots - {LastPool(r)}).Keys == r.slots.Keys - {LastPool(r)};
    if LastPool(r) == r.route {
      assert r.slots.Keys == {r.route};
    }
  }

  lemma MoveKeepsRequest(y: System, r: Request, move: Move, now: int)
    requires RequestOk(y.globalLimiter, |y.pools|, r) && Ready(r, move, now)
    requires MoveTouches(y, r, move).Some? ==> MoveTouches(y, r, move).value.pool < |y.pools|
    ensures RequestOk(y.globalLimiter, |y.pools|, Moved(y, r, move, now))
  {
    match move {
      case Take => TakeKeepsRequest(y.globalLimiter, |y.pools|, r, y.pools[r.stage.pool].nextFlight);
      case Release => ReturnKeepsRequest(y.globalLimiter, |y.pools|, r);
      case _ =>
    }
  }

  // ----- Which request owns which token -----

  /** Whether an acquisition is still its caller's: its token received, and its release closure not called. */
  function At(s: L.State, id: nat): Option<L.Phase> {
    if L.In(s, id, L.Taken) || L.In(s, id, L.Held) then Some(s.flights[id].phase) else None
  }

  lemma AtAfter(s: L.State, e: L.Event, id: nat)
    requires L.Enabled(s, e)
    ensures At(L.Next(s, e), id) ==
            match e.step
            case Take => if id == s.nextFlight then Some(L.Taken) else At(s, id)
            case Track(j) => if id == j then Some(L.Held) else At(s, id)
            case Release(j) => if id == j then None else At(s, id)
            case _ => At(s, id)
  {
  }

  predicate Owns(y: System, i: nat, k: nat, id: nat) {
    i < |y.requests| && k in y.requests[i].slots && y.requests[i].slots[k] == id
  }

  ghost predicate Owned(y: System, k: nat, id: nat) {
    exists i: nat :: Owns(y, i, k, id)
  }

  function PhaseOf(r: Request, k: nat): L.Phase {
    if r.stage == Counting(k) then L.Taken else L.Held
  }

  predicate PoolAt(y: System, k: nat, id: nat, phase: Option<L.Phase>) {
    k < |y.pools| && At(y.pools[k], id) == phase
  }

  /** Every slot a request has is its acquisition in the limiter, no two requests have the same, and every acquisition
      that has not been given back is the slot of some request. */
  ghost predicate Ownership(y: System) {
    && (forall i: nat, k: nat, id: nat :: Owns(y, i, k, id) ==> PoolAt(y, k, id, Some(PhaseOf(y.requests[i], k))))
    && (forall i: nat, j: nat, k: nat, id: nat :: Owns(y, i, k, id) && Owns(y, j, k, id) ==> i == j)
    && (forall k: nat, id: nat :: k < |y.pools| && At(y.pools[k], id).Some? ==> Owned(y, k, id))
  }

  /** The limiters, each with the invariant of its own runs. */
  ghost predicate PoolsOk(y: System) {
    forall k :: 0 <= k < |y.pools| ==> T.Inv(y.pools[k]) && y.pools[k].clock <= y.clock
  }

  lemma StepKeepsPools(y: System, e: Event)
    requires PoolsOk(y) && Enabled(y, e)
    ensures PoolsOk(Next(y, e)) && |Next(y, e).pools| == |y.pools|
  {
    var touch := Touches(y, e.act);
    if touch.Some? {
      T.StepKeepsInv(y.pools[touch.value.pool], L.Event(touch.value.step, e.now));
    }
  }

  /** A step after which every slot and every acquisition is where it was. */
  lemma SameOwners(y: System, z: System)
    requires Ownership(y) && |z.pools| == |y.pools| && |z.requests| >= |y.requests|
    requires forall k, id: nat :: 0 <= k < |y.pools| ==> At(z.pools[k], id) == At(y.pools[k], id)
    requires forall i :: 0 <= i < |y.requests| ==>
               z.requests[i].slots == y.requests[i].slots
               && forall k :: k in y.requests[i].slots ==> PhaseOf(z.requests[i], k) == PhaseOf(y.requests[i], k)
    requires forall i :: |y.requests| <= i < |z.requests| ==> z.requests[i].slots == map[]
    ensures Ownership(z)
  {
    assert forall i: nat, k: nat, id: nat :: Owns(z, i, k, id) <==> Owns(y, i, k, id);
    forall k: nat, id: nat | k < |z.pools| && At(z.pools[k], id).Some?
      ensures Owned(z, k, id)
    {
      assert Owned(y, k, id);
      var i: nat :| Owns(y, i, k, id);
      assert Owns(z, i, k, id);
    }
  }

  /** Request i moves on pool p only, from one acquisition state to another. */
  ghost predicate MovesOn(y: System, z: System, i: nat, p: nat) {
    && p < |y.pools| == |z.pools| && i < |y.requests| == |z.requests|
    && z.requests == y.requests[i := z.requests[i]]
    && (forall k :: 0 <= k < |y.pools| && k != p ==> z.pools[k] == y.pools[k])
    && (forall k :: k in y.requests[i].slots && k != p ==>
          PhaseOf(z.requests[i], k) == PhaseOf(y.requests[i], k))
  }

  lemma TakeKeepsOwnership(y: System, z: System, i: nat, p: nat, token: nat)
    requires Ownership(y) && MovesOn(y, z, i, p)
    requires p !in y.requests[i].slots && At(y.pools[p], token).None?
    requires z.requests[i].slots == y.requests[i].slots[p := token] && PhaseOf(z.requests[i], p) == L.Taken
    requires forall id: nat :: At(z.pools[p], id) == if id == token then Some(L.Taken) else At(y.pools[p], id)
    ensures Ownership(z)
  {
    assert forall j: nat, k: nat, id: nat ::
        Owns(z, j, k, id) <==> Owns(y, j, k, id) || (j == i && k == p && id == token);
    forall k: nat, id: nat | k < |z.pools| && At(z.pools[k], id).Some?
      ensures Owned(z, k, id)
    {
      if k == p && id == token {
        assert Owns(z, i, k, id);
      } else {
        assert Owned(y, k, id);
        var j: nat :| Owns(y, j, k, id);
        assert Owns(z, j, k, id);
      }
    }
  }

  lemma TrackKeepsOwnership(y: System, z: System, i: nat, p: nat)
    requires Ownership(y) && MovesOn(y, z, i, p)
    requires p in y.requests[i].slots && z.requests[i].slots == y.requests[i].slots
    requires PhaseOf(z.requests[i], p) == L.Held
    requires var tracked := y.requests[i].slots[p];
             forall id: nat :: At(z.pools[p], id) == if id == tracked then Some(L.Held) else At(y.pools[p], id)
    ensures Ownership(z)
  {
    assert Owns(y, i, p, y.requests[i].slots[p]);
    assert forall j: nat, k: nat, id: nat :: Owns(z, j, k, id) <==> Owns(y, j, k, id);
    forall k: nat, id: nat | k < |z.pools| && At(z.pools[k], id).Some?
      ensures Owned(z, k, id)
    {
      assert Owned(y, k, id);
      var j: nat :| Owns(y, j, k, id);
      assert Owns(z, j, k, id);
    }
  }

  lemma ReturnKeepsOwnership(y: System, z: System, i: nat, p: nat)
    requires Ownership(y) && MovesOn(y, z, i, p)
    requires p in y.requests[i].slots && z.requests[i].slots == y.requests[i].slots - {p}
    requires var given := y.requests[i].slots[p];
             forall id: nat :: At(z.pools[p], id) == if id == given then None else At(y.pools[p], id)
    ensures Ownership(z)
  {
    var given := y.requests[i].slots[p];
    assert Owns(y, i, p, given);
    assert forall j: nat, k: nat, id: nat :: Owns(z, j, k, id) <==> Owns(y, j, k, id) && !(j == i && k == p);
    forall k: nat, id: nat | k < |z.pools| && At(z.pools[k], id).Some?
      ensures Owned(z, k, id)
    {
      assert Owned(y, k, id);
      var j: nat :| Owns(y, j, k, id);
      assert Owns(z, j, k, id);
    }
  }

  // ----- Who is inside AdaptiveReduce -----

  predicate Draws(y: System, i: nat, k: nat) {
    i < |y.requests| && y.requests[i].stage.Drawing? && y.requests[i].route == k
  }

  ghost predicate Drawn(y: System, k: nat) {
    exists i: nat :: Draws(y, i, k)
  }

  /** A limiter is locked by AdaptiveReduce exactly while one request is there. */
  ghost predicate LocksOk(y: System) {
    && (forall k: nat :: k < |y.pools| ==> (y.pools[k].headroom.locked <==> Drawn(y, k)))
    && (forall i: nat, j: nat, k: nat :: Draws(y, i, k) && Draws(y, j, k) ==> i == j)
  }

  lemma LockedAfter(s: L.State, e: L.Event)
    requires L.Enabled(s, e)
    ensures L.Next(s, e).headroom.locked ==
            match e.step
            case Reduce(window) => L.Reduced(s.headroom, s.limit, window, e.now).locked
            case ReduceTake => false
            case _ => s.headroom.locked
  {
  }

  ghost predicate Inv(y: System) {
    && |y.pools| >= 1
    && PoolsOk(y)
    && (forall i :: 0 <= i < |y.requests| ==> RequestOk(y.globalLimiter, |y.pools|, y.requests[i]))
    && Ownership(y)
    && LocksOk(y)
  }

  lemma StepKeepsRequests(y: System, e: Event)
    requires Inv(y) && Enabled(y, e)
    ensures var z := Next(y, e);
            forall i :: 0 <= i < |z.requests| ==> RequestOk(z.globalLimiter, |z.pools|, z.requests[i])
  {
    if e.act.Go? {
      MoveKeepsRequest(y, y.requests[e.act.who], e.act.move, e.now);
    }
  }

  /** Every other acquisition of the touched limiter is where it was. */
  lemma StepMovesTokens(y: System, e: Event, k: nat, id: nat)
    requires Enabled(y, e) && k < |y.pools|
    ensures var touch := Touches(y, e.act);
            At(Next(y, e).pools[k], id) ==
            if touch.None? || touch.value.pool != k then At(y.pools[k], id)
            else match touch.value.step
                 case Take => if id == y.pools[k].nextFlight then Some(L.Taken) else At(y.pools[k], id)
                 case Track(j) => if id == j then Some(L.Held) else At(y.pools[k], id)
                 case Release(j) => if id == j then None else At(y.pools[k], id)
                 case _ => At(y.pools[k], id)
  {
    var touch := Touches(y, e.act);
    if touch.Some? && touch.value.pool == k {
      AtAfter(y.pools[k], L.Event(touch.value.step, e.now), id);
    }
  }

  lemma TakeStepKeepsOwnership(y: System, e: Event)
    requires Ownership(y) && PoolsOk(y) && Enabled(y, e) && e.act.Go? && e.act.move.Take?
    requires RequestOk(y.globalLimiter, |y.pools|, y.requests[e.act.who])
    ensures Ownership(Next(y, e))
  {
    var i := e.act.who;
    var r := y.requests[i];
    var p := r.stage.pool;
    TakeKeepsRequest(y.globalLimiter, |y.pools|, r, y.pools[p].nextFlight);
    forall id: nat {
      StepMovesTokens(y, e, p, id);
    }
    TakeKeepsOwnership(y, Next(y, e), i, p, y.pools[p].nextFlight);
  }

  lemma TrackStepKeepsOwnership(y: System, e: Event)
    requires Ownership(y) && Enabled(y, e) && e.act.Go? && e.act.move.Track?
    requires RequestOk(y.globalLimiter, |y.pools|, y.requests[e.act.who])
    ensures Ownership(Next(y, e))
  {
    var i := e.act.who;
    var p := y.requests[i].stage.pool;
    forall id: nat {
      StepMovesTokens(y, e, p, id);
    }
    TrackKeepsOwnership(y, Next(y, e), i, p);
  }

  lemma ReturnStepKeepsOwnership(y: System, e: Event)
    requires Ownership(y) && Enabled(y, e) && e.act.Go? && e.act.move.Release?
    requires RequestOk(y.globalLimiter, |y.pools|, y.requests[e.act.who])
    ensures Ownership(Next(y, e))
  {
    var i := e.act.who;
    var p := LastPool(y.requests[i]);
    ReturnKeepsRequest(y.globalLimiter, |y.pools|, y.requests[i]);
    forall id: nat {
      StepMovesTokens(y, e, p, id);
    }
    ReturnKeepsOwnership(y, Next(y, e), i, p);
  }

  predicate ChangesOwner(act: Act) {
    act.Go? && (act.move.Take? || act.move.Track? || act.move.Release?)
  }

  lemma OtherMovesKeepSlots(y: System, e: Event)
    requires Enabled(y, e) && !ChangesOwner(e.act)
    ensures |Next(y, e).pools| == |y.pools| && |Next(y, e).requests| >= |y.requests|
    ensures forall i :: 0 <= i < |y.requests| ==>
              Next(y, e).requests[i].slots == y.requests[i].slots
              && forall k :: PhaseOf(Next(y, e).requests[i], k) == PhaseOf(y.requests[i], k)
    ensures forall i :: |y.requests| <= i < |Next(y, e).requests| ==> Next(y, e).requests[i].slots == map[]
  {
  }

  lemma OtherStepKeepsOwnership(y: System, e: Event)
    requires Ownership(y) && Enabled(y, e) && !ChangesOwner(e.act)
    ensures Ownership(Next(y, e))
  {
    OtherMovesKeepSlots(y, e);
    forall k: nat, id: nat | k < |y.pools| {
      StepMovesTokens(y, e, k, id);
    }
    SameOwners(y, Next(y, e));
  }

  lemma StepKeepsOwnership(y: System, e: Event)
    requires Inv(y) && Enabled(y, e)
    ensures Ownership(Next(y, e))
  {
    if !ChangesOwner(e.act) {
      OtherStepKeepsOwnership(y, e);
    } else if e.act.move.Take? {
      TakeStepKeepsOwnership(y, e);
    } else if e.act.move.Track? {
      TrackStepKeepsOwnership(y, e);
    } else {
      ReturnStepKeepsOwnership(y, e);
    }
  }

  /** A step does one step to the limiter it touches, and nothing to another. */
  lemma StepTouches(y: System, e: Event, k: nat)
    requires Enabled(y, e) && k < |y.pools|
    ensures |Next(y, e).pools| == |y.pools|
    ensures var touch := Touches(y, e.act);
            if touch.Some? && touch.value.pool == k then
              && L.Enabled(y.pools[k], L.Event(touch.value.step, e.now))
              && Next(y, e).pools[k] == L.Next(y.pools[k], L.Event(touch.value.step, e.now))
            else Next(y, e).pools[k] == y.pools[k]
  {
  }

  // ----- The lock -----

  lemma StepMovesLocks(y: System, e: Event, k: nat)
    requires Enabled(y, e) && k < |y.pools|
    ensures var touch := Touches(y, e.act);
            Next(y, e).pools[k].headroom.locked ==
            if touch.None? || touch.value.pool != k then y.pools[k].headroom.locked
            else match touch.value.step
                 case Reduce(window) =>
                   L.Reduced(y.pools[k].headroom, y.pools[k].limit, window, e.now).locked
                 case ReduceTake => false
                 case _ => y.pools[k].headroom.locked
  {
    var touch := Touches(y, e.act);
    if touch.Some? && touch.value.pool == k {
      LockedAfter(y.pools[k], L.Event(touch.value.step, e.now));
    }
  }

  /** A step that neither takes nor frees a lock. */
  lemma SameLocks(y: System, z: System)
    requires LocksOk(y) && |z.pools| == |y.pools|
    requires forall k :: 0 <= k < |y.pools| ==> z.pools[k].headroom.locked == y.pools[k].headroom.locked
    requires forall i: nat, k: nat :: Draws(z, i, k) <==> Draws(y, i, k)
    ensures LocksOk(z)
  {
    forall k: nat | k < |z.pools|
      ensures z.pools[k].headroom.locked <==> Drawn(z, k)
    {
      if Drawn(y, k) {
        var i: nat :| Draws(y, i, k);
        assert Draws(z, i, k);
      }
    }
  }

  lemma ReduceStepKeepsLocks(y: System, e: Event)
    requires Inv(y) && Enabled(y, e) && e.act.Go? && e.act.move.Reduce?
    ensures LocksOk(Next(y, e))
  {
    var z, i := Next(y, e), e.act.who;
    var p := y.requests[i].route;
    forall k: nat | k < |y.pools| {
      StepMovesLocks(y, e, k);
    }
    if z.requests[i].stage.Drawing? {
      assert !y.pools[p].headroom.locked && z.pools[p].headroom.locked;
      assert forall j: nat, k: nat :: Draws(z, j, k) <==> Draws(y, j, k) || (j == i && k == p);
      forall k: nat | k < |z.pools|
        ensures z.pools[k].headroom.locked <==> Drawn(z, k)
      {
        if k == p {
          assert Draws(z, i, k);
        } else if Drawn(y, k) {
          var j: nat :| Draws(y, j, k);
          assert Draws(z, j, k);
        }
      }
      assert !Drawn(y, p);
    } else {
      assert z.pools[p].headroom.locked == y.pools[p].headroom.locked;
      SameLocks(y, z);
    }
  }

  lemma DrawStepKeepsLocks(y: System, e: Event)
    requires Inv(y) && Enabled(y, e) && e.act.Go? && e.act.move.Draw?
    ensures LocksOk(Next(y, e))
  {
    var z, i := Next(y, e), e.act.who;
    var p := y.requests[i].route;
    assert Draws(y, i, p);
    forall k: nat | k < |y.pools| {
      StepMovesLocks(y, e, k);
    }
    assert forall j: nat, k: nat :: Draws(z, j, k) <==> Draws(y, j, k) && j != i;
    forall k: nat | k < |z.pools|
      ensures z.pools[k].headroom.locked <==> Drawn(z, k)
    {
      if k != p && Drawn(y, k) {
        var j: nat :| Draws(y, j, k);
        assert Draws(z, j, k);
      }
    }
  }

  predicate ChangesLock(act: Act) {
    act.Go? && (act.move.Reduce? || act.move.Draw?)
  }

  lemma OtherMovesKeepDrawers(y: System, e: Event, i: nat, k: nat)
    requires Enabled(y, e) && !ChangesLock(e.act)
    ensures Draws(Next(y, e), i, k) <==> Draws(y, i, k)
  {
  }

  lemma OtherStepKeepsLocks(y: System, e: Event)
    requires LocksOk(y) && Enabled(y, e) && !ChangesLock(e.act)
    ensures LocksOk(Next(y, e))
  {
    assert |Next(y, e).pools| == |y.pools|;
    forall k: nat | k < |y.pools|
      ensures Next(y, e).pools[k].headroom.locked == y.pools[k].headroom.locked
    {
      StepMovesLocks(y, e, k);
    }
    forall i: nat, k: nat
      ensures Draws(Next(y, e), i, k) <==> Draws(y, i, k)
    {
      OtherMovesKeepDrawers(y, e, i, k);
    }
    SameLocks(y, Next(y, e));
  }

  lemma StepKeepsLocks(y: System, e: Event)
    requires Inv(y) && Enabled(y, e)
    ensures LocksOk(Next(y, e))
  {
    if !ChangesLock(e.act) {
      OtherStepKeepsLocks(y, e);
    } else if e.act.move.Reduce? {
      ReduceStepKeepsLocks(y, e);
    } else {
      DrawStepKeepsLocks(y, e);
    }
  }

  lemma StepKeepsInv(y: System, e: Event)
    requires Inv(y) && Enabled(y, e)
    ensures Inv(Next(y, e))
  {
    StepKeepsPools(y, e);
    StepKeepsRequests(y, e);
    StepKeepsOwnership(y, e);
    StepKeepsLocks(y, e);
  }

  // ----- Runs -----

  /** What NewLimiterWithCooldown demands of every limiter; there is always one. */
  predicate Usable(limits: seq<Limit>) {
    |limits| >= 1 && forall k :: 0 <= k < |limits| ==> limits[k].limit >= 1
  }

  lemma StartOk(g: bool, window: int, limits: seq<Limit>)
    requires Usable(limits)
    ensures Inv(Start(g, window, limits))
  {
    forall k | 0 <= k < |limits|
      ensures T.Inv(L.Initial(limits[k].limit, limits[k].cooldown))
    {
      T.RunKeepsInv(limits[k].limit, limits[k].cooldown, []);
    }
  }

  /** The limits a system was started with. */
  predicate HasLimits(y: System, g: bool, window: int, limits: seq<Limit>) {
    && y.globalLimiter == g && y.window == window && |y.pools| == |limits|
    && (forall k :: 0 <= k < |limits| ==> Limit(y.pools[k].limit, y.pools[k].cooldown) == limits[k])
  }

  lemma LastStep(y: System, trace: seq<Event>) returns (x: System, e: Event)
    requires trace != [] && Legal(y, trace)
    ensures Legal(y, trace[..|trace| - 1]) && x == Exec(y, trace[..|trace| - 1]) && e == trace[|trace| - 1]
    ensures Enabled(x, e) && Exec(y, trace) == Next(x, e)
  {
    x, e := Exec(y, trace[..|trace| - 1]), trace[|trace| - 1];
  }

  lemma StepKeepsLimits(y: System, e: Event, g: bool, window: int, limits: seq<Limit>)
    requires Enabled(y, e) && HasLimits(y, g, window, limits)
    ensures HasLimits(Next(y, e), g, window, limits)
  {
  }

  lemma {:induction false} RunKeepsInv(g: bool, window: int, limits: seq<Limit>, trace: seq<Event>)
    requires Usable(limits) && Legal(Start(g, window, limits), trace)
    ensures var y := Exec(Start(g, window, limits), trace); Inv(y) && HasLimits(y, g, window, limits)
  {
    if trace == [] {
      StartOk(g, window, limits);
    } else {
      var x, e := LastStep(Start(g, window, limits), trace);
      RunKeepsInv(g, window, limits, trace[..|trace| - 1]);
      StepKeepsInv(x, e);
      StepKeepsLimits(x, e, g, window, limits);
    }
  }

  lemma SeenLast(y: System, trace: seq<Event>, k: nat)
    requires trace != [] && Legal(y, trace)
    ensures var before, e := trace[..|trace| - 1], trace[|trace| - 1];
            var touch := Touches(Exec(y, before), e.act);
            Seen(y, trace, k) ==
            if touch.Some? && touch.value.pool == k then Seen(y, before, k) + [L.Event(touch.value.step, e.now)]
            else Seen(y, before, k)
  {
  }

  /** Each limiter sees a run of its own model, so every theorem about its runs holds of the shared limiters. */
  lemma {:induction false} SeenIsARun(y: System, trace: seq<Event>, k: nat)
    requires Legal(y, trace) && k < |y.pools|
    ensures L.Legal(y.pools[k], Seen(y, trace, k)) && |Exec(y, trace).pools| == |y.pools|
    ensures L.Exec(y.pools[k], Seen(y, trace, k)) == Exec(y, trace).pools[k]
  {
    if trace != [] {
      var before := trace[..|trace| - 1];
      var x, e := LastStep(y, trace);
      SeenIsARun(y, before, k);
      SeenLast(y, trace, k);
      StepTouches(x, e, k);
      var touch := Touches(x, e.act);
      if touch.Some? && touch.value.pool == k {
        T.LegalExtends(y.pools[k], Seen(y, before, k), L.Event(touch.value.step, e.now));
      }
    }
  }

  // ----- The limit holds for all requests together -----

  /** The requests that have a counted slot of the limiter. */
  function Owners(y: System, k: nat): set<nat> {
    set i: nat | i < |y.requests| && k in y.requests[i].slots && y.requests[i].stage != Counting(k)
  }

  /** Those whose handler runs. */
  function Inside(y: System, k: nat): set<nat> {
    set i: nat | i < |y.requests| && k in y.requests[i].slots && y.requests[i].stage.Serving?
  }

  /** Those whose handler has ended and whose slots a timer holds. */
  function Parked(y: System, k: nat): set<nat> {
    set i: nat | i < |y.requests| && k in y.requests[i].slots && y.requests[i].stage.Holding?
  }

  ghost predicate Injective(m: map<nat, nat>) {
    forall i, j :: i in m && j in m && m[i] == m[j] ==> i == j
  }

  lemma {:induction false} InjectiveSize(m: map<nat, nat>)
    requires Injective(m)
    ensures |m.Keys| == |m.Values|
    decreases |m.Keys|
  {
    if m.Keys == {} {
      assert m.Values == {};
    } else {
      var i :| i in m.Keys;
      var rest := m - {i};
      assert rest.Keys == m.Keys - {i};
      forall id | id in m.Values - {m[i]}
        ensures id in rest.Values
      {
        var j :| j in m && m[j] == id;
        assert j in rest;
      }
      assert rest.Values == m.Values - {m[i]};
      InjectiveSize(rest);
    }
  }

  /** The counted acquisitions of a limiter and the requests that have them are one to one. */
  lemma OwnersAreHolders(y: System, k: nat)
    requires Ownership(y) && k < |y.pools|
    ensures |Owners(y, k)| == |T.InPhase(y.pools[k].flights, L.Held)|
  {
    var m := map i | i in Owners(y, k) :: y.requests[i].slots[k];
    forall i, j | i in m && j in m && m[i] == m[j]
      ensures i == j
    {
      assert Owns(y, i, k, m[i]) && Owns(y, j, k, m[j]);
    }
    forall i | i in m
      ensures m[i] in T.InPhase(y.pools[k].flights, L.Held)
    {
      assert Owns(y, i, k, m[i]) && PoolAt(y, k, m[i], Some(PhaseOf(y.requests[i], k)));
    }
    forall id | id in T.InPhase(y.pools[k].flights, L.Held)
      ensures id in m.Values
    {
      assert At(y.pools[k], id) == Some(L.Held) && Owned(y, k, id);
      var i: nat :| Owns(y, i, k, id);
      assert PoolAt(y, k, id, Some(PhaseOf(y.requests[i], k)));
      assert i in m && m[i] == id;
    }
    assert m.Keys == Owners(y, k) && m.Values == T.InPhase(y.pools[k].flights, L.Held);
    InjectiveSize(m);
  }

  lemma SubsetSize(a: set<nat>, b: set<nat>)
    requires a <= b
    ensures |a| <= |b|
  {
    assert b == a + (b - a);
  }

  /** However many requests run at once, those inside a handler and those whose slots a timer holds never outnumber
      the limit, less the slot a reduction has withdrawn; and the limiter's own count is the requests that have a slot
      of it. */
  lemma SharedLimitHolds(g: bool, window: int, limits: seq<Limit>, trace: seq<Event>, k: nat)
    requires Usable(limits) && Legal(Start(g, window, limits), trace) && k < |limits|
    ensures var y := Exec(Start(g, window, limits), trace);
            && |Inside(y, k)| + |Parked(y, k)| <= |Owners(y, k)|
            && |y.pools| == |limits|
            && |Owners(y, k)| == y.pools[k].counters.active <= limits[k].limit - T.Removed(y.pools[k].headroom)
  {
    RunKeepsInv(g, window, limits, trace);
    SeenIsARun(Start(g, window, limits), trace, k);
    T.TokensConserved(limits[k].limit, limits[k].cooldown, Seen(Start(g, window, limits), trace, k));
    var y := Exec(Start(g, window, limits), trace);
    OwnersAreHolders(y, k);
    assert Inside(y, k) !! Parked(y, k);
    SubsetSize(Inside(y, k) + Parked(y, k), Owners(y, k));
  }

  /** Every handler that runs has a slot of its route's limiter, and of the global one. */
  lemma HandlersHaveSlots(g: bool, window: int, limits: seq<Limit>, trace: seq<Event>, i: nat)
    requires Usable(limits) && Legal(Start(g, window, limits), trace)
    requires i < |Exec(Start(g, window, limits), trace).requests|
    ensures var y := Exec(Start(g, window, limits), trace);
            y.requests[i].stage.Serving? || y.requests[i].stage.Holding? ==>
              y.requests[i].slots.Keys == Both(g, y.requests[i])
  {
    RunKeepsInv(g, window, limits, trace);
  }

  /** Requests receive slots of one limiter at the rate its cooldown allows, whatever they do with them. */
  lemma RequestsAreThrottled(g: bool, window: int, limits: seq<Limit>, trace: seq<Event>, k: nat, a: int, b: int)
    requires Usable(limits) && Legal(Start(g, window, limits), trace) && k < |limits|
    requires limits[k].cooldown > 0 && a <= b
    ensures T.Acquisitions(Seen(Start(g, window, limits), trace, k), a, b) <=
              limits[k].limit * ((b - a) / limits[k].cooldown + 1)
  {
    SeenIsARun(Start(g, window, limits), trace, k);
    T.ThroughputBound(limits[k].limit, limits[k].cooldown, Seen(Start(g, window, limits), trace, k), a, b);
  }

  // ----- Every slot goes back once -----

  /** Calls of the release closure of one acquisition. */
  function ReleaseCalls(trace: seq<L.Event>, id: nat): nat {
    if trace == [] then 0
    else ReleaseCalls(trace[..|trace| - 1], id) + if trace[|trace| - 1].step == L.Release(id) then 1 else 0
  }

  lemma ReleaseCallsExtend(trace: seq<L.Event>, e: L.Event, id: nat)
    ensures ReleaseCalls(trace + [e], id) == ReleaseCalls(trace, id) + if e.step == L.Release(id) then 1 else 0
  {
    assert (trace + [e])[..|trace|] == trace;
  }

  /** A request calls the release closure only of an acquisition that is still out. */
  lemma ReleasesAreReal(y: System, e: Event)
    requires Ownership(y) && Enabled(y, e) && Touches(y, e.act).Some? && Touches(y, e.act).value.step.Release?
    requires forall i :: 0 <= i < |y.requests| ==> RequestOk(y.globalLimiter, |y.pools|, y.requests[i])
    ensures var t := Touches(y, e.act).value; At(y.pools[t.pool], t.step.id).Some?
  {
    var r := y.requests[e.act.who];
    ReturnKeepsRequest(y.globalLimiter, |y.pools|, r);
    assert Owns(y, e.act.who, LastPool(r), SlotIn(r, LastPool(r)));
  }

  lemma NewTokensAreOut(y: System, k: nat, id: nat)
    requires Inv(y) && k < |y.pools| && At(y.pools[k], id).Some?
    ensures id < y.pools[k].nextFlight
  {
    assert T.CountersOk(y.pools[k]);
  }

  /** The release closure of an acquisition has been called exactly once if no request has its slot any more, and never
      before. */
  lemma {:induction false} SlotsReturnOnce(g: bool, window: int, limits: seq<Limit>, trace: seq<Event>, k: nat,
                                           id: nat)
    requires Usable(limits) && Legal(Start(g, window, limits), trace) && k < |limits|
    ensures var y := Exec(Start(g, window, limits), trace);
            && |y.pools| == |limits|
            && (At(y.pools[k], id).Some? <==> Owned(y, k, id))
            && ReleaseCalls(Seen(Start(g, window, limits), trace, k), id) ==
               if id < y.pools[k].nextFlight && !Owned(y, k, id) then 1 else 0
  {
    RunKeepsInv(g, window, limits, trace);
    OwnedIsOut(Exec(Start(g, window, limits), trace), k, id);
    if trace != [] {
      var before := trace[..|trace| - 1];
      var x, e := LastStep(Start(g, window, limits), trace);
      SlotsReturnOnce(g, window, limits, before, k, id);
      RunKeepsInv(g, window, limits, before);
      StepCountsReleases(x, e, k, id);
      SeenLast(Start(g, window, limits), trace, k);
      var touch := Touches(x, e.act);
      if touch.Some? && touch.value.pool == k {
        ReleaseCallsExtend(Seen(Start(g, window, limits), before, k), L.Event(touch.value.step, e.now), id);
      }
    }
  }

  lemma OwnedIsOut(y: System, k: nat, id: nat)
    requires Ownership(y) && k < |y.pools|
    ensures At(y.pools[k], id).Some? <==> Owned(y, k, id)
  {
    if Owned(y, k, id) {
      var i: nat :| Owns(y, i, k, id);
      assert PoolAt(y, k, id, Some(PhaseOf(y.requests[i], k)));
    }
  }

  function Gone(s: L.State, id: nat): nat {
    if id < s.nextFlight && At(s, id).None? then 1 else 0
  }

  lemma StepCountsReleases(y: System, e: Event, k: nat, id: nat)
    requires Inv(y) && Enabled(y, e) && k < |y.pools|
    ensures var touch := Touches(y, e.act);
            Gone(Next(y, e).pools[k], id) ==
            Gone(y.pools[k], id) + if touch == Some(Touch(k, L.Release(id))) then 1 else 0
  {
    StepMovesTokens(y, e, k, id);
    var touch := Touches(y, e.act);
    if touch.Some? && touch.value.pool == k {
      if touch.value.step.Release? {
        ReleasesAreReal(y, e);
        NewTokensAreOut(y, k, touch.value.step.id);
      } else if touch.value.step.Track? {
        assert L.In(y.pools[k], touch.value.step.id, L.Taken);
      }
    }
  }

  /** A request ends with the books Serve computes for it, and a request whose slots a timer holds lacks only what the
      timer will do. */
  lemma EndsAsServed(g: bool, window: int, limits: seq<Limit>, trace: seq<Event>, i: nat)
    requires Usable(limits) && Legal(Start(g, window, limits), trace)
    requires i < |Exec(Start(g, window, limits), trace).requests|
    ensures var r := Exec(Start(g, window, limits), trace).requests[i];
            && (r.stage.Done? ==> r.slots == map[] && Settled(r.books) && r.books == FinalBooks(g, r.plan))
            && (r.stage.Holding? ==>
                  && r.plan.lease.Some? && Balanced(r.books, r.plan.lease)
                  && GiveBack(r.books) == FinalBooks(g, r.plan))
  {
    RunKeepsInv(g, window, limits, trace);
  }

  // ----- A held slot stays out -----

  /** Until due the request's slots stay with its timer. */
  predicate HoldsUntil(y: System, i: nat, slots: map<nat, nat>, due: int) {
    && i < |y.requests|
    && (y.clock < due ==> y.requests[i].stage == Holding(due) && y.requests[i].slots == slots)
  }

  lemma StepHoldsUntil(y: System, e: Event, i: nat, slots: map<nat, nat>, due: int)
    requires Enabled(y, e) && HoldsUntil(y, i, slots, due)
    ensures HoldsUntil(Next(y, e), i, slots, due)
  {
  }

  /** The acquisition is still out, or its cooldown after due has passed. */
  predicate OutUntil(s: L.State, id: nat, due: int) {
    || (id in s.flights && match s.flights[id].phase
                           case Taken => true
                           case Held => true
                           case Cooling(released) => released >= due
                           case _ => false)
    || s.clock >= due + s.cooldown
  }

  lemma PoolStepOutUntil(s: L.State, e: L.Event, id: nat, due: int)
    requires T.Inv(s) && L.Enabled(s, e) && OutUntil(s, id, due) && id < s.nextFlight
    requires e.step == L.Release(id) ==> e.now >= due
    ensures OutUntil(L.Next(s, e), id, due) && id < L.Next(s, e).nextFlight
  {
  }

  /** While a timer holds the slot nobody calls its release closure. */
  lemma HeldIsNotReleased(y: System, e: Event, i: nat, slots: map<nat, nat>, due: int, k: nat)
    requires Inv(y) && Enabled(y, e) && HoldsUntil(y, i, slots, due) && k in slots
    requires Touches(y, e.act) == Some(Touch(k, L.Release(slots[k])))
    ensures e.now >= due
  {
    if e.now < due {
      var j := e.act.who;
      ReturnKeepsRequest(y.globalLimiter, |y.pools|, y.requests[j]);
      assert Owns(y, i, k, slots[k]) && Owns(y, j, k, slots[k]);
    }
  }

  lemma StepOutUntil(y: System, e: Event, i: nat, slots: map<nat, nat>, due: int, k: nat)
    requires Inv(y) && Enabled(y, e) && HoldsUntil(y, i, slots, due) && k in slots && k < |y.pools|
    requires OutUntil(y.pools[k], slots[k], due) && slots[k] < y.pools[k].nextFlight
    ensures OutUntil(Next(y, e).pools[k], slots[k], due) && slots[k] < Next(y, e).pools[k].nextFlight
  {
    StepTouches(y, e, k);
    var touch := Touches(y, e.act);
    if touch.Some? && touch.value.pool == k {
      if touch.value.step == L.Release(slots[k]) {
        HeldIsNotReleased(y, e, i, slots, due, k);
      }
      PoolStepOutUntil(y.pools[k], L.Event(touch.value.step, e.now), slots[k], due);
    }
  }

  lemma {:induction false} HeldFrom(y: System, later: seq<Event>, i: nat, slots: map<nat, nat>, due: int, k: nat)
    requires Inv(y) && HoldsUntil(y, i, slots, due) && k in slots && k < |y.pools|
    requires OutUntil(y.pools[k], slots[k], due) && slots[k] < y.pools[k].nextFlight
    requires Legal(y, later)
    ensures var z := Exec(y, later);
            && Inv(z) && HoldsUntil(z, i, slots, due) && |z.pools| == |y.pools|
            && OutUntil(z.pools[k], slots[k], due) && slots[k] < z.pools[k].nextFlight
  {
    if later != [] {
      var x, e := LastStep(y, later);
      HeldFrom(y, later[..|later| - 1], i, slots, due, k);
      StepKeepsInv(x, e);
      StepTouches(x, e, k);
      StepHoldsUntil(x, e, i, slots, due);
      StepOutUntil(x, e, i, slots, due, k);
    }
  }

  lemma ParkHolds(y: System, i: nat, now: int, k: nat)
    requires Inv(y) && Enabled(y, Event(Go(i, Park), now))
    requires y.requests[i].plan.lease.Some? && k in y.requests[i].slots
    ensures var r, z := y.requests[i], Next(y, Event(Go(i, Park), now));
            && HoldsUntil(z, i, r.slots, now + r.plan.lease.value.delay) && |z.pools| == |y.pools| && k < |z.pools|
            && r.slots[k] < z.pools[k].nextFlight
            && OutUntil(z.pools[k], r.slots[k], now + r.plan.lease.value.delay)
  {
    var r, z := y.requests[i], Next(y, Event(Go(i, Park), now));
    assert z.pools == y.pools;
    assert Owns(y, i, k, r.slots[k]) && PoolAt(y, k, r.slots[k], Some(PhaseOf(r, k)));
    NewTokensAreOut(y, k, r.slots[k]);
  }

  /** A request that the defer parks at now keeps all its slots for the whole lease, whatever the other requests do,
      and none of their tokens can be received again before one more cooldown has passed. */
  lemma LeaseIsServed(g: bool, window: int, limits: seq<Limit>, trace: seq<Event>, i: nat, now: int, later: seq<Event>,
                      k: nat)
    requires Usable(limits) && Legal(Start(g, window, limits), trace)
    requires Enabled(Exec(Start(g, window, limits), trace), Event(Go(i, Park), now))
    requires var r := Exec(Start(g, window, limits), trace).requests[i]; r.plan.lease.Some? && k in r.slots
    requires Legal(Next(Exec(Start(g, window, limits), trace), Event(Go(i, Park), now)), later)
    ensures var r := Exec(Start(g, window, limits), trace).requests[i];
            var z := Exec(Next(Exec(Start(g, window, limits), trace), Event(Go(i, Park), now)), later);
            var due := now + r.plan.lease.value.delay;
            && HoldsUntil(z, i, r.slots, due)
            && k < |z.pools| == |limits| && OutUntil(z.pools[k], r.slots[k], due)
  {
    RunKeepsInv(g, window, limits, trace);
    var y, e := Exec(Start(g, window, limits), trace), Event(Go(i, Park), now);
    StepKeepsInv(y, e);
    ParkHolds(y, i, now, k);
    HeldFrom(Next(y, e), later, i, y.requests[i].slots, now + y.requests[i].plan.lease.value.delay, k);
  }
}
