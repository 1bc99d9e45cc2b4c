/** Any number of requests in serveLimited of internal/proxy/limited.go at once, over the limiters they share.

    A request waits for its route's limiter, then for the global one if there is one, runs its handler, and gives the
    slots back, at once or when one timer fires. Every step is one step of one limiter, or of none. Pool 0 is the
    global limiter when there is one; any other pool serves routes.
  */
module SharedLimits {
  import opened Prelude
  import opened ServeLimited
  import L = SlotLimiter

  datatype Stage =
    | Waiting(pool: nat)   // blocked in Acquire of that limiter
    | Counting(pool: nat)  // has received its token, the limiter's counters follow
    | Serving              // the handler runs
    | Reducing             // the slot-release defer is about to call AdaptiveReduce
    | Drawing              // AdaptiveReduce is between its bookkeeping and its receive
    | Parking              // the defer is about to choose how the slots are held
    | Holding(due: int)    // a timer over releaseSlots is pending
    | Releasing            // releaseSlots runs
    | Done

  /** slots names, by pool, the acquisitions whose release closure has not been called. */
  datatype Request = Request(route: nat, plan: Plan, slots: map<nat, nat>, stage: Stage, books: Books)

  datatype System = System(globalLimiter: bool, window: int, pools: seq<L.State>, requests: seq<Request>, clock: int)

  datatype Move = Take | Track | GiveUp | Finish | Reduce | Draw | Park | Fire | Release

  datatype Act =
    | Begin(route: nat, plan: Plan)     // admitted by the breaker and the queue bound
    | Go(who: nat, move: Move)
    | Internal(pool: nat, step: L.Step) // a limiter's own goroutine

  datatype Event = Event(act: Act, now: int)

  datatype Limit = Limit(limit: nat, cooldown: nat)

  function Start(globalLimiter: bool, window: int, limits: seq<Limit>): System {
    var pools := seq(|limits|, k requires 0 <= k < |limits| => L.Initial(limits[k].limit, limits[k].cooldown));
    System(globalLimiter, window, pools, [], 0)
  }

  predicate IsRoute(y: System, k: nat) {
    k < |y.pools| && (y.globalLimiter ==> k != 0)
  }

  // ----- One request -----

  function Admitted(route: nat, plan: Plan): Request {
    Request(route, plan, map[], Waiting(route), Books(1, 0, 0, 0, 0, 0, 0))
  }

  predicate Granted(r: Request, k: nat) {
    if k == r.route then r.plan.routeGranted else r.plan.globalGranted
  }

  /** releaseSlots gives the global slot back first. */
  function LastPool(r: Request): nat {
    if 0 in r.slots then 0 else r.route
  }

  function SlotIn(r: Request, k: nat): nat {
    if k in r.slots then r.slots[k] else 0
  }

  predicate Ready(r: Request, move: Move, now: int) {
    match move
    case Take => r.stage.Waiting? && Granted(r, r.stage.pool)
    case Track => r.stage.Counting?
    case GiveUp => r.stage.Waiting? && !Granted(r, r.stage.pool)
    case Finish => r.stage.Serving?
    case Reduce => r.stage.Reducing?
    case Draw => r.stage.Drawing?
    case Park => r.stage.Parking?
    case Fire => r.stage.Holding? && now >= r.stage.due
    case Release => r.stage.Releasing?
  }

  /** A step on a limiter. */
  datatype Touch = Touch(pool: nat, step: L.Step)

  function MoveTouches(y: System, r: Request, move: Move): Option<Touch> {
    match move
    case Take => if r.stage.Waiting? then Some(Touch(r.stage.pool, L.Take)) else None
    case Track => if r.stage.Counting? then Some(Touch(r.stage.pool, L.Track(SlotIn(r, r.stage.pool)))) else None
    case Reduce => Some(Touch(r.route, L.Reduce(y.window)))
    case Draw => Some(Touch(r.route, L.ReduceTake))
    case Release => Some(Touch(LastPool(r), L.Release(SlotIn(r, LastPool(r)))))
    case _ => None
  }

  function TookToken(r: Request, k: nat, id: nat): Request {
    r.(slots := r.slots[k := id], stage := Counting(k),
       books := if k == r.route then r.books.(routeTaken := r.books.routeTaken + 1)
                else r.books.(globalTaken := r.books.globalTaken + 1))
  }

  function Counted(y: System, r: Request, k: nat): Request {
    if k == r.route && y.globalLimiter then r.(stage := Waiting(0))
    else r.(stage := Serving, books := r.books.(active := r.books.active + 1, queued := r.books.queued - 1))
  }

  function GaveUp(r: Request): Request {
    r.(stage := if r.slots == map[] then Done else Releasing, books := r.books.(queued := r.books.queued - 1))
  }

  function Parked(r: Request, now: int): Request {
    match r.plan.lease
    case None => r.(stage := Releasing)
    case Some(timer) => r.(stage := Holding(now + timer.delay))
  }

  function Returned(r: Request, k: nat): Request {
    r.(slots := r.slots - {k}, stage := if k == r.route then Done else Releasing,
       books := if k == r.route then r.books.(routeBack := r.books.routeBack + 1)
                else r.books.(globalBack := r.books.globalBack + 1))
  }

  function Moved(y: System, r: Request, move: Move, now: int): Request
    requires Ready(r, move, now)
    requires MoveTouches(y, r, move).Some? ==> MoveTouches(y, r, move).value.pool < |y.pools|
  {
    match move
    case Take => TookToken(r, r.stage.pool, y.pools[r.stage.pool].nextFlight)
    case Track => Counted(y, r, r.stage.pool)
    case GiveUp => GaveUp(r)
    case Finish =>
      r.(stage := if r.plan.reduces then Reducing else Parking, books := r.books.(active := r.books.active - 1))
    case Reduce =>
      var pending := y.window > 0 && L.Reduced(y.pools[r.route].headroom, y.pools[r.route].limit, y.window, now).locked;
      r.(stage := if pending then Drawing else Parking, books := r.books.(reductions := r.books.reductions + 1))
    case Draw => r.(stage := Parking)
    case Park => Parked(r, now)
    case Fire => r.(stage := Releasing)
    case Release => Returned(r, LastPool(r))
  }

  // ----- The system -----

  /** The steps of a limiter that no request performs itself: timers, and what follows a release. */
  predicate IsInternal(step: L.Step) {
    step.Expire? || step.Absorb? || step.Send? || step.CountRelease? || step.FireRestore? || step.Restore?
    || step.RestoreSend?
  }

  function Touches(y: System, act: Act): Option<Touch> {
    match act
    case Begin(_, _) => None
    case Go(i, move) => if i < |y.requests| then MoveTouches(y, y.requests[i], move) else None
    case Internal(k, step) => Some(Touch(k, step))
  }

  predicate TouchEnabled(y: System, touch: Option<Touch>, now: int) {
    match touch
    case None => true
    case Some(t) => t.pool < |y.pools| && L.Enabled(y.pools[t.pool], L.Event(t.step, now))
  }

  predicate ActEnabled(y: System, act: Act, now: int) {
    match act
    case Begin(route, _) => IsRoute(y, route)
    case Go(i, move) => i < |y.requests| && Ready(y.requests[i], move, now)
    case Internal(_, step) => IsInternal(step)
  }

  predicate Enabled(y: System, e: Event) {
    e.now >= y.clock && ActEnabled(y, e.act, e.now) && TouchEnabled(y, Touches(y, e.act), e.now)
  }

  function PoolsAfter(y: System, touch: Option<Touch>, now: int): seq<L.State>
    requires TouchEnabled(y, touch, now)
  {
    match touch
    case None => y.pools
    case Some(t) => y.pools[t.pool := L.Next(y.pools[t.pool], L.Event(t.step, now))]
  }

  function RequestsAfter(y: System, e: Event): seq<Request>
    requires Enabled(y, e)
  {
    match e.act
    case Begin(route, plan) => y.requests + [Admitted(route, plan)]
    case Go(i, move) => y.requests[i := Moved(y, y.requests[i], move, e.now)]
    case Internal(_, _) => y.requests
  }

  function Next(y: System, e: Event): System
    requires Enabled(y, e)
  {
    y.(pools := PoolsAfter(y, Touches(y, e.act), e.now), requests := RequestsAfter(y, e), clock := e.now)
  }

  ghost predicate Legal(y: System, trace: seq<Event>)
    decreases |trace|, 0
  {
    trace == [] || (Legal(y, trace[..|trace| - 1]) && Enabled(Exec(y, trace[..|trace| - 1]), trace[|trace| - 1]))
  }

  ghost function Exec(y: System, trace: seq<Event>): System
    requires Legal(y, trace)
    decreases |trace|, 1
  {
    if trace == [] then y else Next(Exec(y, trace[..|trace| - 1]), trace[|trace| - 1])
  }

  /** What a run does to one limiter. */
  ghost function Seen(y: System, trace: seq<Event>, k: nat): seq<L.Event>
    requires Legal(y, trace)
  {
    if trace == [] then []
    else
      var before, e := trace[..|trace| - 1], trace[|trace| - 1];
      match Touches(Exec(y, before), e.act)
      case None => Seen(y, before, k)
      case Some(t) => Seen(y, before, k) + if t.pool == k then [L.Event(t.step, e.now)] else []
  }
}
