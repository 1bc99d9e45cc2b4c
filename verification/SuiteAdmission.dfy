/** The catalog suite's admission pool and body hand-off: internal/router/suiteadmission.go and the part of
    internal/router/suite.go that takes, hands over and gives back a slot.

    A step is one channel operation, taking or leaving a body's mutex, one Close, or one sync.Once. A Read or WriteTo
    is two steps, since Close takes no mutex.
  */
module SuiteAdmission {
  import opened Prelude

  const BUFFER_BUDGET: int := 64 * 1024 * 1024

  type Byte = b: int | 0 <= b < 256

  lemma LargestCount(budget: int, limit: int)
    requires budget >= 0 && limit >= 1
    ensures (Max(1, budget / limit) + 1) * limit > budget
  {
    QuotientBounds(budget, limit);
    Distribute(limit, budget / limit);
  }

  /** NewCatalogSuiteAdmission: how many bodies of at most limit bytes may be buffered at once. */
  function PoolSize(limit: int): (slots: nat)
    ensures slots >= 1
    ensures limit >= 1 ==> slots * limit <= Max(64 * 1024 * 1024, limit)
    ensures (slots + 1) * Max(1, limit) > 64 * 1024 * 1024
  {
    QuotientBounds(BUFFER_BUDGET, Max(1, limit));
    LargestCount(BUFFER_BUDGET, Max(1, limit));
    Max(1, BUFFER_BUDGET / Max(1, limit))
  }

  // ----- One body -----

  /** A catalogHandoffBody: primary says that it has an onDrain, busy that a Read or WriteTo is past its closed check
      and holds the mutex, and delivered is everything its readers were given. */
  datatype Body = Body(data: seq<Byte>, primary: bool, offset: nat, closed: bool, busy: bool, delivered: seq<Byte>) {
    predicate Valid() {
      offset <= |data|
    }

    predicate Spent() {
      offset == |data|
    }
  }

  function NewBody(data: seq<Byte>, primary: bool): Body {
    Body(data, primary, 0, false, false, [])
  }

  function Entered(b: Body): Body {
    if b.closed then b else b.(busy := true)
  }

  /** Read into a buffer of n bytes, or WriteTo with a destination that takes n bytes of the remainder. */
  function Advanced(b: Body, n: nat): Body
    requires b.Valid()
  {
    var k := Min(n, |b.data| - b.offset);
    b.(busy := false, offset := b.offset + k, delivered := b.delivered + b.data[b.offset..b.offset + k])
  }

  class HandoffBody {
    const data: seq<Byte>
    const primary: bool
    var offset: nat
    var closed: bool
    var busy: bool
    ghost var delivered: seq<Byte>

    ghost function View(): Body
      reads this
    {
      Body(data, primary, offset, closed, busy, delivered)
    }

    constructor (data: seq<Byte>, primary: bool)
      ensures View() == NewBody(data, primary)
    {
      this.data, this.primary := data, primary;
      offset, closed, busy, delivered := 0, false, false, [];
    }

    /** The start of Read and WriteTo: ok is false for ErrBodyReadAfterClose, which unlocks again. */
    method Enter() returns (ok: bool)
      requires !busy
      modifies this
      ensures View() == Entered(old(View()))
      ensures ok == !closed == busy
    {
      ok := !closed;
      if ok {
        busy := true;
      }
    }

    /** The rest of Read: chunk is what the caller gets, and drain says that release() follows. */
    method Read(n: nat) returns (chunk: seq<Byte>, drain: bool)
      requires busy && View().Valid()
      modifies this
      ensures View() == Advanced(old(View()), n)
      ensures delivered == old(delivered) + chunk
      ensures drain <==> primary && View().Spent()
    {
      var k := Min(n, |data| - offset);
      chunk := data[offset..offset + k];
      offset := offset + k;
      delivered := delivered + chunk;
      busy := false;
      return chunk, primary && offset == |data|;
    }

    /** The rest of WriteTo: the destination accepts some count of the remainder it is offered, or panics before the
        offset moves; the deferred unlock runs either way. */
    method WriteTo(accepted: nat, panics: bool) returns (drain: bool)
      requires busy && View().Valid() && accepted <= |data| - offset
      modifies this
      ensures View() == if panics then old(View()).(busy := false) else Advanced(old(View()), accepted)
      ensures drain <==> primary && !panics && View().Spent()
    {
      busy := false;
      if panics {
        return false;
      }
      delivered := delivered + data[offset..offset + accepted];
      offset := offset + accepted;
      return primary && offset == |data|;
    }

    /** At any time, also in the middle of a Read or WriteTo. */
    method Close() returns (drain: bool)
      modifies this
      ensures View() == old(View()).(closed := true)
      ensures drain == primary
    {
      closed := true;
      return primary;
    }
  }

  // ----- The pool and its requests -----

  datatype Stage =
    | Waiting      // blocked on the pool
    | Inspecting   // holds a token that the deferred releaseSlot would return
    | Serving      // the target handler owns the bodies
    | Finished

  /** bodies[0] is the primary body once the request is handed off; drains counts calls of onDrain about to happen. */
  datatype Request = Request(
    stage: Stage,
    admitted: bool,
    handed: bool,
    drained: bool,
    bodies: seq<Body>,
    drains: nat,
    givenBack: nat   // tokens this request has given back to the pool
  )

  datatype State = State(capacity: nat, occupied: nat, requests: map<nat, Request>, nextId: nat)

  datatype Step =
    | Arrive
    | Admit(id: nat)
    | Disconnect(id: nat)
    | Refuse(id: nat)                        // an error reply before the hand-off
    | HandOff(id: nat, data: seq<Byte>)
    | Replay(id: nat)                        // r.GetBody
    | EnterBody(id: nat, k: nat)
    | ReadBody(id: nat, k: nat, n: nat)
    | WriteBody(id: nat, k: nat, n: nat, panics: bool)
    | CloseBody(id: nat, k: nat)
    | Drain(id: nat)
    | Return(id: nat)                        // the target handler returns or panics

  function Initial(capacity: nat): State {
    State(capacity, 0, map[], 0)
  }

  predicate At(s: State, id: nat, stage: Stage) {
    id in s.requests && s.requests[id].stage == stage
  }

  predicate HasBody(s: State, id: nat, k: nat) {
    id in s.requests && k < |s.requests[id].bodies| && s.requests[id].bodies[k].Valid()
  }

  /** Every receive on the slots channel needs a token in it. */
  predicate Enabled(s: State, step: Step) {
    match step
    case Arrive => true
    case Admit(id) => At(s, id, Waiting) && s.occupied < s.capacity
    case Disconnect(id) => At(s, id, Waiting)
    case Refuse(id) => At(s, id, Inspecting) && s.occupied > 0
    case HandOff(id, _) => At(s, id, Inspecting)
    case Replay(id) => id in s.requests && s.requests[id].handed
    case EnterBody(id, k) => HasBody(s, id, k) && !s.requests[id].bodies[k].busy
    case ReadBody(id, k, _) => HasBody(s, id, k) && s.requests[id].bodies[k].busy
    case WriteBody(id, k, n, _) =>
      && HasBody(s, id, k) && s.requests[id].bodies[k].busy
      && n <= |s.requests[id].bodies[k].data| - s.requests[id].bodies[k].offset
    case CloseBody(id, k) => HasBody(s, id, k)
    case Drain(id) => id in s.requests && s.requests[id].drains > 0 && (s.requests[id].drained || s.occupied > 0)
    case Return(id) => At(s, id, Serving) && (s.requests[id].drained || s.occupied > 0)
  }

  /** catalogHandoff.drain: the first call returns the token. */
  function Drained(s: State, id: nat, r: Request): State
    requires r.drained || s.occupied > 0
  {
    if r.drained then s.(requests := s.requests[id := r])
    else s.(occupied := s.occupied - 1, requests := s.requests[id := r.(drained := true, givenBack := r.givenBack + 1)])
  }

  function SetBody(r: Request, k: nat, b: Body, drain: bool): Request
    requires k < |r.bodies|
  {
    r.(bodies := r.bodies[k := b], drains := r.drains + if drain then 1 else 0)
  }

  function Next(s: State, step: Step): State
    requires Enabled(s, step)
  {
    match step
    case Arrive =>
      s.(requests := s.requests[s.nextId := Request(Waiting, false, false, false, [], 0, 0)], nextId := s.nextId + 1)
    case Admit(id) =>
      s.(occupied := s.occupied + 1,
         requests := s.requests[id := s.requests[id].(stage := Inspecting, admitted := true)])
    case Disconnect(id) => s.(requests := s.requests[id := s.requests[id].(stage := Finished)])
    case Refuse(id) =>
      var r := s.requests[id];
      s.(occupied := s.occupied - 1,
         requests := s.requests[id := r.(stage := Finished, drained := true, givenBack := r.givenBack + 1)])
    case HandOff(id, data) =>
      s.(requests := s.requests[id :=
           s.requests[id].(stage := Serving, handed := true, bodies := [NewBody(data, true)])])
    case Replay(id) =>
      var r := s.requests[id];
      s.(requests := s.requests[id :=
           r.(bodies := r.bodies + [NewBody(if r.bodies == [] then [] else r.bodies[0].data, false)])])
    case EnterBody(id, k) =>
      var r := s.requests[id];
      s.(requests := s.requests[id := SetBody(r, k, Entered(r.bodies[k]), false)])
    case ReadBody(id, k, n) =>
      var r := s.requests[id];
      var b := Advanced(r.bodies[k], n);
      s.(requests := s.requests[id := SetBody(r, k, b, b.primary && b.Spent())])
    case WriteBody(id, k, n, panics) =>
      var r := s.requests[id];
      var b := if panics then r.bodies[k].(busy := false) else Advanced(r.bodies[k], n);
      s.(requests := s.requests[id := SetBody(r, k, b, b.primary && !panics && b.Spent())])
    case CloseBody(id, k) =>
      var r := s.requests[id];
      var b := r.bodies[k].(closed := true);
      s.(requests := s.requests[id := SetBody(r, k, b, b.primary)])
    case Drain(id) => Drained(s, id, s.requests[id].(drains := s.requests[id].drains - 1))
    case Return(id) => Drained(s, id, s.requests[id].(stage := Finished))
  }

  ghost predicate Legal(s: State, trace: seq<Step>)
    decreases |trace|, 0
  {
    trace == [] || (Legal(s, trace[..|trace| - 1]) && Enabled(Exec(s, trace[..|trace| - 1]), trace[|trace| - 1]))
  }

  ghost function Exec(s: State, trace: seq<Step>): State
    requires Legal(s, trace)
    decreases |trace|, 1
  {
    if trace == [] then s else Next(Exec(s, trace[..|trace| - 1]), trace[|trace| - 1])
  }

  /** The pool as an object: acquireBufferSlot's send and the receive of its release closure. */
  class Admission {
    const capacity: nat
    var occupied: nat

    constructor (limit: int)
      ensures capacity == PoolSize(limit) && occupied == 0
    {
      capacity := PoolSize(limit);
      occupied := 0;
    }

    /** The select of acquireBufferSlot once one of its cases is ready; slotFirst is the choice when both are. Until
        then the caller waits: there is no busy answer. */
    method Acquire(clientGone: bool, slotFirst: bool) returns (admitted: bool)
      requires occupied < capacity || clientGone
      modifies this
      ensures admitted <==> old(occupied) < capacity && (!clientGone || slotFirst)
      ensures occupied == old(occupied) + if admitted then 1 else 0
      ensures !admitted ==> clientGone
    {
      admitted := occupied < capacity && (!clientGone || slotFirst);
      if admitted {
        occupied := occupied + 1;
      }
    }

    method GiveBack()
      requires occupied > 0
      modifies this
      ensures occupied == old(occupied) - 1
    {
      occupied := occupied - 1;
    }
  }

  /** catalogHandoff: the token goes back on the first drain only. */
  class Handoff {
    const admission: Admission
    var drained: bool

    constructor (admission: Admission)
      ensures this.admission == admission && !drained
    {
      this.admission := admission;
      drained := false;
    }

    method DrainOnce()
      requires drained || admission.occupied > 0
      modifies this, admission
      ensures drained
      ensures admission.occupied == old(admission.occupied) - if old(drained) then 0 else 1
    {
      if !drained {
        drained := true;
        admission.GiveBack();
      }
    }
  }

  // ----- What every run keeps -----

  /** The request has a token of the pool. */
  predicate Holds(r: Request) {
    r.admitted && !r.drained
  }

  ghost function Holding(m: map<nat, Request>): set<nat> {
    set id | id in m && Holds(m[id])
  }

  /** Readers have received the bytes up to the offset, in order, none twice and none skipped. */
  predicate BodyOk(b: Body) {
    b.offset <= |b.data| && b.delivered == b.data[..b.offset]
  }

  predicate RequestOk(r: Request) {
    && (forall k :: 0 <= k < |r.bodies| ==> BodyOk(r.bodies[k]) && (r.bodies[k].primary <==> k == 0))
    && (forall k :: 0 <= k < |r.bodies| ==> r.bodies[k].data == r.bodies[0].data)
    && (r.handed <==> r.bodies != [])
    && (r.handed ==> r.admitted)
    && (r.stage.Waiting? ==> !r.admitted)
    && (r.stage.Inspecting? ==> r.admitted && !r.handed && !r.drained)
    && (r.stage.Serving? ==> r.handed)
    && (r.stage.Finished? && r.admitted ==> r.drained)
    && (r.drained ==> r.admitted)
    && r.givenBack == (if r.drained then 1 else 0)
    && (r.drains > 0 ==> r.handed)
    && (r.handed && (r.drains > 0 || (r.drained && !r.stage.Finished?)) ==> r.bodies[0].closed || r.bodies[0].Spent())
  }

  ghost predicate Inv(s: State) {
    && s.occupied == |Holding(s.requests)| <= s.capacity
    && (forall id :: id in s.requests ==> id < s.nextId && RequestOk(s.requests[id]))
  }

  lemma HoldingAfter(m: map<nat, Request>, id: nat, r: Request)
    ensures Holding(m[id := r]) == if Holds(r) then Holding(m) + {id} else Holding(m) - {id}
    ensures id in Holding(m) <==> id in m && Holds(m[id])
  {
  }

  /** One request changes, and the occupancy with its token. */
  lemma UpdateKeepsInv(s: State, t: State, id: nat, r: Request)
    requires Inv(s) && RequestOk(r) && id < t.nextId && s.nextId <= t.nextId
    requires t.requests == s.requests[id := r] && t.capacity == s.capacity
    requires t.occupied == s.occupied + (if Holds(r) then 1 else 0) - (if id in Holding(s.requests) then 1 else 0)
    requires t.occupied <= t.capacity
    ensures Inv(t)
  {
    HoldingAfter(s.requests, id, r);
  }

  lemma AdvanceKeepsOk(b: Body, n: nat)
    requires BodyOk(b)
    ensures BodyOk(Advanced(b, n)) && Advanced(b, n).data == b.data && Advanced(b, n).primary == b.primary
    ensures Advanced(b, n).closed == b.closed && (b.Spent() ==> Advanced(b, n).Spent())
  {
  }

  lemma BodyStepKeepsOk(r: Request, k: nat, b: Body, drain: bool)
    requires RequestOk(r) && k < |r.bodies| && BodyOk(b)
    requires b.data == r.bodies[k].data && b.primary == r.bodies[k].primary
    requires (r.bodies[k].closed ==> b.closed) && (r.bodies[k].Spent() ==> b.Spent())
    requires drain ==> b.primary && (b.closed || b.Spent())
    ensures RequestOk(SetBody(r, k, b, drain)) && Holds(SetBody(r, k, b, drain)) == Holds(r)
  {
  }

  lemma EnterKeepsInv(s: State, id: nat, k: nat)
    requires Inv(s) && Enabled(s, EnterBody(id, k))
    ensures Inv(Next(s, EnterBody(id, k)))
  {
    var r := s.requests[id];
    BodyStepKeepsOk(r, k, Entered(r.bodies[k]), false);
    HoldingAfter(s.requests, id, r);
    UpdateKeepsInv(s, Next(s, EnterBody(id, k)), id, SetBody(r, k, Entered(r.bodies[k]), false));
  }

  lemma ReadKeepsInv(s: State, id: nat, k: nat, n: nat)
    requires Inv(s) && Enabled(s, ReadBody(id, k, n))
    ensures Inv(Next(s, ReadBody(id, k, n)))
  {
    var r := s.requests[id];
    AdvanceKeepsOk(r.bodies[k], n);
    var b := Advanced(r.bodies[k], n);
    BodyStepKeepsOk(r, k, b, b.primary && b.Spent());
    HoldingAfter(s.requests, id, r);
    UpdateKeepsInv(s, Next(s, ReadBody(id, k, n)), id, SetBody(r, k, b, b.primary && b.Spent()));
  }

  lemma WriteKeepsInv(s: State, id: nat, k: nat, n: nat, panics: bool)
    requires Inv(s) && Enabled(s, WriteBody(id, k, n, panics))
    ensures Inv(Next(s, WriteBody(id, k, n, panics)))
  {
    var r := s.requests[id];
    AdvanceKeepsOk(r.bodies[k], n);
    var b := if panics then r.bodies[k].(busy := false) else Advanced(r.bodies[k], n);
    var drain := b.primary && !panics && b.Spent();
    BodyStepKeepsOk(r, k, b, drain);
    HoldingAfter(s.requests, id, r);
    UpdateKeepsInv(s, Next(s, WriteBody(id, k, n, panics)), id, SetBody(r, k, b, drain));
  }

  lemma CloseKeepsInv(s: State, id: nat, k: nat)
    requires Inv(s) && HasBody(s, id, k)
    ensures Inv(Next(s, CloseBody(id, k)))
  {
    var r := s.requests[id];
    var b := r.bodies[k].(closed := true);
    BodyStepKeepsOk(r, k, b, b.primary);
    HoldingAfter(s.requests, id, r);
    UpdateKeepsInv(s, Next(s, CloseBody(id, k)), id, SetBody(r, k, b, b.primary));
  }

  lemma DrainKeepsInv(s: State, step: Step, id: nat)
    requires Inv(s) && Enabled(s, step) && (step == Drain(id) || step == Return(id))
    ensures Inv(Next(s, step))
  {
    var t := Next(s, step);
    HoldingAfter(s.requests, id, s.requests[id]);
    UpdateKeepsInv(s, t, id, t.requests[id]);
  }

  lemma StageKeepsInv(s: State, step: Step, id: nat)
    requires Inv(s) && Enabled(s, step)
    requires step in {Admit(id), Disconnect(id), Refuse(id), Replay(id)}
    ensures Inv(Next(s, step))
  {
    var t := Next(s, step);
    HoldingAfter(s.requests, id, s.requests[id]);
    UpdateKeepsInv(s, t, id, t.requests[id]);
  }

  lemma StepKeepsInv(s: State, step: Step)
    requires Inv(s) && Enabled(s, step)
    ensures Inv(Next(s, step)) && Next(s, step).capacity == s.capacity
  {
    match step {
      case Arrive =>
        HoldingAfter(s.requests, s.nextId, Request(Waiting, false, false, false, [], 0, 0));
        UpdateKeepsInv(s, Next(s, step), s.nextId, Request(Waiting, false, false, false, [], 0, 0));
      case EnterBody(id, k) => EnterKeepsInv(s, id, k);
      case ReadBody(id, k, n) => ReadKeepsInv(s, id, k, n);
      case WriteBody(id, k, n, panics) => WriteKeepsInv(s, id, k, n, panics);
      case CloseBody(id, k) => CloseKeepsInv(s, id, k);
      case Drain(id) => DrainKeepsInv(s, step, id);
      case Return(id) => DrainKeepsInv(s, step, id);
      case HandOff(id, data) =>
        HoldingAfter(s.requests, id, s.requests[id]);
        UpdateKeepsInv(s, Next(s, step), id, Next(s, step).requests[id]);
      case Admit(id) => StageKeepsInv(s, step, id);
      case Disconnect(id) => StageKeepsInv(s, step, id);
      case Refuse(id) => StageKeepsInv(s, step, id);
      case Replay(id) => StageKeepsInv(s, step, id);
    }
  }

  lemma {:induction false} RunKeepsInv(capacity: nat, trace: seq<Step>)
    requires Legal(Initial(capacity), trace)
    ensures Inv(Exec(Initial(capacity), trace)) && Exec(Initial(capacity), trace).capacity == capacity
  {
    if trace == [] {
      assert Holding(map[]) == {};
    } else {
      RunKeepsInv(capacity, trace[..|trace| - 1]);
      StepKeepsInv(Exec(Initial(capacity), trace[..|trace| - 1]), trace[|trace| - 1]);
    }
  }

  /** The pool's occupancy is the number of requests with an unreturned token, every token is returned once and only
      once, and after the hand-off not before the primary body is spent or closed or the handler has returned. */
  lemma TokensReturnedOnce(capacity: nat, trace: seq<Step>, id: nat)
    requires Legal(Initial(capacity), trace) && id in Exec(Initial(capacity), trace).requests
    ensures var s := Exec(Initial(capacity), trace);
            var r := s.requests[id];
            && s.occupied == |Holding(s.requests)| <= capacity
            && r.givenBack <= 1
            && (r.givenBack == 1 <==> r.admitted && !Holds(r))
            && (r.stage.Finished? && r.admitted ==> r.givenBack == 1)
            && (r.handed <==> r.bodies != [])
            && (r.bodies != [] && r.givenBack == 1 ==> r.stage.Finished? || r.bodies[0].closed || r.bodies[0].Spent())
  {
    RunKeepsInv(capacity, trace);
  }

  /** Returning a token never blocks on an empty pool. */
  lemma GivingBackNeverBlocks(capacity: nat, trace: seq<Step>, id: nat)
    requires Legal(Initial(capacity), trace)
    ensures var s := Exec(Initial(capacity), trace);
            && (At(s, id, Inspecting) ==> Enabled(s, Refuse(id)))
            && (At(s, id, Serving) ==> Enabled(s, Return(id)))
            && (id in s.requests && s.requests[id].drains > 0 ==> Enabled(s, Drain(id)))
  {
    RunKeepsInv(capacity, trace);
    var s := Exec(Initial(capacity), trace);
    if id in s.requests && Holds(s.requests[id]) {
      assert id in Holding(s.requests);
    }
  }

  /** Under any interleaving of Read, WriteTo and Close, a close in the middle of a copy included, every body delivers
      a prefix of the buffered bytes. */
  lemma BodiesDeliverPrefix(capacity: nat, trace: seq<Step>, id: nat, k: nat)
    requires Legal(Initial(capacity), trace) && id in Exec(Initial(capacity), trace).requests
    requires k < |Exec(Initial(capacity), trace).requests[id].bodies|
    ensures var r := Exec(Initial(capacity), trace).requests[id];
            && r.bodies[k].delivered <= r.bodies[0].data
            && (r.bodies[k].Spent() <==> r.bodies[k].delivered == r.bodies[0].data)
            && (r.bodies[k].primary <==> k == 0)
  {
    RunKeepsInv(capacity, trace);
    var b := Exec(Initial(capacity), trace).requests[id].bodies[k];
    assert BodyOk(b);
    assert b.Spent() ==> b.data[..b.offset] == b.data;
  }

  /** Reading, copying or closing a replay body leaves the pool and the token of its request as they were. */
  lemma ReplaysNeverRelease(s: State, step: Step, id: nat, k: nat)
    requires Inv(s) && Enabled(s, step) && id in s.requests && k > 0
    requires || step == EnterBody(id, k)
             || step == CloseBody(id, k)
             || (step.ReadBody? && step.id == id && step.k == k)
             || (step.WriteBody? && step.id == id && step.k == k)
    ensures var t := Next(s, step);
            && t.occupied == s.occupied
            && t.requests[id].drains == s.requests[id].drains && t.requests[id].drained == s.requests[id].drained
            && t.requests[id].bodies[0] == s.requests[id].bodies[0]
  {
    AdvanceKeepsOk(s.requests[id].bodies[k], if step.CloseBody? || step.EnterBody? then 0 else step.n);
  }

  lemma AdvancedDelivers(b: Body, n: nat)
    requires BodyOk(b)
    ensures Advanced(b, n) ==
              b.(busy := false, offset := Min(|b.delivered| + n, |b.data|),
                 delivered := b.data[..Min(|b.delivered| + n, |b.data|)])
    ensures |b.delivered| == b.offset
  {
    var m := Min(n, |b.data| - b.offset);
    assert b.data[..b.offset] + b.data[b.offset..b.offset + m] == b.data[..b.offset + m];
  }

  lemma BodiesAreOk(r: Request, k: nat)
    requires RequestOk(r) && k < |r.bodies|
    ensures BodyOk(r.bodies[k]) && r.bodies[k].data == r.bodies[0].data
  {
  }

  /** A Read that is let in gets the next n bytes of the buffer, or all that is left. */
  lemma ReadersGetTheNextBytes(capacity: nat, trace: seq<Step>, s: State, id: nat, k: nat, n: nat)
    requires Legal(Initial(capacity), trace) && s == Exec(Initial(capacity), trace)
    requires Enabled(s, ReadBody(id, k, n))
    ensures var b, data := s.requests[id].bodies[k], s.requests[id].bodies[0].data;
            && |b.delivered| <= |data|
            && Next(s, ReadBody(id, k, n)).requests[id].bodies[k] ==
               b.(busy := false, offset := Min(|b.delivered| + n, |data|),
                  delivered := data[..Min(|b.delivered| + n, |data|)])
  {
    RunKeepsInv(capacity, trace);
    BodiesAreOk(s.requests[id], k);
    AdvancedDelivers(s.requests[id].bodies[k], n);
  }

  /** A destination is given the bytes it accepts, in order; one that panics has been given nothing. */
  lemma WritersGetTheNextBytes(capacity: nat, trace: seq<Step>, s: State, id: nat, k: nat, n: nat, panics: bool)
    requires Legal(Initial(capacity), trace) && s == Exec(Initial(capacity), trace)
    requires Enabled(s, WriteBody(id, k, n, panics))
    ensures var b, data := s.requests[id].bodies[k], s.requests[id].bodies[0].data;
            && |b.delivered| + n <= |data|
            && Next(s, WriteBody(id, k, n, panics)).requests[id].bodies[k] ==
               if panics then b.(busy := false)
               else b.(busy := false, offset := |b.delivered| + n, delivered := data[..|b.delivered| + n])
  {
    RunKeepsInv(capacity, trace);
    BodiesAreOk(s.requests[id], k);
    AdvancedDelivers(s.requests[id].bodies[k], n);
  }

  /** The token of a handed-off request is back, or on its way back, once its primary body has been closed or read to
      the end, and once its handler has returned. */
  predicate Releases(r: Request) {
    && (r.bodies != [] && (r.bodies[0].closed || (r.bodies[0].Spent() && r.bodies[0].data != [])) ==>
          r.drained || r.drains > 0)
    && (r.bodies != [] && r.stage.Finished? ==> r.drained)
  }

  ghost predicate AllRelease(s: State) {
    forall id :: id in s.requests ==> Releases(s.requests[id])
  }

  lemma StepKeepsReleases(s: State, step: Step)
    requires Inv(s) && AllRelease(s) && Enabled(s, step)
    ensures AllRelease(Next(s, step))
  {
    match step {
      case ReadBody(id, k, n) => BodyStepReleases(s, step, id, k);
      case WriteBody(id, k, n, panics) => BodyStepReleases(s, step, id, k);
      case CloseBody(id, k) => BodyStepReleases(s, step, id, k);
      case EnterBody(id, k) => BodyStepReleases(s, step, id, k);
      case _ =>
    }
  }

  lemma BodyStepReleases(s: State, step: Step, id: nat, k: nat)
    requires Inv(s) && AllRelease(s) && Enabled(s, step)
    requires || step == EnterBody(id, k) || step == CloseBody(id, k)
             || (step.ReadBody? && step.id == id && step.k == k)
             || (step.WriteBody? && step.id == id && step.k == k)
    ensures AllRelease(Next(s, step))
  {
    var r := s.requests[id];
    assert RequestOk(r) && Releases(r);
    assert r.bodies[k].primary <==> k == 0;
    assert Releases(Next(s, step).requests[id]);
  }

  lemma {:induction false} ExhaustionReleases(capacity: nat, trace: seq<Step>)
    requires Legal(Initial(capacity), trace)
    ensures AllRelease(Exec(Initial(capacity), trace))
  {
    if trace != [] {
      ExhaustionReleases(capacity, trace[..|trace| - 1]);
      RunKeepsInv(capacity, trace[..|trace| - 1]);
      StepKeepsReleases(Exec(Initial(capacity), trace[..|trace| - 1]), trace[|trace| - 1]);
    }
  }

  /** A closed body lets no reader in, and an open one does. */
  lemma ClosedBodyRefuses(s: State, id: nat, k: nat)
    requires Enabled(s, EnterBody(id, k))
    ensures var b, t := s.requests[id].bodies[k], Next(s, EnterBody(id, k)).requests[id].bodies[k];
            t == b.(busy := !b.closed)
  {
  }

  /** The hand-off gives the target one primary body over all that was buffered, and every replay a fresh body over the
      same bytes. */
  lemma BodiesStartAtTheFirstByte(capacity: nat, trace: seq<Step>, id: nat, data: seq<Byte>)
    requires Legal(Initial(capacity), trace)
    ensures var s := Exec(Initial(capacity), trace);
            && (Enabled(s, HandOff(id, data)) ==>
                  Next(s, HandOff(id, data)).requests[id].bodies == [Body(data, true, 0, false, false, [])])
            && (Enabled(s, Replay(id)) ==>
                  && s.requests[id].bodies != []
                  && Next(s, Replay(id)).requests[id].bodies ==
                     s.requests[id].bodies + [Body(s.requests[id].bodies[0].data, false, 0, false, false, [])])
  {
    RunKeepsInv(capacity, trace);
  }
}
