/** The pooled request buffer of internal/retry/transport.go: bufferTracker and trackingReader.

    A step is one section under a mutex, one sync.Once, or another request's use of the recycled buffer.
    A Read is two steps, since the tracker's mutex is not the reader's.
  */
module RetryBuffer {
  import opened Prelude

  const MAX_POOLED_CAPACITY: int := 64 * 1024

  type Byte = b: int | 0 <= b < 256

  // ----- The tracker -----

  /** pooled counts the times the buffer went back to the pool. */
  datatype Tracker = Tracker(
    capacity: nat, activeReads: int, finalized: bool, respClosed: bool, released: bool, pooled: nat)

  function NewTracker(capacity: nat): Tracker {
    Tracker(capacity, 0, false, false, false, 0)
  }

  function MaybeRelease(t: Tracker): Tracker {
    if !t.released && t.finalized && t.respClosed && t.activeReads <= 0
    then t.(released := true, pooled := if t.capacity > MAX_POOLED_CAPACITY then t.pooled else t.pooled + 1)
    else t
  }

  function BodyAdded(t: Tracker): Tracker {
    t.(activeReads := t.activeReads + 1)
  }

  function BodyDone(t: Tracker): Tracker {
    MaybeRelease(t.(activeReads := t.activeReads - 1))
  }

  function ResponseDone(t: Tracker): Tracker {
    MaybeRelease(t.(respClosed := true))
  }

  function FinalizedWith(t: Tracker, hasRespBody: bool): Tracker {
    MaybeRelease(t.(finalized := true, respClosed := t.respClosed || !hasRespBody))
  }

  class BufferTracker {
    const buf: array<Byte>
    const capacity: nat
    var activeReads: int
    var finalized: bool
    var respClosed: bool
    var released: bool
    ghost var pooled: nat

    ghost function View(): Tracker
      reads this
    {
      Tracker(capacity, activeReads, finalized, respClosed, released, pooled)
    }

    constructor (buf: array<Byte>, capacity: nat)
      ensures this.buf == buf && View() == NewTracker(capacity)
    {
      this.buf, this.capacity := buf, capacity;
      activeReads, finalized, respClosed, released, pooled := 0, false, false, false, 0;
    }

    method NewBody() returns (body: TrackingReader)
      modifies this
      ensures View() == BodyAdded(old(View()))
      ensures fresh(body) && body.tracker == this && body.View() == NewReader()
    {
      activeReads := activeReads + 1;
      body := new TrackingReader(this);
    }

    method ReadDone()
      modifies this
      ensures View() == BodyDone(old(View()))
    {
      activeReads := activeReads - 1;
      MaybeReleaseLocked();
    }

    method ResponseClosed()
      modifies this
      ensures View() == ResponseDone(old(View()))
    {
      respClosed := true;
      MaybeReleaseLocked();
    }

    method Finalize(hasRespBody: bool)
      modifies this
      ensures View() == FinalizedWith(old(View()), hasRespBody)
    {
      finalized := true;
      if !hasRespBody {
        respClosed := true;
      }
      MaybeReleaseLocked();
    }

    method MaybeReleaseLocked()
      modifies `released, `pooled
      ensures View() == MaybeRelease(old(View()))
    {
      if !released && finalized && respClosed && activeReads <= 0 {
        released := true;
        if capacity <= MAX_POOLED_CAPACITY {
          pooled := pooled + 1;
        }
      }
    }
  }

  // ----- One reader -----

  /** busy: a Read is past its closed check and holds the reader's mutex. leaving: calls about to run the sync.Once. */
  datatype Reader = Reader(offset: nat, closed: bool, busy: bool, leaving: nat, fired: bool, delivered: seq<Byte>)

  function NewReader(): Reader {
    Reader(0, false, false, 0, false, [])
  }

  function Began(r: Reader): Reader {
    if r.closed then r else r.(busy := true)
  }

  /** bytes.Reader.Read into n bytes: at the end it copies nothing and reports EOF. */
  function Ended(r: Reader, buffer: seq<Byte>, n: nat): Reader
    requires r.offset <= |buffer|
  {
    if r.offset == |buffer| then r.(busy := false, leaving := r.leaving + 1)
    else
      var k := Min(n, |buffer| - r.offset);
      r.(busy := false, offset := r.offset + k, delivered := r.delivered + buffer[r.offset..r.offset + k])
  }

  function ClosedReader(r: Reader): Reader {
    r.(closed := true, leaving := r.leaving + 1)
  }

  class TrackingReader {
    const tracker: BufferTracker
    var offset: nat
    var closed: bool
    var busy: bool
    var fired: bool
    ghost var leaving: nat
    ghost var delivered: seq<Byte>

    ghost function View(): Reader
      reads this
    {
      Reader(offset, closed, busy, leaving, fired, delivered)
    }

    constructor (tracker: BufferTracker)
      ensures this.tracker == tracker && View() == NewReader()
    {
      this.tracker := tracker;
      offset, closed, busy, fired, leaving, delivered := 0, false, false, false, 0, [];
    }

    /** Locks the reader; ok is false for ErrBodyReadAfterClose, which unlocks again. */
    method BeginRead() returns (ok: bool)
      requires !busy
      modifies this
      ensures View() == Began(old(View())) && ok == !closed
    {
      ok := !closed;
      if ok {
        busy := true;
      }
    }

    /** Copies from the shared buffer as it is now, and unlocks. */
    method EndRead(n: nat) returns (chunk: seq<Byte>, eof: bool)
      requires busy && offset <= tracker.buf.Length
      modifies this
      ensures View() == Ended(old(View()), tracker.buf[..], n)
      ensures delivered == old(delivered) + chunk
      ensures eof <==> old(offset) == tracker.buf.Length
    {
      eof := offset == tracker.buf.Length;
      chunk := [];
      if eof {
        leaving := leaving + 1;
      } else {
        var k := Min(n, tracker.buf.Length - offset);
        chunk := tracker.buf[offset..offset + k];
        assert chunk == tracker.buf[..][offset..offset + k];
        offset := offset + k;
        delivered := delivered + chunk;
      }
      busy := false;
    }

    method Close()
      requires !busy
      modifies this
      ensures View() == ClosedReader(old(View()))
    {
      closed := true;
      leaving := leaving + 1;
    }

    /** The sync.Once that ends both Read at EOF and Close. */
    method Fire()
      requires leaving > 0
      modifies this, tracker
      ensures View() == old(View()).(leaving := old(leaving) - 1, fired := true)
      ensures tracker.View() == if old(fired) then old(tracker.View()) else BodyDone(old(tracker.View()))
    {
      leaving := leaving - 1;
      if !fired {
        fired := true;
        tracker.ReadDone();
      }
    }
  }

  // ----- Every interleaving -----

  /** body is what the client sent, buffer what the pooled memory holds now; opening counts calls of newBody that
      have counted themselves and not yet made their reader. */
  datatype State = State(body: seq<Byte>, buffer: seq<Byte>, tracker: Tracker, opening: nat, readers: seq<Reader>)

  datatype Step =
    | CountBody
    | OpenBody
    | BeginRead(i: nat)
    | EndRead(i: nat, n: nat)
    | CloseBody(i: nat)
    | Fire(i: nat)
    | CloseResponse
    | Finalize(hasRespBody: bool)
    | Reuse(content: seq<Byte>)   // another request takes the buffer from the pool and overwrites it

  function Initial(body: seq<Byte>, capacity: nat): State {
    State(body, body, NewTracker(capacity), 0, [])
  }

  predicate Enabled(s: State, step: Step) {
    match step
    case CountBody => !s.tracker.finalized
    case OpenBody => s.opening > 0
    case BeginRead(i) => i < |s.readers| && !s.readers[i].busy
    case EndRead(i, _) => i < |s.readers| && s.readers[i].busy && s.readers[i].offset <= |s.buffer|
    case CloseBody(i) => i < |s.readers| && !s.readers[i].busy
    case Fire(i) => i < |s.readers| && s.readers[i].leaving > 0
    case CloseResponse => true
    case Finalize(_) => true
    case Reuse(content) => s.tracker.pooled > 0 && |content| == |s.buffer|
  }

  function Next(s: State, step: Step): State
    requires Enabled(s, step)
  {
    match step
    case CountBody => s.(opening := s.opening + 1, tracker := BodyAdded(s.tracker))
    case OpenBody => s.(opening := s.opening - 1, readers := s.readers + [NewReader()])
    case BeginRead(i) => s.(readers := s.readers[i := Began(s.readers[i])])
    case EndRead(i, n) => s.(readers := s.readers[i := Ended(s.readers[i], s.buffer, n)])
    case CloseBody(i) => s.(readers := s.readers[i := ClosedReader(s.readers[i])])
    case Fire(i) =>
      var r := s.readers[i];
      s.(readers := s.readers[i := r.(leaving := r.leaving - 1, fired := true)],
         tracker := if r.fired then s.tracker else BodyDone(s.tracker))
    case CloseResponse => s.(tracker := ResponseDone(s.tracker))
    case Finalize(hasRespBody) => s.(tracker := FinalizedWith(s.tracker, hasRespBody))
    case Reuse(content) => s.(buffer := content)
  }

  ghost predicate Legal(s: State, trace: seq<Step>)
    decreases |trace|, 0
  {
    trace == [] || (Legal(s, trace[..|trace| - 1]) && Enabled(Exec(s, trace[..|trace| - 1]), trace[|trace| - 1]))
  }

  ghost function Exec(s: State, trace: seq<Step>): State
    requires Legal(s, trace)
    decreases |trace|, 1
  {
    if trace == [] then s else Next(Exec(s, trace[..|trace| - 1]), trace[|trace| - 1])
  }

  // ----- What every interleaving keeps -----

  function Unfired(readers: seq<Reader>): nat {
    if readers == [] then 0
    else Unfired(readers[..|readers| - 1]) + if readers[|readers| - 1].fired then 0 else 1
  }

  predicate ReaderOk(r: Reader, body: seq<Byte>) {
    && r.offset <= |body|
    && r.delivered == body[..r.offset]
    && (r.leaving > 0 || r.fired ==> r.closed || r.offset == |body|)
    && (r.busy ==> !r.closed)
  }

  predicate Quiet(s: State) {
    s.tracker.finalized && s.tracker.respClosed && s.opening == 0 && Unfired(s.readers) == 0
  }

  ghost predicate Inv(s: State) {
    && s.tracker.activeReads == s.opening + Unfired(s.readers)
    && (forall i :: 0 <= i < |s.readers| ==> ReaderOk(s.readers[i], s.body))
    && (s.tracker.released <==> Quiet(s))
    && s.tracker.pooled == (if s.tracker.released && s.tracker.capacity <= MAX_POOLED_CAPACITY then 1 else 0)
    && |s.buffer| == |s.body|
    && (s.tracker.pooled == 0 ==> s.buffer == s.body)
  }

  lemma {:induction false} UnfiredAfter(readers: seq<Reader>, i: nat, r: Reader)
    requires i < |readers|
    ensures Unfired(readers[i := r]) ==
              Unfired(readers) + (if r.fired then 0 else 1) - (if readers[i].fired then 0 else 1)
    ensures Unfired(readers) == 0 ==> readers[i].fired
  {
    var last := |readers| - 1;
    if i < last {
      UnfiredAfter(readers[..last], i, r);
      assert readers[i := r][..last] == readers[..last][i := r];
    } else {
      assert readers[i := r][..last] == readers[..last];
    }
  }

  lemma ReadKeepsInv(s: State, step: Step, i: nat)
    requires Inv(s) && Enabled(s, step) && i < |s.readers|
    requires step == BeginRead(i) || (step.EndRead? && step.i == i) || step == CloseBody(i)
    ensures Inv(Next(s, step))
  {
    var r := Next(s, step).readers[i];
    UnfiredAfter(s.readers, i, r);
    assert ReaderOk(s.readers[i], s.body);
    if step.EndRead? && s.readers[i].offset < |s.buffer| {
      assert s.buffer == s.body;
    }
    assert ReaderOk(r, s.body);
  }

  lemma FireKeepsInv(s: State, i: nat)
    requires Inv(s) && Enabled(s, Fire(i))
    ensures Inv(Next(s, Fire(i)))
  {
    var r := Next(s, Fire(i)).readers[i];
    UnfiredAfter(s.readers, i, r);
    assert ReaderOk(s.readers[i], s.body);
    assert ReaderOk(r, s.body);
  }

  lemma OpenKeepsInv(s: State)
    requires Inv(s) && Enabled(s, OpenBody)
    ensures Inv(Next(s, OpenBody))
  {
    var t := Next(s, OpenBody);
    assert t.readers[..|t.readers| - 1] == s.readers;
  }

  lemma StepKeepsInv(s: State, step: Step)
    requires Inv(s) && Enabled(s, step)
    ensures Inv(Next(s, step)) && Next(s, step).body == s.body
  {
    match step {
      case OpenBody => OpenKeepsInv(s);
      case BeginRead(i) => ReadKeepsInv(s, step, i);
      case EndRead(i, n) => ReadKeepsInv(s, step, i);
      case CloseBody(i) => ReadKeepsInv(s, step, i);
      case Fire(i) => FireKeepsInv(s, i);
      case CountBody =>
      case CloseResponse =>
      case Finalize(_) =>
      case Reuse(_) =>
    }
  }

  lemma {:induction false} RunKeepsInv(body: seq<Byte>, capacity: nat, trace: seq<Step>)
    requires Legal(Initial(body, capacity), trace)
    ensures Inv(Exec(Initial(body, capacity), trace))
    ensures var t := Exec(Initial(body, capacity), trace); t.body == body && t.tracker.capacity == capacity
  {
    if trace != [] {
      RunKeepsInv(body, capacity, trace[..|trace| - 1]);
      StepKeepsInv(Exec(Initial(body, capacity), trace[..|trace| - 1]), trace[|trace| - 1]);
    }
  }

  /** The buffer is recycled at most once, and exactly when no attempt can follow, the response is closed and every
      body ever made has been closed or read to its end. */
  lemma RecycledExactlyWhenQuiet(body: seq<Byte>, capacity: nat, trace: seq<Step>)
    requires Legal(Initial(body, capacity), trace)
    ensures var s := Exec(Initial(body, capacity), trace);
            && s.tracker.pooled <= 1
            && (s.tracker.pooled == 1 <==> Quiet(s) && capacity <= 64 * 1024)
            && s.tracker.activeReads >= 0
  {
    RunKeepsInv(body, capacity, trace);
  }

  /** newBody stays allowed until the first finalize, whatever else interleaves. */
  lemma {:induction false} BodiesAllowedUntilFinalize(body: seq<Byte>, capacity: nat, trace: seq<Step>)
    requires Legal(Initial(body, capacity), trace)
    ensures Enabled(Exec(Initial(body, capacity), trace), CountBody) <==>
              forall k :: 0 <= k < |trace| ==> !trace[k].Finalize?
  {
    if trace != [] {
      BodiesAllowedUntilFinalize(body, capacity, trace[..|trace| - 1]);
    }
  }

  /** Once it is recycled no reader can return another byte of it, not even one in the middle of a Read. */
  lemma NoReaderOutlivesBuffer(body: seq<Byte>, capacity: nat, trace: seq<Step>, i: nat, n: nat)
    requires Legal(Initial(body, capacity), trace)
    requires var s := Exec(Initial(body, capacity), trace); s.tracker.released && i < |s.readers|
    ensures var r := Exec(Initial(body, capacity), trace).readers[i];
            && (r.closed || r.offset == |body|)
            && (r.busy ==> r.offset == |body|)
            && (r.offset <= |body| && (r.busy || !r.closed) ==> Ended(r, body, n).delivered == r.delivered)
  {
    RunKeepsInv(body, capacity, trace);
    var s := Exec(Initial(body, capacity), trace);
    UnfiredAfter(s.readers, i, s.readers[i]);
    assert ReaderOk(s.readers[i], s.body);
  }

  /** Whatever other requests write into the recycled memory, every body of this one delivers a prefix of what the
      client sent. */
  lemma BodiesDeliverOwnBytes(body: seq<Byte>, capacity: nat, trace: seq<Step>, i: nat)
    requires Legal(Initial(body, capacity), trace) && i < |Exec(Initial(body, capacity), trace).readers|
    ensures var r := Exec(Initial(body, capacity), trace).readers[i];
            r.offset <= |body| && r.delivered == body[..r.offset]
  {
    RunKeepsInv(body, capacity, trace);
    assert ReaderOk(Exec(Initial(body, capacity), trace).readers[i], body);
  }

  /** Why newBody may not follow finalize: a body made afterwards reads whatever the recycled memory then holds. */
  lemma LateBodyReadsForeignBytes(s: State, content: seq<Byte>)
    requires Inv(s) && s.tracker.pooled == 1 && |content| == |s.body| > 0 && content != s.body
    ensures var late := s.(tracker := BodyAdded(s.tracker), readers := s.readers + [NewReader()]);
            var i := |s.readers|;
            && Enabled(late, Reuse(content))
            && Enabled(Next(late, Reuse(content)), BeginRead(i))
            && var t := Next(Next(late, Reuse(content)), BeginRead(i));
            && Enabled(t, EndRead(i, |content|))
            && Next(t, EndRead(i, |content|)).readers[i].delivered == content
  {
    assert content[0..|content|] == content;
  }

  // ----- What a reader gets -----

  lemma EndedDelivers(r: Reader, body: seq<Byte>, n: nat)
    requires r.offset <= |body| && r.delivered == body[..r.offset]
    ensures var t := Ended(r, body, n);
            && t.delivered == body[..Min(r.offset + n, |body|)]
            && t.leaving == (if r.offset == |body| then r.leaving + 1 else r.leaving)
            && !t.busy && t.closed == r.closed
  {
    if r.offset < |body| {
      var k := Min(n, |body| - r.offset);
      assert body[..r.offset] + body[r.offset..r.offset + k] == body[..r.offset + k];
    }
  }

  lemma UnrecycledWhileReading(s: State, i: nat)
    requires Inv(s) && i < |s.readers| && s.readers[i].busy
    ensures s.readers[i].offset < |s.body| ==> s.buffer == s.body
    ensures ReaderOk(s.readers[i], s.body)
  {
    UnfiredAfter(s.readers, i, s.readers[i]);
  }

  /** A Read that is under way returns the next n bytes of the client's body, or all that is left; only a Read at its
      very end reports EOF, and returns nothing. */
  lemma ReadsGetTheNextBytes(body: seq<Byte>, capacity: nat, trace: seq<Step>, i: nat, n: nat)
    requires Legal(Initial(body, capacity), trace)
    requires Enabled(Exec(Initial(body, capacity), trace), EndRead(i, n))
    ensures var s := Exec(Initial(body, capacity), trace);
            var r, t := s.readers[i], Next(s, EndRead(i, n)).readers[i];
            && |r.delivered| <= |body|
            && t.delivered == body[..Min(|r.delivered| + n, |body|)]
            && t.leaving == (if |r.delivered| == |body| then r.leaving + 1 else r.leaving)
            && !t.busy && t.closed == r.closed
  {
    RunKeepsInv(body, capacity, trace);
    var s := Exec(Initial(body, capacity), trace);
    UnrecycledWhileReading(s, i);
    EndedDelivers(s.readers[i], body, n);
    assert |s.buffer| == |body|;
  }

  /** A body that has ended without being closed has delivered everything. */
  lemma EofMeansWholeBody(body: seq<Byte>, capacity: nat, trace: seq<Step>, i: nat)
    requires Legal(Initial(body, capacity), trace) && i < |Exec(Initial(body, capacity), trace).readers|
    requires var r := Exec(Initial(body, capacity), trace).readers[i]; !r.closed && (r.leaving > 0 || r.fired)
    ensures Exec(Initial(body, capacity), trace).readers[i].delivered == body
  {
    RunKeepsInv(body, capacity, trace);
    var r := Exec(Initial(body, capacity), trace).readers[i];
    assert ReaderOk(r, body);
    assert body[..|body|] == body;
  }

  // ----- What ends a round trip and its bodies -----

  /** The response is done with once it is closed, or once the round trip ends without one; attempts are over once it
      ends; and a body that was closed or read to its end has told the tracker so, or is about to. */
  ghost predicate EndsAreSeen(s: State, trace: seq<Step>) {
    && (s.tracker.respClosed <==> CloseResponse in trace || Finalize(false) in trace)
    && (s.tracker.finalized <==> Finalize(true) in trace || Finalize(false) in trace)
    && (forall i :: 0 <= i < |s.readers| ==> Settles(s.readers[i]))
  }

  predicate Settles(r: Reader) {
    r.closed ==> r.leaving > 0 || r.fired
  }

  lemma StepSeesEnds(s: State, step: Step, trace: seq<Step>)
    requires EndsAreSeen(s, trace) && Enabled(s, step)
    ensures EndsAreSeen(Next(s, step), trace + [step])
  {
  }

  lemma {:induction false} EndsAreSeenInRuns(body: seq<Byte>, capacity: nat, trace: seq<Step>)
    requires Legal(Initial(body, capacity), trace)
    ensures EndsAreSeen(Exec(Initial(body, capacity), trace), trace)
  {
    if trace != [] {
      var before, step := trace[..|trace| - 1], trace[|trace| - 1];
      EndsAreSeenInRuns(body, capacity, before);
      StepSeesEnds(Exec(Initial(body, capacity), before), step, before);
      assert trace == before + [step];
    }
  }

  /** A body that was closed refuses further reads. */
  lemma ClosedBodyRefuses(s: State, i: nat)
    requires Enabled(s, BeginRead(i))
    ensures Next(s, BeginRead(i)).readers[i].busy <==> !s.readers[i].closed
    ensures s.readers[i].closed ==> Next(s, BeginRead(i)) == s
  {
  }
}
