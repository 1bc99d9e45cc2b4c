/** Inputs on the exceptional side of the exact conditions: the exceptions are real. */
module ExceptionalRuns {
  import opened Prelude
  import opened RetryTransport
  import opened BreakerTheorems
  import opened Exchange
  import opened ExchangeTheorems
  import opened ServeLimited

  const PLAIN_HEADERS := Headers(Some(0), 0)

  function Bare(status: nat, headers: Headers, err: Option<TransportError>): Recorder {
    Recorder(status, true, None, headers, false, err.Some?, err, false, None)
  }

  /** A 403 with a ban that ends at 20, reported when it arrives at 10 and classified at 30, after a long body. */
  lemma BanExpiresDuringCopy() returns (setup: Setup, trail: seq<Attempt>, result: Result, f: Facts)
    ensures Follows(setup, DefaultCheckRetry, trail, result) && Describes(f.attempt, trail)
    ensures setup.breaker && setup.deferSuccess && f.breaker && f.retries && f.epoch == setup.epoch != 0
    ensures Plain(f) && Linked(f) && Shows(f.rec, result) && ExpiredBan(f)
    ensures |trail| == 1 && |trail[0].reports| == 1 && trail[0].reports[0].FailureReport?
    ensures Reports(Final(f).calls) == 1 && EndsInSuccess(Final(f).calls)
  {
    setup := Setup(2, true, true, 7, Absent);
    var reply := Reply(Some(Response(403, true, 10)), None);
    var a := Attempt(7, true, 10, reply, false, [FailureReport(403, 10, 10, 7)], 0, false);
    trail, result := [a], Returned(reply);
    var record := Record(Some(10), 7, true, true, true, true);
    f := Facts(true, true, 9, 7, true, record, Bare(403, Headers(Some(20), 20), None), true, false, None, NoHandshake,
               Finished, None, Times(30, 30, 30));
    assert Describes(record, trail) by {
      assert Fails(trail[0]) && StatusFails(trail[0].reply);
    }
    ReportedTwiceExactlyOnExpiredBan(f);
    SuccessExactlyWhen(f);
  }

  /** A retry under epoch 7 whose resend fails to be signed: the proxy cancels the admitted epoch 3 instead. */
  lemma ResendFailsLocally() returns (setup: Setup, trail: seq<Attempt>, result: Result, f: Facts)
    ensures Follows(setup, DefaultCheckRetry, trail, result) && Describes(f.attempt, trail) && EpochsDiffer(trail)
    ensures setup.breaker && setup.deferSuccess && f.breaker && f.retries && f.epoch == setup.epoch != 0
    ensures Plain(f) && Shows(f.rec, result)
    ensures |trail| == 2 && trail[1].epoch == f.Epoch(f.attempt) == 7
    ensures Stranded(trail, f, 1) && !EpochSettled(trail, f, 1)
  {
    setup := Setup(2, true, true, 3, Absent);
    var first := Reply(Some(Response(500, false, 0)), None);
    var second := Reply(None, Some(Err(true, false)));
    var a := Attempt(3, true, 1, first, false, [FailureReport(500, 0, 1, 3)], 0, true);
    var b := Attempt(7, true, 2, second, false, [], 0, false);
    trail, result := [a, b], Returned(second);
    var record := Record(Some(2), 7, false, false, true, true);
    var rec := Bare(502, PLAIN_HEADERS, Some(TransportError(true, false, false)));
    f := Facts(true, true, 0, 3, false, record, rec, false, false, None, NoHandshake, Finished, None, Times(3, 3, 3));
    assert Describes(record, trail) by {
      assert Fails(trail[0]) && StatusFails(trail[0].reply) && !Fails(trail[1]);
    }
    EveryEpochSettledExactlyWhen(setup, DefaultCheckRetry, trail, result, f, 1);
  }

  /** A first reply of 600 under the admitted epoch 3, retried under epoch 7 with a 200 that is handed on: the proxy
      settles epoch 7, and nobody settles epoch 3. */
  lemma StatusOf600IsRetriedUnreported() returns (setup: Setup, trail: seq<Attempt>, result: Result, f: Facts)
    ensures Follows(setup, DefaultCheckRetry, trail, result) && Describes(f.attempt, trail) && EpochsDiffer(trail)
    ensures setup.breaker && setup.deferSuccess && f.breaker && f.retries && f.epoch == setup.epoch
    ensures Plain(f) && Shows(f.rec, result) && EndsInSuccess(Final(f).calls)
    ensures |trail| == 2 && trail[0].epoch == 3 && trail[1].epoch == 7
    ensures trail[0].reply.resp.Some? && trail[0].reply.resp.value.status == 600
    ensures SkippedBy600(trail, f, 0) && !EpochSettled(trail, f, 0) && EpochSettled(trail, f, 1)
  {
    setup := Setup(2, true, true, 3, Absent);
    var first, second := Reply(Some(Response(600, false, 0)), None), Reply(Some(Response(200, false, 0)), None);
    var a := Attempt(3, true, 1, first, false, [], 0, true);
    var b := Attempt(7, true, 2, second, false, [], 0, false);
    trail, result := [a, b], Returned(second);
    var record := Record(Some(2), 7, false, false, false, false);
    f := Facts(true, true, 0, 3, true, record, Bare(200, PLAIN_HEADERS, None), true, false, None, NoHandshake,
               Finished, None, Times(3, 3, 3));
    assert Describes(record, trail) by {
      assert !Fails(trail[0]) && !Fails(trail[1]);
    }
    EveryEpochSettledExactlyWhen(setup, DefaultCheckRetry, trail, result, f, 0);
    EveryEpochSettledExactlyWhen(setup, DefaultCheckRetry, trail, result, f, 1);
    SuccessExactlyWhen(f);
  }

  /** The same upstream 500 with a client that stays and one that leaves: freed at once, and held for the cooldown. */
  lemma DisconnectChangesHold() returns (s: Settings, left: Facts, stayed: Facts)
    ensures !s.breaker && s.failureHold == 0 && s.cancelCooldown > 0
    ensures UpstreamRefused(left) && UpstreamRefused(stayed) && ClientGone(left, 5) && !ClientGone(stayed, 5)
    ensures HoldFor(s, left, Resolved(left), 5) == CancelCooldown && HoldFor(s, stayed, Resolved(stayed), 5) == AtOnce
  {
    s := Settings(false, 0, false, false, 0, 1);
    var record := Record(None, 0, false, false, false, false);
    stayed := Facts(false, false, 0, 0, true, record, Bare(500, PLAIN_HEADERS, None), true, false, None, NoHandshake,
                    Finished, None, Times(3, 3, 3));
    left := stayed.(doneAt := Some(4));
    HoldIgnoresDisconnectExactlyWhen(s, left, 5, stayed, 5);
    RefusalVerdict(left);
    RefusalVerdict(stayed);
  }
}
