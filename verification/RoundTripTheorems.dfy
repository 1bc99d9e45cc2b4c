/** How a round trip of the retry transport ends: for every setup, policy and environment in exactly one way. */
module RoundTripTheorems {
  import opened Prelude
  import opened RetryTransport

  /** What RetryTransport.RoundTrip promises of its trail and result. */
  ghost predicate Performed(setup: Setup, policy: Reply -> bool, script: seq<Round>, patience: nat,
                            trail: seq<Attempt>, result: Result)
  {
    && Follows(setup, policy, trail, result)
    && Answers(setup, script, trail)
    && Watches(setup, policy, script, patience, trail, result)
    && (|script| > |trail| ==> !result.Running?)
    && (result.BodyError? <==> setup.body == Unreadable)
  }

  // ----- One way for each environment -----

  /** Two attempts that differ at most in how their turn ended. */
  predicate SameAttempt(a: Attempt, b: Attempt) {
    a == b.(cancels := a.cancels, respClosed := a.respClosed)
  }

  lemma SameTurn(setup: Setup, policy: Reply -> bool, script: seq<Round>, patience: nat, t: seq<Attempt>, r: Result,
                 u: seq<Attempt>, q: Result, k: nat)
    requires Performed(setup, policy, script, patience, t, r) && Performed(setup, policy, script, patience, u, q)
    requires k < |t| && k < |u|
    ensures SameAttempt(t[k], u[k])
  {
    StartedExactlyWhen(setup, policy, script, patience, t, r, k);
    StartedExactlyWhen(setup, policy, script, patience, u, q, k);
    assert t[k].reports == Expected(setup, t[k]) && u[k].reports == Expected(setup, u[k]);
    assert TurnOf(setup, script[k], k, t[k]) && TurnOf(setup, script[k], k, u[k]);
  }

  lemma StartedExactlyWhen(setup: Setup, policy: Reply -> bool, script: seq<Round>, patience: nat, t: seq<Attempt>,
                           r: Result, k: nat)
    requires Performed(setup, policy, script, patience, t, r) && k < |t|
    ensures t[k].started <==> k == 0 || patience >= 5 * k || script[k].timerFirst
    ensures k < |t| - 1 ==> patience > 5 * k + 3
  {
    assert TurnOf(setup, script[k], k, t[k]);
    if k < |t| - 1 {
      assert Superseded(policy, t[k]);
      if k + 1 < |t| - 1 {
        assert Superseded(policy, t[k + 1]);
      }
    }
  }

  /** What another turn after turn k takes. */
  predicate GoesOnAfter(setup: Setup, policy: Reply -> bool, script: seq<Round>, patience: nat, a: Attempt, k: nat) {
    && a.started && policy(a.reply) && MayRetry(setup, k) && patience > 5 * k + 3
    && k + 1 < |script| && (setup.breaker ==> script[k + 1].allow.Some?)
  }

  lemma GoesOnBeforeLast(setup: Setup, policy: Reply -> bool, script: seq<Round>, patience: nat, u: seq<Attempt>,
                         q: Result, k: nat)
    requires Performed(setup, policy, script, patience, u, q) && k < |u| - 1
    ensures GoesOnAfter(setup, policy, script, patience, u[k], k)
  {
    StartedExactlyWhen(setup, policy, script, patience, u, q, k);
    assert Superseded(policy, u[k]);
    assert TurnOf(setup, script[k + 1], k + 1, u[k + 1]);
  }

  lemma StopsAtLast(setup: Setup, policy: Reply -> bool, script: seq<Round>, patience: nat, t: seq<Attempt>, r: Result)
    requires Performed(setup, policy, script, patience, t, r) && t != []
    ensures !GoesOnAfter(setup, policy, script, patience, t[|t| - 1], |t| - 1)
  {
  }

  lemma NotLonger(setup: Setup, policy: Reply -> bool, script: seq<Round>, patience: nat, t: seq<Attempt>, r: Result,
                  u: seq<Attempt>, q: Result)
    requires Performed(setup, policy, script, patience, t, r) && Performed(setup, policy, script, patience, u, q)
    ensures |u| <= |t|
  {
    if |u| > |t| > 0 {
      var k: nat := |t| - 1;
      StopsAtLast(setup, policy, script, patience, t, r);
      SameTurn(setup, policy, script, patience, t, r, u, q, k);
      GoesOnBeforeLast(setup, policy, script, patience, u, q, k);
    }
  }

  lemma SameEnding(setup: Setup, policy: Reply -> bool, script: seq<Round>, patience: nat, t: seq<Attempt>, r: Result,
                   u: seq<Attempt>, q: Result)
    requires Performed(setup, policy, script, patience, t, r) && Performed(setup, policy, script, patience, u, q)
    requires |t| == |u|
    ensures r == q && (t != [] ==> t[|t| - 1] == u[|t| - 1])
  {
    if t != [] {
      SameTurn(setup, policy, script, patience, t, r, u, q, |t| - 1);
    }
  }

  /** What is promised of a round trip leaves nothing open: setup, policy, environment and the moment the client leaves
      determine every attempt, what is reported of it and cancelled, what is closed, and the result. */
  lemma RoundTripIsDetermined(setup: Setup, policy: Reply -> bool, script: seq<Round>, patience: nat, t: seq<Attempt>,
                              r: Result, u: seq<Attempt>, q: Result)
    requires Performed(setup, policy, script, patience, t, r) && Performed(setup, policy, script, patience, u, q)
    ensures t == u && r == q
  {
    NotLonger(setup, policy, script, patience, t, r, u, q);
    NotLonger(setup, policy, script, patience, u, q, t, r);
    SameEnding(setup, policy, script, patience, t, r, u, q);
    forall k | 0 <= k < |t| - 1
      ensures t[k] == u[k]
    {
      SameTurn(setup, policy, script, patience, t, r, u, q, k);
      assert Superseded(policy, t[k]) && Superseded(policy, u[k]);
    }
  }

  // ----- The client that has left, and the one that stays -----

  /** The loop would go round again after that reply to the turn: the policy asks for it, the body can be sent again and
      the limit, if there is one, allows it. */
  predicate WouldRetry(setup: Setup, policy: Reply -> bool, reply: Reply, turn: nat) {
    && policy(reply)
    && (setup.body == Absent || setup.body == Buffered)
    && (setup.maxRetries < 0 || turn < setup.maxRetries)
  }

  /** A client that has left before the first reply gets no second attempt: its reply is returned all the same, exactly
      unless it is that cancellation or one to retry, and then the round trip cancels its epoch. */
  lemma LeftClientGetsOneAttempt(setup: Setup, policy: Reply -> bool, script: seq<Round>, trail: seq<Attempt>,
                                 result: Result)
    requires Performed(setup, policy, script, 0, trail, result) && trail != []
    ensures |trail| == 1 && trail[0].started && trail[0].abandoned
    ensures var reply := trail[0].reply;
            var gone := (reply.err.Some? && reply.err.value.cancellation) || WouldRetry(setup, policy, reply, 0);
            && result == (if gone then ContextError else Returned(reply))
            && trail[0].cancels == (if gone && setup.breaker then 1 else 0)
            && trail[0].respClosed == (gone && reply.resp.Some?)
  {
    StartedExactlyWhen(setup, policy, script, 0, trail, result, 0);
  }

  /** For a client that stays every attempt is made and none is cancelled; the round trip is refused exactly when the
      breaker admits no retry, and otherwise hands over the first reply that is not to be retried. */
  lemma PatientClientGetsAnswer(setup: Setup, policy: Reply -> bool, script: seq<Round>, patience: nat,
                                trail: seq<Attempt>, result: Result)
    requires Performed(setup, policy, script, patience, trail, result) && patience > 5 * |script|
    ensures forall k :: 0 <= k < |trail| ==> trail[k].started && !trail[k].abandoned && trail[k].cancels == 0
    ensures forall k :: 0 <= k < |trail| - 1 ==> WouldRetry(setup, policy, trail[k].reply, k)
    ensures trail != [] ==>
              var k := |trail| - 1;
              result ==
              if !WouldRetry(setup, policy, trail[k].reply, k) then Returned(trail[k].reply)
              else if k + 1 < |script| then CircuitOpen else Running
    ensures result.CircuitOpen? ==> setup.breaker && script[|trail|].allow.None?
  {
    forall k | 0 <= k < |trail|
      ensures trail[k].started && !trail[k].abandoned && trail[k].cancels == 0
    {
      StartedExactlyWhen(setup, policy, script, patience, trail, result, k);
    }
    forall k | 0 <= k < |trail| - 1
      ensures WouldRetry(setup, policy, trail[k].reply, k)
    {
      assert Superseded(policy, trail[k]);
    }
  }
}
