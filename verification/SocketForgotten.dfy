/** A run of the protocol of module SocketOwnership in which a stop comes to nothing: the request it was to end follows
    a redirect to the same host, and the send that the redirect makes resets the flag. */
module SocketForgotten {
  import opened Wrappers
  import opened SocketOwnership
  import opened SocketAlone

  lemma {:induction false} RunInTwo(s: State, a: Schedule, b: Schedule)
    requires Run(s, a).Some?
    ensures Run(s, a + b) == Run(Run(s, a).value, b)
    decreases a
  {
    if a == [] {
      assert a + b == b;
    } else {
      RunInTwo(Step(s, a[0].0, a[0].1).value, a[1..], b);
      assert (a + b)[1..] == a[1..] + b;
    }
  }

  /** Where a thread gets on its own, as a run. */
  lemma LeadsAsRun(t: ThreadId, x: Place, y: Place, stacks: map<ThreadId, Stack>)
    requires Leads(t, x, y) && y.choices == Done
    ensures Run(State(x.g, stacks[t := x.stack]), By(t, x.choices)) == Some(State(y.g, stacks[t := y.stack]))
  {
  }

  /** A first request that connects, and goes on as it may. */
  function First(reply: Reply): Attempt { Attempt(false, true, true, false, reply) }

  const SENT: Attempt := Attempt(true, true, false, false, Ends(true))

  /** The client while its first request is in flight. */
  const BUSY: Globals := During(FRESH.(open := true), 0)

  function Exchanging(redirects: nat): Frame { Frame(Using(Exchange), redirects, false, true) }

  /** Thread 0 sends a request, up to the exchange. */
  lemma Sends(redirects: nat, a: Attempt)
    requires a == First(Redirects(SENT))
    ensures Run(INITIAL, By(0, Then(BeginSend(redirects, false), OpenChoices(false, a, Done))))
         == Some(State(BUSY, map[0 := [Exchanging(redirects)]]))
  {
    var call, choices := SendCall(redirects, false), OpenChoices(false, a, Done);
    var x := At(FRESH, [] + [call], choices);
    StaysThere(0, x);
    OpensAlone(0, x, FRESH, [], call, a, Done);
    assert [] + [call] == [call] && [] + [Exchanging(redirects)] == [Exchanging(redirects)];
    assert FRESH.(open := true, shouldClose := false) == FRESH.(open := true);
    LeadsAsRun(0, x, At(BUSY, [] + [Exchanging(redirects)], Done), map[]);
    Once(INITIAL, 0, BeginSend(redirects, false), choices);
  }

  /** Thread 1 stops the client, up to its unlocking. */
  lemma Stops(stacks: map<ThreadId, Stack>)
    requires 1 !in stacks
    ensures Run(State(BUSY, stacks), By(1, Then(BeginStop, Then(YES, Then(YES, Then(YES, Done))))))
         == Some(State(BUSY.(socketOwner := Some(1), shouldClose := true),
                       stacks[1 := [STOP_CALL.(pc := Stopping(StopUnlock))]]))
  {
    var held, choices := BUSY.(socketOwner := Some(1)), Then(YES, Then(YES, Then(YES, Done)));
    var x := At(BUSY, [] + [STOP_CALL], choices);
    StaysThere(1, x);
    Goes(1, x, BUSY, [], STOP_CALL, YES, Then(YES, Then(YES, Done)), held, STOP_CALL.(pc := Stopping(StopCheck)));
    Goes(1, x, held, [], STOP_CALL.(pc := Stopping(StopCheck)), YES, Then(YES, Done),
         held, STOP_CALL.(pc := Stopping(StopFlag)));
    Goes(1, x, held, [], STOP_CALL.(pc := Stopping(StopFlag)), YES, Done,
         held.(shouldClose := true), STOP_CALL.(pc := Stopping(StopUnlock)));
    var last := STOP_CALL.(pc := Stopping(StopUnlock));
    assert [] + [STOP_CALL] == [STOP_CALL] && [] + [last] == [last];
    LeadsAsRun(1, x, At(held.(shouldClose := true), [] + [last], Done), stacks);
    Once(State(BUSY, stacks), 1, BeginStop, choices);
  }

  /** The response redirects: the nested send resets the flag and leaves the socket open. */
  lemma Replies(x: Place, redirects: nat, a: Attempt, more: Choices)
    requires redirects > 0 && a == First(Redirects(SENT))
    requires Leads(0, x, At(BUSY.(shouldClose := true), [] + [Exchanging(redirects)],
                            ReplyChoices(redirects, false, a, more)))
    ensures Leads(0, x, At(BUSY, [] + [Exchanging(redirects).(pc := Leaving(LockForLeave))], more))
  {
    var g, call, o := BUSY.(shouldClose := true), Exchanging(redirects), Outcome(true, false, true);
    assert Replied(redirects, false, a) == Sent(true, redirects - 1, false, SENT) == o;
    assert Left(g, o) == BUSY;
    assert call.(pc := Leaving(LockForLeave), ok := true) == call.(pc := Leaving(LockForLeave));
    RepliesAlone(0, x, g, [], call, a, more);
  }

  /** And the send that waited for it returns, the socket still open. */
  lemma Returns(x: Place, redirects: nat)
    requires Leads(0, x, At(BUSY, [] + [Exchanging(redirects).(pc := Leaving(LockForLeave))],
                            LeaveChoices(false, Done)))
    ensures Leads(0, x, At(FRESH.(open := true), [], Done))
  {
    var g, call := FRESH.(open := true), Exchanging(redirects).(pc := Leaving(LockForLeave));
    assert !Closes(g, call) && g.(open := g.open && true) == g && Returned([], true) == [];
    LeavesAlone(0, x, g, [], call, Done);
  }

  lemma RedirectedRun(redirects: nat, a: Attempt, choices: Choices, stacks: map<ThreadId, Stack>)
    requires redirects > 0 && a == First(Redirects(SENT))
    requires choices == ReplyChoices(redirects, false, a, LeaveChoices(false, Done))
    ensures Run(State(BUSY.(shouldClose := true), stacks[0 := [Exchanging(redirects)]]), By(0, choices))
         == Some(State(FRESH.(open := true), stacks[0 := []]))
  {
    var x := At(BUSY.(shouldClose := true), [] + [Exchanging(redirects)], choices);
    StaysThere(0, x);
    Replies(x, redirects, a, LeaveChoices(false, Done));
    Returns(x, redirects);
    assert [] + [Exchanging(redirects)] == [Exchanging(redirects)];
    LeadsAsRun(0, x, At(FRESH.(open := true), [], Done), stacks);
  }

  /** The flag has been set, and the stop is about to unlock. */
  function Flagged(redirects: nat): State {
    State(BUSY.(socketOwner := Some(1), shouldClose := true),
          map[0 := [Exchanging(redirects)]][1 := [STOP_CALL.(pc := Stopping(StopUnlock))]])
  }

  lemma GetsFlagged(redirects: nat)
    ensures Reachable(Flagged(redirects))
  {
    var a := First(Redirects(SENT));
    var sending := By(0, Then(BeginSend(redirects, false), OpenChoices(false, a, Done)));
    var stopping := By(1, Then(BeginStop, Then(YES, Then(YES, Then(YES, Done)))));
    Sends(redirects, a);
    Stops(map[0 := [Exchanging(redirects)]]);
    RunInTwo(INITIAL, sending, stopping);
    assert Run(INITIAL, sending + stopping) == Some(Flagged(redirects));
  }

  lemma Unlocks(redirects: nat)
    ensures Run(Flagged(redirects), [(1, YES)])
         == Some(State(BUSY.(shouldClose := true), map[1 := []][0 := [Exchanging(redirects)]]))
  {
    var flagged := Flagged(redirects);
    assert flagged.StackOf(1)[..0] == [] && [(1, YES)][1..] == [];
    assert flagged.g.(socketOwner := None) == BUSY.(shouldClose := true);
    assert flagged.stacks[1 := []] == map[1 := []][0 := [Exchanging(redirects)]];
  }

  /** The stop comes to nothing when the response redirects to the same host: a run from the moment the flag is set to
      the end of both calls, after which the socket is open. */
  lemma StopForgotten(redirects: nat) returns (flagged: State, schedule: Schedule, ended: State)
    requires redirects > 0
    ensures Reachable(flagged) && flagged.g.shouldClose && flagged.g.inFlight > 0
    ensures AtPc(flagged, 1, Stopping(StopUnlock)) && AtPc(flagged, 0, Using(Exchange))
    ensures Run(flagged, schedule) == Some(ended)
    ensures ended.g.open && ended.g.inFlight == 0 && !ended.g.shouldClose
    ensures ended.StackOf(0) == [] && ended.StackOf(1) == []
  {
    var a := First(Redirects(SENT));
    var choices := ReplyChoices(redirects, false, a, LeaveChoices(false, Done));
    GetsFlagged(redirects);
    Unlocks(redirects);
    RedirectedRun(redirects, a, choices, map[1 := []]);
    flagged, schedule := Flagged(redirects), [(1, YES)] + By(0, choices);
    RunInTwo(flagged, [(1, YES)], By(0, choices));
    ended := State(FRESH.(open := true), map[1 := []][0 := []]);
  }
}
