/** What a call of `send` or `stop` amounts to when its thread runs alone: the statements of module SocketOwnership,
    one after the other, against a description of the whole call. */
module SocketAlone {
  import opened Wrappers
  import opened SocketOwnership

  // ----- A whole request -----

  /** How a request goes: it fails on the way, or `handle_request` returns, or the response redirects. */
  datatype Reply = Fails | Ends(ok: bool) | Redirects(next: Attempt)

  /** What a send meets: whether an open socket is alive, whether connecting succeeds, whether a callback stops the
      client during the exchange, whether the response asks for the socket to be closed, and what becomes of it. */
  datatype Attempt = Attempt(alive: bool, connects: bool, stopped: bool, asksClose: bool, reply: Reply)

  /** What a send leaves: the socket, the flag by which a stop asks for it to be closed, and its result. */
  datatype Outcome = Outcome(open: bool, shouldClose: bool, ok: bool)

  /** A socket is kept only after a success on a connection kept alive, unless a stop has asked for it. */
  function Kept(closeConnection: bool, o: Outcome): Outcome {
    o.(open := o.open && o.ok && !o.shouldClose && !closeConnection)
  }

  predicate Connects(open: bool, a: Attempt) { (open && a.alive) || a.connects }

  /** A send, from whether the socket is open. */
  function Sent(open: bool, redirects: nat, closeConnection: bool, a: Attempt): Outcome
    decreases redirects, 1
  {
    if Connects(open, a) then Kept(closeConnection, Replied(redirects, closeConnection, a))
    else Outcome(false, false, false)
  }

  /** The send when its request is over, before it decides about the socket. */
  function Replied(redirects: nat, closeConnection: bool, a: Attempt): Outcome
    decreases redirects, 0
  {
    match a.reply
    case Fails => Outcome(true, a.stopped, false)
    case Ends(ok) => Outcome(!a.asksClose, a.stopped, ok)
    case Redirects(next) =>
      if redirects == 0 then Outcome(!a.asksClose, a.stopped, false)
      else Sent(!a.asksClose, redirects - 1, closeConnection, next)
  }

  /** The request that answers in the end, behind all redirects that are followed. */
  function LastAttempt(redirects: nat, a: Attempt): Attempt {
    if a.reply.Redirects? && redirects > 0 then LastAttempt(redirects - 1, a.reply.next) else a
  }

  /** The socket stays open exactly after a success of a client that keeps its connection, when the last response has
      not asked for it to be closed and no callback has stopped the client since the last redirect. */
  lemma {:induction false} StaysOpen(open: bool, redirects: nat, closeConnection: bool, a: Attempt)
    ensures var o, last := Sent(open, redirects, closeConnection, a), LastAttempt(redirects, a);
            && (o.open <==> o.ok && !closeConnection && !last.asksClose && !last.stopped)
            && (o.ok ==> last.reply == Ends(true))
    decreases redirects
  {
    if a.reply.Redirects? && redirects > 0 {
      StaysOpen(!a.asksClose, redirects - 1, closeConnection, a.reply.next);
    }
  }

  // ----- The statements of one thread -----

  datatype Choices = Done | Then(first: Choice, more: Choices)

  function By(t: ThreadId, choices: Choices): Schedule {
    match choices
    case Done => []
    case Then(c, more) => [(t, c)] + By(t, more)
  }

  /** The choice where there is none. */
  const YES: Choice := Go(true)

  /** Where a thread stands, and what it is still to choose. */
  datatype Place = At(g: Globals, stack: Stack, choices: Choices)

  /** Whatever the other threads are in the middle of, thread `t` gets from `x` to `y` on its own. */
  ghost predicate Leads(t: ThreadId, x: Place, y: Place) {
    forall stacks: map<ThreadId, Stack> {:trigger Run(State(x.g, stacks[t := x.stack]), By(t, x.choices))} ::
      Run(State(x.g, stacks[t := x.stack]), By(t, x.choices)) == Run(State(y.g, stacks[t := y.stack]), By(t, y.choices))
  }

  /** The innermost call makes its next statement. */
  lemma Next(t: ThreadId, from: Place, g: Globals, rest: Stack, top: Frame, c: Choice, more: Choices, g': Globals,
             stack': Stack)
    requires Leads(t, from, At(g, rest + [top], Then(c, more)))
    requires var e := Statement(g, t, top, c); e.Some? && e.value.0 == g' && Moved(rest, top, e.value.1) == stack'
    ensures Leads(t, from, At(g', stack', more))
  {
    assert (rest + [top])[..|rest|] == rest;
    forall stacks: map<ThreadId, Stack> {:trigger Run(State(g, stacks[t := rest + [top]]), By(t, Then(c, more)))}
      ensures Run(State(g, stacks[t := rest + [top]]), By(t, Then(c, more)))
           == Run(State(g', stacks[t := stack']), By(t, more))
    {
      Once(State(g, stacks[t := rest + [top]]), t, c, more);
      assert stacks[t := rest + [top]][t := stack'] == stacks[t := stack'];
    }
  }

  lemma Once(s: State, t: ThreadId, c: Choice, more: Choices)
    requires Step(s, t, c).Some?
    ensures Run(s, By(t, Then(c, more))) == Run(Step(s, t, c).value, By(t, more))
  {
    assert By(t, Then(c, more))[1..] == By(t, more);
  }

  /** A statement that leads to another one of the same call. */
  lemma Goes(t: ThreadId, from: Place, g: Globals, rest: Stack, top: Frame, c: Choice, more: Choices, g': Globals,
             top': Frame)
    requires Leads(t, from, At(g, rest + [top], Then(c, more)))
    requires Statement(g, t, top, c) == Some((g', To(top'.pc, top'.ok)))
    requires top' == top.(pc := top'.pc, ok := top'.ok)
    ensures Leads(t, from, At(g', rest + [top'], more))
  {
    Next(t, from, g, rest, top, c, more, g', rest + [top']);
  }

  // ----- stop -----

  function StopChoices(flags: bool, more: Choices): Choices {
    Then(YES, Then(YES, if flags then Then(YES, Then(YES, more)) else Then(YES, Then(YES, Then(YES, more)))))
  }

  function AfterStop(g: Globals): Globals {
    if g.inFlight > 0 then g.(shouldClose := true) else g.(open := false)
  }

  /** A stop on its own tells the request in flight to close the socket, or closes it, and leaves everything else. */
  lemma StopAlone(t: ThreadId, from: Place, g: Globals, rest: Stack, more: Choices)
    requires g.socketOwner == None && (rest != [] ==> rest[|rest| - 1].pc != AWAITING)
    requires Leads(t, from, At(g, rest + [STOP_CALL], StopChoices(g.inFlight > 0, more)))
    ensures Leads(t, from, At(AfterStop(g), rest, more))
  {
    var held, call, end := g.(socketOwner := Some(t)), STOP_CALL, Then(YES, more);
    var checked := call.(pc := Stopping(StopCheck));
    if g.inFlight > 0 {
      Goes(t, from, g, rest, call, YES, Then(YES, Then(YES, end)), held, checked);
      Goes(t, from, held, rest, checked, YES, Then(YES, end), held, call.(pc := Stopping(StopFlag)));
      Goes(t, from, held, rest, call.(pc := Stopping(StopFlag)), YES, end,
           held.(shouldClose := true), call.(pc := Stopping(StopUnlock)));
      Next(t, from, held.(shouldClose := true), rest, call.(pc := Stopping(StopUnlock)), YES, more, AfterStop(g), rest);
    } else {
      Goes(t, from, g, rest, call, YES, Then(YES, Then(YES, Then(YES, end))), held, checked);
      Goes(t, from, held, rest, checked, YES, Then(YES, Then(YES, end)), held, call.(pc := Stopping(StopSsl)));
      Goes(t, from, held, rest, call.(pc := Stopping(StopSsl)), YES, Then(YES, end),
           held, call.(pc := Stopping(StopClose)));
      Goes(t, from, held, rest, call.(pc := Stopping(StopClose)), YES, end,
           held.(open := false), call.(pc := Stopping(StopUnlock)));
      Next(t, from, held.(open := false), rest, call.(pc := Stopping(StopUnlock)), YES, more, AfterStop(g), rest);
    }
  }

  // ----- send: opening the socket -----

  /** The two mutexes taken. */
  function Locked(g: Globals, t: ThreadId): Globals {
    g.(requestOwner := Some(t), requestDepth := g.requestDepth + 1, socketOwner := Some(t))
  }

  /** While the send is in flight. */
  function During(g: Globals, t: ThreadId): Globals {
    g.(requestOwner := Some(t), requestDepth := g.requestDepth + 1, inFlight := g.inFlight + 1, fromThread := Some(t))
  }

  function ConnectChoices(open: bool, a: Attempt, more: Choices): Choices {
    if open && a.alive then more
    else if open then Then(YES, Then(YES, Then(Go(a.connects), more)))
    else Then(Go(a.connects), more)
  }

  /** From calling send to the exchange, or to the return of a send that cannot connect. */
  function OpenChoices(open: bool, a: Attempt, more: Choices): Choices {
    Then(YES, Then(YES, Then(YES, Then(Go(a.alive), ConnectChoices(open, a, Then(YES, Then(YES, more)))))))
  }

  /** Where the test of the socket leads. */
  function Checked(open: bool, alive: bool): Pc {
    Opening(if !open then Connect else if alive then Mark else DeadSsl)
  }

  /** The request mutex, the socket mutex and the flag. */
  lemma LocksAlone(t: ThreadId, from: Place, g: Globals, rest: Stack, call: Frame, alive: bool, more: Choices)
    requires g.socketOwner == None && g.requestOwner in {None, Some(t)} && call.pc == Opening(LockRequest)
    requires Leads(t, from, At(g, rest + [call], Then(YES, Then(YES, Then(YES, Then(Go(alive), more))))))
    ensures Leads(t, from, At(Locked(g.(shouldClose := false), t),
                              rest + [call.(pc := Checked(g.open, alive), ok := true)], more))
  {
    var g1 := g.(requestOwner := Some(t), requestDepth := g.requestDepth + 1);
    var g2, last := Locked(g.(shouldClose := false), t), Then(Go(alive), more);
    var at := call.(ok := true);
    Goes(t, from, g, rest, call, YES, Then(YES, Then(YES, last)), g1, at.(pc := Opening(LockForOpen)));
    Goes(t, from, g1, rest, at.(pc := Opening(LockForOpen)), YES, Then(YES, last),
         Locked(g, t), at.(pc := Opening(ResetFlag)));
    Goes(t, from, Locked(g, t), rest, at.(pc := Opening(ResetFlag)), YES, last, g2, at.(pc := Opening(CheckAlive)));
    Goes(t, from, g2, rest, at.(pc := Opening(CheckAlive)), Go(alive), more, g2, at.(pc := Checked(g.open, alive)));
  }

  /** A dead socket is closed. */
  lemma ClosesDeadAlone(t: ThreadId, from: Place, g: Globals, rest: Stack, call: Frame, more: Choices)
    requires call.pc == Opening(DeadSsl) && call.ok
    requires Leads(t, from, At(Locked(g, t), rest + [call], Then(YES, Then(YES, more))))
    ensures Leads(t, from, At(Locked(g.(open := false), t), rest + [call.(pc := Opening(Connect))], more))
  {
    var held := Locked(g, t);
    Goes(t, from, held, rest, call, YES, Then(YES, more), held, call.(pc := Opening(DeadClose)));
    Goes(t, from, held, rest, call.(pc := Opening(DeadClose)), YES, more,
         Locked(g.(open := false), t), call.(pc := Opening(Connect)));
  }

  /** A socket that is not alive is connected, or the send is about to fail. */
  lemma ConnectsAlone(t: ThreadId, from: Place, g: Globals, rest: Stack, call: Frame, a: Attempt, more: Choices)
    requires call.ok && call.pc == Checked(g.open, a.alive)
    requires Leads(t, from, At(Locked(g, t), rest + [call], ConnectChoices(g.open, a, more)))
    ensures var connects := Connects(g.open, a);
            Leads(t, from, At(Locked(g.(open := connects), t),
                              rest + [call.(pc := Opening(if connects then Mark else UnlockFailed), ok := connects)],
                              more))
  {
    if g.open && a.alive {
      assert g == g.(open := true) && call == call.(pc := Opening(Mark), ok := true);
    } else {
      var shut, end := Locked(g.(open := false), t), Then(Go(a.connects), more);
      if g.open {
        ClosesDeadAlone(t, from, g, rest, call, end);
      } else {
        assert Locked(g, t) == shut && call == call.(pc := Opening(Connect));
      }
      Goes(t, from, shut, rest, call.(pc := Opening(Connect)), Go(a.connects), more, Locked(g.(open := a.connects), t),
           call.(pc := Opening(if a.connects then Mark else UnlockFailed), ok := a.connects));
    }
  }

  /** With a socket, the send marks it and goes into the exchange. */
  lemma MarksAlone(t: ThreadId, from: Place, g: Globals, rest: Stack, call: Frame, more: Choices)
    requires g.socketOwner == None && call.pc == Opening(Mark) && call.ok
    requires Leads(t, from, At(Locked(g, t), rest + [call], Then(YES, Then(YES, more))))
    ensures Leads(t, from, At(During(g, t), rest + [call.(pc := Using(Exchange))], more))
  {
    var marked := During(g, t).(socketOwner := Some(t));
    Goes(t, from, Locked(g, t), rest, call, YES, Then(YES, more), marked, call.(pc := Opening(UnlockOpened)));
    Goes(t, from, marked, rest, call.(pc := Opening(UnlockOpened)), YES, more,
         During(g, t), call.(pc := Using(Exchange)));
  }

  /** The calls in progress after a send has returned `ok` to the calls `rest`. */
  function Returned(rest: Stack, ok: bool): Stack {
    Moved(rest, Frame(Leaving(ReleaseRequest), 0, false, ok), Leave)
  }

  /** The request mutex is given back: the send called with `g` returns. */
  lemma ReleasesAlone(t: ThreadId, from: Place, g: Globals, rest: Stack, call: Frame, more: Choices)
    requires g.requestOwner in {None, Some(t)} && GlobalInv(g) && call.pc == Leaving(ReleaseRequest)
    requires Leads(t, from, At(g.(requestOwner := Some(t), requestDepth := g.requestDepth + 1), rest + [call],
                               Then(YES, more)))
    ensures Leads(t, from, At(g, Returned(rest, call.ok), more))
  {
    Next(t, from, g.(requestOwner := Some(t), requestDepth := g.requestDepth + 1), rest, call, YES, more,
         g, Returned(rest, call.ok));
  }

  /** The socket mutex is given back before. */
  lemma UnlocksAlone(t: ThreadId, from: Place, g: Globals, rest: Stack, call: Frame, more: Choices)
    requires g.socketOwner == None && g.requestOwner in {None, Some(t)} && GlobalInv(g)
    requires call.pc == Leaving(UnlockLeft) || (call.pc == Opening(UnlockFailed) && !call.ok)
    requires Leads(t, from, At(Locked(g, t), rest + [call], Then(YES, Then(YES, more))))
    ensures Leads(t, from, At(g, Returned(rest, call.ok), more))
  {
    var held, unlocked := Locked(g, t), Locked(g, t).(socketOwner := None);
    if call.pc.Leaving? {
      Goes(t, from, held, rest, call, YES, Then(YES, more), unlocked, call.(pc := Leaving(ReleaseRequest)));
    } else {
      Goes(t, from, held, rest, call, YES, Then(YES, more), unlocked, call.(pc := Leaving(ReleaseRequest)));
    }
    assert unlocked == g.(requestOwner := Some(t), requestDepth := g.requestDepth + 1);
    ReleasesAlone(t, from, g, rest, call.(pc := Leaving(ReleaseRequest)), more);
  }

  /** A send that gets a socket, and one that does not. */
  lemma OpensAlone(t: ThreadId, from: Place, g: Globals, rest: Stack, call: Frame, a: Attempt, more: Choices)
    requires g.socketOwner == None && g.requestOwner in {None, Some(t)} && GlobalInv(g)
    requires call.pc == Opening(LockRequest)
    requires Leads(t, from, At(g, rest + [call], OpenChoices(g.open, a, more)))
    ensures Connects(g.open, a) ==>
              Leads(t, from, At(During(g.(open := true, shouldClose := false), t),
                                rest + [call.(pc := Using(Exchange), ok := true)], more))
    ensures !Connects(g.open, a) ==>
              Leads(t, from, At(g.(open := false, shouldClose := false), Returned(rest, false), more))
  {
    var g', checked := g.(shouldClose := false), call.(pc := Checked(g.open, a.alive), ok := true);
    LocksAlone(t, from, g, rest, call, a.alive, ConnectChoices(g.open, a, Then(YES, Then(YES, more))));
    ConnectsAlone(t, from, g', rest, checked, a, Then(YES, Then(YES, more)));
    if Connects(g.open, a) {
      assert g'.(open := true) == g.(open := true, shouldClose := false);
      assert checked.(pc := Using(Exchange)) == call.(pc := Using(Exchange), ok := true);
      MarksAlone(t, from, g'.(open := true), rest, checked.(pc := Opening(Mark), ok := true), more);
    } else {
      assert g'.(open := false) == g.(open := false, shouldClose := false);
      UnlocksAlone(t, from, g'.(open := false), rest, checked.(pc := Opening(UnlockFailed), ok := false), more);
    }
  }

  // ----- send: the request -----

  function CallbackChoices(stopped: bool, more: Choices): Choices {
    if stopped then Then(BeginStop, StopChoices(true, more)) else more
  }

  function RespondChoices(asksClose: bool, more: Choices): Choices {
    if asksClose then Then(AskClose, Then(YES, Then(YES, Then(YES, Then(YES, more))))) else Then(YES, more)
  }

  /** A callback stops the client. */
  lemma CallbackAlone(t: ThreadId, from: Place, g: Globals, rest: Stack, call: Frame, stopped: bool, more: Choices)
    requires g.socketOwner == None && g.inFlight > 0 && !g.shouldClose && call.pc == Using(Exchange)
    requires Leads(t, from, At(g, rest + [call], CallbackChoices(stopped, more)))
    ensures Leads(t, from, At(g.(shouldClose := stopped), rest + [call], more))
  {
    if stopped {
      Next(t, from, g, rest, call, BeginStop, StopChoices(true, more), g, rest + [call] + [STOP_CALL]);
      StopAlone(t, from, g, rest + [call], more);
    } else {
      assert g == g.(shouldClose := false);
    }
  }

  /** The response is read, and the socket closed when it asks for that. */
  lemma RespondsAlone(t: ThreadId, from: Place, g: Globals, rest: Stack, call: Frame, asksClose: bool, more: Choices)
    requires g.socketOwner == None && g.open && call.pc == Using(Exchange) && call.ok
    requires Leads(t, from, At(g, rest + [call], RespondChoices(asksClose, more)))
    ensures Leads(t, from, At(g.(open := !asksClose), rest + [call.(pc := Using(Responded))], more))
  {
    if asksClose {
      var held, end := g.(socketOwner := Some(t)), Then(YES, more);
      Goes(t, from, g, rest, call, AskClose, Then(YES, Then(YES, Then(YES, end))), g, call.(pc := Using(LockForClose)));
      Goes(t, from, g, rest, call.(pc := Using(LockForClose)), YES, Then(YES, Then(YES, end)),
           held, call.(pc := Using(ClosingSsl)));
      Goes(t, from, held, rest, call.(pc := Using(ClosingSsl)), YES, Then(YES, end),
           held, call.(pc := Using(ClosingClose)));
      Goes(t, from, held, rest, call.(pc := Using(ClosingClose)), YES, end,
           held.(open := false), call.(pc := Using(UnlockClosed)));
      Goes(t, from, held.(open := false), rest, call.(pc := Using(UnlockClosed)), YES, more,
           g.(open := false), call.(pc := Using(Responded)));
    } else {
      assert g == g.(open := true);
      Goes(t, from, g, rest, call, YES, more, g, call.(pc := Using(Responded)));
    }
  }

  // ----- send: the end -----

  function LeaveChoices(closes: bool, more: Choices): Choices {
    var end := Then(YES, Then(YES, more));
    Then(YES, Then(YES, Then(YES, if closes then Then(YES, Then(YES, end)) else end)))
  }

  predicate Closes(g: Globals, call: Frame) { g.shouldClose || call.closeConnection || !call.ok }

  /** The socket is closed. */
  lemma ClosesAlone(t: ThreadId, from: Place, g: Globals, rest: Stack, call: Frame, more: Choices)
    requires call.pc == Leaving(LeaveSsl)
    requires Leads(t, from, At(Locked(g, t), rest + [call], Then(YES, Then(YES, more))))
    ensures Leads(t, from, At(Locked(g.(open := false), t), rest + [call.(pc := Leaving(UnlockLeft))], more))
  {
    var held := Locked(g, t);
    Goes(t, from, held, rest, call, YES, Then(YES, more), held, call.(pc := Leaving(LeaveClose)));
    Goes(t, from, held, rest, call.(pc := Leaving(LeaveClose)), YES, more,
         Locked(g.(open := false), t), call.(pc := Leaving(UnlockLeft)));
  }

  /** The request is marked as over, and the send decides about the socket. */
  lemma DecidesAlone(t: ThreadId, from: Place, g: Globals, rest: Stack, call: Frame, more: Choices)
    requires g.socketOwner == None && g.requestOwner in {None, Some(t)} && GlobalInv(g)
    requires call.pc == Leaving(LockForLeave)
    requires Leads(t, from, At(During(g, t), rest + [call], Then(YES, Then(YES, Then(YES, more)))))
    ensures Leads(t, from, At(Locked(g, t),
                              rest + [call.(pc := Leaving(if Closes(g, call) then LeaveSsl else UnlockLeft))], more))
  {
    var during, locked := During(g, t), During(g, t).(socketOwner := Some(t));
    Goes(t, from, during, rest, call, YES, Then(YES, Then(YES, more)), locked, call.(pc := Leaving(Decrement)));
    Goes(t, from, locked, rest, call.(pc := Leaving(Decrement)), YES, Then(YES, more),
         Locked(g, t), call.(pc := Leaving(Decide)));
    Goes(t, from, Locked(g, t), rest, call.(pc := Leaving(Decide)), YES, more,
         Locked(g, t), call.(pc := Leaving(if Closes(g, call) then LeaveSsl else UnlockLeft)));
  }

  /** From the end of a request out of the send. */
  lemma LeavesAlone(t: ThreadId, from: Place, g: Globals, rest: Stack, call: Frame, more: Choices)
    requires g.socketOwner == None && g.requestOwner in {None, Some(t)} && GlobalInv(g)
    requires call.pc == Leaving(LockForLeave)
    requires Leads(t, from, At(During(g, t), rest + [call], LeaveChoices(Closes(g, call), more)))
    ensures Leads(t, from, At(g.(open := g.open && !Closes(g, call)), Returned(rest, call.ok), more))
  {
    var end := Then(YES, Then(YES, more));
    if Closes(g, call) {
      DecidesAlone(t, from, g, rest, call, Then(YES, Then(YES, end)));
      ClosesAlone(t, from, g, rest, call.(pc := Leaving(LeaveSsl)), end);
      assert call.(pc := Leaving(LeaveSsl)).(pc := Leaving(UnlockLeft)) == call.(pc := Leaving(UnlockLeft));
      UnlocksAlone(t, from, g.(open := false), rest, call.(pc := Leaving(UnlockLeft)), more);
    } else {
      assert g == g.(open := g.open);
      DecidesAlone(t, from, g, rest, call, end);
      UnlocksAlone(t, from, g, rest, call.(pc := Leaving(UnlockLeft)), more);
    }
  }

  // ----- send: all of it -----

  /** From the exchange to the end of the request. */
  function ReplyChoices(redirects: nat, closeConnection: bool, a: Attempt, more: Choices): Choices
    decreases redirects, 0
  {
    match a.reply
    case Fails => Then(Go(false), more)
    case Ends(ok) => RespondChoices(a.asksClose, Then(Go(ok), more))
    case Redirects(next) =>
      RespondChoices(a.asksClose,
                     Then(Redirect, if redirects == 0 then more
                                    else SendChoices(!a.asksClose, redirects - 1, closeConnection, next, more)))
  }

  /** The choices by which a send goes as described. */
  function SendChoices(open: bool, redirects: nat, closeConnection: bool, a: Attempt, more: Choices): Choices
    decreases redirects, 1
  {
    var o := Replied(redirects, closeConnection, a);
    OpenChoices(open, a,
                if Connects(open, a) then
                  CallbackChoices(a.stopped,
                                  ReplyChoices(redirects, closeConnection, a,
                                               LeaveChoices(o.shouldClose || closeConnection || !o.ok, more)))
                else more)
  }

  /** What the send called with `g` leaves of it. */
  function Left(g: Globals, o: Outcome): Globals {
    g.(open := o.open, shouldClose := o.shouldClose)
  }

  /** The request ends with the response. */
  lemma AnswersAlone(t: ThreadId, from: Place, g: Globals, rest: Stack, call: Frame, asksClose: bool, c: Choice,
                     ok: bool, more: Choices)
    requires g.socketOwner == None && g.open && call.pc == Using(Exchange) && call.ok
    requires c == Go(ok) || (c == Redirect && call.redirects == 0 && !ok)
    requires Leads(t, from, At(g, rest + [call], RespondChoices(asksClose, Then(c, more))))
    ensures Leads(t, from, At(g.(open := !asksClose), rest + [call.(pc := Leaving(LockForLeave), ok := ok)], more))
  {
    var answered, g' := call.(pc := Using(Responded)), g.(open := !asksClose);
    RespondsAlone(t, from, g, rest, call, asksClose, Then(c, more));
    Goes(t, from, g', rest, answered, c, more, g', call.(pc := Leaving(LockForLeave), ok := ok));
  }

  /** The response makes the send call itself. */
  lemma RedirectsAlone(t: ThreadId, from: Place, g: Globals, rest: Stack, call: Frame, open: bool, called: Frame,
                       more: Choices)
    requires g.socketOwner == None && g.open && call.pc == Using(Exchange) && call.ok && call.redirects > 0
    requires called == SendCall(call.redirects - 1, call.closeConnection)
    requires Leads(t, from, At(g, rest + [call], RespondChoices(!open, Then(Redirect, more))))
    ensures Leads(t, from, At(g.(open := open), rest + [call.(pc := AWAITING)] + [called], more))
  {
    RespondsAlone(t, from, g, rest, call, !open, Then(Redirect, more));
    assert g.(open := !!open) == g.(open := open);
    Next(t, from, g.(open := open), rest, call.(pc := Using(Responded)), Redirect, more, g.(open := open),
         rest + [call.(pc := AWAITING)] + [called]);
  }

  /** The send that waits for its redirect goes on with the result. */
  lemma GoesOnAlone(t: ThreadId, from: Place, g: Globals, open: bool, o: Outcome, rest: Stack, call: Frame,
                    more: Choices)
    requires Leads(t, from, At(Left(g.(open := open), o), Returned(rest + [call.(pc := AWAITING)], o.ok), more))
    ensures Leads(t, from, At(Left(g, o), rest + [call.(pc := Leaving(LockForLeave), ok := o.ok)], more))
  {
    assert Left(g.(open := open), o) == Left(g, o);
    assert (rest + [call.(pc := AWAITING)])[..|rest|] == rest;
    assert Returned(rest + [call.(pc := AWAITING)], o.ok) == rest + [call.(pc := Leaving(LockForLeave), ok := o.ok)];
  }

  /** A redirect is followed: `inner` is what the send it makes chooses, `o` what that send leaves. */
  lemma {:induction false} FollowsAlone(t: ThreadId, from: Place, g: Globals, rest: Stack, call: Frame, open: bool,
                                        redirects: nat, next: Attempt, inner: Choices, o: Outcome, more: Choices)
    requires g.socketOwner == None && g.requestOwner == Some(t) && GlobalInv(g) && g.open
    requires call.pc == Using(Exchange) && call.ok && call.redirects == redirects + 1
    requires o == Sent(open, redirects, call.closeConnection, next)
    requires inner == SendChoices(open, redirects, call.closeConnection, next, more)
    requires Leads(t, from, At(g, rest + [call], RespondChoices(!open, Then(Redirect, inner))))
    ensures Leads(t, from, At(Left(g, o), rest + [call.(pc := Leaving(LockForLeave), ok := o.ok)], more))
    decreases redirects, 4
  {
    var waiting, called := rest + [call.(pc := AWAITING)], SendCall(redirects, call.closeConnection);
    RedirectsAlone(t, from, g, rest, call, open, called, inner);
    SendAlone(t, from, g.(open := open), waiting, open, redirects, call.closeConnection, next, more);
    GoesOnAlone(t, from, g, open, o, rest, call, more);
  }

  lemma {:induction false} RepliesAlone(t: ThreadId, from: Place, g: Globals, rest: Stack, call: Frame, a: Attempt,
                                        more: Choices)
    requires g.socketOwner == None && g.requestOwner == Some(t) && g.inFlight > 0 && GlobalInv(g)
    requires g.open && g.shouldClose == a.stopped && call.pc == Using(Exchange) && call.ok
    requires Leads(t, from, At(g, rest + [call], ReplyChoices(call.redirects, call.closeConnection, a, more)))
    ensures var o := Replied(call.redirects, call.closeConnection, a);
            Leads(t, from, At(Left(g, o), rest + [call.(pc := Leaving(LockForLeave), ok := o.ok)], more))
    decreases call.redirects, 0
  {
    var o := Replied(call.redirects, call.closeConnection, a);
    match a.reply
    case Fails =>
      assert Left(g, o) == g;
      Goes(t, from, g, rest, call, Go(false), more, g, call.(pc := Leaving(LockForLeave), ok := false));
    case Ends(ok) =>
      assert Left(g, o) == g.(open := !a.asksClose);
      AnswersAlone(t, from, g, rest, call, a.asksClose, Go(ok), ok, more);
    case Redirects(next) =>
      if call.redirects == 0 {
        assert Left(g, o) == g.(open := !a.asksClose);
        AnswersAlone(t, from, g, rest, call, a.asksClose, Redirect, false, more);
      } else {
        FollowsAlone(t, from, g, rest, call, !a.asksClose, call.redirects - 1, next,
                     SendChoices(!a.asksClose, call.redirects - 1, call.closeConnection, next, more), o, more);
      }
  }

  /** A send that has a socket. */
  lemma {:induction false} ConnectedSend(t: ThreadId, from: Place, g: Globals, rest: Stack, call: Frame, a: Attempt,
                                         more: Choices)
    requires g.socketOwner == None && g.requestOwner in {None, Some(t)} && GlobalInv(g)
    requires g.open && !g.shouldClose && call.pc == Using(Exchange) && call.ok
    requires var o := Replied(call.redirects, call.closeConnection, a);
             var ending := LeaveChoices(o.shouldClose || call.closeConnection || !o.ok, more);
             var replying := ReplyChoices(call.redirects, call.closeConnection, a, ending);
             Leads(t, from, At(During(g, t), rest + [call], CallbackChoices(a.stopped, replying)))
    ensures var o := Kept(call.closeConnection, Replied(call.redirects, call.closeConnection, a));
            Leads(t, from, At(Left(g, o), Returned(rest, o.ok), more))
    decreases call.redirects, 1
  {
    var o := Replied(call.redirects, call.closeConnection, a);
    var ending := LeaveChoices(o.shouldClose || call.closeConnection || !o.ok, more);
    CallbackAlone(t, from, During(g, t), rest, call, a.stopped,
                  ReplyChoices(call.redirects, call.closeConnection, a, ending));
    assert During(g, t).(shouldClose := a.stopped) == During(g.(shouldClose := a.stopped), t);
    RepliesAlone(t, from, During(g.(shouldClose := a.stopped), t), rest, call, a, ending);
    assert Left(During(g.(shouldClose := a.stopped), t), o) == During(Left(g, o), t);
    LeavesAlone(t, from, Left(g, o), rest, call.(pc := Leaving(LockForLeave), ok := o.ok), more);
  }

  /** A send on its own, with the redirects it follows and the stops its callbacks make, returns what the description
      says, has made of the socket and the flag what it says, and leaves everything else as it was. */
  lemma {:induction false} SendAlone(t: ThreadId, from: Place, g: Globals, rest: Stack, open: bool,
                                     redirects: nat, closeConnection: bool, a: Attempt, more: Choices)
    requires open == g.open && g.socketOwner == None && g.requestOwner in {None, Some(t)} && GlobalInv(g)
    requires Leads(t, from, At(g, rest + [SendCall(redirects, closeConnection)],
                               SendChoices(open, redirects, closeConnection, a, more)))
    ensures var o := Sent(open, redirects, closeConnection, a);
            Leads(t, from, At(Left(g, o), Returned(rest, o.ok), more))
    decreases redirects, 2
  {
    var call, o := SendCall(redirects, closeConnection), Replied(redirects, closeConnection, a);
    if Connects(open, a) {
      var connected := g.(open := true, shouldClose := false);
      var ending := LeaveChoices(o.shouldClose || closeConnection || !o.ok, more);
      OpensAlone(t, from, g, rest, call, a,
                 CallbackChoices(a.stopped, ReplyChoices(redirects, closeConnection, a, ending)));
      ConnectedSend(t, from, connected, rest, call.(pc := Using(Exchange), ok := true), a, more);
      assert Left(connected, Sent(open, redirects, closeConnection, a))
          == Left(g, Sent(open, redirects, closeConnection, a));
    } else {
      OpensAlone(t, from, g, rest, call, a, more);
    }
  }

  // ----- Calls of an idle thread -----

  lemma StaysThere(t: ThreadId, x: Place)
    ensures Leads(t, x, x)
  {
  }

  /** A call from its start to its end. */
  lemma WholeCall(s: State, t: ThreadId, c: Choice, call: Frame, choices: Choices, g: Globals)
    requires Step(s, t, c) == Some(State(s.g, s.stacks[t := [call]]))
    requires Leads(t, At(s.g, [call], choices), At(g, [], Done))
    ensures Run(s, By(t, Then(c, choices))) == Some(State(g, s.stacks[t := []]))
  {
    Once(s, t, c, choices);
  }

  /** A client that nobody uses sends a request. */
  lemma RequestAlone(s: State, t: ThreadId, redirects: nat, closeConnection: bool, a: Attempt)
    requires Reachable(s) && s.StackOf(t) == [] && s.g.socketOwner == None && s.g.requestOwner == None
    ensures var o := Sent(s.g.open, redirects, closeConnection, a);
            var choices := SendChoices(s.g.open, redirects, closeConnection, a, Done);
            Run(s, By(t, Then(BeginSend(redirects, closeConnection), choices)))
            == Some(State(s.g.(open := o.open, shouldClose := o.shouldClose), s.stacks[t := []]))
  {
    var choices := SendChoices(s.g.open, redirects, closeConnection, a, Done);
    var o, call := Sent(s.g.open, redirects, closeConnection, a), SendCall(redirects, closeConnection);
    ReachableInv(s);
    StaysThere(t, At(s.g, [call], choices));
    assert [] + [call] == [call];
    SendAlone(t, At(s.g, [call], choices), s.g, [], s.g.open, redirects, closeConnection, a, Done);
    WholeCall(s, t, BeginSend(redirects, closeConnection), call, choices, Left(s.g, o));
  }

  /** A client is stopped by a thread without a call in progress. */
  lemma IdleStop(s: State, t: ThreadId)
    requires s.StackOf(t) == [] && s.g.socketOwner == None
    ensures Run(s, By(t, Then(BeginStop, StopChoices(s.g.inFlight > 0, Done))))
         == Some(State(if s.g.inFlight > 0 then s.g.(shouldClose := true) else s.g.(open := false), s.stacks[t := []]))
  {
    var choices := StopChoices(s.g.inFlight > 0, Done);
    StaysThere(t, At(s.g, [STOP_CALL], choices));
    assert [] + [STOP_CALL] == [STOP_CALL];
    StopAlone(t, At(s.g, [STOP_CALL], choices), s.g, [], Done);
    WholeCall(s, t, BeginStop, STOP_CALL, choices, AfterStop(s.g));
  }
}
