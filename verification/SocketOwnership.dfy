/** The protocol by which `ClientImpl::send` and `ClientImpl::stop` share one socket. */
module SocketOwnership {
  import opened Wrappers

  // Any number of threads call `send` and `stop`; a send may call itself through a redirect to the same host, and a
  // callback running inside a send may call `stop`. A step is one statement of one thread, so the two mutexes
  // exclude only what they exclude in the program.

  type ThreadId = nat

  // ----- Where a call stands: the statement it executes next -----

  /** send: the block that opens the socket and marks it as in use. */
  datatype OpenPc =
    | LockRequest | LockForOpen | ResetFlag | CheckAlive | DeadSsl | DeadClose | Connect | Mark
    | UnlockOpened | UnlockFailed

  /** send: the request itself, with the block that closes the socket on "Connection: close". */
  datatype UsePc =
    | Exchange | LockForClose | ClosingSsl | ClosingClose | UnlockClosed | Responded | AwaitRedirect

  /** send: the block that marks the end of the request. */
  datatype LeavePc =
    | LockForLeave | Decrement | Decide | LeaveSsl | LeaveClose | UnlockLeft | ReleaseRequest

  datatype StopPc = StopLock | StopCheck | StopFlag | StopSsl | StopClose | StopUnlock

  datatype Pc = Opening(o: OpenPc) | Using(u: UsePc) | Leaving(l: LeavePc) | Stopping(s: StopPc)

  /** A call in progress. `redirects` is `redirect_count_`, `ok` what the call will return. */
  datatype Frame = Frame(pc: Pc, redirects: nat, closeConnection: bool, ok: bool)

  /** Innermost call last. */
  type Stack = seq<Frame>

  datatype Globals = Globals(
    requestOwner: Option<ThreadId>, requestDepth: nat,   // request_mutex_, recursive
    socketOwner: Option<ThreadId>,                       // socket_mutex_
    inFlight: int,                                       // socket_requests_in_flight_
    fromThread: Option<ThreadId>,                        // socket_requests_are_from_thread_
    shouldClose: bool,                                   // socket_should_be_closed_when_request_is_done_
    open: bool)                                          // socket_.sock != INVALID_SOCKET

  const FRESH: Globals := Globals(None, 0, None, 0, None, false, false)

  /** What the outside world decides: which call a thread makes next, whether the peer is alive, a connect or an
      exchange succeeds, a response asks for the socket to be closed or redirects. */
  datatype Choice = BeginSend(redirects: nat, closeConnection: bool) | BeginStop | Go(yes: bool) | AskClose | Redirect

  // ----- What a call holds -----

  /** Statements executed while holding `socket_mutex_`. */
  predicate HoldsSocket(pc: Pc) {
    match pc
    case Opening(o) => !o.LockRequest? && !o.LockForOpen?
    case Using(u) => u.ClosingSsl? || u.ClosingClose? || u.UnlockClosed?
    case Leaving(l) => !l.LockForLeave? && !l.ReleaseRequest?
    case Stopping(s) => !s.StopLock?
  }

  /** Statements executed while holding `request_mutex_`. */
  predicate HoldsRequest(pc: Pc) {
    match pc
    case Opening(o) => !o.LockRequest?
    case Stopping(_) => false
    case _ => true
  }

  /** Statements between the two changes of `socket_requests_in_flight_`. */
  predicate CountsInFlight(pc: Pc) {
    match pc
    case Opening(o) => o.UnlockOpened?
    case Using(_) => true
    case Leaving(l) => l.LockForLeave? || l.Decrement?
    case Stopping(_) => false
  }

  // ----- Steps -----

  /** Where a statement leads: to another statement of the same call, into a call, or out of this one. */
  datatype Move = To(pc: Pc, ok: bool) | CallSend | CallStop | Leave

  type Effect = Option<(Globals, Move)>

  function LockSocket(g: Globals, t: ThreadId, m: Move): Effect {
    if g.socketOwner == None then Some((g.(socketOwner := Some(t)), m)) else None
  }

  function OpenStatement(g: Globals, t: ThreadId, o: OpenPc, c: Choice): Effect {
    match o
    case LockRequest =>
      if g.requestOwner == None || g.requestOwner == Some(t) then
        Some((g.(requestOwner := Some(t), requestDepth := g.requestDepth + 1), To(Opening(LockForOpen), true)))
      else None
    case LockForOpen => LockSocket(g, t, To(Opening(ResetFlag), true))
    case ResetFlag => Some((g.(shouldClose := false), To(Opening(CheckAlive), true)))
    case CheckAlive =>
      if !c.Go? then None
      else Some((g, To(Opening(if !g.open then Connect else if c.yes then Mark else DeadSsl), true)))
    case DeadSsl => Some((g, To(Opening(DeadClose), true)))
    case DeadClose => Some((g.(open := false), To(Opening(Connect), true)))
    case Connect =>
      if !c.Go? then None
      else if c.yes then Some((g.(open := true), To(Opening(Mark), true)))
      else Some((g, To(Opening(UnlockFailed), false)))
    case Mark => Some((g.(inFlight := g.inFlight + 1, fromThread := Some(t)), To(Opening(UnlockOpened), true)))
    case UnlockOpened => Some((g.(socketOwner := None), To(Using(Exchange), true)))
    case UnlockFailed => Some((g.(socketOwner := None), To(Leaving(ReleaseRequest), false)))
  }

  function UseStatement(g: Globals, t: ThreadId, u: UsePc, redirects: nat, c: Choice): Effect {
    match u
    case Exchange =>
      (match c
       case Go(yes) => Some((g, if yes then To(Using(Responded), true) else To(Leaving(LockForLeave), false)))
       case AskClose => Some((g, To(Using(LockForClose), true)))
       case BeginStop => Some((g, CallStop))
       case _ => None)
    case LockForClose => LockSocket(g, t, To(Using(ClosingSsl), true))
    case ClosingSsl => Some((g, To(Using(ClosingClose), true)))
    case ClosingClose => Some((g.(open := false), To(Using(UnlockClosed), true)))
    case UnlockClosed => Some((g.(socketOwner := None), To(Using(Responded), true)))
    case Responded =>
      (match c
       case Go(yes) => Some((g, To(Leaving(LockForLeave), yes)))
       case Redirect => Some((g, if redirects == 0 then To(Leaving(LockForLeave), false) else CallSend))
       case _ => None)
    case AwaitRedirect => None
  }

  function LeaveStatement(g: Globals, t: ThreadId, top: Frame, l: LeavePc): Effect {
    match l
    case LockForLeave => LockSocket(g, t, To(Leaving(Decrement), top.ok))
    case Decrement =>
      var n := g.inFlight - 1;
      Some((g.(inFlight := n, fromThread := if n <= 0 then None else g.fromThread), To(Leaving(Decide), top.ok)))
    case Decide =>
      var closes := g.shouldClose || top.closeConnection || !top.ok;
      Some((g, To(Leaving(if closes then LeaveSsl else UnlockLeft), top.ok)))
    case LeaveSsl => Some((g, To(Leaving(LeaveClose), top.ok)))
    case LeaveClose => Some((g.(open := false), To(Leaving(UnlockLeft), top.ok)))
    case UnlockLeft => Some((g.(socketOwner := None), To(Leaving(ReleaseRequest), top.ok)))
    case ReleaseRequest =>
      var depth := if g.requestDepth > 0 then g.requestDepth - 1 else 0;
      Some((g.(requestDepth := depth, requestOwner := if depth == 0 then None else g.requestOwner), Leave))
  }

  function StopStatement(g: Globals, t: ThreadId, s: StopPc): Effect {
    match s
    case StopLock => LockSocket(g, t, To(Stopping(StopCheck), false))
    case StopCheck => Some((g, To(Stopping(if g.inFlight > 0 then StopFlag else StopSsl), false)))
    case StopFlag => Some((g.(shouldClose := true), To(Stopping(StopUnlock), false)))
    case StopSsl => Some((g, To(Stopping(StopClose), false)))
    case StopClose => Some((g.(open := false), To(Stopping(StopUnlock), false)))
    case StopUnlock => Some((g.(socketOwner := None), Leave))
  }

  /** One statement of thread `t`, whose innermost call is `top`; None when the thread is blocked or the choice does
      not apply. */
  function Statement(g: Globals, t: ThreadId, top: Frame, c: Choice): Effect {
    match top.pc
    case Opening(o) => OpenStatement(g, t, o, c)
    case Using(u) => UseStatement(g, t, u, top.redirects, c)
    case Leaving(l) => LeaveStatement(g, t, top, l)
    case Stopping(s) => StopStatement(g, t, s)
  }

  const AWAITING: Pc := Using(AwaitRedirect)

  /** The calls in progress after the innermost one, `top`, has made its move; `rest` are the calls around it. A
      send that waited for a redirect goes on with the result of the call that ends. */
  function Moved(rest: Stack, top: Frame, m: Move): Stack {
    match m
    case To(pc, ok) => rest + [top.(pc := pc, ok := ok)]
    case CallSend => rest + [top.(pc := AWAITING)] + [Redirected(top)]
    case CallStop => rest + [top] + [STOP_CALL]
    case Leave =>
      if rest != [] && rest[|rest| - 1].pc == AWAITING then
        rest[..|rest| - 1] + [rest[|rest| - 1].(pc := Leaving(LockForLeave), ok := top.ok)]
      else rest
  }

  function Redirected(caller: Frame): Frame {
    SendCall(if caller.redirects > 0 then caller.redirects - 1 else 0, caller.closeConnection)
  }

  function SendCall(redirects: nat, closeConnection: bool): Frame {
    Frame(Opening(LockRequest), redirects, closeConnection, false)
  }

  const STOP_CALL: Frame := Frame(Stopping(StopLock), 0, false, false)

  /** One statement of thread `t`. A thread without a call in progress may start one. */
  function ThreadStep(g: Globals, t: ThreadId, stack: Stack, c: Choice): Option<(Globals, Stack)> {
    if stack == [] then
      match c
      case BeginSend(redirects, closeConnection) => Some((g, [SendCall(redirects, closeConnection)]))
      case BeginStop => Some((g, [STOP_CALL]))
      case _ => None
    else
      var rest, top := stack[..|stack| - 1], stack[|stack| - 1];
      match Statement(g, t, top, c)
      case None => None
      case Some((g', m)) => Some((g', Moved(rest, top, m)))
  }

  // ----- The assertions of the program -----

  /** `assert` in `shutdown_ssl` and `close_socket` */
  predicate MayClose(g: Globals, t: ThreadId) {
    g.inFlight == 0 || g.fromThread == Some(t)
  }

  /** Each assertion at the statement that makes it. */
  predicate AssertionHolds(g: Globals, t: ThreadId, pc: Pc) {
    match pc
    case Opening(o) =>
      && (o.DeadSsl? || o.DeadClose? ==> MayClose(g, t))
      && (o.Mark? && g.inFlight > 1 ==> g.fromThread == Some(t))
    case Using(u) => u.ClosingSsl? || u.ClosingClose? ==> MayClose(g, t)
    case Leaving(l) =>
      && (l.LeaveSsl? || l.LeaveClose? ==> MayClose(g, t))
      && (l.Decrement? && g.inFlight - 1 <= 0 ==> g.inFlight - 1 == 0)
    case Stopping(s) => s.StopSsl? || s.StopClose? ==> MayClose(g, t)
  }

  // ----- The whole system -----

  datatype State = State(g: Globals, stacks: map<ThreadId, Stack>) {
    /** A thread that has not called anything yet is idle. */
    function StackOf(t: ThreadId): Stack {
      if t in stacks then stacks[t] else []
    }
  }

  const INITIAL: State := State(FRESH, map[])

  function Step(s: State, t: ThreadId, c: Choice): Option<State> {
    match ThreadStep(s.g, t, s.StackOf(t), c)
    case None => None
    case Some((g, stack)) => Some(State(g, s.stacks[t := stack]))
  }

  type Schedule = seq<(ThreadId, Choice)>

  /** A schedule runs to its end; None when it asks for a step that is not enabled. */
  function Run(s: State, schedule: Schedule): Option<State>
    decreases schedule
  {
    if schedule == [] then Some(s)
    else
      match Step(s, schedule[0].0, schedule[0].1)
      case None => None
      case Some(next) => Run(next, schedule[1..])
  }

  // ----- What every step keeps -----

  function Held(stack: Stack): nat {
    if stack == [] then 0
    else Held(stack[..|stack| - 1]) + if HoldsRequest(stack[|stack| - 1].pc) then 1 else 0
  }

  function Flights(stack: Stack): nat {
    if stack == [] then 0
    else Flights(stack[..|stack| - 1]) + if CountsInFlight(stack[|stack| - 1].pc) then 1 else 0
  }

  /** A call and the call it has made: a send waiting for its redirect, which has one redirect less, or a send
      running a callback that called `stop`. */
  predicate Calls(caller: Frame, callee: Frame) {
    if caller.pc == AWAITING then !callee.pc.Stopping? && callee.redirects + 1 == caller.redirects
    else caller.pc == Using(Exchange) && callee.pc.Stopping?
  }

  predicate Nested(stack: Stack) {
    |stack| > 1 ==> Nested(stack[..|stack| - 1]) && Calls(stack[|stack| - 2], stack[|stack| - 1])
  }

  /** What thread `t` owns, given its innermost call and what the calls around it amount to. */
  predicate Owns(g: Globals, t: ThreadId, held: nat, flights: nat, pc: Pc) {
    && (HoldsSocket(pc) <==> g.socketOwner == Some(t))
    && held + (if HoldsRequest(pc) then 1 else 0) == (if g.requestOwner == Some(t) then g.requestDepth else 0)
    && flights + (if CountsInFlight(pc) then 1 else 0) == (if g.requestOwner == Some(t) then g.inFlight else 0)
    && (pc == Stopping(StopSsl) || pc == Stopping(StopClose) ==> g.inFlight == 0)
    && (pc == Stopping(StopFlag) ==> g.inFlight > 0)
    && pc != AWAITING
  }

  predicate OwnsNothing(g: Globals, t: ThreadId) {
    g.socketOwner != Some(t) && g.requestOwner != Some(t)
  }

  predicate ThreadInv(g: Globals, t: ThreadId, stack: Stack) {
    && Nested(stack)
    && if stack == [] then OwnsNothing(g, t)
       else Owns(g, t, Held(stack[..|stack| - 1]), Flights(stack[..|stack| - 1]), stack[|stack| - 1].pc)
  }

  predicate GlobalInv(g: Globals) {
    && (g.requestOwner == None <==> g.requestDepth == 0)
    && (g.requestOwner == None ==> g.inFlight == 0)
    && (if g.inFlight == 0 then g.fromThread == None else g.inFlight > 0 && g.fromThread == g.requestOwner)
  }

  ghost predicate Inv(s: State) {
    && GlobalInv(s.g)
    && forall t: ThreadId :: ThreadInv(s.g, t, s.StackOf(t))
  }

  /** What the statement of a thread does to the shared fields, for the thread itself. */
  predicate EffectKeeps(g': Globals, m: Move, g: Globals, t: ThreadId, held: nat, flights: nat, top: Frame) {
    && GlobalInv(g')
    && match m
       case To(pc, _) => Owns(g', t, held, flights, pc) && pc.Stopping? == top.pc.Stopping?
       case CallSend => g' == g && top.pc == Using(Responded) && top.redirects > 0
       case CallStop => g' == g && top.pc == Using(Exchange)
       case Leave =>
         && held == (if g'.requestOwner == Some(t) then g'.requestDepth else 0)
         && flights == (if g'.requestOwner == Some(t) then g'.inFlight else 0)
         && g'.socketOwner != Some(t)
  }

  /** A statement changes the ownership of a mutex only between nobody and its own thread, and the count of requests
      in flight only while its thread holds both mutexes. */
  predicate EffectFrame(g': Globals, g: Globals, t: ThreadId) {
    && (g'.socketOwner != g.socketOwner ==> {g.socketOwner, g'.socketOwner} <= {None, Some(t)})
    && (g'.requestOwner != g.requestOwner ==> {g.requestOwner, g'.requestOwner} <= {None, Some(t)})
    && (g'.requestDepth != g.requestDepth ==> g'.requestOwner == Some(t) || g.requestOwner == Some(t))
    && (g'.inFlight != g.inFlight ==> g.socketOwner == g.requestOwner == g'.requestOwner == Some(t))
  }

  lemma LockingKeeps(g: Globals, t: ThreadId, held: nat, flights: nat, top: Frame, c: Choice)
    requires GlobalInv(g) && Owns(g, t, held, flights, top.pc) && flights <= held && top.pc.Opening?
    requires top.pc.o.LockRequest? || top.pc.o.LockForOpen?
    ensures match OpenStatement(g, t, top.pc.o, c)
            case None => true
            case Some((g', m)) => EffectKeeps(g', m, g, t, held, flights, top) && EffectFrame(g', g, t)
  {
  }

  lemma OpeningKeeps(g: Globals, t: ThreadId, held: nat, flights: nat, top: Frame, c: Choice)
    requires GlobalInv(g) && Owns(g, t, held, flights, top.pc) && flights <= held && top.pc.Opening?
    requires !top.pc.o.LockRequest? && !top.pc.o.LockForOpen?
    ensures match OpenStatement(g, t, top.pc.o, c)
            case None => true
            case Some((g', m)) => EffectKeeps(g', m, g, t, held, flights, top) && EffectFrame(g', g, t)
  {
  }

  lemma OpenKeeps(g: Globals, t: ThreadId, held: nat, flights: nat, top: Frame, c: Choice)
    requires GlobalInv(g) && Owns(g, t, held, flights, top.pc) && flights <= held && top.pc.Opening?
    ensures match OpenStatement(g, t, top.pc.o, c)
            case None => true
            case Some((g', m)) => EffectKeeps(g', m, g, t, held, flights, top) && EffectFrame(g', g, t)
  {
    if top.pc.o.LockRequest? || top.pc.o.LockForOpen? {
      LockingKeeps(g, t, held, flights, top, c);
    } else {
      OpeningKeeps(g, t, held, flights, top, c);
    }
  }

  lemma UseKeeps(g: Globals, t: ThreadId, held: nat, flights: nat, top: Frame, c: Choice)
    requires GlobalInv(g) && Owns(g, t, held, flights, top.pc) && flights <= held && top.pc.Using?
    ensures match UseStatement(g, t, top.pc.u, top.redirects, c)
            case None => true
            case Some((g', m)) => EffectKeeps(g', m, g, t, held, flights, top) && EffectFrame(g', g, t)
  {
  }

  lemma LeaveKeeps(g: Globals, t: ThreadId, held: nat, flights: nat, top: Frame)
    requires GlobalInv(g) && Owns(g, t, held, flights, top.pc) && flights <= held && top.pc.Leaving?
    ensures match LeaveStatement(g, t, top, top.pc.l)
            case None => true
            case Some((g', m)) => EffectKeeps(g', m, g, t, held, flights, top) && EffectFrame(g', g, t)
  {
  }

  lemma StopKeeps(g: Globals, t: ThreadId, held: nat, flights: nat, top: Frame)
    requires GlobalInv(g) && Owns(g, t, held, flights, top.pc) && flights <= held && top.pc.Stopping?
    ensures match StopStatement(g, t, top.pc.s)
            case None => true
            case Some((g', m)) => EffectKeeps(g', m, g, t, held, flights, top) && EffectFrame(g', g, t)
  {
  }

  lemma StatementKeeps(g: Globals, t: ThreadId, held: nat, flights: nat, top: Frame, c: Choice)
    requires GlobalInv(g) && Owns(g, t, held, flights, top.pc) && flights <= held
    ensures match Statement(g, t, top, c)
            case None => true
            case Some((g', m)) => EffectKeeps(g', m, g, t, held, flights, top) && EffectFrame(g', g, t)
  {
    match top.pc
    case Opening(_) => OpenKeeps(g, t, held, flights, top, c);
    case Using(_) => UseKeeps(g, t, held, flights, top, c);
    case Leaving(_) => LeaveKeeps(g, t, held, flights, top);
    case Stopping(_) => StopKeeps(g, t, held, flights, top);
  }

  lemma SumsOfTop(rest: Stack, top: Frame)
    ensures Held(rest + [top]) == Held(rest) + if HoldsRequest(top.pc) then 1 else 0
    ensures Flights(rest + [top]) == Flights(rest) + if CountsInFlight(top.pc) then 1 else 0
    ensures Nested(rest + [top]) <==> Nested(rest) && (rest != [] ==> Calls(rest[|rest| - 1], top))
  {
    assert (rest + [top])[..|rest|] == rest;
  }

  lemma {:induction false} FlightsHold(stack: Stack)
    ensures Flights(stack) <= Held(stack)
  {
    if stack != [] {
      FlightsHold(stack[..|stack| - 1]);
    }
  }

  lemma TopKeeps(g: Globals, t: ThreadId, rest: Stack, top: Frame)
    requires Nested(rest) && (rest != [] ==> Calls(rest[|rest| - 1], top))
    requires Owns(g, t, Held(rest), Flights(rest), top.pc)
    ensures ThreadInv(g, t, rest + [top])
  {
    SumsOfTop(rest, top);
    assert (rest + [top])[..|rest|] == rest;
  }

  lemma CallKeeps(g: Globals, t: ThreadId, rest: Stack, caller: Frame, callee: Frame)
    requires Nested(rest) && (rest != [] ==> Calls(rest[|rest| - 1], caller))
    requires Calls(caller, callee)
    requires Owns(g, t, Held(rest), Flights(rest), Using(Exchange)) && caller.pc.Using?
    requires callee.pc == Opening(LockRequest) || callee.pc == Stopping(StopLock)
    ensures ThreadInv(g, t, rest + [caller] + [callee])
  {
    SumsOfTop(rest, caller);
    TopKeeps(g, t, rest + [caller], callee);
  }

  lemma ReturnKeeps(g: Globals, t: ThreadId, rest: Stack, top: Frame)
    requires Nested(rest) && (rest != [] ==> Calls(rest[|rest| - 1], top))
    requires Held(rest) == (if g.requestOwner == Some(t) then g.requestDepth else 0)
    requires Flights(rest) == (if g.requestOwner == Some(t) then g.inFlight else 0)
    requires g.socketOwner != Some(t) && GlobalInv(g)
    ensures ThreadInv(g, t, Moved(rest, top, Leave))
  {
    if rest != [] {
      var outer, caller := rest[..|rest| - 1], rest[|rest| - 1];
      assert rest == outer + [caller];
      SumsOfTop(outer, caller);
      if caller.pc == AWAITING {
        TopKeeps(g, t, outer, caller.(pc := Leaving(LockForLeave), ok := top.ok));
      } else {
        TopKeeps(g, t, outer, caller);
      }
    }
  }

  lemma MovedKeeps(g': Globals, m: Move, g: Globals, t: ThreadId, rest: Stack, top: Frame)
    requires Nested(rest) && (rest != [] ==> Calls(rest[|rest| - 1], top)) && GlobalInv(g)
    requires Owns(g, t, Held(rest), Flights(rest), top.pc)
    requires EffectKeeps(g', m, g, t, Held(rest), Flights(rest), top)
    ensures ThreadInv(g', t, Moved(rest, top, m))
  {
    match m
    case To(pc, ok) => TopKeeps(g', t, rest, top.(pc := pc, ok := ok));
    case CallSend => CallKeeps(g, t, rest, top.(pc := AWAITING), Redirected(top));
    case CallStop => CallKeeps(g, t, rest, top, STOP_CALL);
    case Leave => ReturnKeeps(g', t, rest, top);
  }

  lemma OtherKeeps(g': Globals, g: Globals, t: ThreadId, u: ThreadId, other: Stack)
    requires t != u && EffectFrame(g', g, t) && GlobalInv(g) && ThreadInv(g, u, other)
    ensures ThreadInv(g', u, other)
  {
  }

  lemma TopStepKeeps(g: Globals, t: ThreadId, rest: Stack, top: Frame, c: Choice)
    requires Nested(rest) && (rest != [] ==> Calls(rest[|rest| - 1], top)) && GlobalInv(g)
    requires Owns(g, t, Held(rest), Flights(rest), top.pc) && Statement(g, t, top, c).Some?
    ensures var (g', m) := Statement(g, t, top, c).value;
            GlobalInv(g') && ThreadInv(g', t, Moved(rest, top, m)) && EffectFrame(g', g, t)
  {
    var (g', m) := Statement(g, t, top, c).value;
    FlightsHold(rest);
    StatementKeeps(g, t, Held(rest), Flights(rest), top, c);
    MovedKeeps(g', m, g, t, rest, top);
  }

  lemma ThreadStepKeeps(g: Globals, t: ThreadId, stack: Stack, c: Choice)
    requires GlobalInv(g) && ThreadInv(g, t, stack) && ThreadStep(g, t, stack, c).Some?
    ensures var (g', stack') := ThreadStep(g, t, stack, c).value;
            GlobalInv(g') && ThreadInv(g', t, stack') && EffectFrame(g', g, t)
  {
    if stack != [] {
      var rest, top := stack[..|stack| - 1], stack[|stack| - 1];
      assert stack == rest + [top];
      SumsOfTop(rest, top);
      TopStepKeeps(g, t, rest, top, c);
    }
  }

  lemma StepKeeps(s: State, t: ThreadId, c: Choice)
    requires Inv(s) && Step(s, t, c).Some?
    ensures Inv(Step(s, t, c).value)
  {
    var s' := Step(s, t, c).value;
    assert ThreadInv(s.g, t, s.StackOf(t));
    ThreadStepKeeps(s.g, t, s.StackOf(t), c);
    forall u: ThreadId
      ensures ThreadInv(s'.g, u, s'.StackOf(u))
    {
      if u != t {
        assert ThreadInv(s.g, u, s.StackOf(u));
        OtherKeeps(s'.g, s.g, t, u, s.StackOf(u));
      }
    }
  }

  lemma {:induction false} RunKeeps(s: State, schedule: Schedule)
    requires Inv(s) && Run(s, schedule).Some?
    ensures Inv(Run(s, schedule).value)
    decreases schedule
  {
    if schedule != [] {
      StepKeeps(s, schedule[0].0, schedule[0].1);
      RunKeeps(Step(s, schedule[0].0, schedule[0].1).value, schedule[1..]);
    }
  }

  ghost predicate Reachable(s: State) {
    exists schedule: Schedule :: Run(INITIAL, schedule) == Some(s)
  }

  lemma ReachableInv(s: State)
    requires Reachable(s)
    ensures Inv(s)
  {
    var schedule: Schedule :| Run(INITIAL, schedule) == Some(s);
    RunKeeps(INITIAL, schedule);
  }

  // ----- Safety in every interleaving -----

  /** No assertion of `shutdown_ssl`, `close_socket` or `send` fails, whatever any thread does next. */
  lemma AssertionsHold(s: State, t: ThreadId)
    requires Reachable(s) && s.StackOf(t) != []
    ensures AssertionHolds(s.g, t, s.StackOf(t)[|s.StackOf(t)| - 1].pc)
  {
    ReachableInv(s);
    assert ThreadInv(s.g, t, s.StackOf(t));
  }

  /** A socket with requests in flight is closed by nobody but the thread that holds `request_mutex_`. */
  lemma OnlyOwnerCloses(s: State, t: ThreadId, c: Choice)
    requires Reachable(s) && Step(s, t, c).Some?
    requires s.g.inFlight > 0 && s.g.open && !Step(s, t, c).value.g.open
    ensures s.g.requestOwner == Some(t)
  {
    ReachableInv(s);
    AssertionsHold(s, t);
  }

  /** One thread at a time is inside a section guarded by `socket_mutex_`, and all requests in flight belong to
      one thread. */
  lemma Exclusion(s: State, t: ThreadId, u: ThreadId)
    requires Reachable(s) && t != u && s.StackOf(t) != [] && s.StackOf(u) != []
    ensures !(HoldsSocket(s.StackOf(t)[|s.StackOf(t)| - 1].pc) && HoldsSocket(s.StackOf(u)[|s.StackOf(u)| - 1].pc))
    ensures Flights(s.StackOf(t)) > 0 ==> s.g.inFlight == Flights(s.StackOf(t)) && Flights(s.StackOf(u)) == 0
  {
    ReachableInv(s);
    assert ThreadInv(s.g, t, s.StackOf(t)) && ThreadInv(s.g, u, s.StackOf(u));
  }

  /** Redirects are followed at most `redirect_count_` deep. */
  lemma {:induction false} NestingBounded(stack: Stack)
    requires Nested(stack) && stack != []
    ensures var top := stack[|stack| - 1];
            |stack| - 1 + (if top.pc.Stopping? then -1 else top.redirects) <= stack[0].redirects
  {
    if |stack| > 1 {
      NestingBounded(stack[..|stack| - 1]);
    }
  }

  lemma RedirectsBounded(s: State, t: ThreadId)
    requires Reachable(s) && s.StackOf(t) != []
    ensures |s.StackOf(t)| <= s.StackOf(t)[0].redirects + 2
  {
    ReachableInv(s);
    assert ThreadInv(s.g, t, s.StackOf(t));
    NestingBounded(s.StackOf(t));
  }

  // ----- What holds of the socket while `socket_mutex_` is held -----

  /** What the thread that holds `socket_mutex_` has made of the socket by the statement it is at. A send that unlocks
      has an open socket and counts as in flight, or has none; a send that ends has closed it if it was asked to, or
      failed; a stop that unlocks has closed it, or left that to the request in flight. */
  predicate Settled(g: Globals, top: Frame) {
    match top.pc
    case Opening(o) =>
      && (!o.ResetFlag? ==> !g.shouldClose)
      && (o.DeadSsl? || o.DeadClose? || o.Mark? || o.UnlockOpened? ==> g.open)
      && (o.Connect? || o.UnlockFailed? ==> !g.open)
      && (o.UnlockOpened? ==> g.inFlight > 0)
      && (o.UnlockFailed? ==> !top.ok)
    case Using(u) => u.UnlockClosed? ==> !g.open
    case Leaving(l) =>
      && (l.LeaveSsl? || l.LeaveClose? ==> MustClose(g, top))
      && (l.UnlockLeft? && MustClose(g, top) ==> !g.open)
    case Stopping(c) =>
      && (c.StopFlag? ==> g.inFlight > 0)
      && (c.StopSsl? || c.StopClose? ==> g.inFlight == 0)
      && (c.StopUnlock? ==> if g.inFlight > 0 then g.shouldClose else !g.open)
  }

  /** Why a send closes the socket when it ends. */
  predicate MustClose(g: Globals, top: Frame) { g.shouldClose || top.closeConnection || !top.ok }

  ghost predicate AllSettled(s: State) {
    forall t: ThreadId :: SettledTop(s.g, s.StackOf(t))
  }

  predicate SettledTop(g: Globals, stack: Stack) {
    stack != [] && HoldsSocket(stack[|stack| - 1].pc) ==> Settled(g, stack[|stack| - 1])
  }

  /** A statement made without `socket_mutex_` leaves the socket, the flag and the count alone. */
  lemma UnlockedLeavesSocket(g: Globals, t: ThreadId, top: Frame, c: Choice)
    requires !HoldsSocket(top.pc) && Statement(g, t, top, c).Some?
    ensures var g' := Statement(g, t, top, c).value.0;
            g'.open == g.open && g'.shouldClose == g.shouldClose && g'.inFlight == g.inFlight
  {
  }

  lemma OpeningSettles(g: Globals, t: ThreadId, top: Frame, c: Choice)
    requires top.pc.Opening? && g.inFlight >= 0 && (HoldsSocket(top.pc) ==> Settled(g, top))
    ensures match OpenStatement(g, t, top.pc.o, c)
            case None => true
            case Some((g', m)) => m.To? && (HoldsSocket(m.pc) ==> Settled(g', top.(pc := m.pc, ok := m.ok)))
  {
  }

  lemma UsingSettles(g: Globals, t: ThreadId, top: Frame, c: Choice)
    requires top.pc.Using? && (HoldsSocket(top.pc) ==> Settled(g, top))
    ensures match UseStatement(g, t, top.pc.u, top.redirects, c)
            case None => true
            case Some((g', m)) => m.To? && HoldsSocket(m.pc) ==> Settled(g', top.(pc := m.pc, ok := m.ok))
  {
  }

  lemma LeavingSettles(g: Globals, t: ThreadId, top: Frame, c: Choice)
    requires top.pc.Leaving? && (HoldsSocket(top.pc) ==> Settled(g, top))
    ensures match LeaveStatement(g, t, top, top.pc.l)
            case None => true
            case Some((g', m)) => m.To? && HoldsSocket(m.pc) ==> Settled(g', top.(pc := m.pc, ok := m.ok))
  {
  }

  lemma StoppingSettles(g: Globals, t: ThreadId, top: Frame, c: Choice)
    requires top.pc.Stopping? && g.inFlight >= 0 && (HoldsSocket(top.pc) ==> Settled(g, top))
    ensures match StopStatement(g, t, top.pc.s)
            case None => true
            case Some((g', m)) => m.To? && HoldsSocket(m.pc) ==> Settled(g', top.(pc := m.pc, ok := m.ok))
  {
  }

  lemma StatementSettles(g: Globals, t: ThreadId, top: Frame, c: Choice)
    requires g.inFlight >= 0 && Statement(g, t, top, c).Some? && (HoldsSocket(top.pc) ==> Settled(g, top))
    ensures var (g', m) := Statement(g, t, top, c).value;
            m.To? && HoldsSocket(m.pc) ==> Settled(g', top.(pc := m.pc, ok := m.ok))
  {
    match top.pc
    case Opening(_) => OpeningSettles(g, t, top, c);
    case Using(_) => UsingSettles(g, t, top, c);
    case Leaving(_) => LeavingSettles(g, t, top, c);
    case Stopping(_) => StoppingSettles(g, t, top, c);
  }

  /** The call a thread is in after one that ended, or the one it starts, does not hold `socket_mutex_`. */
  lemma MovedSettles(g: Globals, t: ThreadId, rest: Stack, top: Frame, g': Globals, m: Move)
    requires Nested(rest + [top]) && (m.To? && HoldsSocket(m.pc) ==> Settled(g', top.(pc := m.pc, ok := m.ok)))
    ensures SettledTop(g', Moved(rest, top, m))
  {
    SumsOfTop(rest, top);
    if m == Leave && rest != [] {
      assert Calls(rest[|rest| - 1], top);
    }
  }

  lemma OwnStepSettles(s: State, t: ThreadId, c: Choice)
    requires Inv(s) && AllSettled(s) && Step(s, t, c).Some?
    ensures var s' := Step(s, t, c).value; SettledTop(s'.g, s'.StackOf(t))
  {
    var stack, s' := s.StackOf(t), Step(s, t, c).value;
    assert ThreadInv(s.g, t, stack) && SettledTop(s.g, stack);
    assert s'.StackOf(t) == ThreadStep(s.g, t, stack, c).value.1;
    if stack != [] {
      var rest, top := stack[..|stack| - 1], stack[|stack| - 1];
      assert stack == rest + [top];
      var (g', m) := Statement(s.g, t, top, c).value;
      StatementSettles(s.g, t, top, c);
      MovedSettles(s.g, t, rest, top, g', m);
    }
  }

  lemma OtherStaysSettled(s: State, t: ThreadId, c: Choice, u: ThreadId)
    requires Inv(s) && AllSettled(s) && Step(s, t, c).Some? && u != t
    ensures var s' := Step(s, t, c).value; SettledTop(s'.g, s'.StackOf(u))
  {
    var stack := s.StackOf(t);
    assert ThreadInv(s.g, t, stack) && ThreadInv(s.g, u, s.StackOf(u)) && SettledTop(s.g, s.StackOf(u));
    if stack != [] && s.StackOf(u) != [] && s.g.socketOwner == Some(u) {
      UnlockedLeavesSocket(s.g, t, stack[|stack| - 1], c);
    }
  }

  lemma {:induction false} RunSettles(s: State, schedule: Schedule)
    requires Inv(s) && AllSettled(s) && Run(s, schedule).Some?
    ensures Inv(Run(s, schedule).value) && AllSettled(Run(s, schedule).value)
    decreases schedule
  {
    if schedule != [] {
      var (t, c) := schedule[0];
      var s' := Step(s, t, c).value;
      StepKeeps(s, t, c);
      forall u: ThreadId
        ensures SettledTop(s'.g, s'.StackOf(u))
      {
        if u == t {
          OwnStepSettles(s, t, c);
        } else {
          OtherStaysSettled(s, t, c, u);
        }
      }
      RunSettles(s', schedule[1..]);
    }
  }

  /** In every reachable state, whatever the other threads have done: a stop about to unlock has closed the socket, or
      a request is in flight and has been told to close it; a send about to unlock behind "Connection: close" has closed
      it; a send about to unlock at its end has closed it if it had to; and one about to unlock after opening has an
      open socket and is in flight, or has none and fails. */
  lemma SocketIsSettled(s: State, t: ThreadId)
    requires Reachable(s) && s.StackOf(t) != []
    ensures var g, top := s.g, s.StackOf(t)[|s.StackOf(t)| - 1];
            && (top.pc == Stopping(StopUnlock) ==> !g.open || (g.inFlight > 0 && g.shouldClose))
            && (top.pc == Stopping(StopUnlock) && g.inFlight == 0 ==> !g.open)
            && (top.pc == Using(UnlockClosed) ==> !g.open)
            && (top.pc == Leaving(UnlockLeft) && (g.shouldClose || top.closeConnection || !top.ok) ==> !g.open)
            && (top.pc == Opening(UnlockOpened) ==> g.open && g.inFlight > 0 && !g.shouldClose)
            && (top.pc == Opening(UnlockFailed) ==> !g.open && !top.ok)
  {
    var schedule: Schedule :| Run(INITIAL, schedule) == Some(s);
    RunSettles(INITIAL, schedule);
    assert SettledTop(s.g, s.StackOf(t)) && ThreadInv(s.g, t, s.StackOf(t));
  }

  // ----- A stop without a request in flight -----

  predicate AtPc(s: State, t: ThreadId, pc: Pc) {
    s.StackOf(t) != [] && s.StackOf(t)[|s.StackOf(t)| - 1].pc == pc
  }

  /** Where a stop that closes the socket stands, `n` of its statements before it unlocks. */
  function ClosingPc(n: nat): Pc {
    Stopping(if n == 0 then StopUnlock else if n == 1 then StopClose else if n == 2 then StopSsl else StopCheck)
  }

  /** How many of the statements are those of thread `t`. */
  function StepsOf(t: ThreadId, schedule: Schedule): nat {
    if schedule == [] then 0 else (if schedule[0].0 == t then 1 else 0) + StepsOf(t, schedule[1..])
  }

  /** Nothing in flight, and the stop is at its place: it has closed the socket when it has got to its unlocking. */
  predicate ClosesSoon(s: State, t: ThreadId, n: nat) {
    AtPc(s, t, ClosingPc(n)) && s.g.inFlight == 0 && (n == 0 ==> !s.g.open)
  }

  lemma ClosingStep(s: State, t: ThreadId, n: nat, u: ThreadId, c: Choice)
    requires Inv(s) && ClosesSoon(s, t, n) && n <= 3 && Step(s, u, c).Some? && (u == t ==> n > 0)
    ensures ClosesSoon(Step(s, u, c).value, t, if u == t then n - 1 else n)
  {
    assert ThreadInv(s.g, t, s.StackOf(t)) && ThreadInv(s.g, u, s.StackOf(u));
    if u != t && s.StackOf(u) != [] {
      UnlockedLeavesSocket(s.g, u, s.StackOf(u)[|s.StackOf(u)| - 1], c);
    }
  }

  lemma {:induction false} ClosingRun(s: State, t: ThreadId, n: nat, schedule: Schedule)
    requires Inv(s) && ClosesSoon(s, t, n) && n <= 3 && Run(s, schedule).Some? && StepsOf(t, schedule) == n
    ensures ClosesSoon(Run(s, schedule).value, t, 0)
    decreases schedule
  {
    if schedule != [] {
      var (u, c) := schedule[0];
      ClosingStep(s, t, n, u, c);
      StepKeeps(s, u, c);
      ClosingRun(Step(s, u, c).value, t, if u == t then n - 1 else n, schedule[1..]);
    }
  }

  /** A stop that finds no request in flight has closed the socket when, three statements of its own later, it is about
      to unlock, whatever the other threads have done in between; and none of them has a request in flight then. */
  lemma StopCloses(s: State, t: ThreadId, schedule: Schedule)
    requires Reachable(s) && AtPc(s, t, Stopping(StopCheck)) && s.g.inFlight == 0
    requires Run(s, schedule).Some? && StepsOf(t, schedule) == 3
    ensures var ended := Run(s, schedule).value;
            AtPc(ended, t, Stopping(StopUnlock)) && !ended.g.open && ended.g.inFlight == 0
  {
    ReachableInv(s);
    ClosingRun(s, t, 3, schedule);
  }

  // ----- No deadlock -----

  predicate CanStep(s: State, t: ThreadId) {
    Step(s, t, Go(true)).Some?
  }

  lemma OwnerHasCall(s: State, t: ThreadId)
    requires Inv(s) && (s.g.socketOwner == Some(t) || s.g.requestOwner == Some(t))
    ensures s.StackOf(t) != []
  {
    assert ThreadInv(s.g, t, s.StackOf(t));
  }

  /** While a call is in progress some thread can go on: the owner of `socket_mutex_`, or else the owner of
      `request_mutex_`, or else the caller itself. */
  lemma SomeoneCanStep(s: State, t: ThreadId)
    requires Reachable(s) && s.StackOf(t) != []
    ensures match s.g.socketOwner
            case Some(u) => CanStep(s, u)
            case None =>
              match s.g.requestOwner
              case Some(u) => CanStep(s, u)
              case None => CanStep(s, t)
  {
    ReachableInv(s);
    var u := if s.g.socketOwner.Some? then s.g.socketOwner.value
             else if s.g.requestOwner.Some? then s.g.requestOwner.value else t;
    if s.g.socketOwner.Some? || s.g.requestOwner.Some? {
      OwnerHasCall(s, u);
    }
    assert ThreadInv(s.g, u, s.StackOf(u));
  }

  // ----- A stop while a request is in flight -----

  /** The statement the owner of `socket_mutex_` is at. */
  function OwnerPc(s: State): Option<Pc> {
    match s.g.socketOwner
    case None => None
    case Some(t) =>
      var stack := s.StackOf(t);
      if stack == [] then None else Some(stack[|stack| - 1].pc)
  }

  predicate Reopening(pc: Option<Pc>) {
    match pc
    case Some(Opening(o)) => o.CheckAlive? || o.DeadSsl? || o.DeadClose? || o.Connect? || o.Mark?
    case _ => false
  }

  predicate ClosingOnLeave(pc: Option<Pc>) {
    match pc
    case Some(Leaving(l)) => l.Decide? || l.LeaveSsl? || l.LeaveClose?
    case _ => false
  }

  /** A stop has asked for the socket to be closed: it is closed, or it will be when the request ends. */
  predicate Pending(g: Globals, ownerPc: Option<Pc>) {
    && g.shouldClose
    && !Reopening(ownerPc)
    && (g.inFlight > 0 || !g.open || ClosingOnLeave(ownerPc))
  }

  predicate StopPending(s: State) {
    Pending(s.g, OwnerPc(s))
  }

  /** The owner's statement after the effect of a statement at `pc`, which the owner was at or which took the lock. */
  predicate EffectPending(e: Effect, g: Globals, t: ThreadId, pc: Pc) {
    match e
    case None => true
    case Some((g', m)) =>
      if HoldsSocket(pc) then
        Pending(g', if g'.socketOwner == None || !m.To? then None else Some(m.pc))
      else
        && g'.shouldClose == g.shouldClose && g'.inFlight == g.inFlight && g'.open == g.open
        && (g'.socketOwner != g.socketOwner ==>
              && g.socketOwner == None && g'.socketOwner == Some(t)
              && m.To? && !Reopening(Some(m.pc)))
  }

  lemma OpenPending(g: Globals, t: ThreadId, o: OpenPc, c: Choice)
    requires !o.ResetFlag? && (HoldsSocket(Opening(o)) ==> g.socketOwner == Some(t) && Pending(g, Some(Opening(o))))
    ensures EffectPending(OpenStatement(g, t, o, c), g, t, Opening(o))
  {
  }

  lemma UsePending(g: Globals, t: ThreadId, u: UsePc, redirects: nat, c: Choice)
    requires HoldsSocket(Using(u)) ==> g.socketOwner == Some(t) && Pending(g, Some(Using(u)))
    ensures EffectPending(UseStatement(g, t, u, redirects, c), g, t, Using(u))
  {
  }

  lemma LeavePending(g: Globals, t: ThreadId, top: Frame, l: LeavePc)
    requires HoldsSocket(Leaving(l)) ==> g.socketOwner == Some(t) && Pending(g, Some(Leaving(l)))
    ensures EffectPending(LeaveStatement(g, t, top, l), g, t, Leaving(l))
  {
  }

  lemma StoppingPending(g: Globals, t: ThreadId, s: StopPc)
    requires HoldsSocket(Stopping(s)) ==> g.socketOwner == Some(t) && Pending(g, Some(Stopping(s)))
    ensures EffectPending(StopStatement(g, t, s), g, t, Stopping(s))
  {
  }

  lemma StatementPending(g: Globals, t: ThreadId, top: Frame, c: Choice)
    requires top.pc != Opening(ResetFlag)
    requires HoldsSocket(top.pc) ==> g.socketOwner == Some(t) && Pending(g, Some(top.pc))
    ensures EffectPending(Statement(g, t, top, c), g, t, top.pc)
  {
    match top.pc
    case Opening(o) => OpenPending(g, t, o, c);
    case Using(u) => UsePending(g, t, u, top.redirects, c);
    case Leaving(l) => LeavePending(g, t, top, l);
    case Stopping(s) => StoppingPending(g, t, s);
  }

  lemma StopPendingKept(s: State, t: ThreadId, c: Choice)
    requires Inv(s) && StopPending(s) && Step(s, t, c).Some? && !AtPc(s, t, Opening(ResetFlag))
    ensures StopPending(Step(s, t, c).value)
  {
    var stack, s' := s.StackOf(t), Step(s, t, c).value;
    assert ThreadInv(s.g, t, stack);
    if stack == [] {
      assert OwnerPc(s') == OwnerPc(s);
    } else {
      var rest, top := stack[..|stack| - 1], stack[|stack| - 1];
      StatementPending(s.g, t, top, c);
      FlightsHold(rest);
      StatementKeeps(s.g, t, Held(rest), Flights(rest), top, c);
      var (g', m) := Statement(s.g, t, top, c).value;
      OwnerPcMoves(s, t, rest, top, g', m);
    }
  }

  lemma OwnerPcMoves(s: State, t: ThreadId, rest: Stack, top: Frame, g': Globals, m: Move)
    requires s.StackOf(t) == rest + [top]
    requires HoldsSocket(top.pc) <==> s.g.socketOwner == Some(t)
    requires EffectFrame(g', s.g, t)
    requires g'.socketOwner == Some(t) ==> m.To? && HoldsSocket(m.pc)
    ensures var s' := State(g', s.stacks[t := Moved(rest, top, m)]);
            OwnerPc(s') == if g'.socketOwner == Some(t) then Some(m.pc)
                           else if g'.socketOwner == None then None else OwnerPc(s)
  {
  }

  /** No send resets the flag. */
  predicate NoReset(s: State, schedule: Schedule)
    decreases schedule
  {
    schedule != [] ==>
      && !AtPc(s, schedule[0].0, Opening(ResetFlag))
      && match Step(s, schedule[0].0, schedule[0].1)
         case None => true
         case Some(next) => NoReset(next, schedule[1..])
  }

  lemma {:induction false} StopPendingLasts(s: State, schedule: Schedule)
    requires Inv(s) && StopPending(s) && Run(s, schedule).Some? && NoReset(s, schedule)
    ensures StopPending(Run(s, schedule).value)
    decreases schedule
  {
    if schedule != [] {
      StopPendingKept(s, schedule[0].0, schedule[0].1);
      StepKeeps(s, schedule[0].0, schedule[0].1);
      StopPendingLasts(Step(s, schedule[0].0, schedule[0].1).value, schedule[1..]);
    }
  }

  /** A stop during a request leaves the socket closed once no request is in flight, unless a send has reset the
      flag in between. */
  lemma StopLasts(s: State, t: ThreadId, schedule: Schedule)
    requires Reachable(s) && AtPc(s, t, Stopping(StopFlag))
    ensures Step(s, t, Go(true)).Some?
    ensures var flagged := Step(s, t, Go(true)).value;
            var ended := Run(flagged, schedule);
            ended.Some? && NoReset(flagged, schedule) && ended.value.g.inFlight == 0
              && ended.value.g.socketOwner == None
            ==> !ended.value.g.open
  {
    ReachableInv(s);
    assert ThreadInv(s.g, t, s.StackOf(t));
    var flagged := Step(s, t, Go(true)).value;
    StepKeeps(s, t, Go(true));
    if Run(flagged, schedule).Some? && NoReset(flagged, schedule) {
      StopPendingLasts(flagged, schedule);
    }
  }

  /** While requests are in flight, the only send that can reset the flag is one they make themselves, through a
      redirect. */
  lemma OnlyRedirectResets(s: State, t: ThreadId)
    requires Reachable(s) && s.g.inFlight > 0 && AtPc(s, t, Opening(ResetFlag))
    ensures s.g.requestOwner == Some(t)
    ensures var stack := s.StackOf(t); |stack| > 1 && stack[|stack| - 2].pc == AWAITING
  {
    ReachableInv(s);
    assert ThreadInv(s.g, t, s.StackOf(t));
  }

  /** None of the thread's sends waits for a redirect. */
  predicate NotAwaiting(stack: Stack) {
    forall k :: 0 <= k < |stack| ==> stack[k].pc != AWAITING
  }

  /** No request is in flight and nobody is about to close or open the socket. */
  predicate RequestOver(g: Globals) { g.inFlight == 0 && g.socketOwner == None }

  /** A stop is pending, and the requests in flight are those of thread `u`, which makes none through a redirect; or
      `u` has just ended the last one and still holds `socket_mutex_`. */
  ghost predicate Ending(s: State, u: ThreadId) {
    && Inv(s) && StopPending(s) && NotAwaiting(s.StackOf(u))
    && if s.g.inFlight > 0 then s.g.requestOwner == Some(u)
       else s.g.inFlight == 0 && s.g.socketOwner == Some(u) && LeavesLocked(OwnerPc(s))
  }

  predicate LeavesLocked(pc: Option<Pc>) {
    ClosingOnLeave(pc) || pc == Some(Leaving(UnlockLeft))
  }

  lemma NobodyResets(s: State, u: ThreadId, t: ThreadId)
    requires Ending(s, u)
    ensures !AtPc(s, t, Opening(ResetFlag))
  {
    assert ThreadInv(s.g, t, s.StackOf(t)) && ThreadInv(s.g, u, s.StackOf(u));
  }

  /** Only a redirect makes a send wait for one. */
  lemma StaysNotAwaiting(g: Globals, t: ThreadId, stack: Stack, c: Choice)
    requires NotAwaiting(stack) && c != Redirect && ThreadStep(g, t, stack, c).Some?
    ensures NotAwaiting(ThreadStep(g, t, stack, c).value.1)
  {
    if stack != [] {
      var rest, top := stack[..|stack| - 1], stack[|stack| - 1];
      var (g', m) := Statement(g, t, top, c).value;
      StatementMoves(g, t, top, c);
    }
  }

  lemma StatementMoves(g: Globals, t: ThreadId, top: Frame, c: Choice)
    requires c != Redirect && Statement(g, t, top, c).Some?
    ensures var m := Statement(g, t, top, c).value.1; m != CallSend && (m.To? ==> m.pc != AWAITING)
  {
  }

  /** How the requests in flight of thread `t` can end: it takes the last one off, still holding `socket_mutex_`. */
  lemma LastFlight(g: Globals, t: ThreadId, top: Frame, c: Choice)
    requires Statement(g, t, top, c).Some? && g.inFlight > 0 && Statement(g, t, top, c).value.0.inFlight <= 0
    ensures top.pc == Leaving(Decrement) && Statement(g, t, top, c).value.1 == To(Leaving(Decide), top.ok)
  {
  }

  /** From then on the thread goes through to its unlocking. */
  lemma LockedLeave(g: Globals, t: ThreadId, top: Frame, c: Choice)
    requires Statement(g, t, top, c).Some? && LeavesLocked(Some(top.pc))
    ensures var (g', m) := Statement(g, t, top, c).value;
            && g'.inFlight == g.inFlight && m.To?
            && (g'.socketOwner == None || (g'.socketOwner == g.socketOwner && LeavesLocked(Some(m.pc))))
  {
  }

  lemma OthersKeepEnding(s: State, u: ThreadId, t: ThreadId, c: Choice)
    requires Ending(s, u) && t != u && Step(s, t, c).Some?
    ensures Ending(Step(s, t, c).value, u)
  {
    var s' := Step(s, t, c).value;
    NobodyResets(s, u, t);
    StepKeeps(s, t, c);
    StopPendingKept(s, t, c);
    assert ThreadInv(s.g, t, s.StackOf(t));
    ThreadStepKeeps(s.g, t, s.StackOf(t), c);
    assert s'.StackOf(u) == s.StackOf(u);
  }

  lemma OwnerKeepsEnding(s: State, u: ThreadId, c: Choice)
    requires Ending(s, u) && c != Redirect && Step(s, u, c).Some?
    ensures var s' := Step(s, u, c).value;
            Ending(s', u) || (RequestOver(s'.g) && !s'.g.open)
  {
    var stack, s' := s.StackOf(u), Step(s, u, c).value;
    assert ThreadInv(s.g, u, stack);
    NobodyResets(s, u, u);
    StepKeeps(s, u, c);
    StopPendingKept(s, u, c);
    StaysNotAwaiting(s.g, u, stack, c);
    ThreadStepKeeps(s.g, u, stack, c);
    assert s'.StackOf(u) == ThreadStep(s.g, u, stack, c).value.1;
    OwnerHasCall(s, u);
    var rest, top := stack[..|stack| - 1], stack[|stack| - 1];
    var (g', m) := Statement(s.g, u, top, c).value;
    assert m.To? ==> s'.StackOf(u) == rest + [top.(pc := m.pc, ok := m.ok)];
    if s.g.inFlight > 0 {
      if g'.inFlight <= 0 {
        LastFlight(s.g, u, top, c);
      }
    } else {
      LockedLeave(s.g, u, top, c);
    }
  }

  /** The request is not over before the end of the schedule. */
  predicate NotOverBefore(s: State, schedule: Schedule)
    decreases schedule
  {
    schedule != [] ==>
      && !RequestOver(s.g)
      && match Step(s, schedule[0].0, schedule[0].1)
         case None => true
         case Some(next) => NotOverBefore(next, schedule[1..])
  }

  lemma {:induction false} EndingCloses(s: State, u: ThreadId, schedule: Schedule)
    requires Ending(s, u) && Run(s, schedule).Some? && (u, Redirect) !in schedule
    requires NotOverBefore(s, schedule) && RequestOver(Run(s, schedule).value.g)
    ensures !Run(s, schedule).value.g.open
    decreases schedule
  {
    if schedule != [] {
      var (t, c) := schedule[0];
      assert (t, c) in schedule;
      var next := Step(s, t, c).value;
      if t == u {
        OwnerKeepsEnding(s, u, c);
      } else {
        OthersKeepEnding(s, u, t, c);
      }
      if RequestOver(next.g) {
        assert schedule[1..] == [];
      } else {
        EndingCloses(next, u, schedule[1..]);
      }
    }
  }

  /** A stop during a request that does not redirect leaves the socket closed when that request ends. The request is
      that of the thread `u` that holds `request_mutex_`: it waits for no redirect when the stop sets the flag, and
      makes none afterwards. Whatever the other threads do, the socket is closed in the first state in which no
      request is in flight and `socket_mutex_` is free. */
  lemma StopHonoured(s: State, t: ThreadId, u: ThreadId, schedule: Schedule)
    requires Reachable(s) && AtPc(s, t, Stopping(StopFlag)) && s.g.requestOwner == Some(u)
    requires NotAwaiting(s.StackOf(u)) && (u, Redirect) !in schedule
    ensures Step(s, t, Go(true)).Some?
    ensures var flagged := Step(s, t, Go(true)).value;
            var ended := Run(flagged, schedule);
            ended.Some? && RequestOver(ended.value.g) && NotOverBefore(flagged, schedule) ==> !ended.value.g.open
  {
    ReachableInv(s);
    assert ThreadInv(s.g, t, s.StackOf(t));
    var flagged := Step(s, t, Go(true)).value;
    StepKeeps(s, t, Go(true));
    if t == u {
      StaysNotAwaiting(s.g, u, s.StackOf(u), Go(true));
    }
    if Run(flagged, schedule).Some? && RequestOver(Run(flagged, schedule).value.g) && NotOverBefore(flagged, schedule) {
      EndingCloses(flagged, u, schedule);
    }
  }
}
