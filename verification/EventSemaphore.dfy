/** `CEvent`, made of a flag and a semaphore, statement by statement for any number of threads; and its deadlines. */
module EventSemaphore {
  import opened Wrappers

  datatype WaitResult = Object0 | TimedOut | WaitFailed

  /** What a thread does next. A wait tests the flag; waits for the semaphore; in the manual-reset case sets the flag. A
      reset clears the flag and then takes from the semaphore until it has seen it empty; so does a wait that finds
      the flag of an event without manual reset. */
  datatype Thread =
    | Idle
    | AtFlag(timed: bool) | AtSemaphore(timed: bool) | Storing | Returned(result: WaitResult)
    | ClearingFlag(waits: bool) | DrainTest(waits: bool) | DrainTake(waits: bool)

  datatype Event = Event(manualReset: bool, flag: bool, count: nat, threads: seq<Thread>)

  /** `CreateEvent` and `Init` */
  function NewEvent(manualReset: bool, initialState: bool, n: nat): Event {
    Event(manualReset, initialState, if initialState then 1 else 0, seq(n, _ => Idle))
  }

  /** The next step: a call begins, the semaphore is posted, or a thread goes on. `fails` is whether a wait for the
      semaphore fails or times out where it can. */
  datatype Choice = BeginWait(i: nat, timed: bool) | BeginReset(i: nat) | SetEvent | Continue(i: nat, fails: bool)

  function Put(s: Event, i: nat, t: Thread): Event
    requires i < |s.threads|
  {
    s.(threads := s.threads[i := t])
  }

  function ThreadStep(s: Event, i: nat, fails: bool): Option<Event>
    requires i < |s.threads|
  {
    match s.threads[i]
    case Idle => None
    case Returned(_) => None
    case AtFlag(timed) =>
      Some(Put(s, i, if !s.flag then AtSemaphore(timed)
                     else if s.manualReset then Returned(Object0) else ClearingFlag(true)))
    case AtSemaphore(timed) =>
      if fails then
        if !timed then Some(Put(s, i, Returned(WaitFailed)))
        else Some(Put(s, i, Returned(if s.count == 0 then TimedOut else WaitFailed)))
      else if s.count == 0 then None
      else Some(Put(s, i, if s.manualReset then Storing else Returned(Object0)).(count := s.count - 1))
    case Storing => Some(Put(s, i, Returned(Object0)).(flag := true))
    case ClearingFlag(waits) => Some(Put(s, i, DrainTest(waits)).(flag := false))
    case DrainTest(waits) =>
      Some(Put(s, i, if s.count > 0 then DrainTake(waits) else if waits then Returned(Object0) else Idle))
    case DrainTake(waits) =>
      if s.count == 0 then None else Some(Put(s, i, DrainTest(waits)).(count := s.count - 1))
  }

  function Step(s: Event, c: Choice): Option<Event> {
    match c
    case BeginWait(i, timed) =>
      if i < |s.threads| && (s.threads[i] == Idle || s.threads[i].Returned?) then Some(Put(s, i, AtFlag(timed)))
      else None
    case BeginReset(i) =>
      if i < |s.threads| && (s.threads[i] == Idle || s.threads[i].Returned?) then Some(Put(s, i, ClearingFlag(false)))
      else None
    case SetEvent => Some(s.(count := s.count + 1))
    case Continue(i, fails) => if i < |s.threads| then ThreadStep(s, i, fails) else None
  }

  /** A choice that cannot be followed is skipped. */
  function After(s: Event, c: Choice): Event {
    match Step(s, c)
    case None => s
    case Some(s') => s'
  }

  function Run(s: Event, choices: seq<Choice>): Event
    decreases |choices|
  {
    if choices == [] then s else Run(After(s, choices[0]), choices[1..])
  }

  // ----- The abstract event -----

  /** The event is set: the flag is, the semaphore can be taken, or a waiter has taken it and is about to set the
      flag. */
  predicate Signalled(s: Event) {
    s.flag || s.count > 0 || Storing in s.threads
  }

  /** The flag is set, or a waiter is about to set it. */
  predicate Stored(s: Event) {
    s.flag || Storing in s.threads
  }

  predicate WaitsAndSets(choices: seq<Choice>) {
    forall c <- choices :: !c.BeginReset?
  }

  predicate NoReset(t: Thread) { !t.ClearingFlag? && !t.DrainTest? && !t.DrainTake? }

  predicate Resetless(s: Event) {
    s.manualReset && forall t <- s.threads :: NoReset(t)
  }

  lemma InPut(s: Event, i: nat, t: Thread, u: Thread)
    requires i < |s.threads| && u != t
    ensures u in Put(s, i, t).threads ==> u in s.threads
    ensures u in s.threads && u != s.threads[i] ==> u in Put(s, i, t).threads
    ensures t in Put(s, i, t).threads
  {
    assert Put(s, i, t).threads[i] == t;
    if u in s.threads && u != s.threads[i] {
      var k :| 0 <= k < |s.threads| && s.threads[k] == u;
      assert Put(s, i, t).threads[k] == u;
    }
  }

  /** While nobody resets, a step leaves the abstract event as it is, unless it is a set. */
  lemma StepRefines(s: Event, c: Choice)
    requires Resetless(s) && !c.BeginReset? && Step(s, c).Some?
    ensures var s' := Step(s, c).value;
            && Resetless(s') && Signalled(s') == (Signalled(s) || c.SetEvent?) && (s.flag ==> s'.flag)
            && (Stored(s) ==> Stored(s'))
  {
    var s' := Step(s, c).value;
    if !c.SetEvent? {
      var i := if c.BeginWait? then c.i else c.i;
      var t := s'.threads[i];
      assert s.threads[i] in s.threads;
      if t != Storing { InPut(s, i, t, Storing); }
      assert t in s'.threads;
    }
  }

  lemma {:induction false} RunRefines(s: Event, choices: seq<Choice>)
    requires Resetless(s) && WaitsAndSets(choices)
    ensures var t := Run(s, choices);
            && Resetless(t) && (s.flag ==> t.flag) && (Stored(s) ==> Stored(t))
            && (Signalled(t) <==> Signalled(s) || SetEvent in choices)
    decreases |choices|
  {
    if choices != [] {
      assert choices[0] in choices && choices == [choices[0]] + choices[1..];
      if Step(s, choices[0]).Some? {
        StepRefines(s, choices[0]);
      }
      RunRefines(After(s, choices[0]), choices[1..]);
    }
  }

  /** A manual-reset event under waits and sets alone: it is signalled exactly when it was created so or has been
      set. */
  lemma Refines(initialState: bool, n: nat, choices: seq<Choice>)
    requires WaitsAndSets(choices)
    ensures Signalled(Run(NewEvent(true, initialState, n), choices)) <==> initialState || SetEvent in choices
  {
    RunRefines(NewEvent(true, initialState, n), choices);
  }

  /** A step in which a wait returns. */
  predicate Returns(s: Event, j: nat, fails: bool, result: WaitResult) {
    j < |s.threads| && !s.threads[j].Returned? && After(s, Continue(j, fails)).threads[j] == Returned(result)
  }

  /** Once a wait has returned WAIT_OBJECT_0, every wait that tests the flag later does too, as long as nobody resets.
      What happened before, resets included, does not matter. */
  lemma LaterWaitsReturn(s: Event, j: nat, failed: bool, choices: seq<Choice>, i: nat, fails: bool)
    requires Resetless(s) && Returns(s, j, failed, Object0) && WaitsAndSets(choices)
    requires var t := Run(After(s, Continue(j, failed)), choices); i < |t.threads| && t.threads[i].AtFlag?
    ensures var t := Run(After(s, Continue(j, failed)), choices);
            After(t, Continue(i, fails)) == Put(t, i, Returned(Object0))
  {
    assert s.threads[j] in s.threads;
    StepRefines(s, Continue(j, failed));
    RunRefines(After(s, Continue(j, failed)), choices);
  }

  // ----- A set is seen -----

  /** No wait for the semaphore fails while the semaphore can be taken. */
  predicate Orderly(s: Event, choices: seq<Choice>)
    decreases |choices|
  {
    choices != [] ==>
      && (choices[0].Continue? && choices[0].fails ==> s.count == 0)
      && Orderly(After(s, choices[0]), choices[1..])
  }

  predicate InWait(t: Thread) { t.AtFlag? || t.AtSemaphore? || t.Storing? }

  /** A wait begun after a set ends with the flag set, or with a waiter about to set it; even if it times out. */
  lemma {:induction false} WaitEnds(s: Event, choices: seq<Choice>, i: nat)
    requires Resetless(s) && Signalled(s) && WaitsAndSets(choices) && Orderly(s, choices)
    requires i < |s.threads| && (InWait(s.threads[i]) || Stored(s))
    requires forall timed :: BeginWait(i, timed) !in choices
    ensures var t := Run(s, choices); i < |t.threads| && (InWait(t.threads[i]) || Stored(t))
    decreases |choices|
  {
    if choices != [] {
      assert choices[0] in choices && choices == [choices[0]] + choices[1..];
      var next := After(s, choices[0]);
      if Step(s, choices[0]).Some? {
        StepRefines(s, choices[0]);
      }
      if choices[0].BeginWait? {
        assert choices[0] != BeginWait(i, choices[0].timed);
      }
      WaitEnds(next, choices[1..], i);
    }
  }

  predicate GoesOn(j: nat, choices: seq<Choice>) {
    exists fails :: Continue(j, fails) in choices
  }

  /** A waiter that is about to set the flag does so with its next step. */
  lemma {:induction false} StoringSets(s: Event, choices: seq<Choice>, j: nat)
    requires Resetless(s) && WaitsAndSets(choices) && j < |s.threads|
    requires s.flag || (s.threads[j] == Storing && GoesOn(j, choices))
    ensures Run(s, choices).flag
    decreases |choices|
  {
    if choices != [] {
      assert choices[0] in choices && choices == [choices[0]] + choices[1..];
      if Step(s, choices[0]).Some? {
        StepRefines(s, choices[0]);
      }
      var next := After(s, choices[0]);
      if !next.flag {
        var fails :| Continue(j, fails) in choices;
        assert Continue(j, fails) in choices[1..];
      }
      StoringSets(next, choices[1..], j);
    }
  }

  /** Every thread goes on at least once. */
  predicate AllGoOn(n: nat, choices: seq<Choice>) {
    forall j: nat :: j < n ==> GoesOn(j, choices)
  }

  lemma {:induction false} SetIsStored(s: Event, i: nat, a: seq<Choice>, b: seq<Choice>)
    requires Resetless(s) && Signalled(s) && WaitsAndSets(a) && WaitsAndSets(b)
    requires Orderly(s, a) && AllGoOn(|s.threads|, b)
    requires i < |s.threads| && InWait(s.threads[i]) && (forall timed :: BeginWait(i, timed) !in a)
    requires i < |Run(s, a).threads| && Run(s, a).threads[i].Returned?
    ensures Resetless(Run(Run(s, a), b)) && Run(Run(s, a), b).flag
  {
    var t := Run(s, a);
    WaitEnds(s, a, i);
    RunRefines(s, a);
    SameThreads(s, a);
    RunRefines(t, b);
    if !t.flag {
      var j: nat :| j < |t.threads| && t.threads[j] == Storing;
      assert GoesOn(j, b);
      StoringSets(t, b, j);
    }
  }

  /** One set is enough for any number of threads whose waits have timeouts, as the tasks of a sampling channel: when
      one of them has completed a wait begun after the set, and then each has gone on once, the flag is set. From then
      on every wait that tests the flag returns WAIT_OBJECT_0. */
  lemma {:induction false} SetIsSeen(s: Event, i: nat, a: seq<Choice>, b: seq<Choice>, c: seq<Choice>,
                                     k: nat, fails: bool)
    requires Resetless(s) && Signalled(s) && WaitsAndSets(a) && WaitsAndSets(b) && WaitsAndSets(c)
    requires Orderly(s, a) && AllGoOn(|s.threads|, b)
    requires i < |s.threads| && InWait(s.threads[i]) && (forall timed :: BeginWait(i, timed) !in a)
    requires i < |Run(s, a).threads| && Run(s, a).threads[i].Returned?
    requires var t := Run(Run(Run(s, a), b), c); k < |t.threads| && t.threads[k].AtFlag?
    ensures Run(Run(s, a), b).flag
    ensures var t := Run(Run(Run(s, a), b), c); After(t, Continue(k, fails)) == Put(t, k, Returned(Object0))
  {
    SetIsStored(s, i, a, b);
    RunRefines(Run(Run(s, a), b), c);
  }

  lemma {:induction false} SameThreads(s: Event, choices: seq<Choice>)
    ensures |Run(s, choices).threads| == |s.threads|
    decreases |choices|
  {
    if choices != [] {
      SameThreads(After(s, choices[0]), choices[1..]);
    }
  }

  lemma RunOne(s: Event, c: Choice)
    ensures Run(s, [c]) == After(s, c)
  {
    assert [c][1..] == [];
  }

  /** A waiter that waits for the semaphore without a timeout is not woken by the flag: it stays where it is, whatever
      the others do, until there is another set. */
  lemma {:induction false} LeftBehind(s: Event, choices: seq<Choice>, i: nat)
    requires i < |s.threads| && s.threads[i] == AtSemaphore(false) && s.count == 0
    requires SetEvent !in choices && Continue(i, true) !in choices
    ensures var t := Run(s, choices); i < |t.threads| && t.threads[i] == AtSemaphore(false) && t.count == 0
    decreases |choices|
  {
    if choices != [] {
      assert choices == [choices[0]] + choices[1..];
      assert choices[0] != SetEvent && choices[0] != Continue(i, true);
      LeftBehind(After(s, choices[0]), choices[1..], i);
    }
  }

  /** And that does happen: of two such waiters one set wakes one, though the event is then set. */
  lemma OneOfTwoWakes()
    ensures var c := [BeginWait(0, false), Continue(0, false), BeginWait(1, false), Continue(1, false),
                      SetEvent, Continue(0, false), Continue(0, false)];
            Run(NewEvent(true, false, 2), c)
            == Event(true, true, 0, [Returned(Object0), AtSemaphore(false)])
  {
    var s := NewEvent(true, false, 2);
    assert s.threads == [Idle, Idle];
    RunFirst(s, BeginWait(0, false), [Continue(0, false), BeginWait(1, false), Continue(1, false),
                      SetEvent, Continue(0, false), Continue(0, false)]);
    var s1 := After(s, BeginWait(0, false));
    assert s1.threads == [AtFlag(false), Idle];
    RunFirst(s1, Continue(0, false),
             [BeginWait(1, false), Continue(1, false), SetEvent, Continue(0, false), Continue(0, false)]);
    var s2 := After(s1, Continue(0, false));
    assert s2.threads == [AtSemaphore(false), Idle];
    RunFirst(s2, BeginWait(1, false), [Continue(1, false), SetEvent, Continue(0, false), Continue(0, false)]);
    var s3 := After(s2, BeginWait(1, false));
    assert s3.threads == [AtSemaphore(false), AtFlag(false)];
    RunFirst(s3, Continue(1, false), [SetEvent, Continue(0, false), Continue(0, false)]);
    var s4 := After(s3, Continue(1, false));
    assert s4.threads == [AtSemaphore(false), AtSemaphore(false)];
    RunFirst(s4, SetEvent, [Continue(0, false), Continue(0, false)]);
    var s5 := After(s4, SetEvent);
    RunFirst(s5, Continue(0, false), [Continue(0, false)]);
    var s6 := After(s5, Continue(0, false));
    assert s6.threads == [Storing, AtSemaphore(false)];
    RunOne(s6, Continue(0, false));
    assert After(s6, Continue(0, false)).threads == [Returned(Object0), AtSemaphore(false)];
  }

  // ----- How many sets it takes -----

  function Waiting(threads: seq<Thread>): nat {
    if threads == [] then 0
    else Waiting(threads[..|threads| - 1]) + if threads[|threads| - 1] == AtSemaphore(false) then 1 else 0
  }

  function Sets(choices: seq<Choice>): nat
    decreases |choices|
  {
    if choices == [] then 0 else (if choices[0].SetEvent? then 1 else 0) + Sets(choices[1..])
  }

  lemma {:induction false} WaitingPut(threads: seq<Thread>, i: nat, t: Thread)
    requires i < |threads|
    ensures Waiting(threads[i := t]) + (if threads[i] == AtSemaphore(false) then 1 else 0)
         == Waiting(threads) + if t == AtSemaphore(false) then 1 else 0
  {
    var n := |threads| - 1;
    if i == n {
      assert threads[i := t][..n] == threads[..n];
    } else {
      WaitingPut(threads[..n], i, t);
      assert threads[i := t][..n] == threads[..n][i := t];
    }
  }

  /** Waits for the semaphore that have no timeout do not fail, and nobody resets. */
  predicate Patient(choices: seq<Choice>) {
    forall c <- choices :: !c.BeginReset? && !(c.Continue? && c.fails)
  }

  /** Each waiter without timeout that leaves takes one from the semaphore. */
  lemma {:induction false} LeavingTakes(s: Event, choices: seq<Choice>)
    requires Resetless(s) && Patient(choices)
    ensures Waiting(s.threads) + Run(s, choices).count <= Waiting(Run(s, choices).threads) + s.count + Sets(choices)
    decreases |choices|
  {
    if choices != [] {
      var c := choices[0];
      assert c in choices && choices == [c] + choices[1..];
      if Step(s, c).Some? {
        StepRefines(s, c);
        if !c.SetEvent? {
          var i := if c.BeginWait? then c.i else c.i;
          WaitingPut(s.threads, i, After(s, c).threads[i]);
        }
      }
      LeavingTakes(After(s, c), choices[1..]);
    }
  }

  lemma {:induction false} SomeoneWaits(threads: seq<Thread>) returns (i: nat)
    requires Waiting(threads) > 0
    ensures i < |threads| && threads[i] == AtSemaphore(false)
  {
    var n := |threads| - 1;
    if threads[n] == AtSemaphore(false) {
      i := n;
    } else {
      i := SomeoneWaits(threads[..n]);
    }
  }

  /** With as many sets as are missing all of them can leave. */
  lemma {:induction false} AllCanLeave(s: Event, m: nat) returns (choices: seq<Choice>)
    requires Resetless(s) && Waiting(s.threads) <= s.count + m
    ensures Patient(choices) && Sets(choices) == m && Waiting(Run(s, choices).threads) == 0
    decreases m, Waiting(s.threads)
  {
    var c := SetEvent;
    if m > 0 {
      var others := AllCanLeave(After(s, c), m - 1);
      choices := [c] + others;
      RunFirst(s, c, others);
    } else if Waiting(s.threads) > 0 {
      var i := SomeoneWaits(s.threads);
      c := Continue(i, false);
      WaitingPut(s.threads, i, Storing);
      StepRefines(s, c);
      var others := AllCanLeave(After(s, c), 0);
      choices := [c] + others;
      RunFirst(s, c, others);
    } else {
      choices := [];
    }
  }

  /** All waiters without timeout can leave the semaphore with `m` more sets exactly when there are no more of them than
      that and what the semaphore has: the flag wakes none of them. */
  lemma OneSetForEach(s: Event, m: nat)
    requires Resetless(s)
    ensures (exists choices :: Patient(choices) && Sets(choices) == m && Waiting(Run(s, choices).threads) == 0)
       <==> Waiting(s.threads) <= s.count + m
  {
    if Waiting(s.threads) <= s.count + m {
      var choices := AllCanLeave(s, m);
    }
    forall choices | Patient(choices) && Sets(choices) == m && Waiting(Run(s, choices).threads) == 0
      ensures Waiting(s.threads) <= s.count + m
    {
      LeavingTakes(s, choices);
    }
  }

  lemma RunFirst(s: Event, c: Choice, others: seq<Choice>)
    ensures Run(s, [c] + others) == Run(After(s, c), others)
  {
    assert ([c] + others)[1..] == others;
  }

  // ----- Resetting -----

  /** The steps a reset makes on its own. */
  function ResetSteps(i: nat, count: nat): seq<Choice> {
    if count == 0 then [Continue(i, false)]
    else [Continue(i, false)] + ([Continue(i, false)] + ResetSteps(i, count - 1))
  }

  lemma {:induction false} DrainAlone(s: Event, i: nat)
    requires i < |s.threads| && s.threads[i] == DrainTest(false)
    ensures Run(s, ResetSteps(i, s.count)) == Put(s, i, Idle).(count := 0)
    decreases s.count
  {
    var c := Continue(i, false);
    if s.count == 0 {
      RunOne(s, c);
    } else {
      RunFirst(s, c, [c] + ResetSteps(i, s.count - 1));
      RunFirst(After(s, c), c, ResetSteps(i, s.count - 1));
      DrainAlone(After(After(s, c), c), i);
    }
  }

  /** A reset that nobody interrupts unsets the event, however often it was set, unless a waiter is still about to set
      the flag. */
  lemma ResetUnsets(s: Event, i: nat)
    requires i < |s.threads| && s.threads[i] == ClearingFlag(false)
    ensures var t := Run(s, [Continue(i, false)] + ResetSteps(i, s.count));
            t == Put(s, i, Idle).(flag := false, count := 0) && (Signalled(t) <==> Storing in s.threads)
  {
    var c := Continue(i, false);
    RunFirst(s, c, ResetSteps(i, s.count));
    DrainAlone(After(s, c), i);
    InPut(s, i, Idle, Storing);
  }

  // ----- A wait on its own -----

  /** The steps by which a wait takes from the semaphore until it is empty. */
  lemma {:induction false} DrainOfWait(s: Event, i: nat)
    requires i < |s.threads| && s.threads[i] == DrainTest(true)
    ensures Run(s, ResetSteps(i, s.count)) == Put(s, i, Returned(Object0)).(count := 0)
    decreases s.count
  {
    var c := Continue(i, false);
    if s.count == 0 {
      RunOne(s, c);
    } else {
      RunFirst(s, c, [c] + ResetSteps(i, s.count - 1));
      RunFirst(After(s, c), c, ResetSteps(i, s.count - 1));
      DrainOfWait(After(After(s, c), c), i);
    }
  }

  /** A wait that finds the flag returns WAIT_OBJECT_0: a manual-reset event stays as it is, another one is unset. */
  lemma WaitFindsFlag(s: Event, i: nat, timed: bool)
    requires i < |s.threads| && s.threads[i] == AtFlag(timed) && s.flag
    ensures s.manualReset ==> Run(s, [Continue(i, false)]) == Put(s, i, Returned(Object0))
    ensures !s.manualReset ==>
              Run(s, [Continue(i, false)] + ([Continue(i, false)] + ResetSteps(i, s.count)))
              == Put(s, i, Returned(Object0)).(flag := false, count := 0)
  {
    var c := Continue(i, false);
    RunOne(s, c);
    if !s.manualReset {
      RunFirst(s, c, [c] + ResetSteps(i, s.count));
      RunFirst(After(s, c), c, ResetSteps(i, s.count));
      DrainOfWait(After(After(s, c), c), i);
    }
  }

  /** A wait that finds the semaphore only takes one from it and returns WAIT_OBJECT_0; of a manual-reset event it sets
      the flag. */
  lemma WaitTakes(s: Event, i: nat, timed: bool)
    requires i < |s.threads| && s.threads[i] == AtFlag(timed) && !s.flag && s.count > 0
    ensures var c := Continue(i, false);
            Run(s, if s.manualReset then [c] + ([c] + [c]) else [c] + [c])
            == Put(s, i, Returned(Object0)).(flag := s.manualReset, count := s.count - 1)
  {
    var c := Continue(i, false);
    RunFirst(s, c, if s.manualReset then [c] + [c] else [c]);
    if s.manualReset {
      RunFirst(After(s, c), c, [c]);
      RunOne(After(After(s, c), c), c);
    } else {
      RunOne(After(s, c), c);
    }
  }

  /** A wait that finds neither waits for as long as that is so; one with a timeout then returns WAIT_TIMEOUT, one
      without returns WAIT_FAILED when it is interrupted. */
  lemma WaitGivesUp(s: Event, i: nat, timed: bool)
    requires i < |s.threads| && s.threads[i] == AtFlag(timed) && !s.flag && s.count == 0
    ensures var waiting := After(s, Continue(i, false));
            && waiting == Put(s, i, AtSemaphore(timed)) && Step(waiting, Continue(i, false)) == None
            && After(waiting, Continue(i, true)) == Put(s, i, Returned(if timed then TimedOut else WaitFailed))
  {
  }

  /** An event without manual reset and with two threads. */
  function AutoEvent(flag: bool, count: nat, a: Thread, b: Thread): Event {
    Event(false, flag, count, [a, b])
  }

  lemma PutsInTwo(flag: bool, count: nat, a: Thread, b: Thread, t: Thread)
    ensures Put(AutoEvent(flag, count, a, b), 0, t) == AutoEvent(flag, count, t, b)
    ensures Put(AutoEvent(flag, count, a, b), 1, t) == AutoEvent(flag, count, a, t)
  {
  }

  /** Both threads begin a wait. */
  lemma BothBegin(others: seq<Choice>)
    ensures Run(NewEvent(false, true, 2), [BeginWait(0, false)] + ([BeginWait(1, false)] + others))
         == Run(AutoEvent(true, 1, AtFlag(false), AtFlag(false)), others)
  {
    assert NewEvent(false, true, 2) == AutoEvent(true, 1, Idle, Idle);
    PutsInTwo(true, 1, Idle, Idle, AtFlag(false));
    PutsInTwo(true, 1, AtFlag(false), Idle, AtFlag(false));
    RunFirst(AutoEvent(true, 1, Idle, Idle), BeginWait(0, false), [BeginWait(1, false)] + others);
    RunFirst(AutoEvent(true, 1, AtFlag(false), Idle), BeginWait(1, false), others);
  }

  /** The first finds the flag and clears it. */
  lemma FirstClears(others: seq<Choice>)
    ensures Run(AutoEvent(true, 1, AtFlag(false), AtFlag(false)),
                [Continue(0, false)] + ([Continue(0, false)] + others))
         == Run(AutoEvent(false, 1, DrainTest(true), AtFlag(false)), others)
  {
    PutsInTwo(true, 1, AtFlag(false), AtFlag(false), ClearingFlag(true));
    PutsInTwo(true, 1, ClearingFlag(true), AtFlag(false), DrainTest(true));
    RunFirst(AutoEvent(true, 1, AtFlag(false), AtFlag(false)), Continue(0, false), [Continue(0, false)] + others);
    RunFirst(AutoEvent(true, 1, ClearingFlag(true), AtFlag(false)), Continue(0, false), others);
  }

  /** The second takes what the semaphore has before the first drains it. */
  lemma SecondTakes(others: seq<Choice>)
    ensures Run(AutoEvent(false, 1, DrainTest(true), AtFlag(false)),
                [Continue(1, false)] + ([Continue(1, false)] + others))
         == Run(AutoEvent(false, 0, DrainTest(true), Returned(Object0)), others)
  {
    PutsInTwo(false, 1, DrainTest(true), AtFlag(false), AtSemaphore(false));
    PutsInTwo(false, 1, DrainTest(true), AtSemaphore(false), Returned(Object0));
    RunFirst(AutoEvent(false, 1, DrainTest(true), AtFlag(false)), Continue(1, false), [Continue(1, false)] + others);
    RunFirst(AutoEvent(false, 1, DrainTest(true), AtSemaphore(false)), Continue(1, false), others);
  }

  /** An event without manual reset that is created set lets two waits return though it is never set again: one that
      has cleared the flag, and one that takes what the semaphore was created with before the first has drained it. */
  lemma TwoReturnFromOneState() returns (choices: seq<Choice>)
    ensures SetEvent !in choices
    ensures Run(NewEvent(false, true, 2), choices) == Event(false, false, 0, [Returned(Object0), Returned(Object0)])
  {
    var one, two := [Continue(0, false)], [Continue(1, false)];
    choices := [BeginWait(0, false)] + ([BeginWait(1, false)] + (one + (one + (two + (two + one)))));
    BothBegin(one + (one + (two + (two + one))));
    FirstClears(two + (two + one));
    SecondTakes(one);
    RunOne(AutoEvent(false, 0, DrainTest(true), Returned(Object0)), Continue(0, false));
    PutsInTwo(false, 0, DrainTest(true), Returned(Object0), Returned(Object0));
  }

  // ----- The deadline of a timed wait -----

  const NANOS: int := 1_000_000_000

  datatype Timespec = Timespec(sec: int, nsec: int)

  /** C's division and remainder truncate. */
  function Quotient(a: int, b: int): int
    requires b > 0
  {
    if a >= 0 then a / b else -((-a) / b)
  }

  function Remainder(a: int, b: int): int
    requires b > 0
  {
    a - Quotient(a, b) * b
  }

  /** The nanoseconds of the clock and of the wait, added up. */
  function NanoSum(now: Timespec, msecs: int): int {
    Remainder(msecs, 1000) * 1000 * 1000 + now.nsec
  }

  /** `sem_get_time_millsecs` */
  method SemGetTimeMillsecs(now: Timespec, msecs: int) returns (ts: Timespec)
    requires 0 <= now.nsec < NANOS
    ensures ts.sec * NANOS + ts.nsec == now.sec * NANOS + now.nsec + msecs * 1_000_000
    ensures -0x8000_0000 <= NanoSum(now, msecs) < 0x8000_0000
    ensures -NANOS < ts.nsec < NANOS
    ensures 0 <= ts.nsec <==> msecs >= 0 || now.nsec >= ((-msecs) % 1000) * 1_000_000
  {
    var secs := Quotient(msecs, 1000);
    var rest := Remainder(msecs, 1000);
    var sum := rest * 1000 * 1000 + now.nsec;
    var add := Quotient(sum, 1000 * 1000 * 1000);
    ts := Timespec(now.sec + (add + secs), Remainder(sum, 1000 * 1000 * 1000));
    assert msecs == secs * 1000 + rest;
    assert sum == add * NANOS + ts.nsec;
  }
}
