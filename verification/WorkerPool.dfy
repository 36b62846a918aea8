/** The worker pool `ThreadPool`: workers, producers and one call of `shutdown`, statement by statement. */
module WorkerPool {
  import opened Wrappers

  /** A worker: about to lock the mutex, holding it before the test of the wait, holding it with a job to take, waiting
      on the condition, running the job with a number, or gone. */
  datatype Worker = AtLock | Checking | Taking | Sleeping | Running(job: nat) | Exited

  /** A call of `enqueue` that holds the mutex and has pushed its job. */
  datatype EnqueuePc = NotifyingOne | Unlocking

  datatype ShutdownPc = NotCalled | Flagging | NotifyingAll | Joining(next: nat) | Returned

  datatype Lock = Free | ByWorker(i: nat) | ByProducer(pc: EnqueuePc) | ByShutdown

  /** `enqueued` and what follows is history: all jobs ever enqueued, all taken from the queue in the order taken, which
      worker took each, the numbers of the finished ones, and how many were enqueued when shutdown set its flag. */
  datatype Pool<Job> = Pool(
    workers: seq<Worker>, jobs: seq<Job>, shutdown: bool, lock: Lock, closer: ShutdownPc,
    enqueued: seq<Job>, taken: seq<Job>, takenBy: seq<nat>, finished: seq<nat>, mark: nat)

  function NewPool<Job>(n: nat): Pool<Job> {
    Pool(seq(n, _ => AtLock), [], false, Free, NotCalled, [], [], [], [], 0)
  }

  /** Whose step is next. A wait may end without a notification. */
  datatype Choice<Job> = Work(i: nat) | Spurious(i: nat) | Enqueue(job: Job) | Produce(woken: nat) | Close

  // ----- Steps -----

  function Set<Job>(s: Pool<Job>, i: nat, w: Worker): Pool<Job>
    requires i < |s.workers|
  {
    s.(workers := s.workers[i := w])
  }

  function WorkerStep<Job>(s: Pool<Job>, i: nat): Option<Pool<Job>> {
    if i >= |s.workers| then None
    else
      match s.workers[i]
      case AtLock => if s.lock == Free then Some(Set(s, i, Checking).(lock := ByWorker(i))) else None
      case Checking =>
        if s.jobs != [] then Some(Set(s, i, Taking))
        else Some(Set(s, i, if s.shutdown then Exited else Sleeping).(lock := Free))
      case Taking =>
        if s.jobs == [] then None
        else Some(Set(s, i, Running(|s.taken|)).(lock := Free, jobs := s.jobs[1..],
                                                 taken := s.taken + [s.jobs[0]], takenBy := s.takenBy + [i]))
      case Sleeping => None
      case Running(j) => Some(Set(s, i, AtLock).(finished := s.finished + [j]))
      case Exited => None
  }

  function EnqueueStep<Job>(s: Pool<Job>, x: Job): Option<Pool<Job>> {
    if s.lock == Free then
      Some(s.(lock := ByProducer(NotifyingOne), jobs := s.jobs + [x], enqueued := s.enqueued + [x]))
    else None
  }

  function ProducerStep<Job>(s: Pool<Job>, woken: nat): Option<Pool<Job>> {
    if s.lock == ByProducer(NotifyingOne) then
      if woken < |s.workers| && s.workers[woken] == Sleeping then
        Some(Set(s, woken, AtLock).(lock := ByProducer(Unlocking)))
      else if Sleeping !in s.workers then Some(s.(lock := ByProducer(Unlocking)))
      else None
    else if s.lock == ByProducer(Unlocking) then Some(s.(lock := Free))
    else None
  }

  function WakeAll(ws: seq<Worker>): seq<Worker> {
    seq(|ws|, i requires 0 <= i < |ws| => if ws[i] == Sleeping then AtLock else ws[i])
  }

  function CloserStep<Job>(s: Pool<Job>): Option<Pool<Job>> {
    match s.closer
    case NotCalled => if s.lock == Free then Some(s.(closer := Flagging, lock := ByShutdown)) else None
    case Flagging => Some(s.(closer := NotifyingAll, lock := Free, shutdown := true, mark := |s.enqueued|))
    case NotifyingAll => Some(s.(closer := Joining(0), workers := WakeAll(s.workers)))
    case Joining(k) =>
      if k >= |s.workers| then Some(s.(closer := Returned))
      else if s.workers[k] == Exited then Some(s.(closer := Joining(k + 1)))
      else None
    case Returned => None
  }

  function Step<Job>(s: Pool<Job>, c: Choice<Job>): Option<Pool<Job>> {
    match c
    case Work(i) => WorkerStep(s, i)
    case Spurious(i) => if i < |s.workers| && s.workers[i] == Sleeping then Some(Set(s, i, AtLock)) else None
    case Enqueue(x) => EnqueueStep(s, x)
    case Produce(woken) => ProducerStep(s, woken)
    case Close => CloserStep(s)
  }

  /** A run: choices that cannot be followed are skipped. */
  function Run<Job>(s: Pool<Job>, choices: seq<Choice<Job>>): Pool<Job>
    decreases |choices|
  {
    if choices == [] then s
    else
      var before := Run(s, choices[..|choices| - 1]);
      match Step(before, choices[|choices| - 1])
      case None => before
      case Some(after) => after
  }

  // ----- Invariants -----

  predicate Holds(w: Worker) { w == Checking || w == Taking }

  predicate Locked<Job>(s: Pool<Job>) {
    && (s.lock.ByWorker? ==> s.lock.i < |s.workers|)
    && (forall i :: 0 <= i < |s.workers| ==> (Holds(s.workers[i]) <==> s.lock == ByWorker(i)))
    && (forall i :: 0 <= i < |s.workers| && s.workers[i] == Taking ==> s.jobs != [])
    && (s.lock == ByShutdown <==> s.closer == Flagging)
  }

  /** Nothing is lost, and jobs leave in the order they came. */
  ghost predicate Fifo<Job>(s: Pool<Job>) {
    s.taken + s.jobs == s.enqueued && |s.takenBy| == |s.taken|
  }

  predicate RunsIt<Job>(s: Pool<Job>, j: nat)
    requires j < |s.takenBy|
  {
    s.takenBy[j] < |s.workers| && s.workers[s.takenBy[j]] == Running(j)
  }

  /** A job that was taken is finished, or it is run by the worker that took it; not both, and by no other. */
  predicate Once<Job>(s: Pool<Job>)
    requires |s.takenBy| == |s.taken|
  {
    && (forall j :: 0 <= j < |s.taken| ==> (RunsIt(s, j) <==> j !in s.finished))
    && (forall i :: 0 <= i < |s.workers| && s.workers[i].Running? ==>
          s.workers[i].job < |s.taken| && s.takenBy[s.workers[i].job] == i)
    && (forall k :: 0 <= k < |s.finished| ==> s.finished[k] < |s.taken|)
    && (forall k, l :: 0 <= k < l < |s.finished| ==> s.finished[k] != s.finished[l])
  }

  predicate Marked<Job>(s: Pool<Job>) {
    && s.mark <= |s.enqueued| && (s.shutdown <==> !s.closer.NotCalled? && !s.closer.Flagging?)
    && (forall i :: 0 <= i < |s.workers| && s.workers[i] == Exited ==> s.shutdown && |s.taken| >= s.mark)
    && (s.closer.Joining? ==>
          s.closer.next <= |s.workers| && forall i :: 0 <= i < s.closer.next ==> s.workers[i] == Exited)
    && (s.closer.Returned? ==> forall i :: 0 <= i < |s.workers| ==> s.workers[i] == Exited)
  }

  /** Workers that will look at the queue before they sleep. */
  function Pending(ws: seq<Worker>): nat {
    if ws == [] then 0 else Pending(ws[..|ws| - 1]) + if ws[|ws| - 1] == AtLock || Holds(ws[|ws| - 1]) then 1 else 0
  }

  /** No wakeup is lost: while a worker sleeps there is, for each job in the queue, another one that will look. Once
      shutdown has notified the workers none sleeps. */
  predicate Awake<Job>(s: Pool<Job>) {
    && (Sleeping in s.workers ==> |s.jobs| <= Pending(s.workers) + if s.lock == ByProducer(NotifyingOne) then 1 else 0)
    && (s.closer.Joining? || s.closer.Returned? ==> Sleeping !in s.workers)
  }

  ghost predicate Inv<Job>(s: Pool<Job>) {
    Locked(s) && Fifo(s) && Once(s) && Marked(s) && Awake(s)
  }

  // ----- Every step keeps them -----

  lemma {:induction false} PendingAfter(ws: seq<Worker>, i: nat, w: Worker)
    requires i < |ws|
    ensures Pending(ws[i := w]) - (if w == AtLock || Holds(w) then 1 else 0)
         == Pending(ws) - (if ws[i] == AtLock || Holds(ws[i]) then 1 else 0)
  {
    var n := |ws| - 1;
    if i < n {
      PendingAfter(ws[..n], i, w);
      assert ws[i := w][..n] == ws[..n][i := w];
    } else {
      assert ws[i := w][..n] == ws[..n];
    }
  }

  lemma WorkerKeepsLock<Job>(s: Pool<Job>, i: nat)
    requires Locked(s) && Fifo(s) && WorkerStep(s, i).Some?
    ensures Locked(WorkerStep(s, i).value) && Fifo(WorkerStep(s, i).value)
  {
  }

  lemma WorkerKeepsAwake<Job>(s: Pool<Job>, i: nat)
    requires Locked(s) && Marked(s) && Awake(s) && WorkerStep(s, i).Some?
    ensures Awake(WorkerStep(s, i).value)
  {
    var s' := WorkerStep(s, i).value;
    PendingAfter(s.workers, i, s'.workers[i]);
    assert Sleeping in s'.workers ==> Sleeping in s.workers || s'.workers[i] == Sleeping;
  }

  lemma WorkerKeepsMark<Job>(s: Pool<Job>, i: nat)
    requires Inv(s) && WorkerStep(s, i).Some?
    ensures Marked(WorkerStep(s, i).value)
  {
  }

  lemma FinishKeepsOnce<Job>(s: Pool<Job>, i: nat)
    requires Inv(s) && i < |s.workers| && s.workers[i].Running?
    ensures Once(WorkerStep(s, i).value)
  {
    var s', job := WorkerStep(s, i).value, s.workers[i].job;
    assert RunsIt(s, job);
    assert s'.finished[|s.finished|] == job;
    forall j | 0 <= j < |s'.taken|
      ensures RunsIt(s', j) <==> j !in s'.finished
    {
      assert RunsIt(s, j) <==> j !in s.finished;
      assert j in s'.finished <==> j in s.finished || j == job;
    }
  }

  lemma TakeKeepsOnce<Job>(s: Pool<Job>, i: nat)
    requires Inv(s) && i < |s.workers| && s.workers[i] == Taking
    ensures var s' := WorkerStep(s, i).value; |s'.takenBy| == |s'.taken| && Once(s')
  {
    var s' := WorkerStep(s, i).value;
    forall j | 0 <= j < |s'.taken|
      ensures RunsIt(s', j) <==> j !in s'.finished
    {
      if j < |s.taken| {
        assert RunsIt(s, j) <==> j !in s.finished;
      }
    }
  }

  /** A step that takes or finishes no job. */
  lemma OthersKeepOnce<Job>(s: Pool<Job>, s': Pool<Job>)
    requires Inv(s) && |s'.workers| == |s.workers|
    requires s'.taken == s.taken && s'.takenBy == s.takenBy && s'.finished == s.finished
    requires forall i :: 0 <= i < |s.workers| ==>
               s'.workers[i] == s.workers[i] || (!s'.workers[i].Running? && !s.workers[i].Running?)
    ensures Once(s')
  {
    forall j | 0 <= j < |s'.taken|
      ensures RunsIt(s', j) <==> j !in s'.finished
    {
      assert RunsIt(s, j) <==> j !in s.finished;
    }
  }

  lemma WorkerKeepsOnce<Job>(s: Pool<Job>, i: nat)
    requires Inv(s) && WorkerStep(s, i).Some?
    ensures var s' := WorkerStep(s, i).value; |s'.takenBy| == |s'.taken| && Once(s')
  {
    if s.workers[i].Running? {
      FinishKeepsOnce(s, i);
    } else if s.workers[i] == Taking {
      TakeKeepsOnce(s, i);
    } else {
      OthersKeepOnce(s, WorkerStep(s, i).value);
    }
  }

  lemma ProducerKeeps<Job>(s: Pool<Job>, woken: nat)
    requires Inv(s) && ProducerStep(s, woken).Some?
    ensures Inv(ProducerStep(s, woken).value)
  {
    if s.lock == ByProducer(NotifyingOne) && woken < |s.workers| {
      PendingAfter(s.workers, woken, AtLock);
    }
    OthersKeepOnce(s, ProducerStep(s, woken).value);
  }

  lemma CloserKeeps<Job>(s: Pool<Job>)
    requires Inv(s) && CloserStep(s).Some?
    ensures Inv(CloserStep(s).value)
  {
    OthersKeepOnce(s, CloserStep(s).value);
  }

  lemma EnqueueKeeps<Job>(s: Pool<Job>, x: Job)
    requires Inv(s) && EnqueueStep(s, x).Some?
    ensures Inv(EnqueueStep(s, x).value)
  {
    OthersKeepOnce(s, EnqueueStep(s, x).value);
  }

  lemma SpuriousKeeps<Job>(s: Pool<Job>, i: nat)
    requires Inv(s) && i < |s.workers| && s.workers[i] == Sleeping
    ensures Inv(Set(s, i, AtLock))
  {
    PendingAfter(s.workers, i, AtLock);
    OthersKeepOnce(s, Set(s, i, AtLock));
  }

  lemma StepKeeps<Job>(s: Pool<Job>, c: Choice<Job>)
    requires Inv(s) && Step(s, c).Some?
    ensures Inv(Step(s, c).value)
  {
    match c
    case Work(i) =>
      WorkerKeepsLock(s, i);
      WorkerKeepsAwake(s, i);
      WorkerKeepsMark(s, i);
      WorkerKeepsOnce(s, i);
    case Spurious(i) => SpuriousKeeps(s, i);
    case Enqueue(x) => EnqueueKeeps(s, x);
    case Produce(woken) => ProducerKeeps(s, woken);
    case Close => CloserKeeps(s);
  }

  lemma {:induction false} RunKeeps<Job>(n: nat, choices: seq<Choice<Job>>)
    ensures Inv(Run(NewPool(n), choices))
    decreases |choices|
  {
    if choices != [] {
      RunKeeps(n, choices[..|choices| - 1]);
      var before := Run(NewPool<Job>(n), choices[..|choices| - 1]);
      if Step(before, choices[|choices| - 1]).Some? {
        StepKeeps(before, choices[|choices| - 1]);
      }
    }
  }

  // ----- What holds in every run -----

  /** The jobs handed to the pool: those of the calls of `enqueue` that found the mutex free, in their order. */
  function Handed<Job>(n: nat, choices: seq<Choice<Job>>): seq<Job>
    decreases |choices|
  {
    if choices == [] then []
    else
      var before := choices[..|choices| - 1];
      match choices[|choices| - 1]
      case Enqueue(x) => Handed(n, before) + if Run(NewPool(n), before).lock == Free then [x] else []
      case _ => Handed(n, before)
  }

  lemma StepEnqueues<Job>(s: Pool<Job>, c: Choice<Job>)
    ensures c.Enqueue? ==> if s.lock == Free then Step(s, c).Some? && Step(s, c).value.enqueued == s.enqueued + [c.job]
                           else Step(s, c) == None
    ensures !c.Enqueue? && Step(s, c).Some? ==> Step(s, c).value.enqueued == s.enqueued
  {
  }

  /** All of them get into the queue, and nothing else does. */
  lemma {:induction false} EnqueuedAreHanded<Job>(n: nat, choices: seq<Choice<Job>>)
    ensures Run(NewPool(n), choices).enqueued == Handed(n, choices)
    decreases |choices|
  {
    if choices != [] {
      var before := choices[..|choices| - 1];
      EnqueuedAreHanded(n, before);
      StepEnqueues(Run(NewPool(n), before), choices[|choices| - 1]);
    }
  }

  /** Jobs are taken in the order they were handed to the pool, and each of them is in exactly one place: in the queue,
      with the one worker that runs it, or among the finished ones, there just once. */
  lemma EachJobOnce<Job>(n: nat, choices: seq<Choice<Job>>, j: nat)
    requires j < |Handed(n, choices)|
    ensures var s, handed := Run(NewPool(n), choices), Handed(n, choices);
            && s.taken <= handed && s.jobs == handed[|s.taken|..]
            && (j in s.finished ==> j < |s.taken| && Running(j) !in s.workers)
            && (j < |s.taken| && j !in s.finished ==>
                  exists i :: 0 <= i < |s.workers| && s.workers[i] == Running(j)
                           && forall k :: 0 <= k < |s.workers| && s.workers[k] == Running(j) ==> k == i)
            && (forall k, l :: 0 <= k < l < |s.finished| ==> s.finished[k] != s.finished[l])
            && (j >= |s.taken| ==> Running(j) !in s.workers)
  {
    RunKeeps<Job>(n, choices);
    EnqueuedAreHanded<Job>(n, choices);
    var s := Run(NewPool(n), choices);
    assert s.enqueued[..|s.taken|] == s.taken;
    if j < |s.taken| {
      assert RunsIt(s, j) <==> j !in s.finished;
    }
  }

  /** What a step leaves behind of the calls before it. */
  lemma StepGrows<Job>(s: Pool<Job>, c: Choice<Job>)
    requires Inv(s) && Step(s, c).Some?
    ensures var t := Step(s, c).value;
            && s.enqueued <= t.enqueued && |t.workers| == |s.workers|
            && (t.closer.NotCalled? ==> s.closer.NotCalled?)
            && (t.shutdown ==> if s.shutdown then t.mark == s.mark else t.mark == |s.enqueued|)
  {
  }

  lemma {:induction false} RunSize<Job>(n: nat, a: seq<Choice<Job>>)
    ensures |Run(NewPool(n), a).workers| == n
    decreases |a|
  {
    if a != [] {
      RunSize(n, a[..|a| - 1]);
      RunKeeps(n, a[..|a| - 1]);
      if Step(Run(NewPool(n), a[..|a| - 1]), a[|a| - 1]).Some? {
        StepGrows(Run(NewPool(n), a[..|a| - 1]), a[|a| - 1]);
      }
    }
  }

  lemma {:induction false} EarlierIsMarked<Job>(n: nat, a: seq<Choice<Job>>, b: seq<Choice<Job>>)
    requires !Run(NewPool(n), a).shutdown
    ensures var s, t := Run(NewPool(n), a), Run(NewPool(n), a + b);
            s.enqueued <= t.enqueued && (t.shutdown ==> t.mark >= |s.enqueued|)
    decreases |b|
  {
    if b == [] {
      assert a + b == a;
    } else {
      var b' := b[..|b| - 1];
      EarlierIsMarked(n, a, b');
      assert (a + b)[..|a + b| - 1] == a + b';
      var u := Run(NewPool(n), a + b');
      RunKeeps(n, a + b');
      if Step(u, b[|b| - 1]).Some? {
        StepGrows(u, b[|b| - 1]);
      }
    }
  }

  /** With at least one worker, `shutdown` returns only when every job that was handed to the pool before it was called
      has been taken, as itself, and is finished. */
  lemma {:induction false} ShutdownWaits<Job>(n: nat, before: seq<Choice<Job>>, during: seq<Choice<Job>>, j: nat)
    requires n > 0
    requires Run(NewPool(n), before).closer.NotCalled? && Run(NewPool(n), before + during).closer.Returned?
    requires j < |Handed(n, before)|
    ensures var t := Run(NewPool(n), before + during);
            j in t.finished && j < |t.taken| && t.taken[j] == Handed(n, before)[j]
  {
    var t := Run(NewPool(n), before + during);
    RunKeeps<Job>(n, before);
    EnqueuedAreHanded<Job>(n, before);
    EarlierIsMarked<Job>(n, before, during);
    RunSize<Job>(n, before + during);
    RunKeeps<Job>(n, before + during);
    assert t.workers[0] == Exited;
    assert RunsIt(t, j) <==> j !in t.finished;
    assert t.taken[j] == (t.taken + t.jobs)[j];
  }

  lemma {:induction false} RunInTwo<Job>(s: Pool<Job>, a: seq<Choice<Job>>, b: seq<Choice<Job>>)
    ensures Run(s, a + b) == Run(Run(s, a), b)
    decreases |b|
  {
    if b == [] {
      assert a + b == a;
    } else {
      RunInTwo(s, a, b[..|b| - 1]);
      assert (a + b)[..|a + b| - 1] == a + b[..|b| - 1];
    }
  }

  /** A job in the queue of a pool without workers. */
  function Stuck<Job>(x: Job): Pool<Job> {
    var s: Pool<Job> := NewPool(0);
    s.(jobs := [x], enqueued := [x])
  }

  lemma GetsStuck<Job>(x: Job)
    ensures Run(NewPool(0), [Enqueue(x), Produce(0), Produce(0)]) == Stuck(x)
  {
    var s: Pool<Job> := NewPool(0);
    var c: seq<Choice<Job>> := [Enqueue(x), Produce(0), Produce(0)];
    assert c[..2][..1] == c[..1] && c[..1][..0] == [];
    assert Run(s, []) == s;
    assert Run(s, c[..1]) == Stuck(x).(lock := ByProducer(NotifyingOne));
    assert Run(s, c[..2]) == Stuck(x).(lock := ByProducer(Unlocking));
  }

  lemma StaysStuck<Job>(x: Job)
    ensures Run(Stuck(x), [Close, Close, Close, Close])
         == Stuck(x).(closer := Returned, shutdown := true, mark := 1)
  {
    var s, closing := Stuck(x), Stuck(x).(shutdown := true, mark := 1);
    var c: seq<Choice<Job>> := [Close, Close, Close, Close];
    assert c[..3][..2] == c[..2] && c[..2][..1] == c[..1] && c[..1][..0] == [];
    assert Run(s, []) == s;
    assert Run(s, c[..1]) == s.(closer := Flagging, lock := ByShutdown);
    assert Run(s, c[..2]) == closing.(closer := NotifyingAll);
    assert WakeAll(s.workers) == s.workers;
    assert Run(s, c[..3]) == closing.(closer := Joining(0));
  }

  /** A pool without workers: `shutdown` returns and the job was never run. */
  lemma NoWorkers<Job>(x: Job)
    ensures var t := Run(NewPool(0), [Enqueue(x), Produce(0), Produce(0)] + [Close, Close, Close, Close]);
            t.closer == Returned && t.enqueued == [x] && t.jobs == [x] && t.finished == []
  {
    GetsStuck(x);
    StaysStuck(x);
    RunInTwo<Job>(NewPool(0), [Enqueue(x), Produce(0), Produce(0)], [Close, Close, Close, Close]);
  }

  // ----- Nobody waits for ever -----

  /** Somebody's next statement, other than a new call or a spurious wakeup. */
  predicate Internal<Job>(s: Pool<Job>, c: Choice<Job>) {
    c.Work? || c.Produce? || (c.Close? && s.closer != NotCalled)
  }

  lemma {:induction false} NonePending(ws: seq<Worker>)
    requires forall w <- ws :: !Holds(w) && w != AtLock
    ensures Pending(ws) == 0
  {
    if ws != [] {
      assert ws[|ws| - 1] in ws;
      NonePending(ws[..|ws| - 1]);
    }
  }

  lemma HolderCanStep<Job>(s: Pool<Job>) returns (c: Choice<Job>)
    requires Inv(s) && s.lock != Free
    ensures Internal(s, c) && Step(s, c).Some?
  {
    match s.lock
    case ByWorker(i) =>
      assert Holds(s.workers[i]);
      c := Work(i);
    case ByShutdown => c := Close;
    case ByProducer(pc) =>
      assert pc.NotifyingOne? || pc.Unlocking?;
      if i: nat :| i < |s.workers| && s.workers[i] == Sleeping {
        c := Produce(i);
      } else {
        assert Sleeping !in s.workers;
        c := Produce(|s.workers|);
      }
  }

  lemma NotAllAsleep<Job>(s: Pool<Job>)
    requires Inv(s) && s.lock == Free && s.closer == NotCalled && s.jobs != [] && s.workers != []
    ensures exists i :: 0 <= i < |s.workers| && (s.workers[i] == AtLock || s.workers[i].Running?)
  {
    if forall i :: 0 <= i < |s.workers| ==> s.workers[i] != AtLock && !s.workers[i].Running? {
      assert s.workers[0] == Sleeping;
      NonePending(s.workers);
    }
  }

  /** No lost wakeups, no deadlock: while there is a job for a worker that is not gone, or a shutdown in progress,
      somebody can do the next statement. */
  lemma SomebodyCanStep<Job>(s: Pool<Job>) returns (c: Choice<Job>)
    requires Inv(s) && s.closer != Returned
    requires s.closer != NotCalled || (s.jobs != [] && s.workers != [])
    ensures Internal(s, c) && Step(s, c).Some?
  {
    if s.lock != Free {
      c := HolderCanStep(s);
    } else if s.closer == NotCalled {
      NotAllAsleep(s);
      var i: nat :| i < |s.workers| && (s.workers[i] == AtLock || s.workers[i].Running?);
      c := Work(i);
    } else if s.closer.Joining? && s.closer.next < |s.workers| && s.workers[s.closer.next] != Exited {
      c := Work(s.closer.next);
    } else {
      c := Close;
    }
  }

  /** A wait can end without a notification. With the mutex free the worker then looks: it takes a job if there is one,
      leaves if the pool is shut down, and otherwise sleeps again, and nothing has changed. */
  lemma SpuriousWakeup<Job>(s: Pool<Job>, i: nat)
    requires i < |s.workers| && s.workers[i] == Sleeping && s.lock == Free
    ensures Step(s, Spurious(i)) == Some(Set(s, i, AtLock))
    ensures var looking := WorkerStep(Set(s, i, AtLock), i);
            && looking.Some? && looking.value.lock == ByWorker(i)
            && var next := WorkerStep(looking.value, i);
               next.Some? && if s.jobs != [] then next.value.workers[i] == Taking
                             else if s.shutdown then next.value == Set(s, i, Exited) else next.value == s
  {
    var woken := Set(s, i, AtLock);
    var looking := Set(woken, i, Checking).(lock := ByWorker(i));
    assert looking.workers[i] == Checking && looking.workers[i := Sleeping] == s.workers;
    assert looking.workers[i := Exited] == s.workers[i := Exited];
  }

  // ----- Shutdown returns -----

  function WorkerWork(w: Worker): nat {
    match w
    case AtLock => 3
    case Checking => 2
    case Taking => 1
    case Sleeping => 0
    case Running(_) => 4
    case Exited => 0
  }

  function TotalWork(ws: seq<Worker>): nat {
    if ws == [] then 0 else TotalWork(ws[..|ws| - 1]) + WorkerWork(ws[|ws| - 1])
  }

  function LockWork(lock: Lock): nat {
    match lock
    case ByProducer(NotifyingOne) => 5
    case ByProducer(Unlocking) => 1
    case _ => 0
  }

  function CloserWork(closer: ShutdownPc, n: nat): int {
    match closer
    case NotCalled => 4 * n + 5
    case Flagging => 4 * n + 4
    case NotifyingAll => 4 * n + 3
    case Joining(k) => n - k + 1
    case Returned => 0
  }

  /** A bound on what is left to do when no more jobs come. */
  function WorkLeft<Job>(s: Pool<Job>): int {
    4 * |s.jobs| + TotalWork(s.workers) + LockWork(s.lock) + CloserWork(s.closer, |s.workers|)
  }

  lemma {:induction false} TotalWorkAfter(ws: seq<Worker>, i: nat, w: Worker)
    requires i < |ws|
    ensures TotalWork(ws[i := w]) == TotalWork(ws) - WorkerWork(ws[i]) + WorkerWork(w)
  {
    var n := |ws| - 1;
    if i < n {
      TotalWorkAfter(ws[..n], i, w);
      assert ws[i := w][..n] == ws[..n][i := w];
    } else {
      assert ws[i := w][..n] == ws[..n];
    }
  }

  lemma {:induction false} WakeAllWork(ws: seq<Worker>)
    ensures TotalWork(WakeAll(ws)) <= TotalWork(ws) + 3 * |ws|
  {
    if ws != [] {
      WakeAllWork(ws[..|ws| - 1]);
      assert WakeAll(ws)[..|ws| - 1] == WakeAll(ws[..|ws| - 1]);
    }
  }

  lemma WorkerShrinks<Job>(s: Pool<Job>, i: nat)
    requires WorkerStep(s, i).Some?
    requires Locked(s)
    ensures WorkLeft(WorkerStep(s, i).value) < WorkLeft(s)
  {
    TotalWorkAfter(s.workers, i, WorkerStep(s, i).value.workers[i]);
  }

  lemma ProducerShrinks<Job>(s: Pool<Job>, i: nat)
    requires ProducerStep(s, i).Some?
    ensures WorkLeft(ProducerStep(s, i).value) < WorkLeft(s)
  {
    if i < |s.workers| {
      TotalWorkAfter(s.workers, i, AtLock);
    }
  }

  lemma CloserShrinks<Job>(s: Pool<Job>)
    requires CloserStep(s).Some? && Locked(s) && Marked(s)
    ensures WorkLeft(CloserStep(s).value) < WorkLeft(s)
  {
    WakeAllWork(s.workers);
  }

  /** Each statement that is not a new call or a spurious wakeup leaves less to do, down to nothing. So when no more
      jobs are enqueued, `shutdown` returns: with SomebodyCanStep, the statements only run out when it has. */
  lemma WorkShrinks<Job>(s: Pool<Job>, c: Choice<Job>)
    requires Inv(s) && Internal(s, c) && Step(s, c).Some?
    ensures 0 <= WorkLeft(Step(s, c).value) < WorkLeft(s)
  {
    StepKeeps(s, c);
    match c
    case Work(i) => WorkerShrinks(s, i);
    case Produce(i) => ProducerShrinks(s, i);
    case Close => CloserShrinks(s);
  }

  /** From any state in which shutdown was called, some internal steps lead to its return. */
  lemma {:induction false} ShutdownReturns<Job>(s: Pool<Job>) returns (choices: seq<Choice<Job>>)
    requires Inv(s) && s.closer != NotCalled
    ensures Run(s, choices).closer == Returned
    decreases WorkLeft(s)
  {
    if s.closer == Returned {
      choices := [];
    } else {
      var c := SomebodyCanStep(s);
      WorkShrinks(s, c);
      StepKeeps(s, c);
      var others := ShutdownReturns(Step(s, c).value);
      choices := [c] + others;
      RunFromFirst(s, c, others);
    }
  }

  lemma {:induction false} RunFromFirst<Job>(s: Pool<Job>, c: Choice<Job>, others: seq<Choice<Job>>)
    requires Step(s, c).Some?
    ensures Run(s, [c] + others) == Run(Step(s, c).value, others)
    decreases |others|
  {
    if others == [] {
      assert ([c] + others)[..0] == [];
    } else {
      RunFromFirst(s, c, others[..|others| - 1]);
      assert ([c] + others)[..|others|] == [c] + others[..|others| - 1];
    }
  }

  // ----- Jobs get done -----

  /** Every job that was taken is finished, and none is left. */
  predicate AllDone<Job>(s: Pool<Job>) {
    s.jobs == [] && forall j :: 0 <= j < |s.taken| ==> j in s.finished
  }

  /** While a job is left, somebody can do the next statement towards its end. */
  lemma SomebodyCanWork<Job>(s: Pool<Job>) returns (c: Choice<Job>)
    requires Inv(s) && s.closer == NotCalled && s.workers != [] && !AllDone(s)
    ensures (c.Work? || c.Produce?) && Step(s, c).Some?
  {
    if s.lock != Free {
      c := HolderCanStep(s);
    } else if s.jobs != [] {
      NotAllAsleep(s);
      var i: nat :| i < |s.workers| && (s.workers[i] == AtLock || s.workers[i].Running?);
      c := Work(i);
    } else {
      var j: nat :| j < |s.taken| && j !in s.finished;
      assert RunsIt(s, j);
      c := Work(s.takenBy[j]);
    }
  }

  /** With at least one worker and without a shutdown, statements that are no new calls lead to a state in which every
      job is finished. */
  lemma {:induction false} JobsGetDone<Job>(s: Pool<Job>) returns (choices: seq<Choice<Job>>)
    requires Inv(s) && s.closer == NotCalled && s.workers != []
    ensures AllDone(Run(s, choices)) && Run(s, choices).enqueued == s.enqueued
    ensures forall c <- choices :: c.Work? || c.Produce?
    decreases WorkLeft(s)
  {
    if AllDone(s) {
      choices := [];
    } else {
      var c := SomebodyCanWork(s);
      WorkShrinks(s, c);
      StepKeeps(s, c);
      var others := JobsGetDone(Step(s, c).value);
      choices := [c] + others;
      RunFromFirst(s, c, others);
    }
  }
}
