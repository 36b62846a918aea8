/** Runs of the sampling channel, in every interleaving of its two tasks: what has been read is what has been pushed,
    which time a batch can have, and how the tasks end. */
module SampleRuns {
  import opened SampleLedger
  import opened SampleBodies
  import opened Wrappers

  // ----- From the rows read to the ledger -----

  /** The row that a step reads, if it is a query. */
  function RowRead(s: State, task: Task, x: Input): seq<seq<Value>> {
    if task.Sampling? && s.sampler.Query? then [x.row] else []
  }

  /** The rows that the queries of a run return. */
  function RowsRead(s: State, schedule: Schedule): seq<seq<Value>>
    requires Shaped(s)
    decreases schedule
  {
    if schedule == [] then []
    else
      match Step(s, schedule[0].0, schedule[0].1)
      case None => []
      case Some(next) => RowRead(s, schedule[0].0, schedule[0].1) + RowsRead(next, schedule[1..])
  }

  predicate Reach(rows: seq<seq<Value>>, i: nat) { forall row <- rows :: i < |row| }

  function ColumnOfRows(rows: seq<seq<Value>>, i: nat): seq<Value>
    requires Reach(rows, i)
  {
    seq(|rows|, k requires 0 <= k < |rows| => rows[k][i])
  }

  lemma ColumnOfMoreRows(a: seq<seq<Value>>, b: seq<seq<Value>>, i: nat)
    requires Reach(a, i) && Reach(b, i)
    ensures Reach(a + b, i) && ColumnOfRows(a + b, i) == ColumnOfRows(a, i) + ColumnOfRows(b, i)
  {
  }

  /** The row being pushed has a value for every column. */
  predicate WideRow(s: State) {
    s.sampler.Push? ==> |s.sampler.row| >= |s.datas|
  }

  /** The value of a row that was read, and has not been pushed to column `i` yet. */
  function ToPush(s: State, i: nat): seq<Value>
    requires WideRow(s) && i < |s.datas|
  {
    if s.sampler.Push? && s.sampler.column <= i then [s.sampler.row[i]] else []
  }

  function Taken(s: State, i: nat): seq<Value>
    requires Shaped(s) && WideRow(s) && i < |s.datas|
  {
    s.history[i].pushed + ToPush(s, i)
  }

  predicate Pushes(s: State, s': State, i: nat, row: seq<seq<Value>>)
    requires Shaped(s) && WideRow(s) && i < |s.datas|
  {
    && Shaped(s') && WideRow(s') && |s'.datas| == |s.datas| && Reach(row, i)
    && Taken(s', i) == Taken(s, i) + ColumnOfRows(row, i)
  }

  lemma UploadingPushesNothing(s: State, x: Input, i: nat)
    requires Shaped(s) && WideRow(s) && i < |s.datas| && UploadStep(s, x).Some?
    ensures Pushes(s, UploadStep(s, x).value, i, [])
  {
    var s' := UploadStep(s, x).value;
    assert s'.history[i].pushed == s.history[i].pushed;
    ValuesAssociate(Taken(s, i), [], []);
  }

  lemma SamplingPushes(s: State, x: Input, i: nat)
    requires Shaped(s) && WideRow(s) && i < |s.datas| && SampleStep(s, x).Some?
    ensures Pushes(s, SampleStep(s, x).value, i, RowRead(s, Sampling, x))
  {
    ValuesAssociate(Taken(s, i), [], []);
    ValuesAssociate(s.history[i].pushed, [], []);
  }

  lemma StepPushes(s: State, task: Task, x: Input, i: nat)
    requires Shaped(s) && WideRow(s) && i < |s.datas| && Step(s, task, x).Some?
    ensures Pushes(s, Step(s, task, x).value, i, RowRead(s, task, x))
  {
    if task.Sampling? {
      SamplingPushes(s, x, i);
    } else {
      UploadingPushesNothing(s, x, i);
    }
  }

  lemma ValuesAssociate(a: seq<int>, b: seq<int>, c: seq<int>)
    ensures (a + b) + c == a + (b + c) && a + [] == a
  {
  }

  lemma {:induction false} RunPushes(s: State, schedule: Schedule, i: nat)
    requires Shaped(s) && WideRow(s) && i < |s.datas| && Run(s, schedule).Some?
    ensures var t, rows := Run(s, schedule).value, RowsRead(s, schedule);
            && WideRow(t) && |t.datas| == |s.datas| && Reach(rows, i)
            && Taken(t, i) == Taken(s, i) + ColumnOfRows(rows, i)
    decreases schedule
  {
    if schedule == [] {
      ValuesAssociate(Taken(s, i), [], []);
    } else {
      var (task, x) := schedule[0];
      var next, row := Step(s, task, x).value, RowRead(s, task, x);
      StepPushes(s, task, x, i);
      RunPushes(next, schedule[1..], i);
      var later := RowsRead(next, schedule[1..]);
      ColumnOfMoreRows(row, later, i);
      ValuesAssociate(Taken(s, i), ColumnOfRows(row, i), ColumnOfRows(later, i));
    }
  }

  /** In every run, of column `i` the values in the rows that were read are, in their order: those published and lost,
      round by round, those in the buffer, and the one still to be pushed. */
  lemma ReadingsAreAccounted(idNum: nat, time: Time, schedule: Schedule, i: nat)
    requires i < idNum && Run(Initial(idNum, time), schedule).Some?
    ensures var s0 := Initial(idNum, time);
            var s, rows := Run(s0, schedule).value, RowsRead(s0, schedule);
            && |s.datas| == idNum && WideRow(s) && Ordered(s.history[i]) && Reach(rows, i)
            && ColumnOfRows(rows, i) == Rounds(s.history[i], |s.history[i].clears|) + s.datas[i] + ToPush(s, i)
  {
    RunPushes(Initial(idNum, time), schedule, i);
    Ledger(idNum, time, schedule, i);
    var rows := RowsRead(Initial(idNum, time), schedule);
    assert Taken(Initial(idNum, time), i) + ColumnOfRows(rows, i) == ColumnOfRows(rows, i);
  }

  // ----- The time -----

  /** The times at which SampleTask found the buffer empty and took the time. */
  function TimesTaken(s: State, schedule: Schedule): seq<Time>
    requires Shaped(s)
    decreases schedule
  {
    if schedule == [] then []
    else
      var (task, x) := schedule[0];
      match Step(s, task, x)
      case None => []
      case Some(next) =>
        (if task.Sampling? && s.sampler.SetTime? then [x.now] else []) + TimesTaken(next, schedule[1..])
  }

  /** The begin time is the last one taken, and every batch has one of them, or the first time of all. */
  lemma {:induction false} TimesAreTaken(s: State, schedule: Schedule, times: seq<Time>)
    requires Shaped(s) && Run(s, schedule).Some? && times != [] && s.beginTime == times[|times| - 1]
    requires s.response.beginTime in times && forall b <- s.published :: b.beginTime in times
    ensures var t, all := Run(s, schedule).value, times + TimesTaken(s, schedule);
            && t.beginTime == all[|all| - 1]
            && t.response.beginTime in all && forall b <- t.published :: b.beginTime in all
    decreases schedule
  {
    if schedule != [] {
      var (task, x) := schedule[0];
      var next := Step(s, task, x).value;
      var taken := if task.Sampling? && s.sampler.SetTime? then [x.now] else [];
      TimesMore(s, task, x, times, taken);
      TimesAreTaken(next, schedule[1..], times + taken);
      ValuesAssociate(times, taken, TimesTaken(next, schedule[1..]));
    }
  }

  lemma TimesMore(s: State, task: Task, x: Input, times: seq<Time>, taken: seq<Time>)
    requires Shaped(s) && Step(s, task, x).Some? && times != [] && s.beginTime == times[|times| - 1]
    requires s.response.beginTime in times && forall b <- s.published :: b.beginTime in times
    requires taken == if task.Sampling? && s.sampler.SetTime? then [x.now] else []
    ensures var t, all := Step(s, task, x).value, times + taken;
            && t.beginTime == all[|all| - 1]
            && t.response.beginTime in all && forall b <- t.published :: b.beginTime in all
  {
    assert s.beginTime in times;
  }

  /** How often UploadTask has raised the flag. */
  function Raised(s: State, schedule: Schedule): nat
    requires Shaped(s)
    decreases schedule
  {
    if schedule == [] then 0
    else
      match Step(s, schedule[0].0, schedule[0].1)
      case None => 0
      case Some(next) =>
        (if schedule[0].0.Uploading? && s.uploader.RaiseFlag? then 1 else 0) + Raised(next, schedule[1..])
  }

  /** Whether SampleTask is about to take the time, or will when it comes to the flag next. */
  function TimeDue(s: State): nat {
    if s.sampler.SetTime? then 1 else if s.sampler.ClearFlag? then 0 else if s.isClear then 1 else 0
  }

  /** The time is taken at most once for each upload. */
  lemma {:induction false} TimesAreDue(s: State, schedule: Schedule)
    requires Shaped(s) && Run(s, schedule).Some?
    ensures |TimesTaken(s, schedule)| + TimeDue(Run(s, schedule).value) <= TimeDue(s) + Raised(s, schedule)
    decreases schedule
  {
    if schedule != [] {
      TimesAreDue(Step(s, schedule[0].0, schedule[0].1).value, schedule[1..]);
    }
  }

  lemma OneTimeAnUpload(idNum: nat, time: Time, schedule: Schedule)
    requires Run(Initial(idNum, time), schedule).Some?
    ensures |TimesTaken(Initial(idNum, time), schedule)| <= 1 + Raised(Initial(idNum, time), schedule)
  {
    TimesAreDue(Initial(idNum, time), schedule);
  }

  // ----- The end -----

  /** A task returns when it finds the terminate event set, at its wait, and only then. */
  lemma ReturnsWhenTold(s: State, x: Input)
    requires Shaped(s)
    ensures var r := SampleStep(s, x);
            r.Some? ==> (r.value.sampler == Returned <==> s.sampler == Wait && x.terminated)
    ensures var r := UploadStep(s, x);
            r.Some? ==> (r.value.uploader == Finished <==> s.uploader == Sleep && x.terminated)
    ensures SampleStep(s, x) == None && s.sampler != Returned ==> |x.row| < |s.datas| || !WideRow(s)
    ensures UploadStep(s, x) == None ==> s.uploader == Finished
  {
  }

  /** How far the sampler is from its wait, and the uploader from its sleep. */
  function SamplerAway(s: State): nat {
    var n := |s.datas|;
    match s.sampler
    case Check => n + 6
    case SetTime => n + 5
    case ClearFlag => n + 4
    case Query => n + 3
    case Push(_, c) => if c < n then n - c + 2 else 2
    case Wait => 1
    case Returned => 0
  }

  function UploaderAway(s: State): nat {
    var n := |s.datas|;
    match s.uploader
    case CopyTime => 2 * n + 7
    case Copy(c) => if c < n then 2 * n - c + 6 else n + 6
    case Clear(c) => if c < n then n - c + 5 else 5
    case RaiseFlag => 3
    case Publish => 2
    case Sleep => 1
    case Finished => 0
  }

  /** Once the event is set each task ends, wherever it stands, after what is left of its loop's body. */
  lemma {:induction false} SamplerEnds(s: State, x: Input) returns (k: nat)
    requires Shaped(s) && WideRow(s) && x.terminated && |x.row| >= |s.datas|
    ensures k <= SamplerAway(s) && Repeat(s, Sampling, x, k).Some?
    ensures Repeat(s, Sampling, x, k).value.sampler == Returned
    decreases SamplerAway(s)
  {
    if s.sampler == Returned {
      k := 0;
    } else {
      var next := SampleStep(s, x).value;
      k := SamplerEnds(next, x);
      k := k + 1;
    }
  }

  lemma {:induction false} UploaderEnds(s: State, x: Input) returns (k: nat)
    requires Shaped(s) && x.terminated
    ensures k <= UploaderAway(s) && Repeat(s, Uploading, x, k).Some?
    ensures Repeat(s, Uploading, x, k).value.uploader == Finished
    decreases UploaderAway(s)
  {
    if s.uploader == Finished {
      k := 0;
    } else {
      var next := UploadStep(s, x).value;
      k := UploaderEnds(next, x);
      k := k + 1;
    }
  }
}
