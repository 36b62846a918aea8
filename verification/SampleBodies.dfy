/** The sampling channel when the bodies of the two task loops are not interleaved, and what interleaving costs. */
module SampleBodies {
  import opened SampleLedger
  import opened Wrappers

  /** `k` statements of one task. */
  function Repeat(s: State, task: Task, x: Input, k: nat): (r: Option<State>)
    requires Shaped(s)
    ensures r.Some? ==> Shaped(r.value)
    decreases k
  {
    if k == 0 then Some(s)
    else
      match Step(s, task, x)
      case None => None
      case Some(next) => Repeat(next, task, x, k - 1)
  }

  /** They are a schedule of the tasks like any other. */
  lemma {:induction false} RepeatIsRun(s: State, task: Task, x: Input, k: nat)
    requires Shaped(s)
    ensures Run(s, seq(k, _ => (task, x))) == Repeat(s, task, x, k)
    decreases k
  {
    if k > 0 {
      assert seq(k, _ => (task, x))[1..] == seq(k - 1, _ => (task, x));
      match Step(s, task, x)
      case None =>
      case Some(next) => RepeatIsRun(next, task, x, k - 1);
    }
  }

  lemma {:induction false} RepeatSplits(s: State, task: Task, x: Input, j: nat, k: nat)
    requires Shaped(s) && Repeat(s, task, x, j).Some?
    ensures Repeat(s, task, x, j + k) == Repeat(Repeat(s, task, x, j).value, task, x, k)
    decreases j
  {
    if j > 0 {
      RepeatSplits(Step(s, task, x).value, task, x, j - 1, k);
    }
  }

  // ----- Loop bodies -----

  /** What one iteration of SampleTask reads. */
  datatype Reading = Reading(now: Time, row: seq<Value>)

  datatype Body = Sample(reading: Reading) | Upload

  /** Both tasks stand at the start of their loop's body. */
  predicate AtRest(s: State) {
    Shaped(s) && s.sampler == Check && s.uploader == Sleep
  }

  function BodyInput(body: Body): Input {
    match body
    case Sample(reading) => Input(reading.now, reading.row, false)
    case Upload => Input(0, [], false)
  }

  /** The statements of a body: up to the next test of the terminate event, which is not set. */
  function BodyLength(s: State, body: Body): nat {
    match body
    case Sample(_) => (if s.isClear then 3 else 1) + 1 + (|s.datas| + 1) + 1
    case Upload => 2 + (|s.datas| + 1) + (|s.datas| + 1) + 2
  }

  function RunBody(s: State, body: Body): Option<State>
    requires Shaped(s)
  {
    Repeat(s, if body.Sample? then Sampling else Uploading, BodyInput(body), BodyLength(s, body))
  }

  function RunBodies(s: State, bodies: seq<Body>): (r: Option<State>)
    requires Shaped(s)
    ensures r.Some? ==> Shaped(r.value)
  {
    if bodies == [] then Some(s)
    else
      match RunBodies(s, bodies[..|bodies| - 1])
      case None => None
      case Some(t) => RunBody(t, bodies[|bodies| - 1])
  }

  // ----- What a body does -----

  lemma {:induction false} PushLoop(s: State, x: Input, row: seq<Value>, i: nat)
    requires Shaped(s) && s.sampler == Push(row, i) && i <= |s.datas| <= |row|
    ensures var r := Repeat(s, Sampling, x, |s.datas| - i + 1);
            && r.Some? && Shaped(r.value)
            && r.value == s.(datas := r.value.datas, history := r.value.history, sampler := Wait)
            && |r.value.datas| == |s.datas|
            && forall j :: 0 <= j < |s.datas| ==>
                 && r.value.datas[j] == (if j < i then s.datas[j] else s.datas[j] + [row[j]])
                 && r.value.history[j].copies == s.history[j].copies
                 && r.value.history[j].clears == s.history[j].clears
    decreases |s.datas| - i
  {
    var next := SampleStep(s, x).value;
    if i < |s.datas| {
      PushLoop(next, x, row, i + 1);
    } else {
      assert Repeat(next, Sampling, x, 0) == Some(next);
    }
  }

  /** An iteration of SampleTask appends its row, a value to each column, and takes the time when the buffer is
      empty. */
  lemma SampleBody(s: State, reading: Reading)
    requires AtRest(s) && |reading.row| >= |s.datas|
    ensures var r := RunBody(s, Sample(reading));
            && r.Some? && AtRest(r.value)
            && r.value == s.(datas := r.value.datas, history := r.value.history, isClear := false,
                             beginTime := if s.isClear then reading.now else s.beginTime)
            && |r.value.datas| == |s.datas|
            && forall j :: 0 <= j < |s.datas| ==>
                 && r.value.datas[j] == s.datas[j] + [reading.row[j]]
                 && r.value.history[j].copies == s.history[j].copies
                 && r.value.history[j].clears == s.history[j].clears
  {
    var x, n := BodyInput(Sample(reading)), |s.datas|;
    var k := if s.isClear then 3 else 1;
    var started := s.(sampler := Push(reading.row, 0), isClear := false,
                      beginTime := if s.isClear then reading.now else s.beginTime);
    assert Repeat(s, Sampling, x, k + 1) == Some(started) by {
      var s1 := SampleStep(s, x).value;
      if s.isClear {
        var s2 := SampleStep(s1, x).value;
        var s3 := SampleStep(s2, x).value;
        assert SampleStep(s3, x) == Some(started);
        assert Repeat(s3, Sampling, x, 1) == Some(started);
        assert Repeat(s2, Sampling, x, 2) == Some(started);
        assert Repeat(s1, Sampling, x, 3) == Some(started);
      } else {
        assert SampleStep(s1, x) == Some(started);
        assert Repeat(s1, Sampling, x, 1) == Some(started);
      }
    }
    PushLoop(started, x, reading.row, 0);
    var pushed := Repeat(started, Sampling, x, n + 1).value;
    RepeatSplits(s, Sampling, x, k + 1, n + 1);
    RepeatSplits(s, Sampling, x, k + 1 + (n + 1), 1);
    assert Repeat(pushed, Sampling, x, 1) == Some(pushed.(sampler := Check));
  }

  lemma {:induction false} CopyLoop(s: State, x: Input, i: nat)
    requires Shaped(s) && s.uploader == Copy(i) && i <= |s.datas|
    ensures var r := Repeat(s, Uploading, x, |s.datas| - i + 1);
            && r.Some? && Shaped(r.value)
            && r.value == s.(response := r.value.response, history := r.value.history, uploader := Clear(0))
            && r.value.response.beginTime == s.response.beginTime
            && forall j :: 0 <= j < |s.datas| ==>
                 && r.value.response.data[j] == (if j < i then s.response.data[j] else s.datas[j])
                 && r.value.history[j].pushed == s.history[j].pushed
                 && r.value.history[j].clears == s.history[j].clears
                 && r.value.history[j].copies
                 == s.history[j].copies + (if j < i then [] else [|s.history[j].pushed|])
    decreases |s.datas| - i
  {
    var next := UploadStep(s, x).value;
    if i < |s.datas| {
      CopyLoop(next, x, i + 1);
    } else {
      assert Repeat(next, Uploading, x, 0) == Some(next);
    }
  }

  lemma {:induction false} ClearLoop(s: State, x: Input, i: nat)
    requires Shaped(s) && s.uploader == Clear(i) && i <= |s.datas|
    ensures var r := Repeat(s, Uploading, x, |s.datas| - i + 1);
            && r.Some? && Shaped(r.value)
            && r.value == s.(datas := r.value.datas, history := r.value.history, uploader := RaiseFlag)
            && |r.value.datas| == |s.datas|
            && forall j :: 0 <= j < |s.datas| ==>
                 && r.value.datas[j] == (if j < i then s.datas[j] else [])
                 && r.value.history[j].copies == s.history[j].copies
                 && r.value.history[j].clears
                 == s.history[j].clears + (if j < i then [] else [|s.history[j].pushed|])
    decreases |s.datas| - i
  {
    var next := UploadStep(s, x).value;
    if i < |s.datas| {
      ClearLoop(next, x, i + 1);
    } else {
      assert Repeat(next, Uploading, x, 0) == Some(next);
    }
  }

  /** The statements before the copying loop, and those behind the clearing loop. */
  lemma UploadFirst(s: State, x: Input) returns (t: State)
    requires AtRest(s) && !x.terminated
    ensures Shaped(t) && Repeat(s, Uploading, x, 2) == Some(t)
    ensures t == s.(uploader := Copy(0), response := t.response)
    ensures t.response.beginTime == s.beginTime
  {
    var s1 := UploadStep(s, x).value;
    t := UploadStep(s1, x).value;
    assert Repeat(s1, Uploading, x, 1) == Some(t);
  }

  lemma UploadLast(s: State, x: Input)
    requires Shaped(s) && s.uploader == RaiseFlag
    ensures Repeat(s, Uploading, x, 2)
         == Some(s.(isClear := true, published := s.published + [s.response], uploader := Sleep))
  {
    var s1 := UploadStep(s, x).value;
    assert Repeat(s1, Uploading, x, 1) == Some(UploadStep(s1, x).value);
  }

  /** An iteration of UploadTask publishes the buffer as it is and empties it. */
  lemma UploadBody(s: State)
    requires AtRest(s)
    ensures var r := RunBody(s, Upload);
            && r.Some? && AtRest(r.value)
            && r.value == s.(datas := r.value.datas, history := r.value.history, isClear := true,
                             response := Batch(s.beginTime, s.datas),
                             published := s.published + [Batch(s.beginTime, s.datas)])
            && |r.value.datas| == |s.datas|
            && forall j :: 0 <= j < |s.datas| ==>
                 && r.value.datas[j] == []
                 && r.value.history[j].copies == s.history[j].copies + [|s.history[j].pushed|]
                 && r.value.history[j].clears == s.history[j].clears + [|s.history[j].pushed|]
  {
    var x, n := BodyInput(Upload), |s.datas|;
    var s2 := UploadFirst(s, x);
    CopyLoop(s2, x, 0);
    var s3 := Repeat(s2, Uploading, x, n + 1).value;
    assert s3.response.data == s.datas;
    RepeatSplits(s, Uploading, x, 2, n + 1);
    ClearLoop(s3, x, 0);
    var s4 := Repeat(s3, Uploading, x, n + 1).value;
    RepeatSplits(s, Uploading, x, 2 + (n + 1), n + 1);
    UploadLast(s4, x);
    RepeatSplits(s, Uploading, x, 2 + (n + 1) + (n + 1), 2);
  }

  // ----- Batches of whole rows -----

  /** The readings taken before each upload, and those taken since the last one. */
  function Uploaded(bodies: seq<Body>): seq<seq<Reading>> {
    if bodies == [] then []
    else
      var before := bodies[..|bodies| - 1];
      if bodies[|bodies| - 1].Sample? then Uploaded(before) else Uploaded(before) + [Buffered(before)]
  }

  function Buffered(bodies: seq<Body>): seq<Reading> {
    if bodies == [] then []
    else
      match bodies[|bodies| - 1]
      case Sample(reading) => Buffered(bodies[..|bodies| - 1]) + [reading]
      case Upload => []
  }

  predicate Wide(bodies: seq<Body>, idNum: nat) {
    forall k :: 0 <= k < |bodies| && bodies[k].Sample? ==> |bodies[k].reading.row| >= idNum
  }

  /** Column `i` holds the values of the readings, one a row. */
  predicate IsColumn(values: seq<Value>, readings: seq<Reading>, i: nat) {
    |values| == |readings| &&
    forall j :: 0 <= j < |values| ==> i < |readings[j].row| && values[j] == readings[j].row[i]
  }

  predicate IsBatch(b: Batch, readings: seq<Reading>, idNum: nat) {
    && |b.data| == idNum
    && (forall i :: 0 <= i < idNum ==> IsColumn(b.data[i], readings, i))
    && (readings != [] ==> b.beginTime == readings[0].now)
  }

  /** When the bodies are atomic, batch `k` is exactly the readings taken between two uploads: every column has a
      value from each of them, so all columns are equally long, the begin time is that of the first, and nothing is
      lost. */
  lemma {:induction false} AtomicBodies(idNum: nat, time: Time, bodies: seq<Body>)
    requires Wide(bodies, idNum)
    ensures var r := RunBodies(Initial(idNum, time), bodies);
            && r.Some? && AtRest(r.value) && |r.value.datas| == idNum
            && IsBatch(Batch(r.value.beginTime, r.value.datas), Buffered(bodies), idNum)
            && (r.value.isClear <==> Buffered(bodies) == [])
            && |r.value.published| == |Uploaded(bodies)|
            && (forall k :: 0 <= k < |Uploaded(bodies)| ==> IsBatch(r.value.published[k], Uploaded(bodies)[k], idNum))
            && (forall i :: 0 <= i < idNum ==> r.value.history[i].copies == r.value.history[i].clears)
  {
    var s0 := Initial(idNum, time);
    if bodies != [] {
      var before, body := bodies[..|bodies| - 1], bodies[|bodies| - 1];
      AtomicBodies(idNum, time, before);
      var s := RunBodies(s0, before).value;
      match body
      case Sample(reading) =>
        SampleBody(s, reading);
        AppendRow(s.datas, RunBody(s, body).value.datas, Buffered(before), reading);
      case Upload =>
        UploadBody(s);
    }
  }

  lemma AppendRow(datas: seq<seq<Value>>, datas': seq<seq<Value>>, readings: seq<Reading>, reading: Reading)
    requires |datas| == |datas'| <= |reading.row|
    requires forall i :: 0 <= i < |datas| ==>
               IsColumn(datas[i], readings, i) && datas'[i] == datas[i] + [reading.row[i]]
    ensures forall i :: 0 <= i < |datas| ==> IsColumn(datas'[i], readings + [reading], i)
  {
  }

  // ----- Bodies are a schedule -----

  /** The statements of bodies one behind the other. */
  function ScheduleOf(s: State, bodies: seq<Body>): Schedule
    requires Shaped(s)
  {
    if bodies == [] then []
    else
      var before, body := bodies[..|bodies| - 1], bodies[|bodies| - 1];
      match RunBodies(s, before)
      case None => []
      case Some(t) =>
        ScheduleOf(s, before)
        + seq(BodyLength(t, body), _ => (if body.Sample? then Sampling else Uploading, BodyInput(body)))
  }

  lemma {:induction false} RunAppend(s: State, a: Schedule, b: Schedule)
    requires Shaped(s) && Run(s, a).Some?
    ensures Run(s, a + b) == Run(Run(s, a).value, b)
    decreases a
  {
    if a == [] {
      assert a + b == b;
    } else {
      RunAppend(Step(s, a[0].0, a[0].1).value, a[1..], b);
      assert (a + b)[1..] == a[1..] + b;
    }
  }

  lemma {:induction false} BodiesAreRun(s: State, bodies: seq<Body>)
    requires Shaped(s) && RunBodies(s, bodies).Some?
    ensures Run(s, ScheduleOf(s, bodies)) == RunBodies(s, bodies)
  {
    if bodies != [] {
      var before, body := bodies[..|bodies| - 1], bodies[|bodies| - 1];
      var t := RunBodies(s, before).value;
      var task, x, n := if body.Sample? then Sampling else Uploading, BodyInput(body), BodyLength(t, body);
      BodiesAreRun(s, before);
      RepeatIsRun(t, task, x, n);
      RunAppend(s, ScheduleOf(s, before), seq(n, _ => (task, x)));
      assert ScheduleOf(s, bodies) == ScheduleOf(s, before) + seq(n, _ => (task, x));
    }
  }

  /** Column `i` of the batches, one behind the other. */
  function ColumnOfBatches(batches: seq<Batch>, i: nat): seq<Value>
    requires forall b <- batches :: i < |b.data|
  {
    if batches == [] then []
    else ColumnOfBatches(batches[..|batches| - 1], i) + batches[|batches| - 1].data[i]
  }

  lemma {:induction false} RoundsArePublished(h: History, batches: seq<Batch>, i: nat, k: nat)
    requires Ordered(h) && h.copies == h.clears && k <= |batches| == |h.clears|
    requires forall b <- batches :: i < |b.data|
    requires forall j :: 0 <= j < |batches| ==> batches[j].data[i] == Published(h, j)
    ensures Rounds(h, k) == ColumnOfBatches(batches[..k], i)
  {
    if k > 0 {
      RoundsArePublished(h, batches, i, k - 1);
      assert batches[..k][..k - 1] == batches[..k - 1];
      assert RoundOrdered(h, k - 1) && Lost(h, k - 1) == [];
    }
  }

  /** Atomic bodies are a run of the two tasks like any other, to which the ledger applies: no round loses anything,
      and the values pushed to a column are those published and those in the buffer. */
  lemma NothingIsLost(idNum: nat, time: Time, bodies: seq<Body>, i: nat)
    requires Wide(bodies, idNum) && i < idNum
    ensures var s0 := Initial(idNum, time);
            var r := Run(s0, ScheduleOf(s0, bodies));
            && r.Some? && r == RunBodies(s0, bodies)
            && |r.value.history| == |r.value.datas| == idNum
            && Ordered(r.value.history[i])
            && (forall k :: 0 <= k < |r.value.history[i].clears| ==> Lost(r.value.history[i], k) == [])
            && (forall b <- r.value.published :: i < |b.data|)
            && r.value.history[i].pushed == ColumnOfBatches(r.value.published, i) + r.value.datas[i]
  {
    var s0 := Initial(idNum, time);
    AtomicBodies(idNum, time, bodies);
    BodiesAreRun(s0, bodies);
    Ledger(idNum, time, ScheduleOf(s0, bodies), i);
    var s := RunBodies(s0, bodies).value;
    var h := s.history[i];
    forall k | 0 <= k < |h.clears|
      ensures Lost(h, k) == []
    {
      assert RoundOrdered(h, k);
    }
    assert Progress(s, i);
    assert forall k :: 0 <= k < |s.published| ==> IsBatch(s.published[k], Uploaded(bodies)[k], idNum);
    RoundsArePublished(h, s.published, i, |h.clears|);
    assert s.published[..|h.clears|] == s.published;
  }

  // ----- What interleaving costs -----

  lemma {:induction false} RunOneMore(s: State, schedule: Schedule, task: Task, x: Input)
    requires Shaped(s) && Run(s, schedule).Some? && Shaped(Run(s, schedule).value)
    ensures Run(s, schedule + [(task, x)]) == Step(Run(s, schedule).value, task, x)
    decreases schedule
  {
    if schedule == [] {
      assert [(task, x)][1..] == [];
    } else {
      RunOneMore(Step(s, schedule[0].0, schedule[0].1).value, schedule[1..], task, x);
      assert (schedule + [(task, x)])[1..] == schedule[1..] + [(task, x)];
    }
  }

  /** A run from `start`, with the state it has reached. */
  datatype Trail = Trail(start: State, schedule: Schedule, s: State) {
    predicate Valid() { Shaped(start) && Shaped(s) && Run(start, schedule) == Some(s) }
  }

  lemma Walk(w: Trail, task: Task, x: Input) returns (w': Trail)
    requires w.Valid() && Step(w.s, task, x).Some?
    ensures w'.Valid() && w'.start == w.start && Some(w'.s) == Step(w.s, task, x)
  {
    RunOneMore(w.start, w.schedule, task, x);
    w' := Trail(w.start, w.schedule + [(task, x)], Step(w.s, task, x).value);
  }

  /** A row has been read, but not pushed yet, when the columns are copied. */
  lemma CopiedBeforePush(row: seq<Value>) returns (w: Trail)
    requires |row| == 2
    ensures w.Valid() && w.start == Initial(2, 0)
    ensures w.s == State([[], []], 1, false, Batch(1, [[], []]), [], Push(row, 0), Clear(0),
                         [History([], [0], []), History([], [0], [])])
  {
    var x := Input(1, row, false);
    w := Trail(Initial(2, 0), [], Initial(2, 0));
    w := Walk(w, Sampling, x);
    w := Walk(w, Sampling, x);
    w := Walk(w, Sampling, x);
    w := Walk(w, Sampling, x);
    w := Walk(w, Uploading, x);
    w := Walk(w, Uploading, x);
    w := Walk(w, Uploading, x);
    w := Walk(w, Uploading, x);
    w := Walk(w, Uploading, x);
    assert w.s.datas == [[], []] && w.s.response.data == [[], []];
    assert w.s.history[0] == History([], [0], []) && w.s.history[1] == History([], [0], []);
  }

  /** Two columns and one row of two values. The first is pushed between the copy and the clear of its column and is
      lost; the second is pushed after the clear of its column and stays. The buffer that is left has one column
      shorter than the other. */
  lemma InterleavingLoses(v: Value, u: Value) returns (schedule: Schedule, s: State)
    ensures Run(Initial(2, 0), schedule) == Some(s)
    ensures |s.history| == 2 && s.history[0] == History([v], [0], [1]) && Ordered(s.history[0])
    ensures Lost(s.history[0], 0) == [v]
    ensures s.published == [Batch(1, [[], []])] && s.datas == [[], [u]]
  {
    var x := Input(1, [v, u], false);
    var w := CopiedBeforePush([v, u]);
    w := Walk(w, Sampling, x);
    assert w.s.history[0] == History([v], [0], []);
    w := Walk(w, Uploading, x);
    w := Walk(w, Uploading, x);
    assert w.s.history[0] == History([v], [0], [1]);
    w := Walk(w, Sampling, x);
    assert w.s.datas[1] == [u];
    w := Walk(w, Uploading, x);
    w := Walk(w, Uploading, x);
    w := Walk(w, Uploading, x);
    schedule, s := w.schedule, w.s;
    assert RoundOrdered(s.history[0], 0);
  }
}
