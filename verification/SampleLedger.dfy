/** A sampling channel: `SampleTask` and `UploadTask` share `datas`, `beginTime` and `isClear` without a lock. */
module SampleLedger {
  import opened Wrappers

  /** A sampled value; only its identity matters. */
  type Value = int

  /** Milliseconds, as `getCurrentTime` reads them. */
  type Time = int

  /** Where SampleTask stands. */
  datatype Sampler = Check | SetTime | ClearFlag | Query | Push(row: seq<Value>, column: nat) | Wait | Returned

  /** Where UploadTask stands. */
  datatype Uploader = Sleep | CopyTime | Copy(column: nat) | Clear(column: nat) | RaiseFlag | Publish | Finished

  /** `responseJson` */
  datatype Batch = Batch(beginTime: Time, data: seq<seq<Value>>)

  /** What one column has gone through: all values pushed to it, and how many they were at the copy and at the
      clear of each round. */
  datatype History = History(pushed: seq<Value>, copies: seq<nat>, clears: seq<nat>)

  /** The program's fields, where the tasks stand, and what each column has gone through. */
  datatype State = State(
    datas: seq<seq<Value>>, beginTime: Time, isClear: bool, response: Batch, published: seq<Batch>,
    sampler: Sampler, uploader: Uploader, history: seq<History>)

  /** After the constructor and `createThread`. */
  function Initial(idNum: nat, time: Time): State {
    var empty := seq(idNum, _ => []);
    State(empty, time, true, Batch(time, empty), [], Check, Sleep, seq(idNum, _ => History([], [], [])))
  }

  /** What a step finds outside the two tasks: the time, what the query returns, whether the terminate event is
      set. A row has a value for every column. */
  datatype Input = Input(now: Time, row: seq<Value>, terminated: bool)

  datatype Task = Sampling | Uploading

  // ----- Statements -----
  //
  // A step is one statement of one task, on one column where the statement goes over the columns.

  /** `datas[i]["data"].push_back(v)` */
  function PushValue(s: State, i: nat, v: Value): State
    requires i < |s.datas| == |s.history|
  {
    var h := s.history[i];
    s.(datas := s.datas[i := s.datas[i] + [v]], history := s.history[i := h.(pushed := h.pushed + [v])])
  }

  function SampleStep(s: State, x: Input): Option<State>
    requires |s.history| == |s.datas|
  {
    match s.sampler
    case Check => Some(s.(sampler := if s.isClear then SetTime else Query))
    case SetTime => Some(s.(beginTime := x.now, sampler := ClearFlag))
    case ClearFlag => Some(s.(isClear := false, sampler := Query))
    case Query => if |x.row| < |s.datas| then None else Some(s.(sampler := Push(x.row, 0)))
    case Push(row, i) =>
      if i >= |s.datas| then Some(s.(sampler := Wait))
      else if i >= |row| then None
      else Some(PushValue(s, i, row[i]).(sampler := Push(row, i + 1)))
    case Wait => Some(s.(sampler := if x.terminated then Returned else Check))
    case Returned => None
  }

  function UploadStep(s: State, x: Input): Option<State>
    requires |s.history| == |s.datas| == |s.response.data|
  {
    match s.uploader
    case Sleep => Some(s.(uploader := if x.terminated then Finished else CopyTime))
    case CopyTime => Some(s.(response := s.response.(beginTime := s.beginTime), uploader := Copy(0)))
    case Copy(i) =>
      if i >= |s.datas| then Some(s.(uploader := Clear(0)))
      else
        var h := s.history[i];
        Some(s.(response := s.response.(data := s.response.data[i := s.datas[i]]),
                history := s.history[i := h.(copies := h.copies + [|h.pushed|])],
                uploader := Copy(i + 1)))
    case Clear(i) =>
      if i >= |s.datas| then Some(s.(uploader := RaiseFlag))
      else
        var h := s.history[i];
        Some(s.(datas := s.datas[i := []],
                history := s.history[i := h.(clears := h.clears + [|h.pushed|])],
                uploader := Clear(i + 1)))
    case RaiseFlag => Some(s.(isClear := true, uploader := Publish))
    case Publish => Some(s.(published := s.published + [s.response], uploader := Sleep))
    case Finished => None
  }

  function Step(s: State, task: Task, x: Input): Option<State>
    requires |s.history| == |s.datas| == |s.response.data|
  {
    if task.Sampling? then SampleStep(s, x) else UploadStep(s, x)
  }

  type Schedule = seq<(Task, Input)>

  predicate Shaped(s: State) {
    |s.history| == |s.datas| == |s.response.data|
  }

  function Run(s: State, schedule: Schedule): (r: Option<State>)
    requires Shaped(s)
    ensures r.Some? ==> Shaped(r.value)
    decreases schedule
  {
    if schedule == [] then Some(s)
    else
      match Step(s, schedule[0].0, schedule[0].1)
      case None => None
      case Some(next) => Run(next, schedule[1..])
  }

  // ----- Published, lost, current -----

  /** How much had been pushed when round `k` of a column began. */
  function Begun(h: History, k: nat): nat
    requires k <= |h.clears|
  {
    if k == 0 then 0 else h.clears[k - 1]
  }

  predicate RoundOrdered(h: History, k: nat)
    requires k < |h.copies| && k <= |h.clears|
  {
    Begun(h, k) <= h.copies[k] <= (if k < |h.clears| then h.clears[k] else |h.pushed|)
  }

  predicate Ordered(h: History) {
    && |h.clears| <= |h.copies| <= |h.clears| + 1
    && (forall k :: 0 <= k < |h.copies| ==> RoundOrdered(h, k))
    && Begun(h, |h.clears|) <= |h.pushed|
    && (forall k :: 0 <= k < |h.clears| ==> h.clears[k] <= |h.pushed|)
  }

  /** Pushed from the beginning of round `k` to its copy. */
  function Published(h: History, k: nat): seq<Value>
    requires Ordered(h) && k < |h.copies|
  {
    assert RoundOrdered(h, k);
    h.pushed[Begun(h, k)..h.copies[k]]
  }

  /** Pushed between the copy and the clear of round `k`. */
  function Lost(h: History, k: nat): seq<Value>
    requires Ordered(h) && k < |h.clears|
  {
    assert RoundOrdered(h, k);
    h.pushed[h.copies[k]..h.clears[k]]
  }

  /** Pushed since the last clear. */
  function Current(h: History): seq<Value>
    requires Ordered(h)
  {
    h.pushed[Begun(h, |h.clears|)..]
  }

  /** published_0 ++ lost_0 ++ ... up to round `k` */
  function Rounds(h: History, k: nat): seq<Value>
    requires Ordered(h) && k <= |h.clears|
  {
    if k == 0 then [] else Rounds(h, k - 1) + Published(h, k - 1) + Lost(h, k - 1)
  }

  lemma Slices<T>(s: seq<T>, a: nat, b: nat, c: nat)
    requires a <= b <= c <= |s|
    ensures s[..a] + s[a..b] + s[b..c] == s[..c]
  {
  }

  lemma {:induction false} RoundsArePushed(h: History, k: nat)
    requires Ordered(h) && k <= |h.clears|
    ensures Rounds(h, k) == h.pushed[..Begun(h, k)]
  {
    if k > 0 {
      RoundsArePushed(h, k - 1);
      assert RoundOrdered(h, k - 1);
      Slices(h.pushed, Begun(h, k - 1), h.copies[k - 1], h.clears[k - 1]);
    }
  }

  // ----- One column -----

  /** What the program holds of a column: its buffer, its place in the batch being put together, and its place in
      each batch published. */
  datatype Column = Column(data: seq<Value>, copy: seq<Value>, out: seq<seq<Value>>, h: History)

  /** The program's data is what the history says it is. */
  predicate ColumnInv(c: Column) {
    && Ordered(c.h) && |c.out| <= |c.h.clears|
    && c.data == Current(c.h)
    && (forall k :: 0 <= k < |c.out| ==> c.out[k] == Published(c.h, k))
    && (|c.out| < |c.h.copies| ==> c.copy == Published(c.h, |c.out|))
  }

  lemma PushKeeps(c: Column, v: Value)
    requires ColumnInv(c)
    ensures ColumnInv(c.(data := c.data + [v], h := c.h.(pushed := c.h.pushed + [v])))
  {
    var h, h' := c.h, c.h.(pushed := c.h.pushed + [v]);
    forall k | 0 <= k < |h'.copies|
      ensures RoundOrdered(h', k)
    {
      assert RoundOrdered(h, k);
    }
    forall k | 0 <= k < |h.copies|
      ensures Published(h', k) == Published(h, k)
    {
      assert RoundOrdered(h, k);
    }
  }

  lemma CopyKeeps(c: Column)
    requires ColumnInv(c) && |c.h.copies| == |c.h.clears| == |c.out|
    ensures ColumnInv(c.(copy := c.data, h := c.h.(copies := c.h.copies + [|c.h.pushed|])))
  {
    var h, h' := c.h, c.h.(copies := c.h.copies + [|c.h.pushed|]);
    forall k | 0 <= k < |h'.copies|
      ensures RoundOrdered(h', k)
    {
      assert k < |h.copies| ==> RoundOrdered(h, k);
    }
    forall k | 0 <= k < |c.out|
      ensures Published(h', k) == Published(h, k)
    {
      assert h'.copies[k] == h.copies[k];
    }
  }

  lemma ClearKeeps(c: Column)
    requires ColumnInv(c) && |c.h.copies| == |c.h.clears| + 1 == |c.out| + 1
    ensures ColumnInv(c.(data := [], h := c.h.(clears := c.h.clears + [|c.h.pushed|])))
  {
    var h, h' := c.h, c.h.(clears := c.h.clears + [|c.h.pushed|]);
    forall k | 0 <= k < |h'.copies|
      ensures RoundOrdered(h', k) && Begun(h', k) == Begun(h, k)
    {
      assert RoundOrdered(h, k);
      assert k > 0 ==> h'.clears[k - 1] == h.clears[k - 1];
      assert k < |h.clears| ==> h'.clears[k] == h.clears[k];
    }
    forall k | 0 <= k < |h.copies|
      ensures Published(h', k) == Published(h, k)
    {
      assert RoundOrdered(h', k);
    }
  }

  lemma PublishKeeps(c: Column, copy: seq<Value>)
    requires ColumnInv(c) && |c.h.copies| == |c.h.clears| == |c.out| + 1 && copy == c.copy
    ensures ColumnInv(c.(out := c.out + [copy]))
  {
  }

  // ----- What every step keeps -----

  predicate Sized(s: State) {
    Shaped(s) && forall k :: 0 <= k < |s.published| ==> |s.published[k].data| == |s.datas|
  }

  function ColumnOf(s: State, i: nat): Column
    requires Sized(s) && i < |s.datas|
  {
    Column(s.datas[i], s.response.data[i],
           seq(|s.published|, k requires 0 <= k < |s.published| => s.published[k].data[i]), s.history[i])
  }

  /** Rounds whose copy, and whose clear, of column `i` has been made. */
  predicate Progress(s: State, i: nat)
    requires Shaped(s) && i < |s.datas|
  {
    var h, n := s.history[i], |s.published|;
    match s.uploader
    case Copy(j) => |h.clears| == n && |h.copies| == if i < j then n + 1 else n
    case Clear(j) => |h.copies| == n + 1 && |h.clears| == if i < j then n + 1 else n
    case RaiseFlag => |h.copies| == |h.clears| == n + 1
    case Publish => |h.copies| == |h.clears| == n + 1
    case _ => |h.copies| == |h.clears| == n
  }

  predicate Inv(s: State) {
    && Sized(s)
    && forall i :: 0 <= i < |s.datas| ==> ColumnInv(ColumnOf(s, i)) && Progress(s, i)
  }

  lemma PushValueKeeps(s: State, i: nat, v: Value)
    requires Inv(s) && i < |s.datas|
    ensures Inv(PushValue(s, i, v))
  {
    var s' := PushValue(s, i, v);
    forall j | 0 <= j < |s.datas|
      ensures ColumnInv(ColumnOf(s', j)) && Progress(s', j)
    {
      var c := ColumnOf(s, j);
      if j == i {
        PushKeeps(c, v);
        assert ColumnOf(s', j) == c.(data := c.data + [v], h := c.h.(pushed := c.h.pushed + [v]));
      } else {
        assert ColumnOf(s', j) == c;
      }
    }
  }

  /** The columns do not depend on where the sampler stands, nor on the flag and the time. */
  lemma OtherFieldsKeep(s: State, s': State)
    requires Inv(s)
    requires s' == s.(beginTime := s'.beginTime, isClear := s'.isClear, sampler := s'.sampler)
    ensures Inv(s')
  {
    forall j | 0 <= j < |s.datas|
      ensures ColumnInv(ColumnOf(s', j)) && Progress(s', j)
    {
      assert ColumnOf(s', j) == ColumnOf(s, j);
    }
  }

  lemma SampleStepKeeps(s: State, x: Input)
    requires Inv(s) && SampleStep(s, x).Some?
    ensures Inv(SampleStep(s, x).value) && |SampleStep(s, x).value.datas| == |s.datas|
  {
    var s' := SampleStep(s, x).value;
    if s.sampler.Push? && s.sampler.column < |s.datas| {
      PushValueKeeps(s, s.sampler.column, s.sampler.row[s.sampler.column]);
      OtherFieldsKeep(PushValue(s, s.sampler.column, s.sampler.row[s.sampler.column]), s');
    } else {
      OtherFieldsKeep(s, s');
    }
  }

  lemma CopyStepKeeps(s: State, x: Input, i: nat)
    requires Inv(s) && s.uploader == Copy(i) && i < |s.datas|
    ensures Inv(UploadStep(s, x).value)
  {
    var s' := UploadStep(s, x).value;
    forall j | 0 <= j < |s.datas|
      ensures ColumnInv(ColumnOf(s', j)) && Progress(s', j)
    {
      var c := ColumnOf(s, j);
      assert ColumnInv(c) && Progress(s, j);
      if j == i {
        CopyKeeps(c);
        assert ColumnOf(s', j) == c.(copy := c.data, h := c.h.(copies := c.h.copies + [|c.h.pushed|]));
      } else {
        assert ColumnOf(s', j) == c;
      }
    }
  }

  lemma ClearStepKeeps(s: State, x: Input, i: nat)
    requires Inv(s) && s.uploader == Clear(i) && i < |s.datas|
    ensures Inv(UploadStep(s, x).value)
  {
    var s' := UploadStep(s, x).value;
    forall j | 0 <= j < |s.datas|
      ensures ColumnInv(ColumnOf(s', j)) && Progress(s', j)
    {
      var c := ColumnOf(s, j);
      assert ColumnInv(c) && Progress(s, j);
      if j == i {
        ClearKeeps(c);
        assert ColumnOf(s', j) == c.(data := [], h := c.h.(clears := c.h.clears + [|c.h.pushed|]));
      } else {
        assert ColumnOf(s', j) == c;
      }
    }
  }

  lemma PublishStepKeeps(s: State, x: Input)
    requires Inv(s) && s.uploader == Publish
    ensures Inv(UploadStep(s, x).value)
  {
    var s' := UploadStep(s, x).value;
    forall j | 0 <= j < |s.datas|
      ensures ColumnInv(ColumnOf(s', j)) && Progress(s', j)
    {
      var c := ColumnOf(s, j);
      assert ColumnInv(c) && Progress(s, j);
      PublishKeeps(c, s.response.data[j]);
      assert ColumnOf(s', j) == c.(out := c.out + [s.response.data[j]]);
    }
  }

  lemma UploadStepKeeps(s: State, x: Input)
    requires Inv(s) && UploadStep(s, x).Some?
    ensures Inv(UploadStep(s, x).value) && |UploadStep(s, x).value.datas| == |s.datas|
  {
    if s.uploader.Copy? && s.uploader.column < |s.datas| {
      CopyStepKeeps(s, x, s.uploader.column);
    } else if s.uploader.Clear? && s.uploader.column < |s.datas| {
      ClearStepKeeps(s, x, s.uploader.column);
    } else if s.uploader.Publish? {
      PublishStepKeeps(s, x);
    } else {
      var s' := UploadStep(s, x).value;
      forall j | 0 <= j < |s.datas|
        ensures ColumnInv(ColumnOf(s', j)) && Progress(s', j)
      {
        assert ColumnInv(ColumnOf(s, j)) && Progress(s, j);
        assert ColumnOf(s', j) == ColumnOf(s, j);
      }
    }
  }

  lemma {:induction false} RunKeeps(s: State, schedule: Schedule)
    requires Inv(s) && Run(s, schedule).Some?
    ensures Inv(Run(s, schedule).value) && |Run(s, schedule).value.datas| == |s.datas|
    decreases schedule
  {
    if schedule != [] {
      var (task, x) := schedule[0];
      if task.Sampling? {
        SampleStepKeeps(s, x);
      } else {
        UploadStepKeeps(s, x);
      }
      RunKeeps(Step(s, task, x).value, schedule[1..]);
    }
  }

  /** The ledger of a column, in every interleaving of the two tasks' statements: the values pushed are those
      published and lost round by round, in order, followed by those in the buffer. Round `k`'s published values are
      in batch `k`; its lost values are those pushed between its copy and its clear. */
  lemma Ledger(idNum: nat, time: Time, schedule: Schedule, i: nat)
    requires i < idNum && Run(Initial(idNum, time), schedule).Some?
    ensures var s := Run(Initial(idNum, time), schedule).value;
            && Inv(s) && |s.datas| == idNum
            && (var h := s.history[i];
                && Ordered(h)
                && h.pushed == Rounds(h, |h.clears|) + s.datas[i]
                && |s.published| <= |h.clears| <= |s.published| + 1
                && forall k :: 0 <= k < |s.published| ==> s.published[k].data[i] == Published(h, k))
  {
    var s0 := Initial(idNum, time);
    assert forall j :: 0 <= j < idNum ==> ColumnOf(s0, j) == Column([], [], [], History([], [], []));
    RunKeeps(s0, schedule);
    var s := Run(s0, schedule).value;
    assert ColumnInv(ColumnOf(s, i)) && Progress(s, i);
    var h := s.history[i];
    RoundsArePushed(h, |h.clears|);
    assert h.pushed == h.pushed[..Begun(h, |h.clears|)] + Current(h);
    forall k | 0 <= k < |s.published|
      ensures s.published[k].data[i] == Published(h, k)
    {
      assert ColumnOf(s, i).out[k] == s.published[k].data[i];
    }
  }
}
