/** What one sampling reads for a list of ids (`QuerySample`), and into which columns `SampleTask` puts it. */
module SampleRow {
  import opened Wrappers

  datatype DataType = Bit | Register16 | Register32 | Register64

  /** A method of a data item. Numbers of 32 and 64 bits take two and four registers. */
  datatype Method = Method(isRead: bool, number: int, dataType: DataType)

  /** What an id of the channel leads to: nothing, or an item with methods. */
  type Target = Option<seq<Method>>

  /** A value by where it comes from: the id's place in the list, and which of the values read for that id it is. The
      bits of one id are a single value, an array. */
  datatype Value = Number(id: nat, index: nat) | Bits(id: nat, count: nat)

  function AtLeastZero(n: int): nat { if n < 0 then 0 else n }

  /** How often the loop over the decoded values runs. */
  function Count(m: Method): nat {
    match m.dataType
    case Bit => AtLeastZero(m.number)
    case Register16 => AtLeastZero(m.number)
    case Register32 => AtLeastZero(m.number) / 2
    case Register64 => AtLeastZero(m.number) / 4
  }

  function Numbers(id: nat, n: nat): (vs: seq<Value>)
    ensures |vs| == n && forall j :: 0 <= j < n ==> vs[j] == Number(id, j)
  {
    seq(n, j requires 0 <= j < n => Number(id, j))
  }

  /** What an id contributes: only its first method is looked at. */
  function Contribution(id: nat, target: Target): seq<Value> {
    if target == None || target.value == [] || !target.value[0].isRead then []
    else if target.value[0].dataType == Bit then [Bits(id, Count(target.value[0]))]
    else Numbers(id, Count(target.value[0]))
  }

  function Chunks(ids: seq<Target>): seq<seq<Value>> {
    seq(|ids|, k requires 0 <= k < |ids| => Contribution(k, ids[k]))
  }

  function Joined(chunks: seq<seq<Value>>): seq<Value> {
    if chunks == [] then [] else Joined(chunks[..|chunks| - 1]) + chunks[|chunks| - 1]
  }

  function Row(ids: seq<Target>): seq<Value> { Joined(Chunks(ids)) }

  /** `QuerySample`. The loop over the methods ends after its first turn, whatever the method is. */
  method QuerySample(ids: seq<Target>) returns (data: seq<Value>)
    ensures data == Row(ids)
  {
    data := [];
    for id := 0 to |ids|
      invariant data == Joined(Chunks(ids)[..id])
    {
      assert Chunks(ids)[..id + 1][..id] == Chunks(ids)[..id];
      if ids[id].Some? && ids[id].value != [] {
        data := QueryMethod(data, id, ids[id].value[0]);
      }
    }
    assert Chunks(ids)[..|ids|] == Chunks(ids);
  }

  method QueryMethod(data0: seq<Value>, id: nat, m: Method) returns (data: seq<Value>)
    ensures data == data0 + Contribution(id, Some([m]))
  {
    data := data0;
    if m.isRead {
      var number := if m.number < 0 then 0 else m.number;
      match m.dataType {
        case Bit =>
          var bitArray := 0;
          for j := 0 to number
            invariant bitArray == j
          {
            bitArray := bitArray + 1;
          }
          data := data + [Bits(id, bitArray)];
        case Register16 => data := PushNumbers(data, id, number);
        case Register32 => data := PushNumbers(data, id, number / 2);
        case Register64 => data := PushNumbers(data, id, number / 4);
      }
    }
  }

  /** The loop that appends decoded values. */
  method PushNumbers(data0: seq<Value>, id: nat, n: nat) returns (data: seq<Value>)
    ensures data == data0 + Numbers(id, n)
  {
    data := data0;
    for j := 0 to n
      invariant data == data0 + Numbers(id, j)
    {
      assert Numbers(id, j + 1) == Numbers(id, j) + [Number(id, j)];
      data := data + [Number(id, j)];
    }
  }

  /** How many registers or bits one value takes. */
  function Width(t: DataType): nat {
    match t
    case Bit => 1
    case Register16 => 1
    case Register32 => 2
    case Register64 => 4
  }

  /** What an id contributes to the row. Nothing, if it is unknown, has no methods, or its first method does not read;
      what stands behind the first method does not matter. Otherwise as many values as are whole in what is read; of
      bits the one array. */
  lemma ContributionExactly(id: nat, m: Method, others: seq<Method>)
    ensures Contribution(id, None) == [] && Contribution(id, Some([])) == []
    ensures Contribution(id, Some([m] + others)) == Contribution(id, Some([m]))
    ensures !m.isRead ==> Contribution(id, Some([m])) == []
    ensures m.isRead && m.dataType == Bit ==>
              Contribution(id, Some([m])) == [Bits(id, if m.number > 0 then m.number else 0)]
    ensures m.isRead && m.dataType != Bit ==>
              var n := |Contribution(id, Some([m]))|;
              if m.number <= 0 then n == 0 else n * Width(m.dataType) <= m.number < (n + 1) * Width(m.dataType)
  {
  }

  // ----- Which value is where -----

  /** Where a chunk begins. */
  function Start(chunks: seq<seq<Value>>, k: nat): nat
    requires k <= |chunks|
  {
    |Joined(chunks[..k])|
  }

  lemma StartStep(chunks: seq<seq<Value>>, k: nat)
    requires k < |chunks|
    ensures Start(chunks, k + 1) == Start(chunks, k) + |chunks[k]|
  {
    assert chunks[..k + 1][..k] == chunks[..k];
  }

  lemma {:induction false} ValuesOf(chunks: seq<seq<Value>>, k: nat, j: nat)
    requires k < |chunks| && j < |chunks[k]|
    ensures Start(chunks, k) + j < |Joined(chunks)| && Joined(chunks)[Start(chunks, k) + j] == chunks[k][j]
    decreases |chunks|
  {
    var n := |chunks| - 1;
    if k < n {
      ValuesOf(chunks[..n], k, j);
      assert chunks[..n][..k] == chunks[..k];
    }
  }

  /** Each value is in a chunk. */
  lemma {:induction false} ValueComesFrom(chunks: seq<seq<Value>>, p: nat) returns (k: nat)
    requires p < |Joined(chunks)|
    ensures k < |chunks| && Start(chunks, k) <= p < Start(chunks, k) + |chunks[k]|
    ensures Joined(chunks)[p] == chunks[k][p - Start(chunks, k)]
    decreases |chunks|
  {
    var n := |chunks| - 1;
    if p >= Start(chunks, n) {
      k := n;
    } else {
      k := ValueComesFrom(chunks[..n], p);
      assert chunks[..n][..k] == chunks[..k];
    }
  }

  predicate FirstOf(v: Value, i: nat) { v == Number(i, 0) || (v.Bits? && v.id == i) }

  /** The row's value at each id's place is the first one read for that id. */
  predicate Aligned(ids: seq<Target>) {
    |ids| <= |Row(ids)| && forall i :: 0 <= i < |ids| ==> FirstOf(Row(ids)[i], i)
  }

  /** Every id contributes one value; the last one may contribute more. */
  predicate OneEach(chunks: seq<seq<Value>>) {
    && (forall i :: 0 <= i < |chunks| - 1 ==> |chunks[i]| == 1)
    && (chunks != [] ==> |chunks[|chunks| - 1]| >= 1)
  }

  lemma {:induction false} StartsInOrder(chunks: seq<seq<Value>>, k: nat)
    requires OneEach(chunks) && k < |chunks|
    ensures Start(chunks, k) == k
    decreases k
  {
    if k == 0 {
      assert chunks[..0] == [];
    } else {
      StartsInOrder(chunks, k - 1);
      StartStep(chunks, k - 1);
    }
  }

  lemma ContributionIs(id: nat, target: Target, j: nat)
    requires j < |Contribution(id, target)|
    ensures var v := Contribution(id, target)[j]; v.id == id && (FirstOf(v, id) <==> j == 0)
  {
  }

  lemma AlignedStarts(ids: seq<Target>, i: nat)
    requires Aligned(ids) && i < |ids|
    ensures Start(Chunks(ids), i) == i && |Chunks(ids)[i]| >= 1
  {
    var k := ValueComesFrom(Chunks(ids), i);
    ContributionIs(k, ids[k], i - Start(Chunks(ids), k));
  }

  /** The exact condition for the columns: the row is aligned if and only if every id but the last contributes exactly
      one value, and the last at least one. */
  lemma AlignedExactly(ids: seq<Target>)
    ensures Aligned(ids) <==> OneEach(Chunks(ids))
  {
    var chunks := Chunks(ids);
    if OneEach(chunks) {
      forall i | 0 <= i < |ids|
        ensures i < |Row(ids)| && FirstOf(Row(ids)[i], i)
      {
        StartsInOrder(chunks, i);
        ValuesOf(chunks, i, 0);
        ContributionIs(i, ids[i], 0);
      }
      if ids != [] {
        StartsInOrder(chunks, |ids| - 1);
        ValuesOf(chunks, |ids| - 1, 0);
      }
    }
    if Aligned(ids) {
      forall i | 0 <= i < |ids|
        ensures |chunks[i]| >= 1 && (i < |ids| - 1 ==> |chunks[i]| == 1)
      {
        AlignedStarts(ids, i);
        if i < |ids| - 1 {
          AlignedStarts(ids, i + 1);
          StartStep(chunks, i);
        }
      }
    }
  }

  // ----- Rows into columns -----

  /** The loop of `SampleTask` that appends a row to the columns. The program does not look whether the row is long
      enough. */
  method PushRow(datas: array<seq<Value>>, data: seq<Value>)
    requires datas.Length <= |data|
    modifies datas
    ensures forall i :: 0 <= i < datas.Length ==> datas[i] == old(datas[i]) + [data[i]]
  {
    for i := 0 to datas.Length
      invariant forall k :: 0 <= k < i ==> datas[k] == old(datas[k]) + [data[k]]
      invariant forall k :: i <= k < datas.Length ==> datas[k] == old(datas[k])
    {
      datas[i] := datas[i] + [data[i]];
    }
  }

  /** A column has values of its own id only. */
  predicate Pure(column: seq<Value>, i: nat) {
    forall v <- column :: FirstOf(v, i)
  }

  /** An iteration of one of the two tasks. */
  datatype Turn = Sampling | Uploading

  /** How many rows there are in each batch uploaded, and in the buffer. */
  function BatchSizes(turns: seq<Turn>): seq<nat> {
    if turns == [] then []
    else
      var before := turns[..|turns| - 1];
      if turns[|turns| - 1].Sampling? then BatchSizes(before) else BatchSizes(before) + [BufferSize(before)]
  }

  function BufferSize(turns: seq<Turn>): nat {
    if turns == [] || turns[|turns| - 1].Uploading? then 0 else BufferSize(turns[..|turns| - 1]) + 1
  }

  /** Columns that are pure and of one length. */
  predicate PureColumns(columns: seq<seq<Value>>, size: nat) {
    forall i :: 0 <= i < |columns| ==> |columns[i]| == size && Pure(columns[i], i)
  }

  /** An iteration of `UploadTask`: the columns are copied, and cleared. */
  method Upload(datas: array<seq<Value>>) returns (batch: seq<seq<Value>>)
    modifies datas
    ensures batch == old(datas[..]) && forall i :: 0 <= i < datas.Length ==> datas[i] == []
  {
    batch := datas[..];
    for i := 0 to datas.Length
      invariant forall k :: 0 <= k < i ==> datas[k] == []
    {
      datas[i] := [];
    }
  }

  /** In every row of a run, with uploads in between, value i goes to column i: the columns of the buffer and of every
      batch are pure, and of one length. */
  method SampleRows(ids: seq<Target>, datas: array<seq<Value>>, turns: seq<Turn>)
    returns (batches: seq<seq<seq<Value>>>)
    requires OneEach(Chunks(ids)) && datas.Length == |ids| && forall i :: 0 <= i < |ids| ==> datas[i] == []
    modifies datas
    ensures PureColumns(datas[..], BufferSize(turns)) && |batches| == |BatchSizes(turns)|
    ensures forall k :: 0 <= k < |batches| ==> |batches[k]| == |ids| && PureColumns(batches[k], BatchSizes(turns)[k])
  {
    AlignedExactly(ids);
    batches := [];
    for r := 0 to |turns|
      invariant PureColumns(datas[..], BufferSize(turns[..r])) && |batches| == |BatchSizes(turns[..r])|
      invariant forall k :: 0 <= k < |batches| ==>
                  |batches[k]| == |ids| && PureColumns(batches[k], BatchSizes(turns[..r])[k])
    {
      assert turns[..r + 1][..r] == turns[..r];
      match turns[r] {
        case Sampling =>
          var data := QuerySample(ids);
          PushRow(datas, data);
        case Uploading =>
          var batch := Upload(datas);
          batches := batches + [batch];
      }
    }
    assert turns[..|turns|] == turns;
  }
}
