/** Chunked transfer coding: the writer, and the reader that undoes it however the connection cuts up the bytes. */
module ChunkedTransfer {
  import opened Text
  import opened Wrappers
  import opened Hexadecimal
  import opened Streams

  const RECV_BUFSIZ: nat := 4096

  // ----- Writing -----

  /** What a content provider does with its sink. */
  datatype Action = Write(data: string) | Done

  const DONE_MARKER: string := "0\r\n\r\n"

  function Chunk(data: string): string { Hex(|data|) + CRLF + data + CRLF }

  function EmittedBy(a: Action): string {
    match a
    case Write(data) => if data == "" then "" else Chunk(data)
    case Done => DONE_MARKER
  }

  function Emitted(actions: seq<Action>): string {
    if actions == [] then "" else EmittedBy(actions[0]) + Emitted(actions[1..])
  }

  /** Whether the writer asks its provider again: the last action was a write of something. */
  function DataAvailable(actions: seq<Action>): bool {
    actions == [] || (actions[|actions| - 1].Write? && actions[|actions| - 1].data != "")
  }

  lemma {:induction false} EmittedAppend(a: seq<Action>, b: seq<Action>)
    ensures Emitted(a + b) == Emitted(a) + Emitted(b)
  {
    if a == [] {
      assert a + b == b;
    } else {
      EmittedAppend(a[1..], b);
      assert (a + b)[1..] == a[1..] + b;
      Associates(EmittedBy(a[0]), Emitted(a[1..]), Emitted(b));
    }
  }

  /** The sink that `write_content_chunked` gives to its provider. */
  class DataSink {
    /** Whether every `write_data` succeeds. */
    const reliable: bool
    var ok: bool
    var dataAvailable: bool
    var offset: nat
    var output: string

    ghost predicate Valid()
      reads this
    {
      reliable ==> ok
    }

    constructor (reliable: bool)
      ensures Valid() && this.reliable == reliable && ok && dataAvailable && offset == 0 && output == ""
    {
      this.reliable := reliable;
      ok, dataAvailable, offset, output := true, true, 0, "";
    }

    method WriteData(text: string)
      modifies `ok, `output
      ensures ok ==> old(ok) && output == old(output) + text
      ensures reliable ==> ok == old(ok)
    {
      var fails: bool := *;
      if fails && !reliable {
        ok := false;
      } else {
        output := output + text;
      }
    }

    method Write(data: string) returns (r: bool)
      requires Valid()
      modifies this
      ensures Valid() && r == ok
      ensures ok ==> old(ok) && output == old(output) + EmittedBy(Action.Write(data)) && dataAvailable == (data != "")
      ensures offset == if old(ok) then old(offset) + |data| else old(offset)
    {
      if ok {
        dataAvailable := data != "";
        offset := offset + |data|;
        if data != "" {
          var size := FromIToHex(|data|);
          WriteData(size + CRLF + data + CRLF);
        }
      }
      return ok;
    }

    method Finish()
      requires Valid()
      modifies this
      ensures Valid() && offset == old(offset)
      ensures ok ==> old(ok) && output == old(output) + EmittedBy(Done) && !dataAvailable
    {
      if ok {
        dataAvailable := false;
        WriteData(DONE_MARKER);
      }
    }
  }

  /** Whether there is data after some actions, and after none. */
  function AvailableAfter(before: bool, actions: seq<Action>): bool {
    if actions == [] then before else DataAvailable(actions)
  }

  lemma OneMoreAction(script: seq<Action>, i: nat, before: bool)
    requires i < |script|
    ensures Emitted(script[..i + 1]) == Emitted(script[..i]) + EmittedBy(script[i])
    ensures AvailableAfter(before, script[..i + 1]) == (script[i].Write? && script[i].data != "")
  {
    assert script[..i + 1] == script[..i] + [script[i]];
    EmittedAppend(script[..i], [script[i]]);
    assert Emitted([script[i]]) == EmittedBy(script[i]) + "";
  }

  /** One call of the content provider: it does the actions of its script. */
  method CallProvider(sink: DataSink, script: seq<Action>)
    requires sink.Valid()
    modifies sink
    ensures sink.Valid()
    ensures sink.ok ==>
              && old(sink.ok) && sink.output == old(sink.output) + Emitted(script)
              && sink.dataAvailable == AvailableAfter(old(sink.dataAvailable), script)
  {
    ghost var before, available := sink.output, sink.dataAvailable;
    assert script[..0] == [] && before + "" == before;
    for i := 0 to |script|
      invariant sink.Valid() && (sink.ok ==> old(sink.ok))
      invariant sink.ok ==> sink.output == before + Emitted(script[..i])
      invariant sink.ok ==> sink.dataAvailable == AvailableAfter(available, script[..i])
    {
      OneMoreAction(script, i, available);
      Associates(before, Emitted(script[..i]), EmittedBy(script[i]));
      match script[i] {
        case Write(data) => var _ := sink.Write(data);
        case Done => sink.Finish();
      }
    }
    assert script[..|script|] == script;
  }

  /** What the provider does in one call, and whether it returns true. */
  datatype Script = Script(actions: seq<Action>, accepted: bool)

  datatype WriteError = Success | Canceled | WriteFailed

  /** The actions of the first `calls` calls. */
  function Actions(scripts: seq<Script>, calls: nat): seq<Action>
    requires calls <= |scripts|
  {
    if calls == 0 then [] else Actions(scripts, calls - 1) + scripts[calls - 1].actions
  }

  /** What the first `calls` calls write, and whether there is data after them. */
  function OutputOf(scripts: seq<Script>, calls: nat): string
    requires calls <= |scripts|
  {
    if calls == 0 then "" else OutputOf(scripts, calls - 1) + Emitted(scripts[calls - 1].actions)
  }

  predicate Available(scripts: seq<Script>, calls: nat)
    requires calls <= |scripts|
  {
    calls == 0 || AvailableAfter(Available(scripts, calls - 1), scripts[calls - 1].actions)
  }

  lemma AvailableAppend(a: seq<Action>, b: seq<Action>)
    ensures DataAvailable(a + b) <==> AvailableAfter(DataAvailable(a), b)
  {
    if b == [] {
      assert a + b == a;
    }
  }

  /** The calls add up to one sequence of actions. */
  lemma {:induction false} OutputsAddUp(scripts: seq<Script>, calls: nat)
    requires calls <= |scripts|
    ensures OutputOf(scripts, calls) == Emitted(Actions(scripts, calls))
  {
    if calls > 0 {
      OutputsAddUp(scripts, calls - 1);
      EmittedAppend(Actions(scripts, calls - 1), scripts[calls - 1].actions);
    }
  }

  lemma {:induction false} AvailableAddsUp(scripts: seq<Script>, calls: nat)
    requires calls <= |scripts|
    ensures Available(scripts, calls) <==> DataAvailable(Actions(scripts, calls))
  {
    if calls > 0 {
      AvailableAddsUp(scripts, calls - 1);
      AvailableAppend(Actions(scripts, calls - 1), scripts[calls - 1].actions);
    }
  }

  /** Each of the first `calls` calls was made while there was data, after one that returned true. */
  predicate Made(scripts: seq<Script>, calls: nat)
    requires calls <= |scripts|
  {
    calls == 0 ||
    (Available(scripts, calls - 1) && Made(scripts, calls - 1) && (calls > 1 ==> scripts[calls - 2].accepted))
  }

  lemma {:induction false} MadeInTurn(scripts: seq<Script>, calls: nat, i: nat)
    requires i < calls <= |scripts| && Made(scripts, calls)
    ensures Available(scripts, i) && (i < calls - 1 ==> scripts[i].accepted)
  {
    if i < calls - 1 {
      MadeInTurn(scripts, calls - 1, i);
    }
  }

  /** A call of the provider, made while there is data. */
  method CallNext(sink: DataSink, scripts: seq<Script>, calls: nat) returns (accepted: bool)
    requires sink.Valid() && sink.ok && sink.dataAvailable && calls < |scripts|
    requires Made(scripts, calls) && (calls > 0 ==> scripts[calls - 1].accepted)
    requires sink.output == OutputOf(scripts, calls) && sink.dataAvailable == Available(scripts, calls)
    modifies sink
    ensures sink.Valid() && Made(scripts, calls + 1) && accepted == scripts[calls].accepted
    ensures sink.ok ==>
              sink.output == OutputOf(scripts, calls + 1) && sink.dataAvailable == Available(scripts, calls + 1)
  {
    CallProvider(sink, scripts[calls].actions);
    return scripts[calls].accepted;
  }

  /** The loop of `write_content_chunked`: the provider is called while it has data and the server is not shutting
      down, each time with the next script. The server shuts down after `running` calls. */
  method ProviderLoop(sink: DataSink, scripts: seq<Script>, running: nat) returns (error: WriteError, calls: nat)
    requires sink.Valid() && sink.ok && sink.dataAvailable && sink.output == ""
    modifies sink
    ensures calls <= |scripts| && calls <= running && Made(scripts, calls)
    ensures error == Success ==> sink.output == OutputOf(scripts, calls)
    ensures error == Success && calls < |scripts| ==> calls == running || !Available(scripts, calls)
    ensures error == Canceled <==> calls > 0 && !scripts[calls - 1].accepted
    ensures error == WriteFailed ==> !sink.reliable
  {
    calls := 0;
    while calls < |scripts| && sink.dataAvailable && calls < running
      invariant calls <= |scripts| && calls <= running
      invariant sink.Valid() && sink.ok && sink.output == OutputOf(scripts, calls)
      invariant sink.dataAvailable == Available(scripts, calls)
      invariant Made(scripts, calls)
      invariant calls > 0 ==> scripts[calls - 1].accepted
      decreases |scripts| - calls
    {
      var accepted := CallNext(sink, scripts, calls);
      calls := calls + 1;
      if !accepted { return Canceled, calls; }
      if !sink.ok { return WriteFailed, calls; }
    }
    return Success, calls;
  }

  /** `write_content_chunked`. The output is what the actions of the calls made add up to. */
  method WriteContentChunked(sink: DataSink, scripts: seq<Script>, running: nat)
    returns (error: WriteError, calls: nat)
    requires sink.Valid() && sink.ok && sink.dataAvailable && sink.output == ""
    modifies sink
    ensures calls <= |scripts| && calls <= running
    ensures error == Success ==> sink.output == Emitted(Actions(scripts, calls))
    ensures error == Success && calls < |scripts| ==> calls == running || !DataAvailable(Actions(scripts, calls))
    ensures forall i :: 0 <= i < calls ==> DataAvailable(Actions(scripts, i))
    ensures forall i :: 0 <= i < calls - 1 ==> scripts[i].accepted
    ensures error == Canceled <==> calls > 0 && !scripts[calls - 1].accepted
    ensures error == WriteFailed ==> !sink.reliable
  {
    error, calls := ProviderLoop(sink, scripts, running);
    OutputsAddUp(scripts, calls);
    AvailableAddsUp(scripts, calls);
    forall i | 0 <= i < calls
      ensures DataAvailable(Actions(scripts, i)) && (i < calls - 1 ==> scripts[i].accepted)
    {
      MadeInTurn(scripts, calls, i);
      AvailableAddsUp(scripts, i);
    }
  }

  // ----- Reading -----

  /** How reading ended. The program takes a wrong separator after a chunk for the end of the body. */
  datatype Ending = Complete | BadSeparator | Failed

  datatype Decoded = Decoded(ending: Ending, body: string, rest: string)

  function Behind(body: string, d: Decoded): Decoded { Decoded(d.ending, body + d.body, d.rest) }

  /** `read_content_chunked` on all that is to come. */
  function Dechunk(s: string): Decoded
    decreases |s|
  {
    if s == "" then Decoded(Failed, "", "") else DechunkFrom(LineOf(s), AfterLine(s))
  }

  /** From the point on where a size line was read. */
  function DechunkFrom(line: string, s: string): Decoded
    decreases |s|
  {
    var size := StrToUL(line);
    if size == None || size.value == ULONG_MAX then Decoded(Failed, "", s)
    else if size.value == 0 then
      Decoded(if s != "" && LineOf(s) == CRLF then Complete else Failed, "", AfterLine(s))
    else if size.value > |s| then Decoded(Failed, s, "")
    else
      var body, t := s[..size.value], s[size.value..];
      if t == "" then Decoded(Failed, body, "")
      else if LineOf(t) != CRLF then Decoded(BadSeparator, body, AfterLine(t))
      else Behind(body, Dechunk(AfterLine(t)))
  }

  lemma LineOfSize(n: nat, rest: string)
    ensures LineOf(Hex(n) + CRLF + rest) == Hex(n) + CRLF && AfterLine(Hex(n) + CRLF + rest) == rest
  {
    HexReadsBack(n);
    var x := Hex(n) + "\r";
    assert forall i :: 0 <= i < |Hex(n)| ==> x[i] == Hex(n)[i];
    LineIs(x, rest);
    assert x + "\n" == Hex(n) + CRLF && x + "\n" + rest == Hex(n) + CRLF + rest;
  }

  lemma LineOfCrlf(rest: string)
    ensures LineOf(CRLF + rest) == CRLF && AfterLine(CRLF + rest) == rest
  {
    LineIs("\r", rest);
    assert "\r" + "\n" + rest == CRLF + rest;
  }

  lemma SizeLineReads(n: nat)
    requires n <= ULONG_MAX
    ensures StrToUL(Hex(n) + CRLF) == Some(n)
  {
    HexRoundTrip(n, CRLF);
  }

  function Join(writes: seq<string>): string {
    if writes == [] then "" else writes[0] + Join(writes[1..])
  }

  function Writes(writes: seq<string>): seq<Action> {
    seq(|writes|, i requires 0 <= i < |writes| => Action.Write(writes[i]))
  }

  predicate Sizable(writes: seq<string>) {
    forall w <- writes :: |w| < ULONG_MAX
  }

  /** A chunk behind its size line. */
  lemma DechunkChunk(line: string, data: string, next: string)
    requires StrToUL(line) == Some(|data|) && 0 < |data| < ULONG_MAX
    ensures DechunkFrom(line, data + (CRLF + next)) == Behind(data, Dechunk(next))
  {
    var s := data + (CRLF + next);
    assert s[..|data|] == data && s[|data|..] == CRLF + next;
    LineOfCrlf(next);
  }

  lemma ChunkReads(data: string, next: string)
    requires 0 < |data| < ULONG_MAX
    ensures Dechunk(Chunk(data) + next) == Behind(data, Dechunk(next))
  {
    SizeLineReads(|data|);
    LineOfSize(|data|, data + (CRLF + next));
    ChunkLayout(Hex(|data|) + CRLF, data, CRLF, next);
    DechunkChunk(Hex(|data|) + CRLF, data, next);
  }

  lemma ChunkLayout(line: string, data: string, end: string, next: string)
    ensures (line + data + end) + next == line + (data + (end + next))
  {
  }

  lemma DoneReads(tail: string)
    ensures Dechunk(DONE_MARKER + tail) == Decoded(Complete, "", tail)
  {
    assert Hex(0) == "0";
    SizeLineReads(0);
    LineOfSize(0, CRLF + tail);
    LineOfCrlf(tail);
    assert DONE_MARKER + tail == Hex(0) + CRLF + (CRLF + tail);
  }

  lemma WriteReads(data: string, next: string)
    requires |data| < ULONG_MAX
    ensures Dechunk(EmittedBy(Action.Write(data)) + next) == Behind(data, Dechunk(next))
  {
    if data == "" {
      NothingBefore(next);
      NothingBefore(Dechunk(next).body);
    } else {
      ChunkReads(data, next);
    }
  }

  /** What is read of any writes: their data, and then what is read of the text behind them. An empty write makes no
      chunk. */
  lemma {:induction false} WritesRead(writes: seq<string>, next: string)
    requires Sizable(writes)
    ensures Dechunk(Emitted(Writes(writes)) + next) == Behind(Join(writes), Dechunk(next))
  {
    if writes == [] {
      NothingBefore(next);
      NothingBefore(Dechunk(next).body);
    } else {
      var first, others := writes[0], writes[1..];
      WritesRead(others, next);
      WriteReads(first, Emitted(Writes(others)) + next);
      BehindBehind(first, Join(others), Dechunk(next));
      FirstWrite(writes);
      Associates(EmittedBy(Action.Write(first)), Emitted(Writes(others)), next);
    }
  }

  /** What is read from where the line end behind a chunk's data should be. */
  function BehindData(next: string): Decoded {
    if next == "" then Decoded(Failed, "", "")
    else if LineOf(next) != CRLF then Decoded(BadSeparator, "", AfterLine(next))
    else Dechunk(AfterLine(next))
  }

  lemma DataRead(line: string, data: string, next: string)
    requires StrToUL(line) == Some(|data|) && 0 < |data| < ULONG_MAX
    ensures DechunkFrom(line, data + next) == Behind(data, BehindData(next))
  {
    assert (data + next)[..|data|] == data && (data + next)[|data|..] == next;
    assert data + "" == data;
  }

  /** A chunk behind any writes, with any text behind its data. */
  lemma {:induction false} ChunkBehindWrites(writes: seq<string>, data: string, next: string)
    requires Sizable(writes) && 0 < |data| < ULONG_MAX
    ensures Dechunk(Emitted(Writes(writes)) + (Hex(|data|) + CRLF + (data + next)))
         == Behind(Join(writes), Behind(data, BehindData(next)))
  {
    WritesRead(writes, Hex(|data|) + CRLF + (data + next));
    SizeLineReads(|data|);
    LineOfSize(|data|, data + next);
    DataRead(Hex(|data|) + CRLF, data, next);
  }

  lemma {:induction false} BadSeparatorBehindData(s: string)
    ensures Dechunk(s).ending == BadSeparator ==> Dechunk(s).body != ""
    decreases |s|
  {
    if s != "" {
      var size := StrToUL(LineOf(s));
      if size.Some? && 0 < size.value < ULONG_MAX && size.value <= |AfterLine(s)| {
        var body, t := AfterLine(s)[..size.value], AfterLine(s)[size.value..];
        assert |body| > 0;
        if t != "" {
          BadSeparatorBehindData(AfterLine(t));
        }
      }
    }
  }

  /** Behind any number of chunks, the reading ends with a chunk's data, without a terminator and with success, exactly
      when the data is followed by a line other than CRLF. */
  lemma {:induction false} WrongSeparatorAccepted(writes: seq<string>, data: string, next: string)
    requires Sizable(writes) && 0 < |data| < ULONG_MAX
    ensures var d := Dechunk(Emitted(Writes(writes)) + (Hex(|data|) + CRLF + (data + next)));
            d.ending == BadSeparator && d.body == Join(writes) + data <==> next != "" && LineOf(next) != CRLF
  {
    ChunkBehindWrites(writes, data, next);
    BehindBehind(Join(writes), data, BehindData(next));
    NothingBehind(Join(writes) + data);
    if next != "" && LineOf(next) == CRLF {
      BadSeparatorBehindData(AfterLine(next));
    }
  }

  lemma FirstWrite(writes: seq<string>)
    requires writes != []
    ensures Emitted(Writes(writes)) == EmittedBy(Action.Write(writes[0])) + Emitted(Writes(writes[1..]))
  {
    assert Writes(writes)[1..] == Writes(writes[1..]);
  }

  lemma NothingBefore(s: string)
    ensures "" + s == s
  {
  }

  lemma BehindBehind(a: string, b: string, d: Decoded)
    ensures Behind(a, Behind(b, d)) == Behind(a + b, d)
  {
    Associates(a, b, d.body);
  }

  /** The round trip: any writes followed by `done` are read back as exactly their concatenation, and the stream is
      consumed to its end. */
  lemma RoundTrip(writes: seq<string>, tail: string)
    requires Sizable(writes)
    ensures Dechunk(Emitted(Writes(writes) + [Done]) + tail) == Decoded(Complete, Join(writes), tail)
  {
    EmittedAppend(Writes(writes), [Done]);
    assert Emitted([Done]) == DONE_MARKER;
    Associates(Emitted(Writes(writes)), DONE_MARKER, tail);
    DoneReads(tail);
    WritesRead(writes, DONE_MARKER + tail);
    assert Join(writes) + "" == Join(writes);
  }

  /** Without `done` there is no terminator: reading fails once everything has been delivered. */
  lemma WithoutDone(writes: seq<string>)
    requires Sizable(writes)
    ensures Dechunk(Emitted(Writes(writes))) == Decoded(Failed, Join(writes), "")
  {
    WritesRead(writes, "");
    NothingBehind(Emitted(Writes(writes)));
    NothingBehind(Join(writes));
  }

  lemma NothingBehind(s: string)
    ensures s + "" == s
  {
  }

  lemma LastWrite(writes: seq<string>)
    requires writes != []
    ensures DataAvailable(Writes(writes)) <==> writes[|writes| - 1] != ""
  {
    assert Writes(writes)[|writes| - 1] == Action.Write(writes[|writes| - 1]);
  }

  /** A provider that writes nothing is not asked again, and its output is left without a terminator. */
  lemma EmptyWriteStops(writes: seq<string>)
    requires writes != [] && writes[|writes| - 1] == "" && Sizable(writes)
    ensures !DataAvailable(Writes(writes)) && Dechunk(Emitted(Writes(writes))).ending == Failed
  {
    WithoutDone(writes);
    LastWrite(writes);
  }

  // ----- The reader on a stream -----

  /** A content receiver: it keeps what it gets. One that is not willing may refuse at any time. */
  class Receiver {
    const willing: bool
    var received: string

    constructor (willing: bool)
      ensures this.willing == willing && received == ""
    {
      this.willing, received := willing, "";
    }

    method Receive(data: string) returns (ok: bool)
      modifies this
      ensures received == old(received) + data && (!ok ==> !willing)
    {
      received := received + data;
      var refuses: bool := *;
      return willing || !refuses;
    }
  }

  /** `read_content_with_length`: the next `len` bytes, or what there is of them. `patient` says that there is no
      progress callback, or one that never stops the reading. */
  method ReadContentWithLength(strm: SocketStream, len: nat, out: Receiver, patient: bool)
    returns (ok: bool, ghost k: nat)
    requires strm.Valid()
    modifies strm, strm.readBuff, out
    ensures strm.Valid() && k <= len && k <= |old(strm.Pending())|
    ensures out.received == old(out.received) + old(strm.Pending())[..k] && strm.Pending() == old(strm.Pending())[k..]
    ensures ok ==> k == len
    ensures !ok && strm.reliable && out.willing && patient ==> k == |old(strm.Pending())| < len
  {
    var buf := new char[RECV_BUFSIZ];
    var r := 0;
    ghost var all, before := strm.Pending(), out.received;
    k := 0;
    while r < len
      invariant strm.Valid() && buf != strm.readBuff && fresh(buf) && buf.Length == RECV_BUFSIZ
      invariant r == k <= len && k <= |all|
      invariant out.received == before + all[..k] && strm.Pending() == all[k..]
    {
      var n := strm.Read(buf, if len - r < RECV_BUFSIZ then len - r else RECV_BUFSIZ);
      if n <= 0 { return false, k; }
      CutAgain(all, k, n);
      Associates(before, all[..k], buf[..n]);
      var taken := out.Receive(buf[..n]);
      k := k + n;
      if !taken { return false, k; }
      r := r + n;
      var stops: bool := *;
      if !patient && stops { return false, k; }
    }
    return true, k;
  }

  lemma CutAgain(all: string, k: nat, n: nat)
    requires k + n <= |all|
    ensures all[..k] + all[k..][..n] == all[..k + n] && all[k..][n..] == all[k + n..]
  {
  }

  datatype Progress = NextSize | Ended(ok: bool)

  /** What is to come for a reader that has read a size line. */
  ghost function ToCome(lineReader: StreamLineReader): Decoded
    requires lineReader.Valid()
    reads lineReader, lineReader.fixedBuffer, lineReader.strm, lineReader.strm.readBuff
  {
    DechunkFrom(lineReader.Line(), lineReader.strm.Pending())
  }

  /** What a chunk's size line and the text `t` behind its content lead to. */
  lemma ChunkIs(line: string, s: string, size: nat)
    requires StrToUL(line) == Some(size) && 0 < size < ULONG_MAX
    ensures |s| < size ==> DechunkFrom(line, s) == Decoded(Failed, s, "")
    ensures size <= |s| ==>
              var d, body, t := DechunkFrom(line, s), s[..size], s[size..];
              && (t == "" ==> d == Decoded(Failed, body, ""))
              && (t != "" && LineOf(t) != CRLF ==> d == Decoded(BadSeparator, body, AfterLine(t)))
              && (t != "" && LineOf(t) == CRLF ==> d == Behind(body, Dechunk(AfterLine(t))))
              && (t != "" && LineOf(t) == CRLF && AfterLine(t) == "" ==> d == Decoded(Failed, body, ""))
  {
  }

  /** The line end behind a chunk, and the next size line. */
  method ReadSeparator(lineReader: StreamLineReader) returns (p: Progress)
    requires lineReader.Valid()
    modifies lineReader, lineReader.fixedBuffer, lineReader.strm, lineReader.strm.readBuff
    ensures lineReader.Valid()
    ensures var t := old(lineReader.strm.Pending());
            && (p == NextSize ==>
                  && t != "" && LineOf(t) == CRLF && Dechunk(AfterLine(t)) == ToCome(lineReader)
                  && |lineReader.strm.Pending()| < |t|)
            && (p == Ended(true) ==> t != "" && LineOf(t) != CRLF && lineReader.strm.Pending() == AfterLine(t))
            && (p == Ended(false) && lineReader.strm.reliable ==>
                  lineReader.strm.Pending() == "" && (t == "" || (LineOf(t) == CRLF && AfterLine(t) == "")))
  {
    var ok := lineReader.GetLine();
    if !ok { return Ended(false); }
    if lineReader.Line() != CRLF { return Ended(true); }
    ok := lineReader.GetLine();
    p := if ok then NextSize else Ended(false);
  }

  /** One chunk, whose size line was read, and the size line after it. */
  method ReadChunk(lineReader: StreamLineReader, size: nat, out: Receiver) returns (p: Progress, ghost body: string)
    requires lineReader.Valid() && StrToUL(lineReader.Line()) == Some(size) && 0 < size < ULONG_MAX
    modifies lineReader, lineReader.fixedBuffer, lineReader.strm, lineReader.strm.readBuff, out
    ensures lineReader.Valid() && out.received == old(out.received) + body
    ensures p == NextSize ==>
              && old(ToCome(lineReader)) == Behind(body, ToCome(lineReader))
              && |lineReader.strm.Pending()| < |old(lineReader.strm.Pending())|
    ensures p == Ended(true) ==> old(ToCome(lineReader)) == Decoded(BadSeparator, body, lineReader.strm.Pending())
    ensures p == Ended(false) && lineReader.strm.reliable && out.willing ==>
              old(ToCome(lineReader)) == Decoded(Failed, body, lineReader.strm.Pending())
  {
    ghost var pending := lineReader.strm.Pending();
    ChunkIs(lineReader.Line(), pending, size);
    var got, k := ReadContentWithLength(lineReader.strm, size, out, true);
    body := pending[..k];
    if !got { return Ended(false), body; }
    p := ReadSeparator(lineReader);
  }

  /** The line after the size line of zero. */
  method ReadEnd(lineReader: StreamLineReader) returns (ok: bool)
    requires lineReader.Valid() && StrToUL(lineReader.Line()) == Some(0)
    modifies lineReader, lineReader.fixedBuffer, lineReader.strm, lineReader.strm.readBuff
    ensures lineReader.Valid()
    ensures ok || lineReader.strm.reliable ==>
              old(ToCome(lineReader)) == Decoded(if ok then Complete else Failed, "", lineReader.strm.Pending())
  {
    ok := lineReader.GetLine();
    ok := ok && lineReader.Line() == CRLF;
  }

  /** One turn of the loop over the chunks. */
  method ReadTurn(lineReader: StreamLineReader, out: Receiver) returns (p: Progress, ghost body: string)
    requires lineReader.Valid()
    modifies lineReader, lineReader.fixedBuffer, lineReader.strm, lineReader.strm.readBuff, out
    ensures lineReader.Valid() && out.received == old(out.received) + body
    ensures p == NextSize ==>
              && old(ToCome(lineReader)) == Behind(body, ToCome(lineReader))
              && |lineReader.strm.Pending()| < |old(lineReader.strm.Pending())|
    ensures p.Ended? && (p.ok || (lineReader.strm.reliable && out.willing)) ==>
              var d := old(ToCome(lineReader));
              p.ok == (d.ending != Failed) && d.body == body && d.rest == lineReader.strm.Pending()
  {
    var size := StrToUL(lineReader.Line());
    body := "";
    if size == None || size.value == ULONG_MAX { return Ended(false), body; }
    if size.value == 0 {
      var ok := ReadEnd(lineReader);
      return Ended(ok), body;
    }
    p, body := ReadChunk(lineReader, size.value, out);
  }

  /** The loop over the chunks, from the first size line on. */
  method ReadChunks(lineReader: StreamLineReader, out: Receiver) returns (ok: bool)
    requires lineReader.Valid()
    modifies lineReader, lineReader.fixedBuffer, lineReader.strm, lineReader.strm.readBuff, out
    ensures lineReader.Valid()
    ensures var d := old(ToCome(lineReader));
            ok || (lineReader.strm.reliable && out.willing) ==>
              && ok == (d.ending != Failed)
              && out.received == old(out.received) + d.body && lineReader.strm.Pending() == d.rest
  {
    ghost var before, d, body := out.received, ToCome(lineReader), "";
    while true
      invariant lineReader.Valid()
      invariant d == Behind(body, ToCome(lineReader))
      invariant out.received == before + body
      decreases |lineReader.strm.Pending()|
    {
      var p, more := ReadTurn(lineReader, out);
      Associates(before, body, more);
      if p.Ended? { return p.ok; }
      BehindBehind(body, more, ToCome(lineReader));
      body := body + more;
    }
  }

  /** `read_content_chunked`. However the connection cuts up the bytes, what is read is what Dechunk says of them; a
      failing connection or receiver can only make the reading fail. */
  method ReadContentChunked(strm: SocketStream, out: Receiver) returns (ok: bool)
    requires strm.Valid()
    modifies strm, strm.readBuff, out
    ensures strm.Valid()
    ensures var d := Dechunk(old(strm.Pending()));
            ok || (strm.reliable && out.willing) ==>
              && ok == (d.ending != Failed)
              && out.received == old(out.received) + d.body && strm.Pending() == d.rest
  {
    var lineReader := new StreamLineReader(strm, 16);
    ok := lineReader.GetLine();
    if !ok { return false; }
    ok := ReadChunks(lineReader, out);
  }
}
