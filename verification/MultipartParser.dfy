/** `MultipartFormDataParser`: the parser over its sliding buffer. Every method is proved against the plain
    strings of module Multipart. */
module MultipartParser {
  import opened Text
  import opened PartHeader
  import opened Multipart

  class MultipartFormDataParser {
    const settings: Config

    var buf: seq<char>
    var bufSpos: nat
    var bufEpos: nat

    var state: Phase
    var isValid: bool
    var file: FileInfo

    /** The calls made to the callbacks. */
    var events: seq<Event>

    ghost predicate Valid()
      reads this
    {
      bufSpos <= bufEpos <= |buf|
    }

    /** The text in the buffer. */
    ghost function View(): string
      requires Valid()
      reads this
    {
      buf[bufSpos..bufEpos]
    }

    ghost function Abstraction(): Parser
      requires Valid()
      reads this
    {
      Parser(state, isValid, file, View(), events)
    }

    constructor (boundary: string, accepts: seq<Event> -> bool)
      ensures Valid() && settings == SetBoundary(boundary, accepts) && Abstraction() == INITIAL
    {
      settings := SetBoundary(boundary, accepts);
      buf, bufSpos, bufEpos := [], 0, 0;
      state, isValid, file, events := InitialBoundary, false, NO_FILE_INFO, [];
    }

    // ----- The buffer -----

    function BufSize(): nat
      requires Valid()
      reads this
    {
      bufEpos - bufSpos
    }

    static method StartWith(a: seq<char>, spos: nat, epos: nat, b: string) returns (r: bool)
      requires spos <= epos <= |a|
      ensures r <==> Text.StartsWith(a[spos..epos], b)
    {
      if epos - spos < |b| { return false; }
      for i := 0 to |b|
        invariant a[spos..epos][..i] == b[..i]
      {
        if a[i + spos] != b[i] {
          assert a[spos..epos][..|b|][i] != b[i];
          return false;
        }
        assert a[spos..epos][..i + 1] == b[..i] + [b[i]];
      }
      assert b[..|b|] == b;
      return true;
    }

    method BufFind(s: string) returns (r: nat)
      requires Valid() && s != ""
      ensures r == Find(View(), s)
    {
      var c := s[0];
      var off := bufSpos;
      while off < bufEpos
        invariant bufSpos <= off <= bufEpos
        invariant forall j :: 0 <= j < off - bufSpos ==> !OccursAt(View(), j, s)
      {
        var pos := off;
        while true
          invariant off <= pos <= bufEpos
          invariant forall j :: 0 <= j < pos - bufSpos ==> !OccursAt(View(), j, s)
          decreases bufEpos - pos
        {
          if pos == bufEpos {
            FindIs(View(), s, |View()|);
            return BufSize();
          }
          if buf[pos] == c { break; }
          ghost var at := pos - bufSpos;
          assert at + |s| <= |View()| ==> View()[at..at + |s|][0] == buf[pos];
          pos := pos + 1;
        }
        var remainingSize := bufEpos - pos;
        if |s| > remainingSize {
          FindIs(View(), s, |View()|);
          return BufSize();
        }
        var here := StartWith(buf, pos, bufEpos, s);
        assert View()[pos - bufSpos..pos - bufSpos + |s|] == buf[pos..bufEpos][..|s|];
        if here {
          FindIs(View(), s, pos - bufSpos);
          return pos - bufSpos;
        }
        off := pos + 1;
      }
      FindIs(View(), s, |View()|);
      return BufSize();
    }

    /** The text still wanted is moved to the front, in place. */
    method BufShift()
      requires Valid()
      modifies this`buf, this`bufSpos, this`bufEpos
      ensures Valid() && bufSpos == 0 && View() == old(View())
    {
      ghost var view := View();
      var remainingSize := BufSize();
      if remainingSize > 0 && bufSpos > 0 {
        for i := 0 to remainingSize
          invariant |buf| == old(|buf|) && bufSpos == old(bufSpos)
          invariant forall k :: 0 <= k < i ==> buf[k] == view[k]
          invariant forall k :: i <= k < remainingSize ==> buf[bufSpos + k] == view[k]
        {
          buf := buf[i := buf[bufSpos + i]];
        }
      }
      bufSpos := 0;
      bufEpos := remainingSize;
    }

    /** The new data is put behind it, in a buffer grown when it is too small. */
    method BufAppend(data: string)
      requires Valid()
      modifies this`buf, this`bufSpos, this`bufEpos
      ensures Valid() && View() == old(View()) + data
    {
      BufShift();
      ghost var view := View();
      var remainingSize := bufEpos;
      if remainingSize + |data| > |buf| {
        buf := buf + seq(remainingSize + |data| - |buf|, _ => '\0');
      }
      for i := 0 to |data|
        invariant bufSpos == 0 && bufEpos == remainingSize && bufEpos + |data| <= |buf|
        invariant forall k :: 0 <= k < remainingSize ==> buf[k] == view[k]
        invariant forall k :: 0 <= k < i ==> buf[remainingSize + k] == data[k]
      {
        buf := buf[bufEpos + i := data[i]];
      }
      bufEpos := bufEpos + |data|;
    }

    method BufErase(size: nat)
      requires Valid() && size <= BufSize()
      modifies this`bufSpos
      ensures Valid() && View() == old(View())[size..]
    {
      bufSpos := bufSpos + size;
    }

    method BufStartWith(s: string) returns (r: bool)
      requires Valid()
      ensures r <==> Text.StartsWith(View(), s)
    {
      r := StartWith(buf, bufSpos, bufEpos, s);
    }

    // ----- Parsing -----

    /** A callback call. */
    method Call(e: Event) returns (ok: bool)
      requires Valid()
      modifies this`events, this`isValid
      ensures Valid() && (Abstraction(), ok) == Report(settings, old(Abstraction()), e)
    {
      events := events + [e];
      ok := settings.accepts(events);
      if !ok { isValid := false; }
    }

    /** A header line of `pos` characters. */
    method ReadLine(pos: nat)
      requires Valid() && pos + |CRLF| <= BufSize()
      modifies this`file, this`bufSpos
      ensures Valid() && Abstraction() == AfterLine(old(Abstraction()), pos)
    {
      var header := buf[bufSpos..bufSpos + pos];
      assert header == View()[..pos];
      file := ReadHeaderLine(file, header);
      BufErase(pos + |CRLF|);
    }

    /** The empty line; `ok` is the callback's answer. */
    method EndHeaders() returns (ok: bool)
      requires Valid() && state == Headers && Find(View(), CRLF) == 0 < BufSize()
      modifies this
      ensures Valid()
      ensures HeaderLines(settings, old(Abstraction()))
           == if ok then Goes(Abstraction()) else Stops(Abstraction(), false)
    {
      ok := Call(HeaderEvent(file));
      if ok {
        BufErase(|CRLF|);
        state := Body;
      }
    }

    /** The header lines of state 2; `goOn` says that the outer loop goes on. */
    method ParseHeaders() returns (goOn: bool, ok: bool)
      requires Valid() && state == Headers
      modifies this
      ensures Valid()
      ensures HeaderStep(settings, old(Abstraction())) == if goOn then Goes(Abstraction()) else Stops(Abstraction(), ok)
    {
      var pos := BufFind(CRLF);
      if pos > MAX_HEADER_LENGTH { return false, false; }
      ghost var start := Abstraction();
      while pos < BufSize()
        invariant Valid() && state == Headers && pos == Find(View(), CRLF)
        invariant HeaderLines(settings, Abstraction()) == HeaderLines(settings, start)
        decreases BufSize()
      {
        if pos == 0 {
          var accepted := EndHeaders();
          return accepted, false;
        }
        ghost var before := Abstraction();
        ReadLine(pos);
        assert HeaderLines(settings, before) == HeaderLines(settings, Abstraction());
        pos := BufFind(CRLF);
      }
      return false, true;
    }

    /** The content callback, with the first `len` characters. */
    method CallContent(len: nat) returns (ok: bool)
      requires Valid() && len <= BufSize()
      modifies this`events, this`isValid
      ensures Valid()
      ensures (Abstraction(), ok) == Report(settings, old(Abstraction()), ContentEvent(old(View())[..len]))
    {
      assert buf[bufSpos..bufSpos + len] == View()[..len];
      ok := Call(ContentEvent(buf[bufSpos..bufSpos + len]));
    }

    method ParseBody() returns (goOn: bool, ok: bool)
      requires Valid() && state == Body
      modifies this
      ensures Valid()
      ensures BodyStep(settings, old(Abstraction())) == if goOn then Goes(Abstraction()) else Stops(Abstraction(), ok)
    {
      if |settings.delimiter| > BufSize() { return false, true; }
      var pos := BufFind(settings.delimiter);
      if pos < BufSize() {
        var accepted := CallContent(pos);
        if !accepted { return false, false; }
        BufErase(pos + |settings.delimiter|);
        state := Boundary;
        return true, true;
      }
      var len := BufSize() - |settings.delimiter|;
      if len > 0 {
        var accepted := CallContent(len);
        if !accepted { return false, false; }
        BufErase(len);
      }
      return false, true;
    }

    /** What stands before the first delimiter line is erased. */
    method SkipPreamble()
      requires Valid()
      modifies this`bufSpos
      ensures Valid() && View() == old(View())[Find(old(View()), settings.opening)..]
    {
      var pos := BufFind(settings.opening);
      BufErase(pos);
    }

    method ParseInitial() returns (goOn: bool, ok: bool)
      requires Valid() && state == InitialBoundary
      modifies this
      ensures Valid()
      ensures InitialStep(settings, old(Abstraction()))
           == if goOn then Goes(Abstraction()) else Stops(Abstraction(), ok)
    {
      SkipPreamble();
      if |settings.opening| > BufSize() { return false, true; }
      var here := BufStartWith(settings.opening);
      if !here { return false, false; }
      BufErase(|settings.opening|);
      state := NewEntry;
      return true, true;
    }

    method ParseBoundary() returns (goOn: bool, ok: bool)
      requires Valid() && state == Boundary
      modifies this
      ensures Valid()
      ensures BoundaryStep(old(Abstraction())) == if goOn then Goes(Abstraction()) else Stops(Abstraction(), ok)
    {
      if |CRLF| > BufSize() { return false, true; }
      var here := BufStartWith(CRLF);
      if here {
        BufErase(|CRLF|);
        state := NewEntry;
        return true, true;
      }
      if |DASH_CRLF| > BufSize() { return false, true; }
      here := BufStartWith(DASH_CRLF);
      if here {
        BufErase(|DASH_CRLF|);
        isValid := true;
        BufErase(BufSize());
        return true, true;
      }
      return false, true;
    }

    /** One turn of the outer loop. */
    method Turn() returns (goOn: bool, ok: bool)
      requires Valid() && BufSize() > 0
      modifies this
      ensures Valid()
      ensures Step(settings, old(Abstraction())) == if goOn then Goes(Abstraction()) else Stops(Abstraction(), ok)
    {
      match state
      case InitialBoundary =>
        goOn, ok := ParseInitial();
      case NewEntry =>
        file := NO_FILE_INFO;
        state := Headers;
        goOn, ok := true, true;
      case Headers =>
        goOn, ok := ParseHeaders();
      case Body =>
        goOn, ok := ParseBody();
      case Boundary =>
        goOn, ok := ParseBoundary();
    }

    method Parse(data: string) returns (ok: bool)
      requires Valid()
      modifies this
      ensures Valid() && (Abstraction(), ok) == Multipart.Parse(settings, old(Abstraction()), data)
    {
      BufAppend(data);
      ghost var start := Abstraction();
      while BufSize() > 0
        invariant Valid()
        invariant Run(settings, Abstraction()) == Run(settings, start)
        decreases |Abstraction().rest|, if state.NewEntry? then 1 else 0
      {
        ghost var before := Abstraction();
        var goOn, result := Turn();
        assert Run(settings, before) == if goOn then Run(settings, Abstraction()) else (Abstraction(), result);
        if !goOn { return result; }
      }
      return true;
    }
  }
}
