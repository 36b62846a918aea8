/** Text that comes in calls of its own behind the closing delimiter: what is dropped, and what changes the parser. */
module MultipartEpilogue {
  import opened Text
  import opened Multipart

  /** Texts fed to a parser that has read its closing delimiter and holds `pending`: they are dropped when each time
      the held text grows to begin like a closing delimiter's end, or stays empty, and nothing is held at the end. */
  predicate Dropped(pending: string, chunks: seq<string>)
    decreases chunks
  {
    if chunks == [] then pending == ""
    else
      var text := pending + chunks[0];
      Dropped(if StartsWith(text, DASH_CRLF) then "" else text, chunks[1..])
  }

  lemma {:induction false} NothingIsDropped(chunks: seq<string>)
    requires Concat(chunks) == ""
    ensures Dropped("", chunks)
    decreases chunks
  {
    if chunks != [] {
      assert chunks[0] == "" && "" + chunks[0] == "";
      NothingIsDropped(chunks[1..]);
    }
  }

  /** Text that begins with anything but a dash is held for good. */
  lemma {:induction false} HeldForGood(text: string, chunks: seq<string>)
    requires text != "" && text[0] != '-'
    ensures !Dropped(text, chunks)
    decreases chunks
  {
    if chunks != [] {
      var more := text + chunks[0];
      assert more[0] == text[0];
      assert |more| >= 4 ==> more[..4][0] == more[0];
      HeldForGood(more, chunks[1..]);
    }
  }

  // ----- A part that was opened is collected -----

  /** The parser is in a new part, or has left it: once it is at a delimiter again, it has collected more than `n`
      parts. */
  predicate Reopened(p: Parser, n: nat) {
    && !p.phase.InitialBoundary?
    && |Collect(p.events)| >= n
    && (p.phase.Body? || p.phase.Boundary? ==> |Collect(p.events)| > n)
  }

  lemma ReportGrows(c: Config, p: Parser, e: Event)
    requires c.AcceptsAll()
    ensures var (q, ok) := Report(c, p, e);
            && ok && q == p.(events := p.events + [e])
            && |Collect(q.events)| == |Collect(p.events)| + if e.HeaderEvent? then 1 else 0
  {
    CollectLast(p.events, e);
  }

  lemma {:induction false} HeaderLinesReopen(c: Config, p: Parser, n: nat)
    requires c.AcceptsAll() && p.phase.Headers? && Reopened(p, n)
    ensures match HeaderLines(c, p)
            case Goes(q) => Reopened(q, n)
            case Stops(q, _) => Reopened(q, n)
    decreases |p.rest|
  {
    var pos := Find(p.rest, CRLF);
    if pos == 0 < |p.rest| {
      ReportGrows(c, p, HeaderEvent(p.file));
    } else if pos < |p.rest| {
      HeaderLinesReopen(c, AfterLine(p, pos), n);
    }
  }

  lemma BodyReopens(c: Config, p: Parser, n: nat)
    requires c.AcceptsAll() && p.phase.Body? && Reopened(p, n)
    ensures match BodyStep(c, p)
            case Goes(q) => Reopened(q, n)
            case Stops(q, _) => Reopened(q, n)
  {
    if |c.delimiter| <= |p.rest| {
      var pos, len := Find(p.rest, c.delimiter), |p.rest| - |c.delimiter|;
      if pos < |p.rest| {
        ReportGrows(c, p, ContentEvent(p.rest[..pos]));
      } else if len > 0 {
        ReportGrows(c, p, ContentEvent(p.rest[..len]));
      }
    }
  }

  lemma BoundaryReopens(p: Parser, n: nat)
    requires p.phase.Boundary? && Reopened(p, n)
    ensures match BoundaryStep(p)
            case Goes(q) => Reopened(q, n)
            case Stops(q, _) => Reopened(q, n)
  {
  }

  lemma StepReopens(c: Config, p: Parser, n: nat)
    requires c.AcceptsAll() && p.rest != "" && Reopened(p, n)
    ensures match Step(c, p)
            case Goes(q) => Reopened(q, n)
            case Stops(q, _) => Reopened(q, n)
  {
    match p.phase
    case NewEntry =>
    case Headers => HeaderLinesReopen(c, p, n);
    case Body => BodyReopens(c, p, n);
    case Boundary => BoundaryReopens(p, n);
  }

  lemma {:induction false} RunReopens(c: Config, p: Parser, n: nat)
    requires c.AcceptsAll() && Reopened(p, n)
    ensures Reopened(Run(c, p).0, n)
    decreases |p.rest|, if p.phase.NewEntry? then 1 else 0
  {
    if p.rest != "" {
      StepReopens(c, p, n);
      if Step(c, p).Goes? {
        RunReopens(c, Step(c, p).next, n);
      }
    }
  }

  lemma {:induction false} FeedReopens(c: Config, p: Parser, chunks: seq<string>, n: nat)
    requires c.AcceptsAll() && Reopened(p, n)
    ensures Reopened(Feed(c, p, chunks).0, n)
    decreases chunks
  {
    if chunks != [] {
      RunReopens(c, Append(p, chunks[0]), n);
      FeedReopens(c, Parse(c, p, chunks[0]).0, chunks[1..], n);
    }
  }

  // ----- What is dropped -----

  /** The parser has read the closing delimiter, and holds text that does not decide how to go on. */
  predicate Closed(p: Parser) {
    p.phase.Boundary? && p.valid && !StartsWith(p.rest, CRLF) && !StartsWith(p.rest, DASH_CRLF)
  }

  /** A call after the closing delimiter: the text opens a part, is dropped, or is held. */
  lemma ClosedParse(c: Config, p: Parser, data: string)
    requires Closed(p)
    ensures var text := p.rest + data;
            Parse(c, p, data) == (if StartsWith(text, CRLF) then Run(c, p.(phase := NewEntry, rest := text[2..]))
                                  else if StartsWith(text, DASH_CRLF) then (p.(rest := ""), true)
                                  else (p.(rest := text), true))
  {
    var q := Append(p, data);
    if q.rest != "" {
      if StartsWith(q.rest, CRLF) {
        assert Step(c, q) == Goes(p.(phase := NewEntry, rest := q.rest[2..]));
      } else if StartsWith(q.rest, DASH_CRLF) {
        assert Step(c, q) == Goes(p.(rest := "")) && Run(c, p.(rest := "")) == (p.(rest := ""), true);
      } else {
        assert Step(c, q) == Stops(q, true);
      }
    }
  }

  /** Calls after the closing delimiter leave the parser as it is exactly when their texts are dropped. */
  lemma {:induction false} EpilogueExactly(c: Config, p: Parser, chunks: seq<string>)
    requires c.AcceptsAll() && Closed(p)
    ensures Same(Feed(c, p, chunks).0, p.(rest := "")) <==> Dropped(p.rest, chunks)
    ensures Dropped(p.rest, chunks) ==> Feed(c, p, chunks).1
    decreases chunks
  {
    if chunks != [] {
      var text := p.rest + chunks[0];
      ClosedParse(c, p, chunks[0]);
      if StartsWith(text, CRLF) {
        assert text[..2][0] == text[0];
        HeldForGood(text, chunks[1..]);
        var n, again := |Collect(p.events)|, p.(phase := NewEntry, rest := text[2..]);
        RunReopens(c, again, n);
        FeedReopens(c, Run(c, again).0, chunks[1..], n);
        assert text[..2] == CRLF && (|text| >= 4 ==> text[..4][0] == text[0]);
      } else if StartsWith(text, DASH_CRLF) {
        EpilogueExactly(c, p.(rest := ""), chunks[1..]);
      } else {
        EpilogueExactly(c, p.(rest := text), chunks[1..]);
      }
    }
  }

  /** One call after the closing delimiter leaves the parser as it is exactly when its text is empty or begins like
      the end of a closing delimiter. */
  lemma EpilogueInOneCall(c: Config, p: Parser, later: string)
    requires c.AcceptsAll() && p.phase.Boundary? && p.valid && p.rest == ""
    ensures Same(Parse(c, p, later).0, p) <==> later == "" || StartsWith(later, DASH_CRLF)
  {
    EpilogueExactly(c, p, [later]);
    assert p.rest + later == later && [later][1..] == [];
    assert Feed(c, p, [later]).0 == Parse(c, p, later).0;
    assert p.(rest := "") == p;
  }

  /** So a line end, which is dropped in the call of the closing delimiter, opens a part in a call of its own. */
  lemma EpilogueReopens(c: Config, p: Parser, later: string)
    requires c.AcceptsAll() && p.phase.Boundary? && p.valid && p.rest == ""
    ensures Parse(c, p.(valid := false), DASH_CRLF + (CRLF + later)) == (p, true)
    ensures !Same(Parse(c, p, CRLF + later).0, p)
    ensures Parse(c, p, CRLF) == (p.(phase := NewEntry), true)
  {
    var once := Append(p.(valid := false), DASH_CRLF + (CRLF + later));
    assert once.rest == DASH_CRLF + (CRLF + later);
    assert once.rest[..2][0] != CRLF[0] && once.rest[..4] == DASH_CRLF;
    assert Step(c, once) == Goes(p) && Run(c, p) == (p, true);
    EpilogueInOneCall(c, p, CRLF + later);
    assert (CRLF + later)[0] != DASH_CRLF[0];
    assert |CRLF + later| >= 4 ==> (CRLF + later)[..4][0] == '\r';
    ClosedParse(c, p, CRLF);
    assert p.rest + CRLF == CRLF && CRLF[..2] == CRLF && CRLF[2..] == "";
  }
}
