/** Cutting the input of the multipart parser into calls does not change what it reports. */
module MultipartChunking {
  import opened Text
  import opened Multipart
  import opened MultipartEpilogue

  /** Content reported in two pieces is collected like content reported in one. */
  lemma CollectPieces(events: seq<Event>, a: string, b: string)
    ensures Collect(events + [ContentEvent(a)] + [ContentEvent(b)]) == Collect(events + [ContentEvent(a + b)])
  {
    CollectLast(events, ContentEvent(a));
    CollectLast(events + [ContentEvent(a)], ContentEvent(b));
    CollectLast(events, ContentEvent(a + b));
    var parts := Collect(events);
    if parts != [] {
      assert parts[|parts| - 1].content + a + b == parts[|parts| - 1].content + (a + b);
    }
  }

  // ----- The parser does not look back at its events -----

  predicate SameOutcome(o: Outcome, u: Outcome) {
    match o
    case Goes(p) => u.Goes? && Same(p, u.next)
    case Stops(p, ok) => u.Stops? && Same(p, u.last) && ok == u.ok
  }

  lemma {:induction false} HeaderLinesSame(c: Config, p: Parser, q: Parser)
    requires c.AcceptsAll() && Same(p, q)
    ensures SameOutcome(HeaderLines(c, p), HeaderLines(c, q))
    decreases |p.rest|
  {
    var pos := Find(p.rest, CRLF);
    if pos >= |p.rest| {
    } else if pos == 0 {
      ReportSame(c, p, q, HeaderEvent(p.file));
    } else {
      HeaderLinesSame(c, AfterLine(p, pos), AfterLine(q, pos));
    }
  }

  lemma ReportSame(c: Config, p: Parser, q: Parser, e: Event)
    requires c.AcceptsAll() && Same(p, q)
    ensures Report(c, p, e).1 && Report(c, q, e).1 && Same(Report(c, p, e).0, Report(c, q, e).0)
  {
    CollectLast(p.events, e);
    CollectLast(q.events, e);
  }

  lemma BodyFoundSame(c: Config, p: Parser, q: Parser)
    requires c.AcceptsAll() && Same(p, q) && |c.delimiter| <= |p.rest| && Find(p.rest, c.delimiter) < |p.rest|
    ensures SameOutcome(BodyStep(c, p), BodyStep(c, q))
  {
    ReportSame(c, p, q, ContentEvent(p.rest[..Find(p.rest, c.delimiter)]));
  }

  lemma BodyNotFound(c: Config, p: Parser)
    requires c.AcceptsAll() && |c.delimiter| < |p.rest| && Find(p.rest, c.delimiter) == |p.rest|
    ensures var len := |p.rest| - |c.delimiter|;
            BodyStep(c, p) == Stops(Report(c, p, ContentEvent(p.rest[..len])).0.(rest := p.rest[len..]), true)
  {
  }

  lemma ContentSame(c: Config, p: Parser, q: Parser, data: string, rest: string)
    requires c.AcceptsAll() && Same(p, q)
    ensures Same(Report(c, p, ContentEvent(data)).0.(rest := rest), Report(c, q, ContentEvent(data)).0.(rest := rest))
  {
    ReportSame(c, p, q, ContentEvent(data));
  }

  lemma BodyNotFoundSame(c: Config, p: Parser, q: Parser)
    requires c.AcceptsAll() && Same(p, q) && |c.delimiter| <= |p.rest| && Find(p.rest, c.delimiter) == |p.rest|
    ensures SameOutcome(BodyStep(c, p), BodyStep(c, q))
  {
    var len := |p.rest| - |c.delimiter|;
    if len > 0 {
      ContentSame(c, p, q, p.rest[..len], p.rest[len..]);
      BodyNotFound(c, p);
      BodyNotFound(c, q);
    }
  }

  lemma BodyStepSame(c: Config, p: Parser, q: Parser)
    requires c.AcceptsAll() && Same(p, q)
    ensures SameOutcome(BodyStep(c, p), BodyStep(c, q))
  {
    if |c.delimiter| <= |p.rest| {
      if Find(p.rest, c.delimiter) < |p.rest| {
        BodyFoundSame(c, p, q);
      } else {
        BodyNotFoundSame(c, p, q);
      }
    }
  }

  lemma InitialStepSame(c: Config, p: Parser, q: Parser)
    requires Same(p, q)
    ensures SameOutcome(InitialStep(c, p), InitialStep(c, q))
  {
  }

  lemma HeaderStepSame(c: Config, p: Parser, q: Parser)
    requires c.AcceptsAll() && Same(p, q)
    ensures SameOutcome(HeaderStep(c, p), HeaderStep(c, q))
  {
    HeaderLinesSame(c, p, q);
  }

  lemma BoundaryStepSame(p: Parser, q: Parser)
    requires Same(p, q)
    ensures SameOutcome(BoundaryStep(p), BoundaryStep(q))
  {
  }

  lemma StepSame(c: Config, p: Parser, q: Parser)
    requires c.AcceptsAll() && Same(p, q) && p.rest != ""
    ensures SameOutcome(Step(c, p), Step(c, q))
  {
    match p.phase
    case InitialBoundary => InitialStepSame(c, p, q);
    case NewEntry =>
    case Headers => HeaderStepSame(c, p, q);
    case Body => BodyStepSame(c, p, q);
    case Boundary => BoundaryStepSame(p, q);
  }

  lemma {:induction false} RunSame(c: Config, p: Parser, q: Parser)
    requires c.AcceptsAll() && Same(p, q)
    ensures Same(Run(c, p).0, Run(c, q).0) && Run(c, p).1 == Run(c, q).1
    decreases |p.rest|, if p.phase.NewEntry? then 1 else 0
  {
    if p.rest != "" {
      StepSame(c, p, q);
      if Step(c, p).Goes? {
        RunSame(c, Step(c, p).next, Step(c, q).next);
      }
    }
  }

  // ----- Two calls against one -----

  /** The first delimiter line is not cut in two: it is there already, or it starts after the cut. */
  predicate OpeningUncut(c: Config, p: Parser, data: string) {
    p.phase.InitialBoundary? ==>
      Find(p.rest, c.opening) < |p.rest| || Find(p.rest + data, c.opening) >= |p.rest|
  }

  /** The header line that is pending, as far as it is known, passes the length check of the next call. */
  predicate PendingLineFits(p: Parser, data: string) {
    p.phase.Headers? && p.rest + data != "" ==> Find(p.rest + data, CRLF) <= MAX_HEADER_LENGTH
  }

  lemma {:induction false} HeaderLinesAppend(c: Config, p: Parser, data: string)
    requires c.AcceptsAll()
    ensures match HeaderLines(c, p)
            case Goes(q) => HeaderLines(c, Append(p, data)) == Goes(Append(q, data))
            case Stops(q, ok) =>
              && ok && q.phase == p.phase && q.valid == p.valid
              && HeaderLines(c, Append(p, data)) == HeaderLines(c, Append(q, data))
    decreases |p.rest|
  {
    var pos := Find(p.rest, CRLF);
    if pos < |p.rest| {
      FindInPrefix(p.rest, data, CRLF);
      CutOfAppended(p.rest, data, pos);
      CutOfAppended(p.rest, data, pos + |CRLF|);
      if pos > 0 {
        assert AfterLine(Append(p, data), pos) == Append(AfterLine(p, pos), data);
        HeaderLinesAppend(c, AfterLine(p, pos), data);
      }
    }
  }

  lemma InitialAppendGoes(c: Config, p: Parser, data: string)
    requires InitialStep(c, p).Goes?
    ensures InitialStep(c, Append(p, data)) == Goes(Append(InitialStep(c, p).next, data))
  {
    var pos := Find(p.rest, c.opening);
    FindInPrefix(p.rest, data, c.opening);
    CutOfAppended(p.rest, data, pos);
    CutOfAppended(p.rest[pos..], data, |c.opening|);
  }

  lemma BodyAppendGoes(c: Config, p: Parser, data: string)
    requires c.AcceptsAll() && BodyStep(c, p).Goes?
    ensures BodyStep(c, Append(p, data)) == Goes(Append(BodyStep(c, p).next, data))
  {
    var pos := Find(p.rest, c.delimiter);
    FindInPrefix(p.rest, data, c.delimiter);
    CutOfAppended(p.rest, data, pos);
    CutOfAppended(p.rest, data, pos + |c.delimiter|);
  }

  lemma BoundaryAppendGoes(p: Parser, data: string)
    requires !p.valid && BoundaryStep(p).Goes?
    ensures var q := BoundaryStep(p).next;
            if q.valid then BoundaryStep(Append(p, data)) == Goes(q) && q.rest == ""
            else BoundaryStep(Append(p, data)) == Goes(Append(q, data))
  {
    CutOfAppended(p.rest, data, |CRLF|);
    if !StartsWith(p.rest, CRLF) {
      CutOfAppended(p.rest, data, |DASH_CRLF|);
    }
  }

  /** A turn of the loop that goes on does so in the same way when more text follows, except that the closing
      delimiter drops that text. */
  lemma StepAppendGoes(c: Config, p: Parser, data: string)
    requires c.AcceptsAll() && p.rest != "" && !p.valid && Step(c, p).Goes?
    ensures var q := Step(c, p).next;
            if q.valid then Step(c, Append(p, data)) == Goes(q) && q.rest == ""
            else Step(c, Append(p, data)) == Goes(Append(q, data))
  {
    match p.phase
    case InitialBoundary => InitialAppendGoes(c, p, data);
    case NewEntry =>
    case Headers =>
      HeaderLinesAppend(c, p, data);
      FindInPrefix(p.rest, data, CRLF);
    case Body => BodyAppendGoes(c, p, data);
    case Boundary => BoundaryAppendGoes(p, data);
  }

  /** Reporting the front `len` characters of the body first and then the front of what is left, against
      reporting both at once. */
  lemma ReportPieces(c: Config, p: Parser, whole: string, len: nat, more: nat)
    requires c.AcceptsAll() && len + more <= |whole|
    ensures var q := Report(c, p, ContentEvent(whole[..len])).0;
            var split := if more == 0 then q else Report(c, q, ContentEvent(whole[len..][..more])).0;
            Same(split, Report(c, p, ContentEvent(whole[..len + more])).0)
    ensures var q := Report(c, p, ContentEvent(whole[..len])).0;
            Same(Report(c, q, ContentEvent(whole[len..][..more])).0, Report(c, p, ContentEvent(whole[..len + more])).0)
  {
    var first, second := whole[..len], whole[len..][..more];
    assert first + second == whole[..len + more];
    CollectPieces(p.events, first, second);
  }

  lemma BodyCutFound(c: Config, p: Parser, q: Parser, whole: string, len: nat)
    requires c.AcceptsAll() && p.rest == whole
    requires |c.delimiter| <= |whole| - len && len <= Find(whole, c.delimiter) < |whole|
    requires q == Report(c, p, ContentEvent(whole[..len])).0.(rest := whole[len..])
    ensures SameOutcome(BodyStep(c, q), BodyStep(c, p))
  {
    var pos := Find(whole, c.delimiter);
    FindInSuffix(whole, len, c.delimiter);
    ReportPieces(c, p, whole, len, pos - len);
    assert whole[len..][pos - len + |c.delimiter|..] == whole[pos + |c.delimiter|..];
  }

  lemma BodyCutNotFound(c: Config, p: Parser, q: Parser, whole: string, len: nat)
    requires c.AcceptsAll() && p.rest == whole
    requires 0 < len && |c.delimiter| <= |whole| - len && Find(whole, c.delimiter) == |whole|
    requires q == Report(c, p, ContentEvent(whole[..len])).0.(rest := whole[len..])
    ensures SameOutcome(BodyStep(c, q), BodyStep(c, p))
  {
    FindInSuffix(whole, len, c.delimiter);
    var more := |whole| - len - |c.delimiter|;
    ReportPieces(c, p, whole, len, more);
    assert whole[len..][more..] == whole[len + more..];
  }

  /** The body text kept back when no delimiter was found is enough to find one that the next text completes:
      reporting the front `len` characters first changes only how the content is cut. */
  lemma BodyCut(c: Config, p: Parser, whole: string, len: nat)
    requires c.AcceptsAll() && p.rest == whole
    requires 0 < len && len + |c.delimiter| <= |whole| && len <= Find(whole, c.delimiter)
    ensures var q := Report(c, p, ContentEvent(whole[..len])).0.(rest := whole[len..]);
            SameOutcome(BodyStep(c, q), BodyStep(c, p))
  {
    var q := Report(c, p, ContentEvent(whole[..len])).0.(rest := whole[len..]);
    if Find(whole, c.delimiter) < |whole| {
      BodyCutFound(c, p, q, whole, len);
    } else {
      BodyCutNotFound(c, p, q, whole, len);
    }
  }

  lemma BodyAppendStops(c: Config, p: Parser, data: string)
    requires c.AcceptsAll() && p.rest != "" && BodyStep(c, p).Stops?
    ensures var q := BodyStep(c, p).last;
            && BodyStep(c, p).ok && q.phase == p.phase && q.valid == p.valid && q.rest != ""
            && SameOutcome(BodyStep(c, Append(q, data)), BodyStep(c, Append(p, data)))
  {
    var len := |p.rest| - |c.delimiter|;
    if len > 0 {
      FindInPrefix(p.rest, data, c.delimiter);
      CutOfAppended(p.rest, data, len);
      BodyCut(c, Append(p, data), p.rest + data, len);
    } else {
      BodyStepSame(c, Append(p, data), Append(p, data));
    }
  }

  /** What stands before the first delimiter line does not matter. */
  lemma InitialSkips(c: Config, p: Parser, q: Parser, k: nat)
    requires k <= Find(p.rest, c.opening) && q == p.(rest := p.rest[k..])
    ensures InitialStep(c, p) == InitialStep(c, q)
  {
    FindInSuffix(p.rest, k, c.opening);
    assert p.rest[Find(p.rest, c.opening)..] == q.rest[Find(q.rest, c.opening)..];
  }

  /** Text without the first delimiter line is dropped as a whole. */
  lemma InitialCut(c: Config, p: Parser, data: string)
    requires p.phase.InitialBoundary? && InitialStep(c, p).Stops? && OpeningUncut(c, p, data)
    ensures var q := InitialStep(c, p).last;
            && InitialStep(c, p).ok && q.phase == p.phase && q.valid == p.valid && q.rest == ""
            && InitialStep(c, Append(p, data)) == InitialStep(c, Append(q, data))
  {
    FindIsFirst(p.rest, c.opening);
    var q := InitialStep(c, p).last;
    assert q == p.(rest := "");
    CutOfAppended(p.rest, data, |p.rest|);
    assert p.rest[|p.rest|..] + data == "" + data == data;
    InitialSkips(c, Append(p, data), Append(q, data), |p.rest|);
  }

  /** Header lines are dropped one by one. */
  lemma HeadersCut(c: Config, p: Parser, data: string)
    requires c.AcceptsAll() && p.phase.Headers? && p.rest != "" && Step(c, p).Stops? && Step(c, p).ok
    requires Step(c, p).last.rest + data != "" && PendingLineFits(Step(c, p).last, data)
    ensures var q := Step(c, p).last;
            && q.phase == p.phase && q.valid == p.valid
            && Step(c, Append(q, data)) == Step(c, Append(p, data))
  {
    HeaderLinesAppend(c, p, data);
    FindInPrefix(p.rest, data, CRLF);
  }

  /** What the next turns make of two parsers is the same if the next turn of both is. */
  lemma RunSameStep(c: Config, p: Parser, q: Parser)
    requires c.AcceptsAll() && p.rest != "" && q.rest != "" && SameOutcome(Step(c, q), Step(c, p))
    ensures Same(Run(c, q).0, Run(c, p).0) && Run(c, q).1 == Run(c, p).1
  {
    if Step(c, q).Goes? {
      RunSame(c, Step(c, q).next, Step(c, p).next);
    }
  }

  lemma InitialStops(c: Config, p: Parser, data: string)
    requires p.phase.InitialBoundary? && p.rest != "" && Step(c, p).Stops? && OpeningUncut(c, p, data)
    ensures Run(c, Append(Step(c, p).last, data)) == Run(c, Append(p, data))
  {
    InitialCut(c, p, data);
    var q := Step(c, p).last;
    assert Append(q, data).rest == data;
    if data == "" {
      assert Append(p, data) == p;
    }
  }

  lemma HeadersStops(c: Config, p: Parser, data: string)
    requires c.AcceptsAll() && p.phase.Headers? && p.rest != "" && Step(c, p).Stops? && Step(c, p).ok
    requires PendingLineFits(Step(c, p).last, data)
    ensures Run(c, Append(Step(c, p).last, data)) == Run(c, Append(p, data))
  {
    var q := Step(c, p).last;
    if q.rest + data == "" {
      assert Append(p, data) == p && Append(q, data) == q;
    } else {
      HeadersCut(c, p, data);
    }
  }

  lemma BodyStops(c: Config, p: Parser, data: string)
    requires c.AcceptsAll() && p.phase.Body? && p.rest != "" && Step(c, p).Stops? && Step(c, p).ok
    ensures var q := Step(c, p).last;
            && Same(Run(c, Append(q, data)).0, Run(c, Append(p, data)).0)
            && Run(c, Append(q, data)).1 == Run(c, Append(p, data)).1
  {
    BodyAppendStops(c, p, data);
    RunSameStep(c, Append(p, data), Append(Step(c, p).last, data));
  }

  /** A turn of the loop that stops for want of text loses nothing. */
  lemma StepAppendStops(c: Config, p: Parser, data: string)
    requires c.AcceptsAll() && p.rest != "" && !p.valid && OpeningUncut(c, p, data)
    requires Step(c, p).Stops? && Step(c, p).ok
    requires PendingLineFits(Step(c, p).last, data)
    ensures var q := Step(c, p).last;
            && Same(Run(c, Append(q, data)).0, Run(c, Append(p, data)).0)
            && Run(c, Append(q, data)).1 == Run(c, Append(p, data)).1
  {
    match p.phase
    case InitialBoundary => InitialStops(c, p, data);
    case Headers => HeadersStops(c, p, data);
    case Body => BodyStops(c, p, data);
    case Boundary => assert Step(c, p).last == p;
  }

  // ----- How a run can end -----

  lemma HeaderLinesAccepted(c: Config, p: Parser)
    requires c.AcceptsAll()
    ensures match HeaderLines(c, p)
            case Goes(q) => !q.phase.InitialBoundary?
            case Stops(q, ok) => ok && q.phase == p.phase && q.valid == p.valid
    decreases |p.rest|
  {
  }

  /** How a turn can end the loop, or where it can lead. */
  predicate Ends(c: Config, p: Parser, o: Outcome) {
    match o
    case Stops(q, ok) =>
      && (!ok ==> q.phase.Headers? && q.rest != "" && Find(q.rest, CRLF) > MAX_HEADER_LENGTH)
      && !q.valid && q.phase == p.phase
      && (q.phase.InitialBoundary? ==> q.rest == "" && Find(p.rest, c.opening) == |p.rest|)
    case Goes(q) =>
      (q.valid ==> q.phase.Boundary? && q.rest == "") && !q.phase.InitialBoundary?
  }

  lemma InitialEnds(c: Config, p: Parser)
    requires p.phase.InitialBoundary? && !p.valid && p.rest != ""
    ensures Ends(c, p, InitialStep(c, p))
  {
    FindIsFirst(p.rest, c.opening);
  }

  lemma HeaderEnds(c: Config, p: Parser)
    requires c.AcceptsAll() && p.phase.Headers? && !p.valid && p.rest != ""
    ensures Ends(c, p, HeaderStep(c, p))
  {
    HeaderLinesAccepted(c, p);
  }

  lemma BodyEnds(c: Config, p: Parser)
    requires c.AcceptsAll() && p.phase.Body? && !p.valid && p.rest != ""
    ensures Ends(c, p, BodyStep(c, p))
  {
  }

  lemma BoundaryEnds(c: Config, p: Parser)
    requires p.phase.Boundary? && !p.valid
    ensures Ends(c, p, BoundaryStep(p))
  {
  }

  lemma StepEnds(c: Config, p: Parser)
    requires c.AcceptsAll() && !p.valid && p.rest != ""
    ensures Ends(c, p, Step(c, p))
  {
    match p.phase
    case InitialBoundary => InitialEnds(c, p);
    case NewEntry =>
    case Headers => HeaderEnds(c, p);
    case Body => BodyEnds(c, p);
    case Boundary => BoundaryEnds(c, p);
  }

  /** When no callback refuses, `parse` returns false only for a header line over the limit; it has become
      valid only if the closing delimiter has been read, and then it holds no text; and it never waits for the
      first delimiter line again. */
  lemma {:induction false} RunEnds(c: Config, p: Parser)
    requires c.AcceptsAll() && !p.valid
    ensures var (q, ok) := Run(c, p);
            && (!ok ==> q.phase.Headers? && q.rest != "" && Find(q.rest, CRLF) > MAX_HEADER_LENGTH)
            && (q.valid ==> ok && q.phase.Boundary? && q.rest == "")
            && (q.phase.InitialBoundary? ==> p.phase.InitialBoundary? && q.rest == "")
            && (p.phase.InitialBoundary? && Find(p.rest, c.opening) < |p.rest| ==> !q.phase.InitialBoundary?)
    decreases |p.rest|, if p.phase.NewEntry? then 1 else 0
  {
    if p.rest != "" {
      StepEnds(c, p);
      if Step(c, p).Goes? && !Step(c, p).next.valid {
        RunEnds(c, Step(c, p).next);
      }
    }
  }

  /** Two calls of the loop against one. `q` is where the first call stops. */
  lemma {:induction false} RunAppend(c: Config, p: Parser, data: string)
    requires c.AcceptsAll() && !p.valid && OpeningUncut(c, p, data)
    requires var (q, ok) := Run(c, p); ok && !q.valid && PendingLineFits(q, data)
    ensures var q := Run(c, p).0;
            && Same(Run(c, Append(q, data)).0, Run(c, Append(p, data)).0)
            && Run(c, Append(q, data)).1 == Run(c, Append(p, data)).1
    decreases |p.rest|, if p.phase.NewEntry? then 1 else 0
  {
    if p.rest != "" {
      match Step(c, p)
      case Stops(_, _) =>
        StepAppendStops(c, p, data);
      case Goes(next) =>
        StepAppendGoes(c, p, data);
        StepEnds(c, p);
        RunAppend(c, next, data);
    }
  }

  lemma OverlongLineFails(c: Config, p: Parser)
    requires p.phase.Headers? && p.rest != "" && Find(p.rest, CRLF) > MAX_HEADER_LENGTH
    ensures Run(c, p) == (p, false)
  {
  }

  // ----- Any number of calls against one -----

  /** `OpeningUncut` at every cut. */
  predicate OpeningUncutIn(c: Config, p: Parser, chunks: seq<string>)
    decreases chunks
  {
    chunks == [] ||
    (&& OpeningUncut(c, Append(p, chunks[0]), Concat(chunks[1..]))
     && OpeningUncutIn(c, Parse(c, p, chunks[0]).0, chunks[1..]))
  }

  /** What is fed once the closing delimiter has been read is dropped. */
  predicate EpilogueDropped(c: Config, p: Parser, chunks: seq<string>)
    decreases chunks
  {
    chunks == [] ||
    (var q := Parse(c, p, chunks[0]).0;
     if q.valid then Dropped(q.rest, chunks[1..]) else EpilogueDropped(c, q, chunks[1..]))
  }

  lemma {:induction false} ClosedAppend(c: Config, p: Parser, data: string)
    requires c.AcceptsAll() && !p.valid && Run(c, p).0.valid
    ensures Run(c, Append(p, data)) == Run(c, p)
    decreases |p.rest|, if p.phase.NewEntry? then 1 else 0
  {
    StepEnds(c, p);
    StepAppendGoes(c, p, data);
    if !Step(c, p).next.valid {
      ClosedAppend(c, Step(c, p).next, data);
    }
  }

  /** Two calls against one, exactly. Once the closing delimiter has been read, one call drops the later text. Before
      that the second call goes on as one call on both texts, unless the header line that is pending is over the
      limit; then it fails. */
  lemma TwoCalls(c: Config, p: Parser, chunk: string, later: string)
    requires c.AcceptsAll() && !p.valid && OpeningUncut(c, Append(p, chunk), later) && Parse(c, p, chunk).1
    ensures var q := Parse(c, p, chunk).0;
            if q.valid then Parse(c, p, chunk + later) == (q, true)
            else if PendingLineFits(q, later) then
              && Same(Parse(c, q, later).0, Parse(c, p, chunk + later).0)
              && Parse(c, q, later).1 == Parse(c, p, chunk + later).1
            else Parse(c, q, later) == (Append(q, later), false)
  {
    var q := Parse(c, p, chunk).0;
    AppendTwice(p, chunk, later);
    if q.valid {
      ClosedAppend(c, Append(p, chunk), later);
    } else if PendingLineFits(q, later) {
      RunAppend(c, Append(p, chunk), later);
    } else {
      OverlongLineFails(c, Append(q, later));
    }
  }

  lemma AppendTwice(p: Parser, a: string, b: string)
    ensures Append(Append(p, a), b) == Append(p, a + b)
  {
    Associates(p.rest, a, b);
  }

  /** Chunk independence: however the input is cut into calls that succeed, the parser ends in the state one
      call on the whole input ends in, having reported the same parts, exactly when what is fed behind the closing
      delimiter is dropped. */
  lemma {:induction false} ChunkIndependence(c: Config, p: Parser, chunks: seq<string>)
    requires c.AcceptsAll() && !p.valid && chunks != []
    requires OpeningUncutIn(c, p, chunks) && Feed(c, p, chunks).1
    ensures Parse(c, p, Concat(chunks)).1
    ensures Same(Feed(c, p, chunks).0, Parse(c, p, Concat(chunks)).0) <==> EpilogueDropped(c, p, chunks)
    decreases chunks
  {
    var q, later := Parse(c, p, chunks[0]).0, Concat(chunks[1..]);
    RunEnds(c, Append(p, chunks[0]));
    TwoCalls(c, p, chunks[0], later);
    if q.valid {
      EpilogueExactly(c, q, chunks[1..]);
    } else if chunks[1..] == [] {
      assert Append(p, chunks[0] + "") == Append(p, chunks[0]);
    } else {
      ChunkIndependence(c, q, chunks[1..]);
      SucceedingLineFits(c, q, later);
    }
  }

  lemma SucceedingLineFits(c: Config, q: Parser, data: string)
    requires Parse(c, q, data).1
    ensures PendingLineFits(q, data)
  {
    if !PendingLineFits(q, data) {
      OverlongLineFails(c, Append(q, data));
    }
  }

  // ----- Input on which every cut succeeds -----

  predicate LinesFit(p: Parser)
    decreases |p.rest|
  {
    var pos := Find(p.rest, CRLF);
    && pos < MAX_HEADER_LENGTH
    && (0 < pos < |p.rest| ==> LinesFit(AfterLine(p, pos)))
  }

  /** Along the run every header line is under the limit, and the closing delimiter ends the text. */
  predicate Tidy(c: Config, p: Parser)
    decreases |p.rest|, if p.phase.NewEntry? then 1 else 0
  {
    p.rest != "" ==>
      && (p.phase.Headers? ==> LinesFit(p))
      && (p.phase.Boundary? && StartsWith(p.rest, DASH_CRLF) ==> p.rest == DASH_CRLF)
      && (Step(c, p).Goes? ==> Tidy(c, Step(c, p).next))
  }

  lemma {:induction false} LinesFitSame(p: Parser, q: Parser)
    requires p.rest == q.rest && LinesFit(p)
    ensures LinesFit(q)
    decreases |p.rest|
  {
    var pos := Find(p.rest, CRLF);
    if 0 < pos < |p.rest| {
      LinesFitSame(AfterLine(p, pos), AfterLine(q, pos));
    }
  }

  lemma {:induction false} TidySame(c: Config, p: Parser, q: Parser)
    requires c.AcceptsAll() && Same(p, q) && Tidy(c, p)
    ensures Tidy(c, q)
    decreases |p.rest|, if p.phase.NewEntry? then 1 else 0
  {
    if p.rest != "" {
      if p.phase.Headers? {
        LinesFitSame(p, q);
      }
      StepSame(c, p, q);
      if Step(c, p).Goes? {
        TidySame(c, Step(c, p).next, Step(c, q).next);
      }
    }
  }

  lemma {:induction false} LinesFitCut(c: Config, p: Parser, data: string)
    requires c.AcceptsAll() && LinesFit(Append(p, data))
    ensures Find(p.rest, CRLF) <= MAX_HEADER_LENGTH
    ensures HeaderLines(c, p).Stops? ==> LinesFit(Append(HeaderLines(c, p).last, data))
    decreases |p.rest|
  {
    var pos := Find(p.rest, CRLF);
    FindInPrefix(p.rest, data, CRLF);
    if 0 < pos < |p.rest| {
      CutOfAppended(p.rest, data, pos);
      CutOfAppended(p.rest, data, pos + |CRLF|);
      assert AfterLine(Append(p, data), pos) == Append(AfterLine(p, pos), data);
      LinesFitCut(c, AfterLine(p, pos), data);
    }
  }

  /** A parser whose next turn does what that of a tidy one does is tidy. */
  lemma TidyStep(c: Config, p: Parser, q: Parser)
    requires c.AcceptsAll() && Tidy(c, p) && p.rest != "" && p.phase == q.phase && !p.phase.Boundary?
    requires q.rest != "" ==> SameOutcome(Step(c, q), Step(c, p)) && (q.phase.Headers? ==> LinesFit(q))
    ensures Tidy(c, q)
  {
    if q.rest != "" && Step(c, q).Goes? {
      TidySame(c, Step(c, p).next, Step(c, q).next);
    }
  }

  lemma TidyCutInitial(c: Config, p: Parser, data: string)
    requires c.AcceptsAll() && p.phase.InitialBoundary? && p.rest != "" && OpeningUncut(c, p, data) && Step(c, p).Stops?
    requires Tidy(c, Append(p, data))
    ensures Step(c, p).ok && Tidy(c, Append(Step(c, p).last, data))
  {
    InitialCut(c, p, data);
    SameAsItself(InitialStep(c, Append(p, data)));
    TidyStep(c, Append(p, data), Append(Step(c, p).last, data));
  }

  lemma SameAsItself(o: Outcome)
    ensures SameOutcome(o, o)
  {
  }

  lemma TidyCutHeaders(c: Config, p: Parser, data: string)
    requires c.AcceptsAll() && p.phase.Headers? && p.rest != "" && Step(c, p).Stops?
    requires Tidy(c, Append(p, data))
    ensures Step(c, p).ok && PendingLineFits(Step(c, p).last, data) && Tidy(c, Append(Step(c, p).last, data))
  {
    LinesFitCut(c, p, data);
    HeaderLinesAccepted(c, p);
    var q := Step(c, p).last;
    if q.rest + data != "" {
      HeadersCut(c, p, data);
      SameAsItself(Step(c, Append(p, data)));
    }
    TidyStep(c, Append(p, data), Append(q, data));
  }

  lemma TidyCutBody(c: Config, p: Parser, data: string)
    requires c.AcceptsAll() && p.phase.Body? && p.rest != "" && Step(c, p).Stops?
    requires Tidy(c, Append(p, data))
    ensures Step(c, p).ok && Tidy(c, Append(Step(c, p).last, data))
  {
    BodyAppendStops(c, p, data);
    TidyStep(c, Append(p, data), Append(Step(c, p).last, data));
  }

  lemma TidyCutStops(c: Config, p: Parser, data: string)
    requires c.AcceptsAll() && !p.valid && p.rest != "" && OpeningUncut(c, p, data) && Step(c, p).Stops?
    requires Tidy(c, Append(p, data))
    ensures var q := Step(c, p).last;
            Step(c, p).ok && PendingLineFits(q, data) && !q.valid && Tidy(c, Append(q, data))
  {
    StepEnds(c, p);
    match p.phase
    case InitialBoundary => TidyCutInitial(c, p, data);
    case NewEntry =>
    case Headers => TidyCutHeaders(c, p, data);
    case Body => TidyCutBody(c, p, data);
    case Boundary => assert Step(c, p).last == p;
  }

  lemma {:induction false} TidyCut(c: Config, p: Parser, data: string)
    requires c.AcceptsAll() && !p.valid && OpeningUncut(c, p, data)
    requires Tidy(c, Append(p, data))
    ensures var (q, ok) := Run(c, p);
            && ok && PendingLineFits(q, data)
            && if q.valid then data == "" else Tidy(c, Append(q, data))
    decreases |p.rest|, if p.phase.NewEntry? then 1 else 0
  {
    if p.rest == "" {
      assert Append(p, data).rest == data;
    } else {
      match Step(c, p)
      case Stops(_, _) =>
        TidyCutStops(c, p, data);
      case Goes(next) =>
        StepAppendGoes(c, p, data);
        if next.valid {
          CutOfAppended(p.rest, data, |DASH_CRLF|);
          assert p.rest + data == DASH_CRLF;
        } else {
          TidyCut(c, next, data);
        }
    }
  }

  lemma TidyFirst(c: Config, p: Parser, chunk: string, later: string)
    requires c.AcceptsAll() && !p.valid && OpeningUncut(c, Append(p, chunk), later)
    requires Tidy(c, Append(p, chunk + later))
    ensures var (q, ok) := Parse(c, p, chunk);
            ok && if q.valid then q.phase.Boundary? && q.rest == later == "" else Tidy(c, Append(q, later))
  {
    AppendTwice(p, chunk, later);
    TidyCut(c, Append(p, chunk), later);
    RunEnds(c, Append(p, chunk));
  }

  /** On tidy input every way of cutting gives what one call gives. */
  lemma {:induction false} TidyFeed(c: Config, p: Parser, chunks: seq<string>)
    requires c.AcceptsAll() && !p.valid && chunks != []
    requires OpeningUncutIn(c, p, chunks) && Tidy(c, Append(p, Concat(chunks)))
    ensures EpilogueDropped(c, p, chunks) && Feed(c, p, chunks).1
    decreases chunks
  {
    var q := Parse(c, p, chunks[0]).0;
    TidyFirst(c, p, chunks[0], Concat(chunks[1..]));
    if q.valid {
      NothingIsDropped(chunks[1..]);
      EpilogueExactly(c, q, chunks[1..]);
    } else if chunks[1..] != [] {
      TidyFeed(c, q, chunks[1..]);
    }
  }

  lemma {:induction false} HeaderLinesPhase(c: Config, p: Parser)
    ensures HeaderLines(c, p).Stops? ==> HeaderLines(c, p).last.phase == p.phase
    decreases |p.rest|
  {
    var pos := Find(p.rest, CRLF);
    if 0 < pos < |p.rest| {
      HeaderLinesPhase(c, AfterLine(p, pos));
    }
  }

  lemma {:induction false} NeverInitialAgain(c: Config, p: Parser)
    requires !p.phase.InitialBoundary?
    ensures !Run(c, p).0.phase.InitialBoundary?
    decreases |p.rest|, if p.phase.NewEntry? then 1 else 0
  {
    if p.rest != "" {
      HeaderLinesPhase(c, p);
      if Step(c, p).Goes? {
        NeverInitialAgain(c, Step(c, p).next);
      }
    }
  }

  /** After the first delimiter line any cut will do. */
  lemma {:induction false} CutsAfterOpening(c: Config, p: Parser, chunks: seq<string>)
    requires !p.phase.InitialBoundary?
    ensures OpeningUncutIn(c, p, chunks)
    decreases chunks
  {
    if chunks != [] {
      NeverInitialAgain(c, Append(p, chunks[0]));
      CutsAfterOpening(c, Parse(c, p, chunks[0]).0, chunks[1..]);
    }
  }

  /** So it is enough that the first chunk holds the first delimiter line. */
  lemma CutsFromStart(c: Config, chunks: seq<string>)
    requires c.AcceptsAll() && chunks != [] && Find(chunks[0], c.opening) < |chunks[0]|
    ensures OpeningUncutIn(c, INITIAL, chunks)
  {
    assert Append(INITIAL, chunks[0]).rest == chunks[0];
    RunEnds(c, Append(INITIAL, chunks[0]));
    CutsAfterOpening(c, Parse(c, INITIAL, chunks[0]).0, chunks[1..]);
  }

  // ----- Where the cut does matter -----

  /** Text that does not hold the whole first delimiter line is dropped: the next call starts afresh. */
  lemma LostOpening(c: Config, data: string, later: seq<string>)
    requires Find(data, c.opening) == |data|
    ensures Parse(c, INITIAL, data) == (INITIAL, true)
    ensures Feed(c, INITIAL, [data] + later) == Feed(c, INITIAL, later)
  {
    assert Append(INITIAL, data).rest == data;
    assert ([data] + later)[1..] == later;
  }

  /** Feeding a byte at a time, the use the server's commented-out debugging loop makes of the parser, never
      gets past the first delimiter line. */
  lemma {:induction false} ByteAtATimeNeverStarts(c: Config, input: string)
    requires |c.opening| > 1
    ensures Feed(c, INITIAL, seq(|input|, i requires 0 <= i < |input| => [input[i]])) == (INITIAL, true)
  {
    var bytes := seq(|input|, i requires 0 <= i < |input| => [input[i]]);
    if input != "" {
      FindIsFirst([input[0]], c.opening);
      assert Append(INITIAL, [input[0]]).rest == [input[0]];
      ByteAtATimeNeverStarts(c, input[1..]);
      assert bytes[1..] == seq(|input[1..]|, i requires 0 <= i < |input[1..]| => [input[1..][i]]);
    }
  }
}
