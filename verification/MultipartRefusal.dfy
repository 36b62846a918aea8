/** What the multipart parser does when a callback refuses: it stops there, and until then it does what it does when
    everything is accepted. */
module MultipartRefusal {
  import opened Text
  import opened Multipart

  /** The same settings with callbacks that accept everything. */
  function Accepting(c: Config): Config {
    Settings(c.opening, c.delimiter, (history: seq<Event>) => true)
  }

  function Reached(o: Outcome): Parser {
    match o
    case Goes(p) => p
    case Stops(p, _) => p
  }

  /** A turn that makes at most one call. If the call is accepted the turn is that of the accepting run, otherwise it
      ends the parse as not valid, with that call as the last. */
  predicate SameUntilRefusal(c: Config, p: Parser, o: Outcome, a: Outcome) {
    var before, after := p.events, Reached(a).events;
    && (after == before || (|after| == |before| + 1 && after[..|before|] == before))
    && (if after == before || c.accepts(after) then o == a
        else o.Stops? && !o.ok && !o.last.valid && o.last.events == after)
  }

  lemma ReportRefused(c: Config, p: Parser, e: Event)
    ensures Report(Accepting(c), p, e) == (p.(events := p.events + [e]), true)
    ensures Report(c, p, e) == if c.accepts(p.events + [e]) then (p.(events := p.events + [e]), true)
                               else (p.(events := p.events + [e], valid := false), false)
    ensures (p.events + [e])[..|p.events|] == p.events
  {
  }

  lemma {:induction false} HeaderLinesRefused(c: Config, p: Parser)
    ensures SameUntilRefusal(c, p, HeaderLines(c, p), HeaderLines(Accepting(c), p))
    decreases |p.rest|
  {
    var pos := Find(p.rest, CRLF);
    if pos == 0 < |p.rest| {
      ReportRefused(c, p, HeaderEvent(p.file));
    } else if pos < |p.rest| {
      HeaderLinesRefused(c, AfterLine(p, pos));
    }
  }

  lemma BodyRefused(c: Config, p: Parser)
    ensures SameUntilRefusal(c, p, BodyStep(c, p), BodyStep(Accepting(c), p))
  {
    if |c.delimiter| <= |p.rest| {
      var pos, len := Find(p.rest, c.delimiter), |p.rest| - |c.delimiter|;
      ReportRefused(c, p, ContentEvent(p.rest[..if pos < |p.rest| then pos else len]));
    }
  }

  /** A turn that makes no call. */
  lemma Uncalled(c: Config, p: Parser, o: Outcome)
    requires Reached(o).events == p.events
    ensures SameUntilRefusal(c, p, o, o)
  {
  }

  lemma InitialUncalled(c: Config, p: Parser)
    ensures InitialStep(Accepting(c), p) == InitialStep(c, p) && Reached(InitialStep(c, p)).events == p.events
  {
  }

  lemma HeadersRefused(c: Config, p: Parser)
    ensures SameUntilRefusal(c, p, HeaderStep(c, p), HeaderStep(Accepting(c), p))
  {
    HeaderLinesRefused(c, p);
  }

  lemma StepRefused(c: Config, p: Parser)
    requires p.rest != ""
    ensures SameUntilRefusal(c, p, Step(c, p), Step(Accepting(c), p))
  {
    match p.phase
    case InitialBoundary =>
      InitialUncalled(c, p);
      Uncalled(c, p, InitialStep(c, p));
    case NewEntry => Uncalled(c, p, Step(c, p));
    case Headers => HeadersRefused(c, p);
    case Body => BodyRefused(c, p);
    case Boundary => Uncalled(c, p, BoundaryStep(p));
  }

  /** A run from `p` against the one in which everything is accepted. */
  predicate CutByRefusal(c: Config, p: Parser, run: (Parser, bool), accepting: (Parser, bool)) {
    var (q, ok) := run;
    && p.events <= q.events <= accepting.0.events
    && (forall k :: |p.events| < k < |q.events| ==> c.accepts(q.events[..k]))
    && (if q.events == p.events || c.accepts(q.events) then run == accepting else !ok && !q.valid)
  }

  lemma CutLater(c: Config, p: Parser, next: Parser, run: (Parser, bool), accepting: (Parser, bool))
    requires CutByRefusal(c, next, run, accepting) && p.events <= next.events
    requires next.events == p.events || (|next.events| == |p.events| + 1 && c.accepts(next.events))
    ensures CutByRefusal(c, p, run, accepting)
  {
    assert run.0.events[..|next.events|] == next.events;
  }

  /** The calls made are the first calls of the run in which everything is accepted. All but the last of them were
      accepted. If the last one was too, the run is that one; otherwise `parse` returns false, and the parser is not
      valid. */
  lemma {:induction false} RefusalCuts(c: Config, p: Parser)
    ensures CutByRefusal(c, p, Run(c, p), Run(Accepting(c), p))
    decreases |p.rest|, if p.phase.NewEntry? then 1 else 0
  {
    if p.rest != "" {
      StepRefused(c, p);
      var a := Step(Accepting(c), p);
      if Step(c, p) == a {
        if a.Goes? {
          RefusalCuts(c, a.next);
          CutLater(c, p, a.next, Run(c, a.next), Run(Accepting(c), a.next));
        }
      } else if a.Goes? {
        RefusalCuts(Accepting(c), a.next);
      }
    }
  }
}
