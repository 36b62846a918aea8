/** The texts that the multipart parser takes for a form, and what it reports of them. */
module MultipartGrammar {
  import opened Text
  import opened PartHeader
  import opened Multipart
  import opened MultipartChunking

  // ----- Forms -----

  /** A part as it is sent: its header lines, whatever they are, and its content. */
  datatype RawPart = RawPart(lines: seq<string>, content: string)

  predicate IsLine(line: string) { line != "" && Find(line, CRLF) == |line| }

  /** Header lines and the empty line behind them. */
  function LinesText(lines: seq<string>): string {
    if lines == [] then CRLF else lines[0] + CRLF + LinesText(lines[1..])
  }

  /** What header lines make of a description. */
  function Described(file: FileInfo, lines: seq<string>): FileInfo
    decreases |lines|
  {
    if lines == [] then file else Described(ReadHeaderLine(file, lines[0]), lines[1..])
  }

  function RawText(c: Config, part: RawPart): string {
    LinesText(part.lines) + part.content + c.delimiter
  }

  /** The delimiter behind the content is the first one. Only the first header line is held against the limit. */
  predicate RawFits(c: Config, part: RawPart) {
    && (forall line <- part.lines :: IsLine(line))
    && (part.lines != [] ==> |part.lines[0]| <= MAX_HEADER_LENGTH)
    && Find(part.content + c.delimiter, c.delimiter) == |part.content|
  }

  /** From behind the first delimiter line to the end of the text. */
  function PartsText(c: Config, parts: seq<RawPart>, epilogue: string): string
    requires parts != []
  {
    RawText(c, parts[0]) +
    if |parts| == 1 then DASH_CRLF + epilogue else CRLF + PartsText(c, parts[1..], epilogue)
  }

  function FormText(c: Config, preamble: string, parts: seq<RawPart>, epilogue: string): string
    requires parts != []
  {
    preamble + c.opening + PartsText(c, parts, epilogue)
  }

  predicate AllFit(c: Config, parts: seq<RawPart>) {
    parts != [] ==> RawFits(c, parts[0]) && AllFit(c, parts[1..])
  }

  predicate IsForm(c: Config, preamble: string, parts: seq<RawPart>) {
    Find(preamble + c.opening, c.opening) == |preamble| && parts != [] && AllFit(c, parts)
  }

  function Item(part: RawPart): Part { Part(Described(NO_FILE_INFO, part.lines), part.content) }

  function Items(parts: seq<RawPart>): seq<Part> {
    if parts == [] then [] else [Item(parts[0])] + Items(parts[1..])
  }

  // ----- Finding the ends -----

  /** An occurrence with text behind it. */
  lemma FindBefore(t: string, s: string, tail: string)
    requires s != "" && Find(t + s, s) == |t|
    ensures Find(t + s + tail, s) == |t|
  {
    FindInPrefix(t + s, tail, s);
  }

  /** When the first character of `s` does not come back in `s`, an `s` put behind text without `s` is the first
      one: `s` cannot overlap itself. */
  lemma FindBehind(t: string, s: string, tail: string)
    requires s != "" && s[0] !in s[1..] && Find(t, s) == |t|
    ensures Find(t + s + tail, s) == |t|
  {
    var whole := t + s + tail;
    assert whole == t + (s + tail);
    FindIsFirst(t, s);
    assert OccursAt(whole, |t|, s);
    forall j | 0 <= j < |t|
      ensures !OccursAt(whole, j, s)
    {
      if j + |s| <= |t| {
        OccursInPrefix(t, s + tail, j, s);
      } else {
        assert whole[j..j + |s|][|t| - j] == s[0];
        assert s[1..][|t| - j - 1] == s[|t| - j];
      }
    }
    FindIs(whole, s, |t|);
  }

  // ----- Header lines -----

  /** A header line is read and erased. */
  lemma LineRead(c: Config, p: Parser, line: string, rest: string)
    requires p.rest == line + CRLF + rest && IsLine(line)
    ensures var q := p.(file := ReadHeaderLine(p.file, line), rest := rest);
            && Find(p.rest, CRLF) == |line|
            && HeaderLines(c, p) == HeaderLines(c, q)
            && (|line| < MAX_HEADER_LENGTH && LinesFit(q) ==> LinesFit(p))
  {
    FindBehind(line, CRLF, rest);
    assert p.rest[..|line|] == line;
    assert p.rest[|line| + 2..] == rest;
    assert AfterLine(p, |line|) == p.(file := ReadHeaderLine(p.file, line), rest := rest);
  }

  lemma EmptyLineRead(c: Config, p: Parser, rest: string)
    requires c.AcceptsAll() && p.rest == CRLF + rest
    ensures Find(p.rest, CRLF) == 0 && LinesFit(p)
    ensures HeaderLines(c, p) == Goes(p.(phase := Body, rest := rest, events := p.events + [HeaderEvent(p.file)]))
  {
    FindIs(p.rest, CRLF, 0);
    assert p.rest[2..] == rest;
  }

  /** Where a part's header lines lead. */
  function AfterLines(p: Parser, lines: seq<string>, rest: string): Parser {
    var file := Described(p.file, lines);
    p.(phase := Body, file := file, rest := rest, events := p.events + [HeaderEvent(file)])
  }

  lemma {:induction false} LinesRead(c: Config, p: Parser, lines: seq<string>, rest: string)
    requires c.AcceptsAll() && p.rest == LinesText(lines) + rest && forall line <- lines :: IsLine(line)
    ensures HeaderLines(c, p) == Goes(AfterLines(p, lines, rest))
    ensures Find(p.rest, CRLF) == if lines == [] then 0 else |lines[0]|
    ensures (forall line <- lines :: |line| < MAX_HEADER_LENGTH) ==> LinesFit(p)
    decreases |lines|
  {
    if lines == [] {
      EmptyLineRead(c, p, rest);
    } else {
      var behind := LinesText(lines[1..]) + rest;
      Associates(lines[0] + CRLF, LinesText(lines[1..]), rest);
      LineRead(c, p, lines[0], behind);
      LinesRead(c, p.(file := ReadHeaderLine(p.file, lines[0]), rest := behind), lines[1..], rest);
    }
  }

  // ----- A form is read -----

  lemma ContentRead(c: Config, p: Parser, content: string, tail: string)
    requires c.AcceptsAll() && p.phase.Body? && p.rest == content + c.delimiter + tail
    requires Find(content + c.delimiter, c.delimiter) == |content|
    ensures Step(c, p)
         == Goes(p.(phase := Boundary, rest := tail, events := p.events + [ContentEvent(content)]))
  {
    FindBefore(content, c.delimiter, tail);
    assert p.rest[..|content|] == content;
    assert p.rest[|content| + |c.delimiter|..] == tail;
  }

  function AfterPart(p: Parser, item: Part, tail: string): Parser {
    p.(phase := Boundary, file := item.file, rest := tail,
       events := p.events + [HeaderEvent(item.file), ContentEvent(item.content)])
  }

  lemma CollectPart(events: seq<Event>, item: Part)
    ensures Collect(events + [HeaderEvent(item.file), ContentEvent(item.content)]) == Collect(events) + [item]
  {
    var once := events + [HeaderEvent(item.file)];
    assert events + [HeaderEvent(item.file), ContentEvent(item.content)] == once + [ContentEvent(item.content)];
    CollectLast(events, HeaderEvent(item.file));
    CollectLast(once, ContentEvent(item.content));
    assert "" + item.content == item.content;
  }

  /** All header lines of the part pass the check even when each is first in the buffer. */
  predicate LinesPass(part: RawPart) { forall line <- part.lines :: |line| < MAX_HEADER_LENGTH }

  predicate AllPass(parts: seq<RawPart>) { parts != [] ==> LinesPass(parts[0]) && AllPass(parts[1..]) }

  lemma HeadersRead(c: Config, p: Parser, part: RawPart, behind: string)
    requires c.AcceptsAll() && RawFits(c, part) && p.phase.NewEntry? && p.rest == LinesText(part.lines) + behind
    ensures var q := AfterLines(p.(file := NO_FILE_INFO), part.lines, behind);
            Run(c, p) == Run(c, q) && (LinesPass(part) && Tidy(c, q) ==> Tidy(c, p))
  {
    var p1, q := p.(file := NO_FILE_INFO, phase := Headers), AfterLines(p.(file := NO_FILE_INFO), part.lines, behind);
    LinesRead(c, p1, part.lines, behind);
    assert AfterLines(p1, part.lines, behind) == q;
    assert p.rest != "" by { assert |LinesText(part.lines)| > 0; }
    assert Step(c, p) == Goes(p1) && Step(c, p1) == Goes(q);
  }

  /** From the start of a part the parser runs to the end of its delimiter. */
  lemma PartRead(c: Config, p: Parser, part: RawPart, tail: string)
    requires c.AcceptsAll() && RawFits(c, part) && p.phase.NewEntry? && p.rest == RawText(c, part) + tail
    ensures var q := AfterPart(p, Item(part), tail);
            && Run(c, p) == Run(c, q) && Collect(q.events) == Collect(p.events) + [Item(part)]
            && (LinesPass(part) && Tidy(c, q) ==> Tidy(c, p))
  {
    var behind := part.content + c.delimiter + tail;
    TextAssociates(LinesText(part.lines), part.content, c.delimiter, tail);
    HeadersRead(c, p, part, behind);
    var p1 := AfterLines(p.(file := NO_FILE_INFO), part.lines, behind);
    ContentRead(c, p1, part.content, tail);
    assert p.events + [HeaderEvent(Item(part).file)] + [ContentEvent(part.content)]
        == p.events + [HeaderEvent(Item(part).file), ContentEvent(part.content)];
    assert Step(c, p1) == Goes(AfterPart(p, Item(part), tail));
    CollectPart(p.events, Item(part));
  }

  lemma TextAssociates(lines: string, content: string, delimiter: string, tail: string)
    ensures lines + content + delimiter + tail == lines + (content + delimiter + tail)
  {
  }

  lemma ClosingRead(c: Config, p: Parser, epilogue: string)
    requires p.phase.Boundary? && p.rest == DASH_CRLF + epilogue
    ensures Run(c, p) == (p.(valid := true, rest := ""), true) && (epilogue == "" ==> Tidy(c, p))
  {
    assert p.rest[..2][0] != CRLF[0] && p.rest[..4] == DASH_CRLF;
    var q := p.(valid := true, rest := "");
    assert Step(c, p) == Goes(q) && Run(c, q) == (q, true) && Tidy(c, q);
  }

  lemma NextPartRead(c: Config, p: Parser, later: string)
    requires p.phase.Boundary? && p.rest == CRLF + later
    ensures var q := p.(phase := NewEntry, rest := later);
            Run(c, p) == Run(c, q) && (Tidy(c, q) ==> Tidy(c, p))
  {
    assert p.rest[..2] == CRLF && p.rest[2..] == later;
    assert |p.rest| >= 4 ==> p.rest[..4][0] != DASH_CRLF[0];
    assert Step(c, p) == Goes(p.(phase := NewEntry, rest := later));
  }

  lemma FirstThenRest<T>(before: seq<T>, first: T, others: seq<T>)
    ensures before + [first] + others == before + ([first] + others)
  {
  }

  lemma {:induction false} PartsRead(c: Config, p: Parser, parts: seq<RawPart>, epilogue: string)
    requires c.AcceptsAll() && parts != [] && AllFit(c, parts)
    requires p.phase.NewEntry? && !p.valid && p.rest == PartsText(c, parts, epilogue)
    ensures var (q, ok) := Run(c, p);
            ok && q.valid && q.rest == "" && Collect(q.events) == Collect(p.events) + Items(parts)
    ensures epilogue == "" && AllPass(parts) ==> Tidy(c, p)
    decreases |parts|
  {
    var later := if |parts| == 1 then "" else PartsText(c, parts[1..], epilogue);
    var tail := if |parts| == 1 then DASH_CRLF + epilogue else CRLF + later;
    PartRead(c, p, parts[0], tail);
    var q := AfterPart(p, Item(parts[0]), tail);
    FirstThenRest(Collect(p.events), Item(parts[0]), Items(parts[1..]));
    if |parts| == 1 {
      ClosingRead(c, q, epilogue);
      assert Items(parts) == [Item(parts[0])];
    } else {
      NextPartRead(c, q, later);
      PartsRead(c, q.(phase := NewEntry, rest := later), parts[1..], epilogue);
    }
  }

  lemma OpeningFound(preamble: string, opening: string, rest: string)
    requires opening != "" && Find(preamble + opening, opening) == |preamble|
    ensures var text := preamble + opening + rest;
            && Find(text, opening) == |preamble| < |text| && text[|preamble|..] == opening + rest
            && StartsWith(opening + rest, opening) && (opening + rest)[|opening|..] == rest
  {
    FindBefore(preamble, opening, rest);
    assert preamble + opening + rest == preamble + (opening + rest);
  }

  lemma OpeningRead(c: Config, preamble: string, rest: string)
    requires Find(preamble + c.opening, c.opening) == |preamble|
    ensures var p := Append(INITIAL, preamble + c.opening + rest);
            && p.rest != "" && Step(c, p) == Goes(INITIAL.(phase := NewEntry, rest := rest))
  {
    OpeningFound(preamble, c.opening, rest);
    assert Append(INITIAL, preamble + c.opening + rest).rest == preamble + c.opening + rest;
  }

  /** A form is accepted, and its parts are reported, each described by its own header lines. */
  lemma FormRead(c: Config, preamble: string, parts: seq<RawPart>, epilogue: string)
    requires c.AcceptsAll() && IsForm(c, preamble, parts)
    ensures var (q, ok) := Parse(c, INITIAL, FormText(c, preamble, parts, epilogue));
            ok && q.valid && q.rest == "" && Collect(q.events) == Items(parts)
  {
    var text := PartsText(c, parts, epilogue);
    var p := INITIAL.(phase := NewEntry, rest := text);
    OpeningRead(c, preamble, text);
    assert Parse(c, INITIAL, FormText(c, preamble, parts, epilogue)) == Run(c, p);
    PartsRead(c, p, parts, epilogue);
    assert Collect(p.events) + Items(parts) == Items(parts);
  }

  /** The first chunk that is not empty has at least `n` characters. */
  predicate FirstIsLong(chunks: seq<string>, n: nat) {
    chunks != [] && if chunks[0] == "" then FirstIsLong(chunks[1..], n) else |chunks[0]| >= n
  }

  /** The same when the form comes in pieces, cut anywhere behind the first delimiter line, provided no line can be
      over the limit and nothing follows the form. */
  lemma {:induction false} FormReadInChunks(c: Config, preamble: string, parts: seq<RawPart>, chunks: seq<string>)
    requires c.AcceptsAll() && IsForm(c, preamble, parts) && AllPass(parts)
    requires Concat(chunks) == FormText(c, preamble, parts, "") && FirstIsLong(chunks, |preamble + c.opening|)
    ensures var (q, ok) := Feed(c, INITIAL, chunks);
            ok && q.valid && q.rest == "" && Collect(q.events) == Items(parts)
    decreases chunks
  {
    if chunks[0] == "" {
      assert Append(INITIAL, "") == INITIAL;
      FormReadInChunks(c, preamble, parts, chunks[1..]);
    } else {
      var text := PartsText(c, parts, "");
      FormRead(c, preamble, parts, "");
      OpeningRead(c, preamble, text);
      PartsRead(c, INITIAL.(phase := NewEntry, rest := text), parts, "");
      OpeningInFirst(c, preamble, text, chunks[0], Concat(chunks[1..]));
      CutsFromStart(c, chunks);
      TidyFeed(c, INITIAL, chunks);
      ChunkIndependence(c, INITIAL, chunks);
    }
  }

  /** The first delimiter line at the very beginning. */
  lemma PartsReadInChunks(c: Config, parts: seq<RawPart>, chunks: seq<string>)
    requires c.AcceptsAll() && parts != [] && AllFit(c, parts) && AllPass(parts)
    requires Concat(chunks) == c.opening + PartsText(c, parts, "") && FirstIsLong(chunks, |c.opening|)
    ensures var (q, ok) := Feed(c, INITIAL, chunks);
            ok && q.valid && q.rest == "" && Collect(q.events) == Items(parts)
  {
    assert "" + c.opening == c.opening;
    FindIs(c.opening, c.opening, 0);
    FormReadInChunks(c, "", parts, chunks);
  }

  lemma OpeningInFirst(c: Config, preamble: string, text: string, first: string, later: string)
    requires Find(preamble + c.opening, c.opening) == |preamble| && |first| >= |preamble + c.opening|
    requires first + later == preamble + c.opening + text
    ensures Find(first, c.opening) < |first|
  {
    var start := preamble + c.opening;
    assert first[..|start|] == (first + later)[..|start|] == start;
    assert first == start + first[|start|..];
    FindBefore(preamble, c.opening, first[|start|..]);
  }

  // ----- Nothing else is accepted -----

  /** What stands before a first occurrence holds none. */
  lemma NoneBefore(t: string, p: nat, s: string)
    requires s != "" && p <= |t| && p == Find(t, s)
    ensures Find(t[..p], s) == p
  {
    FindIsFirst(t, s);
    forall j | 0 <= j < p
      ensures !OccursAt(t[..p], j, s)
    {
      assert t == t[..p] + t[p..];
      if j + |s| <= p {
        OccursInPrefix(t[..p], t[p..], j, s);
      }
    }
    FindIs(t[..p], s, p);
  }

  /** A first occurrence cuts the text around itself. */
  lemma CutAt(t: string, s: string)
    requires s != "" && Find(t, s) < |t|
    ensures var p := Find(t, s);
            t == t[..p] + s + t[p + |s|..] && Find(t[..p] + s, s) == p
  {
    var p := Find(t, s);
    FindIsFirst(t, s);
    assert t[p..p + |s|] == s;
    var head := t[..p] + s;
    assert t == head + t[p + |s|..];
    assert OccursAt(head, p, s) by { assert head[p..p + |s|] == s; }
    forall j | 0 <= j < p
      ensures !OccursAt(head, j, s)
    {
      if j + |s| <= |head| {
        OccursInPrefix(head, t[p + |s|..], j, s);
      }
    }
    FindIs(head, s, p);
  }

  lemma FirstLineIs(p: Parser)
    requires 0 < Find(p.rest, CRLF) < |p.rest|
    ensures var pos := Find(p.rest, CRLF);
            IsLine(p.rest[..pos]) && p.rest == p.rest[..pos] + CRLF + AfterLine(p, pos).rest
  {
    NoneBefore(p.rest, Find(p.rest, CRLF), CRLF);
    CutAt(p.rest, CRLF);
  }

  lemma LinesText1(line: string, lines: seq<string>, rest: string)
    ensures LinesText([line] + lines) + rest == line + CRLF + (LinesText(lines) + rest)
  {
    assert ([line] + lines)[1..] == lines;
    Associates(line + CRLF, LinesText(lines), rest);
  }

  /** The header lines that were read. */
  lemma {:induction false} LinesAre(c: Config, p: Parser) returns (lines: seq<string>, rest: string)
    requires c.AcceptsAll() && HeaderLines(c, p).Goes?
    ensures p.rest == LinesText(lines) + rest && (forall line <- lines :: IsLine(line))
    ensures lines != [] ==> Find(p.rest, CRLF) == |lines[0]|
    ensures HeaderLines(c, p).next.rest == rest
    decreases |p.rest|
  {
    var pos := Find(p.rest, CRLF);
    if pos == 0 {
      lines, rest := [], p.rest[2..];
      CutAt(p.rest, CRLF);
    } else {
      FirstLineIs(p);
      lines, rest := LinesAre(c, AfterLine(p, pos));
      LinesText1(p.rest[..pos], lines, rest);
      lines := [p.rest[..pos]] + lines;
    }
  }

  /** The part that a run to validity reads first. */
  lemma PartIs(c: Config, p: Parser) returns (part: RawPart, tail: string)
    requires c.AcceptsAll() && p.phase.NewEntry? && !p.valid && Run(c, p).0.valid
    ensures RawFits(c, part) && p.rest == RawText(c, part) + tail
  {
    var p1 := p.(file := NO_FILE_INFO, phase := Headers);
    assert Step(c, p) == Goes(p1);
    HeaderEnds(c, p1);
    var lines, rest := LinesAre(c, p1);
    LinesRead(c, p1, lines, rest);
    var p2 := AfterLines(p1, lines, rest);
    assert Step(c, p1) == Goes(p2);
    assert Run(c, p) == Run(c, p2) && rest != "";
    BodyEnds(c, p2);
    var pos := Find(rest, c.delimiter);
    CutAt(rest, c.delimiter);
    part, tail := RawPart(lines, rest[..pos]), rest[pos + |c.delimiter|..];
    TextAssociates(LinesText(lines), part.content, c.delimiter, tail);
  }

  lemma TailIs(c: Config, p: Parser)
    requires p.phase.Boundary? && !p.valid && Run(c, p).0.valid
    ensures |p.rest| >= 2
    ensures if p.rest[..2] == CRLF then Run(c, p) == Run(c, p.(phase := NewEntry, rest := p.rest[2..]))
            else |p.rest| >= 4 && p.rest[..4] == DASH_CRLF
  {
    BoundaryEnds(c, p);
  }

  lemma OnePartMore(c: Config, part: RawPart, others: seq<RawPart>, epilogue: string)
    requires RawFits(c, part) && others != [] && AllFit(c, others)
    ensures AllFit(c, [part] + others)
    ensures PartsText(c, [part] + others, epilogue) == RawText(c, part) + (CRLF + PartsText(c, others, epilogue))
  {
    assert ([part] + others)[1..] == others;
  }

  /** The part, and where it leads. */
  lemma FirstPartIs(c: Config, p: Parser) returns (part: RawPart, q: Parser)
    requires c.AcceptsAll() && p.phase.NewEntry? && !p.valid && Run(c, p).0.valid
    ensures RawFits(c, part) && p.rest == RawText(c, part) + q.rest
    ensures q.phase.Boundary? && !q.valid && Run(c, q) == Run(c, p) && |q.rest| < |p.rest|
  {
    var tail;
    part, tail := PartIs(c, p);
    PartRead(c, p, part, tail);
    q := AfterPart(p, Item(part), tail);
  }

  lemma {:induction false} PartsAre(c: Config, p: Parser) returns (parts: seq<RawPart>, epilogue: string)
    requires c.AcceptsAll() && p.phase.NewEntry? && !p.valid && Run(c, p).0.valid
    ensures parts != [] && AllFit(c, parts)
    ensures p.rest == PartsText(c, parts, epilogue)
    decreases |p.rest|
  {
    var part, q := FirstPartIs(c, p);
    TailIs(c, q);
    if q.rest[..2] == CRLF {
      var others;
      others, epilogue := PartsAre(c, q.(phase := NewEntry, rest := q.rest[2..]));
      assert q.rest == CRLF + q.rest[2..];
      OnePartMore(c, part, others, epilogue);
      parts := [part] + others;
    } else {
      parts, epilogue := [part], q.rest[4..];
      assert q.rest == DASH_CRLF + epilogue;
    }
  }

  /** A text that one call takes for valid is a form. */
  lemma FormIs(c: Config, text: string) returns (preamble: string, parts: seq<RawPart>, epilogue: string)
    requires c.AcceptsAll() && Parse(c, INITIAL, text).0.valid
    ensures IsForm(c, preamble, parts) && text == FormText(c, preamble, parts, epilogue)
  {
    var p, pos := Append(INITIAL, text), Find(text, c.opening);
    assert p.rest == text;
    InitialEnds(c, p);
    CutAt(text, c.opening);
    preamble := text[..pos];
    var rest := text[pos + |c.opening|..];
    OpeningRead(c, preamble, rest);
    parts, epilogue := PartsAre(c, INITIAL.(phase := NewEntry, rest := rest));
  }

  /** One call accepts a text exactly when it is a form: text without the first delimiter line, that line, and parts up
      to the closing delimiter. Then it reports the form's parts. */
  lemma AcceptsExactly(c: Config, text: string)
    requires c.AcceptsAll()
    ensures Parse(c, INITIAL, text).0.valid <==>
              exists preamble, parts, epilogue ::
                IsForm(c, preamble, parts) && text == FormText(c, preamble, parts, epilogue)
    ensures forall preamble, parts, epilogue ::
              IsForm(c, preamble, parts) && text == FormText(c, preamble, parts, epilogue)
              ==> Parse(c, INITIAL, text).1 && Collect(Parse(c, INITIAL, text).0.events) == Items(parts)
  {
    if Parse(c, INITIAL, text).0.valid {
      var preamble, parts, epilogue := FormIs(c, text);
      assert IsForm(c, preamble, parts) && text == FormText(c, preamble, parts, epilogue);
    }
    forall preamble, parts, epilogue | IsForm(c, preamble, parts) && text == FormText(c, preamble, parts, epilogue)
      ensures Parse(c, INITIAL, text).0.valid
      ensures Parse(c, INITIAL, text).1 && Collect(Parse(c, INITIAL, text).0.events) == Items(parts)
    {
      FormRead(c, preamble, parts, epilogue);
    }
  }
}
