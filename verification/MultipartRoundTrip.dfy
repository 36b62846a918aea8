/** Parsing what `serialize_multipart_formdata` writes gives back the items, however the text arrives. */
module MultipartRoundTrip {
  import opened Text
  import opened PartHeader
  import opened Multipart
  import opened MultipartChunking
  import opened MultipartGrammar

  // ----- The serializer -----

  function HeaderText(file: FileInfo): string {
    DispositionLine(file) + CRLF + (if file.contentType != "" then ContentTypeLine(file) + CRLF else "") + CRLF
  }

  function SerializeItem(item: Part, boundary: string): string {
    "--" + boundary + "\r\n" + HeaderText(item.file) + item.content + "\r\n"
  }

  function SerializeItems(items: seq<Part>, boundary: string): string {
    if items == [] then "" else SerializeItem(items[0], boundary) + SerializeItems(items[1..], boundary)
  }

  function Serialize(items: seq<Part>, boundary: string): string {
    SerializeItems(items, boundary) + ("--" + boundary + "--\r\n")
  }

  /** `serialize_multipart_formdata` */
  method SerializeMultipartFormdata(items: seq<Part>, boundary: string) returns (body: string, contentType: string)
    ensures body == Serialize(items, boundary)
    ensures contentType == "multipart/form-data; boundary=" + boundary
  {
    body := "";
    assert items[0..] == items;
    for i := 0 to |items|
      invariant body + SerializeItems(items[i..], boundary) == SerializeItems(items, boundary)
    {
      assert items[i..][1..] == items[i + 1..];
      Associates(body, SerializeItem(items[i], boundary), SerializeItems(items[i + 1..], boundary));
      body := AppendItem(body, items[i], boundary);
    }
    NothingBehind(body);
    ThreeAppended(body, "--", boundary, "--\r\n");
    body := body + "--" + boundary + "--\r\n";
    contentType := "multipart/form-data; boundary=" + boundary;
  }

  /** The loop's body. */
  method AppendItem(before: string, item: Part, boundary: string) returns (body: string)
    ensures body == before + SerializeItem(item, boundary)
  {
    body := before;
    ThreeAppended(body, "--", boundary, "\r\n");
    body := body + "--" + boundary + "\r\n";
    body := AppendHeaders(body, item.file);
    body := body + item.content + "\r\n";
    ItemWritten(before, "--" + boundary + "\r\n", HeaderText(item.file), item.content, "\r\n");
  }

  /** The header lines of an item. */
  method AppendHeaders(before: string, file: FileInfo) returns (body: string)
    ensures body == before + HeaderText(file)
  {
    body := AppendDisposition(before, file);
    body := body + "\r\n";
    if file.contentType != "" {
      ThreeAppended(body, "Content-Type: ", file.contentType, "\r\n");
      body := body + "Content-Type: " + file.contentType + "\r\n";
    }
    body := body + "\r\n";
    HeadersWritten(before, DispositionLine(file), CRLF, ContentTypeLine(file) + CRLF);
  }

  method AppendDisposition(before: string, file: FileInfo) returns (body: string)
    ensures body == before + DispositionLine(file)
  {
    body := before;
    ThreeAppended(body, "Content-Disposition: form-data; name=\"", file.name, "\"");
    body := body + "Content-Disposition: form-data; name=\"" + file.name + "\"";
    NothingBehind(body);
    if file.filename != "" {
      ThreeAppended(body, "; filename=\"", file.filename, "\"");
      body := body + "; filename=\"" + file.filename + "\"";
    }
    Associates(before, "Content-Disposition: form-data; name=\"" + file.name + "\"",
               if file.filename != "" then "; filename=\"" + file.filename + "\"" else "");
  }

  lemma ThreeAppended(a: string, b: string, c: string, d: string)
    ensures a + b + c + d == a + (b + c + d)
  {
  }

  lemma NothingBehind(s: string)
    ensures s + "" == s
  {
  }

  lemma HeadersWritten(before: string, line: string, end: string, typeLine: string)
    ensures before + line + end + typeLine + end == before + (line + end + typeLine + end)
    ensures before + line + end + end == before + (line + end + "" + end)
  {
  }

  lemma ItemWritten(before: string, opening: string, head: string, content: string, end: string)
    ensures before + opening + head + content + end == before + (opening + head + content + end)
  {
  }

  /** `is_multipart_boundary_chars_valid` */
  predicate BoundaryCharsValid(boundary: string) {
    forall i :: 0 <= i < |boundary| ==> IsAlnum(boundary[i]) || boundary[i] == '-' || boundary[i] == '_'
  }

  // ----- A part's header lines -----

  /** The lines that the serializer writes. */
  function HeaderLinesOf(file: FileInfo): seq<string> {
    [DispositionLine(file)] + if file.contentType != "" then [ContentTypeLine(file)] else []
  }

  predicate HeaderSendable(file: FileInfo) {
    && Quotable(file.name) && Quotable(file.filename)
    && Trimmed(file.contentType) && Find(file.contentType, CRLF) == |file.contentType|
    && |DispositionLine(file)| < MAX_HEADER_LENGTH && |ContentTypeLine(file)| < MAX_HEADER_LENGTH
  }

  /** What can be sent as a part. */
  predicate Sendable(item: Part, boundary: string) {
    HeaderSendable(item.file) && Find(item.content, Delimiter(boundary)) == |item.content|
  }

  lemma NoLineEndIn(s: string)
    requires '\r' !in s
    ensures Find(s, CRLF) == |s|
  {
    forall j | 0 <= j < |s|
      ensures !OccursAt(s, j, CRLF)
    {
      if j + 2 <= |s| {
        assert s[j..j + 2][0] == s[j];
      }
    }
    FindIs(s, CRLF, |s|);
  }

  lemma NoLineEndAcross(a: string, b: string)
    requires Find(a, CRLF) == |a| && Find(b, CRLF) == |b|
    requires a == "" || a[|a| - 1] != '\r'
    ensures Find(a + b, CRLF) == |a + b|
  {
    var whole := a + b;
    FindIsFirst(a, CRLF);
    FindIsFirst(b, CRLF);
    assert whole[|a|..] == b;
    forall j | 0 <= j < |whole|
      ensures !OccursAt(whole, j, CRLF)
    {
      if j + 2 <= |a| {
        OccursInPrefix(a, b, j, CRLF);
      } else if j < |a| {
        if j + 2 <= |whole| {
          assert whole[j..j + 2][0] == a[|a| - 1];
        }
      } else {
        OccursInSuffix(whole, |a|, j - |a|, CRLF);
      }
    }
    FindIs(whole, CRLF, |whole|);
  }

  lemma DispositionLineRead(file: FileInfo)
    requires HeaderSendable(file)
    ensures IsLine(DispositionLine(file))
    ensures ReadHeaderLine(NO_FILE_INFO, DispositionLine(file)) == file.(contentType := "")
  {
    NoLineEndIn(DispositionLine(file));
    DispositionReads(file);
    DispositionIsNoContentType(file);
  }

  lemma ContentTypeLineRead(file: FileInfo)
    requires HeaderSendable(file)
    ensures IsLine(ContentTypeLine(file))
    ensures ReadHeaderLine(file.(contentType := ""), ContentTypeLine(file)) == file
  {
    NoLineEndIn("Content-Type: ");
    NoLineEndAcross("Content-Type: ", file.contentType);
    ContentTypeReads(file, file.(contentType := ""));
  }

  /** The header lines of a part are read back into its description. */
  lemma HeaderLinesRead(file: FileInfo)
    requires HeaderSendable(file)
    ensures Described(NO_FILE_INFO, HeaderLinesOf(file)) == file
    ensures forall line <- HeaderLinesOf(file) :: IsLine(line) && |line| < MAX_HEADER_LENGTH
  {
    var lines, line := HeaderLinesOf(file), DispositionLine(file);
    DispositionLineRead(file);
    assert lines[0] == line && Described(file.(contentType := ""), []) == file.(contentType := "");
    if file.contentType != "" {
      ContentTypeLineRead(file);
      assert lines[1..] == [ContentTypeLine(file)] && lines[1..][1..] == [];
      assert Described(file.(contentType := ""), lines[1..]) == Described(file, []);
    } else {
      assert lines[1..] == [];
    }
  }

  /** The lines are those of `base`, in order, with lines of other headers anywhere between them. */
  predicate Inserted(lines: seq<string>, base: seq<string>)
    decreases |lines|
  {
    if lines == [] then base == []
    else
      || (base != [] && lines[0] == base[0] && Inserted(lines[1..], base[1..]))
      || (IsOther(lines[0]) && Inserted(lines[1..], base))
  }

  /** Lines of other headers change nothing in the description. */
  lemma {:induction false} OthersDescribeNothing(file: FileInfo, lines: seq<string>, base: seq<string>)
    requires Inserted(lines, base)
    ensures Described(file, lines) == Described(file, base)
    decreases |lines|
  {
    if lines != [] {
      if base != [] && lines[0] == base[0] && Inserted(lines[1..], base[1..]) {
        OthersDescribeNothing(ReadHeaderLine(file, lines[0]), lines[1..], base[1..]);
      } else {
        OtherHeader(file, lines[0]);
        OthersDescribeNothing(file, lines[1..], base);
      }
    }
  }

  /** So a header block with such lines is reported as without them. */
  lemma OthersReportNothing(c: Config, p: Parser, lines: seq<string>, base: seq<string>, rest: string)
    requires c.AcceptsAll() && Inserted(lines, base)
    requires forall line <- lines + base :: IsLine(line)
    ensures HeaderLines(c, p.(rest := LinesText(lines) + rest)) == HeaderLines(c, p.(rest := LinesText(base) + rest))
    ensures var q := HeaderLines(c, p.(rest := LinesText(lines) + rest));
            q.Goes? && q.next.rest == rest && q.next.events == p.events + [HeaderEvent(Described(p.file, base))]
  {
    assert forall line <- lines :: line in lines + base;
    assert forall line <- base :: line in lines + base;
    LinesRead(c, p.(rest := LinesText(lines) + rest), lines, rest);
    LinesRead(c, p.(rest := LinesText(base) + rest), base, rest);
    OthersDescribeNothing(p.file, lines, base);
  }

  // ----- The whole body -----

  /** The parts as the serializer sends them. */
  function Sent(items: seq<Part>): seq<RawPart> {
    if items == [] then [] else [RawPart(HeaderLinesOf(items[0].file), items[0].content)] + Sent(items[1..])
  }

  /** The part is sent with the serializer's lines and perhaps some of other headers, none so long that it could not be
      cut. */
  predicate CarriesItem(part: RawPart, item: Part) {
    && part.content == item.content && Inserted(part.lines, HeaderLinesOf(item.file))
    && forall line <- part.lines :: IsLine(line) && |line| < MAX_HEADER_LENGTH
  }

  predicate Carries(parts: seq<RawPart>, items: seq<Part>)
    decreases |parts|
  {
    && |parts| == |items|
    && (items != [] ==> CarriesItem(parts[0], items[0]) && Carries(parts[1..], items[1..]))
  }

  lemma {:induction false} AsItIs(lines: seq<string>)
    ensures Inserted(lines, lines)
  {
    if lines != [] {
      AsItIs(lines[1..]);
    }
  }

  lemma {:induction false} SentCarries(items: seq<Part>)
    requires forall item <- items :: HeaderSendable(item.file)
    ensures Carries(Sent(items), items)
  {
    if items != [] {
      assert items[0] in items;
      HeaderLinesRead(items[0].file);
      AsItIs(HeaderLinesOf(items[0].file));
      SentCarries(items[1..]);
      assert Sent(items)[1..] == Sent(items[1..]);
    }
  }

  lemma SentText(item: Part)
    ensures LinesText(HeaderLinesOf(item.file)) == HeaderText(item.file)
  {
    var line, typeLine := DispositionLine(item.file), ContentTypeLine(item.file);
    LinesText1(line, if item.file.contentType != "" then [typeLine] else [], "");
    LinesText1(typeLine, [], "");
    OneOrTwoLines(line, typeLine, CRLF, LinesText([line]), LinesText([typeLine]), LinesText([line] + [typeLine]));
    assert [line] + [] == [line] && [typeLine] + [] == [typeLine];
  }

  lemma OneOrTwoLines(line: string, typeLine: string, end: string, one: string, last: string, two: string)
    ensures one + "" == line + end + (end + "") ==> one == line + end + "" + end
    ensures last + "" == typeLine + end + (end + "") && two + "" == line + end + (last + "") ==>
              two == line + end + (typeLine + end) + end
  {
    assert one + "" == one && two + "" == two && last + "" == last && end + "" == end;
  }

  /** What the serializer writes is a form. */
  lemma {:induction false} SerializeIsForm(items: seq<Part>, boundary: string, c: Config)
    requires items != [] && c.opening == Opening(boundary) && c.delimiter == Delimiter(boundary)
    ensures Sent(items) != [] && Serialize(items, boundary) == c.opening + PartsText(c, Sent(items), "")
  {
    var item, later := items[0], SerializeItems(items[1..], boundary) + ("--" + boundary + "--\r\n");
    var part := Sent(items)[0];
    SentText(item);
    ItemAssociates(Opening(boundary), HeaderText(item.file), item.content, SerializeItems(items[1..], boundary),
                   "--" + boundary + "--\r\n", later);
    if |items| > 1 {
      SerializeIsForm(items[1..], boundary, c);
    }
    assert Sent(items)[1..] == Sent(items[1..]);
    LineEndMoves(boundary, if |items| == 1 then "" else PartsText(c, Sent(items[1..]), ""));
    PartAssociates(Opening(boundary), HeaderText(item.file), item.content, Delimiter(boundary),
                   if |items| == 1 then DASH_CRLF + "" else CRLF + PartsText(c, Sent(items[1..]), ""), CRLF + later);
  }

  lemma ItemAssociates(opening: string, head: string, content: string, items: string, closing: string, later: string)
    requires later == items + closing
    ensures (opening + head + content + "\r\n" + items) + closing == opening + (head + content + (CRLF + later))
  {
  }

  lemma PartAssociates(opening: string, head: string, content: string, delimiter: string, tail: string, later: string)
    requires later == delimiter + tail
    ensures opening + (head + content + later) == opening + (head + content + delimiter + tail)
  {
  }

  /** The line end behind a part's content belongs to the delimiter that follows. */
  lemma LineEndMoves(boundary: string, later: string)
    ensures CRLF + ("" + ("--" + boundary + "--\r\n")) == Delimiter(boundary) + (DASH_CRLF + "")
    ensures CRLF + (Opening(boundary) + later) == Delimiter(boundary) + (CRLF + later)
  {
  }

  lemma DelimiterDoesNotOverlap(boundary: string)
    requires BoundaryCharsValid(boundary)
    ensures Delimiter(boundary)[0] !in Delimiter(boundary)[1..]
  {
  }

  lemma PartCarries(c: Config, part: RawPart, item: Part, boundary: string)
    requires BoundaryCharsValid(boundary) && c.delimiter == Delimiter(boundary)
    requires Sendable(item, boundary) && CarriesItem(part, item)
    ensures RawFits(c, part) && LinesPass(part) && Item(part) == item
  {
    DelimiterDoesNotOverlap(boundary);
    FindBehind(item.content, c.delimiter, "");
    assert item.content + c.delimiter + "" == item.content + c.delimiter;
    HeaderLinesRead(item.file);
    OthersDescribeNothing(NO_FILE_INFO, part.lines, HeaderLinesOf(item.file));
  }

  lemma {:induction false} PartsCarry(c: Config, parts: seq<RawPart>, items: seq<Part>, boundary: string)
    requires BoundaryCharsValid(boundary) && c.delimiter == Delimiter(boundary)
    requires Carries(parts, items) && forall item <- items :: Sendable(item, boundary)
    ensures AllFit(c, parts) && AllPass(parts) && Items(parts) == items
  {
    if items != [] {
      assert items[0] in items;
      PartCarries(c, parts[0], items[0], boundary);
      PartsCarry(c, parts[1..], items[1..], boundary);
      FirstAndRest(items);
    }
  }

  lemma FirstAndRest<T>(items: seq<T>)
    requires items != []
    ensures [items[0]] + items[1..] == items
  {
  }

  lemma CarriedRead(c: Config, boundary: string, items: seq<Part>, parts: seq<RawPart>, chunks: seq<string>)
    requires c.AcceptsAll() && c.delimiter == Delimiter(boundary) && BoundaryCharsValid(boundary)
    requires items != [] && Carries(parts, items) && forall item <- items :: Sendable(item, boundary)
    requires Concat(chunks) == c.opening + PartsText(c, parts, "") && FirstIsLong(chunks, |c.opening|)
    ensures var (q, ok) := Feed(c, INITIAL, chunks);
            ok && q.valid && q.rest == "" && Collect(q.events) == items
  {
    PartsCarry(c, parts, items, boundary);
    PartsReadInChunks(c, parts, chunks);
  }

  /** Round trip: one or more parts, sent as the serializer writes them or with lines of other headers among their
      header lines, cut into calls anywhere behind the first delimiter line, are parsed back in order, and the parser
      ends valid with nothing left. */
  lemma RoundTripWithOthers(boundary: string, items: seq<Part>, parts: seq<RawPart>, accepts: seq<Event> -> bool,
                            chunks: seq<string>)
    requires BoundaryCharsValid(boundary) && items != [] && forall item <- items :: Sendable(item, boundary)
    requires Carries(parts, items) && forall history :: accepts(history)
    requires var c := SetBoundary(boundary, accepts);
             Concat(chunks) == c.opening + PartsText(c, parts, "") && FirstIsLong(chunks, |c.opening|)
    ensures var (q, ok) := Feed(SetBoundary(boundary, accepts), INITIAL, chunks);
            ok && q.valid && q.rest == "" && Collect(q.events) == items
  {
    CarriedRead(SetBoundary(boundary, accepts), boundary, items, parts, chunks);
  }

  lemma RoundTrip(boundary: string, items: seq<Part>, accepts: seq<Event> -> bool, chunks: seq<string>)
    requires BoundaryCharsValid(boundary) && items != [] && forall item <- items :: Sendable(item, boundary)
    requires forall history :: accepts(history)
    requires Concat(chunks) == Serialize(items, boundary) && FirstIsLong(chunks, |Opening(boundary)|)
    ensures var (q, ok) := Feed(SetBoundary(boundary, accepts), INITIAL, chunks);
            ok && q.valid && q.rest == "" && Collect(q.events) == items
  {
    SentCarries(items);
    SerializeIsForm(items, boundary, SetBoundary(boundary, accepts));
    RoundTripWithOthers(boundary, items, Sent(items), accepts, chunks);
  }

  /** With no part there is nothing to parse either: the text is consumed, but no part is reported and the parser
      is not valid. */
  lemma EmptyFormIsRejected(boundary: string, accepts: seq<Event> -> bool)
    requires BoundaryCharsValid(boundary)
    ensures var (q, ok) := Parse(SetBoundary(boundary, accepts), INITIAL, Serialize([], boundary));
            ok && !q.valid && q.events == [] && q.rest == ""
  {
    var c := SetBoundary(boundary, accepts);
    var p := Append(INITIAL, Serialize([], boundary));
    assert p.rest == "--" + boundary + "--\r\n";
    var pos := Find(p.rest, c.opening);
    FindIsFirst(p.rest, c.opening);
    if pos < |p.rest| {
      OpeningInClosing(boundary, pos);
      assert p.rest[pos..] == c.opening;
      var q := p.(phase := NewEntry, rest := "");
      assert Step(c, p) == Goes(q) && Run(c, q) == (q, true);
    }
  }

  lemma OpeningInClosing(boundary: string, pos: nat)
    requires BoundaryCharsValid(boundary) && OccursAt("--" + boundary + "--\r\n", pos, Opening(boundary))
    ensures pos == 2
  {
    var text, k := "--" + boundary + "--\r\n", |boundary| + 2;
    assert text[pos..pos + |Opening(boundary)|][k] == text[pos + k];
  }

  // ----- A first delimiter line that is cut -----

  lemma OpeningLost(c: Config)
    requires c.opening == "--b\r\n"
    ensures Feed(c, INITIAL, ["--b", "\r\n--b\r\nX"]) == Parse(c, INITIAL, "\r\n--b\r\nX")
  {
    var later := "\r\n--b\r\nX";
    LostOpening(c, "--b", [later]);
    assert ["--b"] + [later] == ["--b", later] && [later][1..] == [];
  }

  lemma RestOfCut(c: Config)
    requires c.opening == "--b\r\n"
    ensures Parse(c, INITIAL, "\r\n--b\r\nX") == (INITIAL.(phase := Headers, rest := "X"), true)
  {
    assert "\r\n" + c.opening + "X" == "\r\n--b\r\nX";
    OpeningRead(c, "\r\n", "X");
    PendingText(c, INITIAL.(phase := NewEntry, rest := "X"));
  }

  lemma OpeningRead(c: Config, before: string, rest: string)
    requires c.opening == "--b\r\n" && before in {"", "\r\n"}
    ensures Parse(c, INITIAL, before + c.opening + rest) == Run(c, INITIAL.(phase := NewEntry, rest := rest))
  {
    var whole := Append(INITIAL, before + c.opening + rest);
    assert whole.rest == before + c.opening + rest;
    OpeningFound(before, c.opening, rest);
    assert Step(c, whole) == Goes(INITIAL.(phase := NewEntry, rest := rest));
  }

  lemma OpeningFound(before: string, opening: string, rest: string)
    requires opening != "" && opening[0] !in before
    ensures var text := before + opening + rest;
            && Find(text, opening) == |before| && text[|before|..] == opening + rest
            && (opening + rest)[..|opening|] == opening && (opening + rest)[|opening|..] == rest
  {
    var text := before + opening + rest;
    assert text[|before|..] == opening + rest;
    forall j | 0 <= j < |before|
      ensures !OccursAt(text, j, opening)
    {
      assert j + |opening| <= |text| ==> text[j..j + |opening|][0] == before[j];
    }
    FindIs(text, opening, |before|);
  }

  lemma PendingText(c: Config, p: Parser)
    requires p.phase.NewEntry? && p.rest == "X"
    ensures Run(c, p) == (p.(phase := Headers, file := NO_FILE_INFO), true)
  {
    var q := p.(phase := Headers, file := NO_FILE_INFO);
    assert Step(c, p) == Goes(q);
    NoLineEndIn("X");
    assert Step(c, q) == Stops(q, true);
  }

  lemma SecondLineRead(c: Config)
    ensures Run(c, INITIAL.(phase := NewEntry, rest := "--b\r\nX")) == (INITIAL.(phase := Headers, rest := "X"), true)
  {
    var p := INITIAL.(phase := NewEntry, rest := "--b\r\nX");
    var q := p.(phase := Headers, file := NO_FILE_INFO);
    assert Step(c, p) == Goes(q);
    NoLineEndIn("--b");
    assert q.rest == "--b" + CRLF + "X";
    LineRead(c, q, "--b", "X");
    assert ReadHeaderLine(NO_FILE_INFO, "--b") == NO_FILE_INFO;
    NoLineEndIn("X");
    assert Step(c, q) == Stops(q.(rest := "X"), true);
  }

  /** The text behind a lost first delimiter line can make up for it: two delimiter lines, the first of them cut, lead
      to where both lead in one call. So that the line is not cut is not needed for every text. */
  lemma CutOpeningRecovers(accepts: seq<Event> -> bool)
    requires forall history :: accepts(history)
    ensures var c := SetBoundary("b", accepts);
            Feed(c, INITIAL, ["--b", "\r\n--b\r\nX"]) == Parse(c, INITIAL, "--b\r\n--b\r\nX")
  {
    var c := SetBoundary("b", accepts);
    assert "" + c.opening + "--b\r\nX" == "--b\r\n--b\r\nX";
    OpeningRead(c, "", "--b\r\nX");
    SecondLineRead(c);
    RestOfCut(c);
    OpeningLost(c);
  }
}
