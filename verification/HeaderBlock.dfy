/** Header blocks: `write_headers` against `read_headers` over a connection, line by line, and what `set_header` lets
    into them. */
module HeaderBlock {
  import opened Text
  import opened Wrappers
  import opened Percent
  import opened Multimap
  import opened Streams

  const HEADER_MAX_LENGTH: nat := 8192

  type Header = Entry
  type Headers = Entries

  /** `detail::ci`: by bytes, without regard to case. */
  predicate CiLess(a: string, b: string) {
    b != "" && (a == "" || ToLower(a[0]) < ToLower(b[0]) || (ToLower(a[0]) == ToLower(b[0]) && CiLess(a[1..], b[1..])))
  }

  const CI: Order := (a: string, b: string) => CiLess(a, b)

  // ----- Writing -----

  /** What `c_str()` shows of a string: the part before a NUL. */
  function CStr(s: string): string { s[..SegmentLength(s, '\0')] }

  function HeaderText(h: Header): string { CStr(h.0) + ": " + CStr(h.1) }

  function HeaderLines(hs: Headers): string {
    if hs == [] then "" else HeaderText(hs[0]) + CRLF + HeaderLines(hs[1..])
  }

  function BlockText(hs: Headers): string { HeaderLines(hs) + CRLF }

  lemma {:induction false} HeaderLinesAppend(a: Headers, b: Headers)
    ensures HeaderLines(a + b) == HeaderLines(a) + HeaderLines(b)
  {
    if a == [] {
      assert a + b == b;
    } else {
      HeaderLinesAppend(a[1..], b);
      assert (a + b)[1..] == a[1..] + b;
      Associates(HeaderText(a[0]) + CRLF, HeaderLines(a[1..]), HeaderLines(b));
    }
  }

  lemma LinesUpTo(headers: Headers, i: nat)
    requires i <= |headers|
    ensures HeaderLines(headers[..i]) <= BlockText(headers)
    ensures i < |headers| ==>
              HeaderLines(headers[..i + 1]) == HeaderLines(headers[..i]) + (HeaderText(headers[i]) + CRLF)
  {
    HeaderLinesAppend(headers[..i], headers[i..]);
    assert headers[..i] + headers[i..] == headers;
    if i < |headers| {
      HeaderLinesAppend(headers[..i], [headers[i]]);
      assert headers[..i + 1] == headers[..i] + [headers[i]];
      assert HeaderLines([headers[i]]) == HeaderText(headers[i]) + CRLF + "";
    }
  }

  /** `write_headers`. A write that fails ends it; `reliable` says that none does. */
  method WriteHeaders(headers: Headers, reliable: bool) returns (written: string, writeLen: int)
    ensures writeLen >= 0 ==> written == BlockText(headers) && writeLen == |written|
    ensures writeLen < 0 ==> !reliable && written <= BlockText(headers)
  {
    written, writeLen := "", 0;
    for i := 0 to |headers|
      invariant written == HeaderLines(headers[..i]) && writeLen == |written|
    {
      LinesUpTo(headers, i);
      var fails: bool := *;
      if fails && !reliable { return written, -1; }
      var line := CStr(headers[i].0) + ": " + CStr(headers[i].1) + CRLF;
      written, writeLen := written + line, writeLen + |line|;
    }
    LinesUpTo(headers, |headers|);
    assert headers[..|headers|] == headers;
    var fails: bool := *;
    if fails && !reliable { return written, -1; }
    written, writeLen := written + CRLF, writeLen + |CRLF|;
  }

  // ----- Reading -----

  function TrimRight(s: string): string {
    if s != "" && IsSpaceOrTab(s[|s| - 1]) then TrimRight(s[..|s| - 1]) else s
  }

  function TrimLeft(s: string): string {
    if s != "" && IsSpaceOrTab(s[0]) then TrimLeft(s[1..]) else s
  }

  function ParsedTrimmed(t: string): Option<Header> {
    var n := SegmentLength(t, ':');
    if n == |t| then None
    else
      var value := TrimLeft(t[n + 1..]);
      if value == "" then None else Some((t[..n], Decoded(value, false)))
  }

  /** The header that a line without its terminator means, if it is one. */
  function ParsedHeader(line: string): Option<Header> { ParsedTrimmed(TrimRight(line)) }

  /** The first loop of `parse_header`: blanks at the end of the line. */
  method SkipTrailing(line: string) returns (end: nat)
    ensures end <= |line| && line[..end] == TrimRight(line)
  {
    end := |line|;
    assert line[..|line|] == line;
    while 0 < end && IsSpaceOrTab(line[end - 1])
      invariant end <= |line| && TrimRight(line[..end]) == TrimRight(line)
    {
      assert line[..end][..end - 1] == line[..end - 1];
      end := end - 1;
    }
  }

  /** The second loop: the key. */
  method FindColon(t: string) returns (p: nat)
    ensures p == SegmentLength(t, ':')
  {
    p := 0;
    assert t[0..] == t;
    while p < |t| && t[p] != ':'
      invariant p <= |t| && SegmentLength(t, ':') == p + SegmentLength(t[p..], ':')
    {
      assert t[p..][1..] == t[p + 1..];
      p := p + 1;
    }
  }

  /** The third loop: blanks before the value. */
  method SkipLeading(t: string, from: nat) returns (p: nat)
    requires from <= |t|
    ensures from <= p <= |t| && t[p..] == TrimLeft(t[from..])
  {
    p := from;
    while p < |t| && IsSpaceOrTab(t[p])
      invariant from <= p <= |t| && TrimLeft(t[p..]) == TrimLeft(t[from..])
    {
      assert t[p..][1..] == t[p + 1..];
      p := p + 1;
    }
  }

  /** `parse_header` */
  method ParseHeader(line: string) returns (h: Option<Header>)
    ensures h == ParsedHeader(line)
  {
    var end := SkipTrailing(line);
    var t := line[..end];
    var keyEnd := FindColon(t);
    if keyEnd == |t| { return None; }
    var p := SkipLeading(t, keyEnd + 1);
    if p < |t| {
      var value := DecodeUrl(t[p..], false);
      return Some((t[..keyEnd], value));
    }
    return None;
  }

  datatype ReadResult = ReadResult(ok: bool, headers: Headers, rest: string)

  predicate EndsWithCrlf(line: string) { |line| >= 2 && line[|line| - 2..] == CRLF }

  function Added(headers: Headers, h: Option<Header>): Headers {
    if h == None then headers else Emplace(CI, headers, h.value)
  }

  /** `read_headers` on all that is to come, with the headers so far. Lines without CRLF are skipped. */
  function ReadBlock(s: string, headers: Headers): ReadResult
    decreases |s|
  {
    if s == "" then ReadResult(false, headers, "")
    else
      var line, rest := LineOf(s), AfterLine(s);
      if !EndsWithCrlf(line) then ReadBlock(rest, headers)
      else if |line| == 2 then ReadResult(true, headers, rest)
      else if |line| > HEADER_MAX_LENGTH then ReadResult(false, headers, rest)
      else ReadBlock(rest, Added(headers, ParsedHeader(line[..|line| - 2])))
  }

  /** `parse_header` with the callback of `read_headers` */
  method AddHeader(line: string, headers: Headers) returns (added: Headers)
    ensures added == Added(headers, ParsedHeader(line))
  {
    var h := ParseHeader(line);
    added := if h == None then headers else Emplace(CI, headers, h.value);
  }

  /** `read_headers` */
  method ReadHeaders(strm: SocketStream) returns (ok: bool, headers: Headers)
    requires strm.Valid()
    modifies strm, strm.readBuff
    ensures strm.Valid()
    ensures ok || strm.reliable ==>
              ReadBlock(old(strm.Pending()), []) == ReadResult(ok, headers, strm.Pending())
  {
    headers := [];
    var lineReader := new StreamLineReader(strm, 2048);
    while true
      invariant lineReader.Valid() && fresh(lineReader) && fresh(lineReader.fixedBuffer) && lineReader.strm == strm
      invariant ReadBlock(strm.Pending(), headers) == ReadBlock(old(strm.Pending()), [])
      decreases |strm.Pending()|
    {
      ok := lineReader.GetLine();
      if !ok { return; }
      var line := lineReader.Line();
      if EndsWithCrlf(line) {
        if |line| == 2 { return; }
        if |line| > HEADER_MAX_LENGTH { return false, headers; }
        headers := AddHeader(line[..|line| - 2], headers);
      }
    }
  }

  // ----- set_header -----

  predicate CrlfFree(s: string) { '\r' !in CStr(s) && '\n' !in CStr(s) }

  /** `has_crlf` */
  method HasCrlf(s: string) returns (r: bool)
    ensures r == !CrlfFree(s)
  {
    var shown := CStr(s);
    for i := 0 to |shown|
      invariant '\r' !in shown[..i] && '\n' !in shown[..i]
    {
      if shown[i] == '\r' || shown[i] == '\n' { return true; }
      assert shown[..i + 1] == shown[..i] + [shown[i]];
    }
    assert shown[..|shown|] == shown;
    return false;
  }

  predicate AllCrlfFree(hs: Headers) {
    forall h <- hs :: CrlfFree(h.0) && CrlfFree(h.1)
  }

  /** `set_header` */
  method SetHeader(headers: Headers, key: string, val: string) returns (headers': Headers)
    ensures headers' == if CrlfFree(key) && CrlfFree(val) then Emplace(CI, headers, (key, val)) else headers
    ensures AllCrlfFree(headers) ==> AllCrlfFree(headers')
  {
    var bad := HasCrlf(key);
    if !bad {
      bad := HasCrlf(val);
    }
    headers' := if bad then headers else Emplace(CI, headers, (key, val));
  }

  // ----- Reading what was written -----

  predicate FitsLine(h: Header) { |HeaderText(h)| + 2 <= HEADER_MAX_LENGTH }

  /** What reading makes of headers that were written: each is parsed from its own line. */
  function Reread(hs: Headers, before: Headers): Headers
    decreases |hs|
  {
    if hs == [] then before else Reread(hs[1..], Added(before, ParsedHeader(HeaderText(hs[0]))))
  }

  lemma LineOfHeader(text: string, rest: string)
    requires '\n' !in text
    ensures LineOf(text + CRLF + rest) == text + CRLF && AfterLine(text + CRLF + rest) == rest
  {
    LineIs(text + "\r", rest);
    assert text + "\r" + "\n" + rest == text + CRLF + rest && text + "\r" + "\n" == text + CRLF;
  }

  lemma HeaderTextHasNoNewline(h: Header)
    requires CrlfFree(h.0) && CrlfFree(h.1)
    ensures '\n' !in HeaderText(h) && |HeaderText(h)| >= 2
  {
  }

  lemma ReadStep(text: string, rest: string, before: Headers)
    requires '\n' !in text && 0 < |text| <= HEADER_MAX_LENGTH - 2
    ensures ReadBlock(text + CRLF + rest, before) == ReadBlock(rest, Added(before, ParsedHeader(text)))
  {
    LineOfHeader(text, rest);
    assert (text + CRLF)[..|text|] == text && (text + CRLF)[|text|..] == CRLF;
  }

  /** Headers that `set_header` lets in cannot break out of their lines: whatever their keys and values are, reading the
      block takes each from its own line, and ends where the block ends. */
  lemma {:induction false} BlockIsReread(hs: Headers, tail: string, before: Headers)
    requires AllCrlfFree(hs) && forall h <- hs :: FitsLine(h)
    ensures ReadBlock(BlockText(hs) + tail, before) == ReadResult(true, Reread(hs, before), tail)
    decreases |hs|
  {
    if hs == [] {
      LineOfHeader("", tail);
      assert "" + CRLF + tail == CRLF + tail && BlockText(hs) == CRLF && "" + CRLF == CRLF;
    } else {
      var h := hs[0];
      assert h in hs;
      HeaderTextHasNoNewline(h);
      ReadStep(HeaderText(h), BlockText(hs[1..]) + tail, before);
      BlockIsReread(hs[1..], tail, Added(before, ParsedHeader(HeaderText(h))));
      Regroup(HeaderText(h) + CRLF, HeaderLines(hs[1..]), CRLF, tail);
    }
  }

  lemma Regroup(a: string, b: string, c: string, d: string)
    ensures ((a + b) + c) + d == a + ((b + c) + d)
  {
  }

  /** A line that is too long ends the reading. */
  lemma LongLineFails(h: Header, hs: Headers, tail: string, before: Headers)
    requires CrlfFree(h.0) && CrlfFree(h.1) && !FitsLine(h)
    ensures !ReadBlock(BlockText([h] + hs) + tail, before).ok
  {
    HeaderTextHasNoNewline(h);
    LineOfHeader(HeaderText(h), BlockText(hs) + tail);
    assert ([h] + hs)[1..] == hs;
    Regroup(HeaderText(h) + CRLF, HeaderLines(hs), CRLF, tail);
    assert (HeaderText(h) + CRLF)[|HeaderText(h)|..] == CRLF;
  }

  // ----- Which headers come back -----

  predicate Comes(h: Header) {
    ParsedHeader(HeaderText(h)) == Some(h)
  }

  lemma TrimRightOf(a: string, b: string)
    requires b != "" && !IsSpaceOrTab(b[|b| - 1])
    ensures TrimRight(a + b) == a + b && TrimRight(b) == b
  {
  }

  lemma {:induction false} TrimRightBlank(a: string, b: string)
    requires forall i :: 0 <= i < |b| ==> IsSpaceOrTab(b[i])
    ensures TrimRight(a + b) == TrimRight(a)
    decreases |b|
  {
    if b == "" {
      assert a + b == a;
    } else {
      assert (a + b)[..|a + b| - 1] == a + b[..|b| - 1];
      TrimRightBlank(a, b[..|b| - 1]);
    }
  }

  /** A key with nothing but blanks behind the colon is no header. */
  lemma BlankValueReads(key: string, blanks: string)
    requires ':' !in key && forall i :: 0 <= i < |blanks| ==> IsSpaceOrTab(blanks[i])
    ensures ParsedHeader(key + ": " + blanks) == None
  {
    assert key + ": " + blanks == (key + ":") + (" " + blanks);
    TrimRightBlank(key + ":", " " + blanks);
    TrimRightOf(key, ":");
    SegmentIs(key, ':', "");
    assert key + ":" == key + [':'] + "";
    assert (key + ":")[|key| + 1..] == "";
  }

  lemma ValueReads(key: string, v: string, blanks: string)
    requires ':' !in key && v != "" && !IsSpaceOrTab(v[|v| - 1])
    requires forall i :: 0 <= i < |blanks| ==> IsSpaceOrTab(blanks[i])
    ensures ParsedHeader(key + ": " + (v + blanks))
         == if TrimLeft(v) == "" then None else Some((key, Decoded(TrimLeft(v), false)))
  {
    var t := key + ": " + v;
    assert key + ": " + (v + blanks) == t + blanks;
    TrimRightBlank(t, blanks);
    TrimRightOf(key + ": ", v);
    TrimmedReads(key, v, t);
  }

  lemma TrimmedReads(key: string, v: string, t: string)
    requires ':' !in key && t == key + ": " + v
    ensures ParsedTrimmed(t) == if TrimLeft(v) == "" then None else Some((key, Decoded(TrimLeft(v), false)))
  {
    SegmentIs(key, ':', " " + v);
    assert t == key + [':'] + (" " + v);
    assert t[|key| + 1..] == " " + v && (" " + v)[1..] == v && t[..|key|] == key;
  }

  /** How a header line with a key that has no colon reads: with the trimmed value, decoded, or not at all. */
  lemma HeaderReads(key: string, value: string)
    requires ':' !in key
    ensures var v := TrimLeft(TrimRight(value));
            ParsedHeader(key + ": " + value) == if v == "" then None else Some((key, Decoded(v, false)))
  {
    SplitBlanks(value);
    var v, blanks := TrimRight(value), value[|TrimRight(value)|..];
    if v == "" {
      assert value == blanks;
      BlankValueReads(key, value);
    } else {
      ValueReads(key, v, blanks);
    }
  }

  lemma {:induction false} SplitBlanks(s: string)
    ensures var t := TrimRight(s);
            && |t| <= |s| && s == t + s[|t|..]
            && (forall i :: |t| <= i < |s| ==> IsSpaceOrTab(s[i]))
            && (t != "" ==> !IsSpaceOrTab(t[|t| - 1]))
  {
    if s != "" && IsSpaceOrTab(s[|s| - 1]) {
      SplitBlanks(s[..|s| - 1]);
    }
  }

  lemma {:induction false} TrimLeftShrinks(s: string)
    ensures |TrimLeft(s)| <= |s| && (|TrimLeft(s)| == |s| <==> s == "" || !IsSpaceOrTab(s[0]))
    ensures |TrimLeft(s)| == |s| ==> TrimLeft(s) == s
  {
    if s != "" && IsSpaceOrTab(s[0]) {
      TrimLeftShrinks(s[1..]);
    }
  }

  lemma {:induction false} DecodedShrinks(s: string, plus: bool)
    ensures |Decoded(s, plus)| <= |s|
    decreases |s|
  {
    if s != "" {
      DecodedShrinks(s[DecodeFirst(s, plus).1..], plus);
    }
  }

  /** A header comes back exactly when its value has no blanks around it, is not empty, and is not changed by
      decoding. */
  lemma ComesBack(h: Header)
    requires CStr(h.0) == h.0 && CStr(h.1) == h.1 && ':' !in h.0
    ensures Comes(h) <==> h.1 != "" && Trimmed(h.1) && Decoded(h.1, false) == h.1
  {
    var key, value := h.0, h.1;
    HeaderReads(key, value);
    SplitBlanks(value);
    TrimLeftShrinks(TrimRight(value));
    DecodedShrinks(TrimLeft(TrimRight(value)), false);
    if Comes(h) {
      assert |TrimLeft(TrimRight(value))| == |value|;
    }
  }

  /** Values without a percent sign are not changed by decoding. */
  lemma {:induction false} NothingToDecode(s: string)
    requires '%' !in s
    ensures Decoded(s, false) == s
  {
    if s != "" {
      NothingToDecode(s[1..]);
    }
  }

  /** Headers as programs use them. */
  predicate Plain(h: Header) {
    && CrlfFree(h.0) && CrlfFree(h.1) && FitsLine(h) && CStr(h.0) == h.0 && CStr(h.1) == h.1
    && ':' !in h.0 && h.1 != "" && Trimmed(h.1) && '%' !in h.1
  }

  lemma {:induction false} PlainReread(hs: Headers, before: Headers)
    requires (forall h <- hs :: Plain(h)) && Sorted(CI, before + hs)
    ensures Reread(hs, before) == before + hs
    decreases |hs|
  {
    if hs == [] {
      assert before + hs == before;
    } else {
      assert hs[0] in hs;
      NothingToDecode(hs[0].1);
      ComesBack(hs[0]);
      EmplaceInOrder(CI, before, hs);
      PlainReread(hs[1..], before + [hs[0]]);
    }
  }

  /** The round trip: plain headers come back in order, and the stream is read to the end of the block. */
  lemma HeaderRoundTrip(hs: Headers, tail: string)
    requires (forall h <- hs :: Plain(h)) && Sorted(CI, hs)
    ensures ReadBlock(BlockText(hs) + tail, []) == ReadResult(true, hs, tail)
  {
    BlockIsReread(hs, tail, []);
    assert [] + hs == hs;
    PlainReread(hs, []);
  }

  // ----- Any block -----

  /** The order of header keys: two keys are the same exactly when they differ in the case of letters only. */
  lemma {:induction false} CiLessOrders(a: string, b: string, c: string)
    ensures CiLess(a, b) ==> !CiLess(b, a)
    ensures CiLess(a, c) ==> CiLess(a, b) || CiLess(b, c)
    ensures !CiLess(a, b) && !CiLess(b, a) <==> EqualIgnoringCase(a, b)
  {
    if a != "" && b != "" {
      CiLessOrders(a[1..], b[1..], if c == "" then "" else c[1..]);
      EqualTails(a, b);
    }
  }

  lemma EqualTails(a: string, b: string)
    requires a != "" && b != ""
    ensures EqualIgnoringCase(a, b) <==> ToLower(a[0]) == ToLower(b[0]) && EqualIgnoringCase(a[1..], b[1..])
  {
    if |a| == |b| && ToLower(a[0]) == ToLower(b[0]) && EqualIgnoringCase(a[1..], b[1..]) {
      forall i | 0 <= i < |a|
        ensures ToLower(a[i]) == ToLower(b[i])
      {
        assert i > 0 ==> a[i] == a[1..][i - 1] && b[i] == b[1..][i - 1];
      }
    }
  }

  lemma CiIsStrictWeak()
    ensures StrictWeak(CI)
  {
    forall a: string, b: string, c: string
      ensures (CI(a, b) ==> !CI(b, a)) && (CI(a, c) ==> CI(a, b) || CI(b, c))
    {
      CiLessOrders(a, b, c);
    }
  }

  /** How any line with a colon reads: the key before the first colon as it is, and the value without the blanks around
      it, decoded; no header if nothing is left of the value. */
  lemma LineReads(key: string, before: string, value: string, after: string)
    requires ':' !in key && AllSpaceOrTab(before) && AllSpaceOrTab(after) && Trimmed(value)
    ensures ParsedHeader(key + ":" + before + value + after)
         == if value == "" then None else Some((key, Decoded(value, false)))
  {
    var t := key + ":" + before + value;
    TrimRightBlank(t, after);
    if value == "" {
      assert t == (key + ":") + before;
      TrimRightBlank(key + ":", before);
      TrimRightOf(key, ":");
      SegmentIs(key, ':', "");
      assert key + ":" == key + [':'] + "" && (key + ":")[|key| + 1..] == "";
    } else {
      TrimRightOf(key + ":" + before, value);
      SegmentIs(key, ':', before + value);
      assert t == key + [':'] + (before + value);
      assert t[|key| + 1..] == before + value && t[..|key|] == key;
      TrimLeftOf(before, value);
    }
  }

  lemma {:induction false} TrimLeftOf(before: string, value: string)
    requires AllSpaceOrTab(before) && value != "" && !IsSpaceOrTab(value[0])
    ensures TrimLeft(before + value) == value
  {
    if before == "" {
      assert before + value == value;
    } else {
      assert (before + value)[1..] == before[1..] + value;
      TrimLeftOf(before[1..], value);
    }
  }

  /** A line without a colon is no header. */
  lemma NoColonReads(line: string)
    requires ':' !in line
    ensures ParsedHeader(line) == None
  {
    SplitBlanks(line);
    var t := TrimRight(line);
    assert ':' !in t;
    SegmentIs(t, ':', "");
  }

  /** A line of a block: with CRLF, or with a newline only. */
  datatype RawLine = RawLine(text: string, crlf: bool)

  predicate LineFits(l: RawLine) {
    && '\n' !in l.text
    && if l.crlf then 0 < |l.text| <= HEADER_MAX_LENGTH - 2 else l.text == "" || l.text[|l.text| - 1] != '\r'
  }

  predicate AllFit(lines: seq<RawLine>) { lines != [] ==> LineFits(lines[0]) && AllFit(lines[1..]) }

  function LinesText(lines: seq<RawLine>): string {
    if lines == [] then "" else lines[0].text + (if lines[0].crlf then CRLF else "\n") + LinesText(lines[1..])
  }

  /** Lines without CRLF are skipped; the others give the headers that they are. */
  function LinesHeaders(lines: seq<RawLine>, before: Headers): Headers
    decreases |lines|
  {
    if lines == [] then before
    else LinesHeaders(lines[1..], if lines[0].crlf then Added(before, ParsedHeader(lines[0].text)) else before)
  }

  lemma SkipStep(text: string, rest: string, before: Headers)
    requires '\n' !in text && (text == "" || text[|text| - 1] != '\r')
    ensures ReadBlock(text + "\n" + rest, before) == ReadBlock(rest, before)
  {
    LineIs(text, rest);
    assert |text + "\n"| >= 2 ==> (text + "\n")[|text + "\n"| - 2..][0] == text[|text| - 1];
  }

  lemma {:induction false} LinesRead(lines: seq<RawLine>, rest: string, before: Headers)
    requires AllFit(lines)
    ensures ReadBlock(LinesText(lines) + rest, before) == ReadBlock(rest, LinesHeaders(lines, before))
    decreases |lines|
  {
    if lines == [] {
      assert "" + rest == rest;
    } else {
      var l, later := lines[0], LinesText(lines[1..]) + rest;
      Associates(l.text + (if l.crlf then CRLF else "\n"), LinesText(lines[1..]), rest);
      if l.crlf {
        ReadStep(l.text, later, before);
        LinesRead(lines[1..], rest, Added(before, ParsedHeader(l.text)));
      } else {
        SkipStep(l.text, later, before);
        LinesRead(lines[1..], rest, before);
      }
    }
  }

  /** Any block of lines is read line by line: to its end at an empty line; or it fails, with the headers so far, at the
      end of everything or behind a line over the limit. */
  lemma AnyBlockReads(lines: seq<RawLine>, tail: string, before: Headers)
    requires AllFit(lines)
    ensures ReadBlock(LinesText(lines) + (CRLF + tail), before) == ReadResult(true, LinesHeaders(lines, before), tail)
    ensures '\n' !in tail ==>
              ReadBlock(LinesText(lines) + tail, before) == ReadResult(false, LinesHeaders(lines, before), "")
  {
    LinesRead(lines, CRLF + tail, before);
    LineOfHeader("", tail);
    assert "" + CRLF + tail == CRLF + tail && "" + CRLF == CRLF;
    if '\n' !in tail {
      LinesRead(lines, tail, before);
      CutOffFails(tail, LinesHeaders(lines, before));
    }
  }

  lemma NoCrlfAtEnd(s: string)
    requires '\n' !in s
    ensures !EndsWithCrlf(s)
  {
    assert |s| >= 2 ==> s[|s| - 2..][1] == s[|s| - 1];
  }

  lemma CutOffFails(s: string, headers: Headers)
    requires '\n' !in s
    ensures ReadBlock(s, headers) == ReadResult(false, headers, "")
  {
    LineIs(s, "");
    if s != "" {
      assert LineOf(s) == s && AfterLine(s) == "";
      NoCrlfAtEnd(s);
      assert ReadBlock(s, headers) == ReadBlock("", headers);
    }
  }

  lemma LongLineStops(lines: seq<RawLine>, text: string, tail: string, before: Headers)
    requires AllFit(lines) && '\n' !in text && |text| > HEADER_MAX_LENGTH - 2
    ensures ReadBlock(LinesText(lines) + (text + CRLF + tail), before)
         == ReadResult(false, LinesHeaders(lines, before), tail)
  {
    LinesRead(lines, text + CRLF + tail, before);
    LineOfHeader(text, tail);
    assert (text + CRLF)[|text|..] == CRLF;
  }

  /** Only what stands before a NUL is looked at and written. */
  lemma NulHides(a: string, b: string)
    requires '\0' !in a
    ensures CStr(a) == a && CStr(a + "\0" + b) == a
    ensures CrlfFree(a + "\0" + b) <==> '\r' !in a && '\n' !in a
  {
    SegmentIs(a, '\0', b);
    assert a[..|a|] == a && (a + "\0" + b)[..|a|] == a;
  }
}
