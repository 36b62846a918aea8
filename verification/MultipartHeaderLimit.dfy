/** The limit on header lines: only the line that is first in the buffer at a call is held against it. */
module MultipartHeaderLimit {
  import opened Text
  import opened PartHeader
  import opened Multipart
  import opened MultipartChunking
  import opened MultipartGrammar
  import opened MultipartRoundTrip

  /** A front of a line, or of a line with half its end, has no line end. */
  lemma FrontOfLine(line: string, rest: string, k: nat)
    requires Find(line, CRLF) == |line| && k <= |line| + 1
    ensures Find(line + CRLF + rest, CRLF) == |line|
    ensures Find((line + CRLF + rest)[..k], CRLF) == k
  {
    var text := line + CRLF + rest;
    FindBehind(line, CRLF, rest);
    assert text[..k] + text[k..] == text;
    FindInPrefix(text[..k], text[k..], CRLF);
  }

  /** A call that brings no line end. */
  lemma PendingLine(c: Config, p: Parser, data: string)
    requires p.phase.Headers? && p.rest == "" && Find(data, CRLF) == |data|
    ensures Parse(c, p, data) == (p.(rest := data), |data| <= MAX_HEADER_LENGTH)
  {
    assert Append(p, data) == p.(rest := data);
  }

  /** A header line that is cut in two calls. The first call fails exactly when more of the line than the limit
      comes with it; otherwise the second call makes of the line what one call makes of it, and that fails when the
      line is over the limit. */
  lemma FirstLineCut(c: Config, p: Parser, line: string, rest: string, k: nat)
    requires c.AcceptsAll() && p.phase.Headers? && !p.valid && p.rest == ""
    requires Find(line, CRLF) == |line| && k <= |line| + 1
    ensures var text := line + CRLF + rest;
            var (q, ok) := Parse(c, p, text[..k]);
            && (ok <==> k <= MAX_HEADER_LENGTH)
            && (ok && |line| <= MAX_HEADER_LENGTH ==>
                  && Same(Parse(c, q, text[k..]).0, Parse(c, p, text).0)
                  && Parse(c, q, text[k..]).1 == Parse(c, p, text).1)
            && (ok && |line| > MAX_HEADER_LENGTH ==> !Parse(c, q, text[k..]).1)
            && (|line| > MAX_HEADER_LENGTH ==> !Parse(c, p, text).1)
  {
    var text := line + CRLF + rest;
    FrontOfLine(line, rest, k);
    PendingLine(c, p, text[..k]);
    assert text[..k] + text[k..] == text && Append(p, text).rest == text;
    if |line| > MAX_HEADER_LENGTH {
      OverlongLineFails(c, Append(p, text));
    }
    if k <= MAX_HEADER_LENGTH {
      TwoCalls(c, p, text[..k], text[k..]);
    }
  }

  /** A line within the limit passes the check of one call. Cut, it fails exactly when it is as long as the limit and
      the cut is between the two characters of its line end. */
  lemma LimitLineCut(c: Config, p: Parser, line: string, rest: string, k: nat)
    requires c.AcceptsAll() && p.phase.Headers? && !p.valid && p.rest == ""
    requires Find(line, CRLF) == |line| <= MAX_HEADER_LENGTH && k <= |line| + 1
    ensures var text := line + CRLF + rest;
            && HeaderStep(c, Append(p, text)) == HeaderLines(c, Append(p, text))
            && (!Parse(c, p, text[..k]).1 <==> |line| == MAX_HEADER_LENGTH && k == |line| + 1)
  {
    var text := line + CRLF + rest;
    FrontOfLine(line, rest, k);
    assert Append(p, text).rest == text;
    FirstLineCut(c, p, line, rest, k);
  }

  /** Such a line, cut there: the call fails though the line would be accepted whole. */
  lemma LimitLineFails(c: Config, p: Parser, rest: string)
    requires c.AcceptsAll() && p.phase.Headers? && !p.valid && p.rest == ""
    ensures var line := seq(MAX_HEADER_LENGTH, _ => 'x');
            && !Parse(c, p, line + "\r").1
            && HeaderStep(c, Append(p, line + CRLF + rest)) == HeaderLines(c, Append(p, line + CRLF + rest))
  {
    var line := seq(MAX_HEADER_LENGTH, _ => 'x');
    NoLineEndIn(line);
    LimitLineCut(c, p, line, rest, |line| + 1);
    assert (line + CRLF + rest)[..|line| + 1] == line + "\r";
  }

  /** The line behind the first is not held against the limit when it comes with the first: it is read, whatever its
      length. When it is cut, the first call succeeds, and the second goes on as one call does exactly when the line is
      within the limit; otherwise it fails. */
  lemma LaterLineCut(c: Config, p: Parser, first: string, second: string, rest: string, k: nat)
    requires c.AcceptsAll() && p.phase.Headers? && !p.valid && p.rest == ""
    requires Find(first, CRLF) == |first| && 0 < |first| <= MAX_HEADER_LENGTH
    requires Find(second, CRLF) == |second| && 0 < |second| && k <= |second| + 1
    ensures var later, file := second + CRLF + rest, ReadHeaderLine(p.file, first);
            var whole := first + CRLF + later;
            && HeaderStep(c, Append(p, whole))
               == HeaderLines(c, p.(file := ReadHeaderLine(file, second), rest := rest))
            && var (q, ok) := Parse(c, p, first + CRLF + later[..k]);
            && ok && q == p.(file := file, rest := later[..k])
            && if |second| <= MAX_HEADER_LENGTH then
                 && Same(Parse(c, q, later[k..]).0, Parse(c, p, whole).0)
                 && Parse(c, q, later[k..]).1 == Parse(c, p, whole).1
               else !Parse(c, q, later[k..]).1
  {
    var later, file := second + CRLF + rest, ReadHeaderLine(p.file, first);
    CutWithin(first + CRLF, later, k);
    BothAccepted(c, p, first, second, rest);
    FirstLineRead(c, p, first, second, rest, k);
    FrontOfLine(second, rest, k);
    TwoCalls(c, p, first + CRLF + later[..k], later[k..]);
  }

  lemma CutWithin(before: string, s: string, k: nat)
    requires k <= |s|
    ensures (before + s[..k]) + s[k..] == before + s
    ensures s[..k] + s[k..] == s
  {
  }

  lemma BothAccepted(c: Config, p: Parser, first: string, second: string, rest: string)
    requires p.phase.Headers? && p.rest == ""
    requires Find(first, CRLF) == |first| && 0 < |first| <= MAX_HEADER_LENGTH
    requires Find(second, CRLF) == |second| && 0 < |second|
    ensures var file := ReadHeaderLine(p.file, first);
            HeaderStep(c, Append(p, first + CRLF + (second + CRLF + rest)))
            == HeaderLines(c, p.(file := ReadHeaderLine(file, second), rest := rest))
  {
    var later := second + CRLF + rest;
    assert Append(p, first + CRLF + later).rest == first + CRLF + later;
    LineRead(c, Append(p, first + CRLF + later), first, later);
    LineRead(c, p.(file := ReadHeaderLine(p.file, first), rest := later), second, rest);
  }

  lemma FirstLineRead(c: Config, p: Parser, first: string, second: string, rest: string, k: nat)
    requires c.AcceptsAll() && p.phase.Headers? && p.rest == ""
    requires Find(first, CRLF) == |first| && 0 < |first| <= MAX_HEADER_LENGTH
    requires Find(second, CRLF) == |second| && 0 < |second| && k <= |second| + 1
    ensures var later := second + CRLF + rest;
            Parse(c, p, first + CRLF + later[..k])
            == (p.(file := ReadHeaderLine(p.file, first), rest := later[..k]), true)
  {
    var pending := (second + CRLF + rest)[..k];
    FrontOfLine(second, rest, k);
    var q := Append(p, first + CRLF + pending);
    assert q.rest == first + CRLF + pending;
    LineRead(c, q, first, pending);
    assert HeaderStep(c, q) == Stops(p.(file := ReadHeaderLine(p.file, first), rest := pending), true);
  }
}
