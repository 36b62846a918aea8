/** The texts that the chunked reader takes for a body: exactly which ones it reads to their end, which it ends at a
    wrong separator with success, and how it fails on the others. */
module ChunkGrammar {
  import opened Text
  import opened Wrappers
  import opened Hexadecimal
  import opened Streams
  import opened ChunkedTransfer

  /** A line with its newline. */
  predicate IsLine(line: string) { line != "" && LineOf(line) == line && line[|line| - 1] == '\n' }

  /** What is read as a line: one with its newline, or without it at the end of everything. */
  predicate IsLineBefore(line: string, rest: string) {
    line != "" && (IsLine(line) || ('\n' !in line && rest == ""))
  }

  /** A chunk with its size line, whatever that looks like: blanks, leading zeros, extensions. */
  datatype RawChunk = RawChunk(line: string, data: string)

  predicate Fits(c: RawChunk) {
    IsLine(c.line) && StrToUL(c.line) == Some(|c.data|) && 0 < |c.data| < ULONG_MAX
  }

  predicate AllFit(cs: seq<RawChunk>) { cs != [] ==> Fits(cs[0]) && AllFit(cs[1..]) }

  function ChunksText(cs: seq<RawChunk>): string {
    if cs == [] then "" else cs[0].line + (cs[0].data + (CRLF + ChunksText(cs[1..])))
  }

  function AllData(cs: seq<RawChunk>): string {
    if cs == [] then "" else cs[0].data + AllData(cs[1..])
  }

  // ----- Lines -----

  lemma {:induction false} NewlineEnds(s: string)
    ensures '\n' !in s[..if LineLength(s) == 0 then 0 else LineLength(s) - 1]
    ensures LineLength(s) < |s| ==> LineLength(s) > 0 && s[LineLength(s) - 1] == '\n'
  {
    if s != "" && s[0] != '\n' {
      NewlineEnds(s[1..]);
      var n := LineLength(s);
      assert n > 1 ==> s[..n - 1] == [s[0]] + s[1..][..n - 2];
    }
  }

  /** A line in front of what follows it is what is read. */
  lemma LineRead(line: string, rest: string)
    requires IsLineBefore(line, rest)
    ensures LineOf(line + rest) == line && AfterLine(line + rest) == rest
  {
    if IsLine(line) {
      var x := line[..|line| - 1];
      NewlineEnds(line);
      assert line == x + "\n";
      LineIs(x, rest);
    } else {
      LineIs(line, "");
      assert line + rest == line;
    }
  }

  /** And what is read is such a line. */
  lemma LineIsRead(s: string)
    requires s != ""
    ensures s == LineOf(s) + AfterLine(s) && IsLineBefore(LineOf(s), AfterLine(s))
    ensures AfterLine(s) != "" ==> IsLine(LineOf(s))
  {
    var n := LineLength(s);
    NewlineEnds(s);
    if s[n - 1] == '\n' {
      var x := s[..n - 1];
      assert LineOf(s) == x + "\n" && x + "\n" + "" == x + "\n";
      LineIs(x, "");
    } else {
      assert n == |s| && s[..n] == s[..n - 1] + [s[n - 1]];
    }
  }

  // ----- Reading forwards -----

  lemma ChunkRead(c: RawChunk, next: string)
    requires Fits(c)
    ensures Dechunk(c.line + (c.data + (CRLF + next))) == Behind(c.data, Dechunk(next))
  {
    LineRead(c.line, c.data + (CRLF + next));
    DechunkChunk(c.line, c.data, next);
  }

  /** Chunks are read, and then what stands behind them. */
  lemma {:induction false} ChunksRead(cs: seq<RawChunk>, rest: string)
    requires AllFit(cs)
    ensures Dechunk(ChunksText(cs) + rest) == Behind(AllData(cs), Dechunk(rest))
  {
    if cs == [] {
      NothingBefore(rest);
      NothingBefore(Dechunk(rest).body);
    } else {
      var later := ChunksText(cs[1..]);
      ChunksRead(cs[1..], rest);
      ChunkRead(cs[0], later + rest);
      BehindBehind(cs[0].data, AllData(cs[1..]), Dechunk(rest));
      ChunkMoves(cs[0].line, cs[0].data, CRLF, later, rest);
    }
  }

  lemma ChunkMoves(line: string, data: string, end: string, later: string, rest: string)
    ensures (line + (data + (end + later))) + rest == line + (data + (end + (later + rest)))
  {
  }

  /** A line that is no size, or the largest number, ends the reading; so does the end of everything. */
  lemma NoSizeFails(line: string, rest: string)
    requires IsLineBefore(line, rest) && (StrToUL(line) == None || StrToUL(line) == Some(ULONG_MAX))
    ensures Dechunk(line + rest) == Decoded(Failed, "", rest) && Dechunk("") == Decoded(Failed, "", "")
  {
    LineRead(line, rest);
  }

  /** A size of zero ends the body, well if an empty line follows. Trailers are not read. */
  lemma ZeroEnds(line: string, next: string, rest: string)
    requires IsLine(line) && StrToUL(line) == Some(0) && IsLineBefore(next, rest)
    ensures Dechunk(line + (next + rest)) == Decoded(if next == CRLF then Complete else Failed, "", rest)
    ensures Dechunk(line) == Decoded(Failed, "", "")
  {
    LineRead(line, next + rest);
    LineRead(next, rest);
    LineRead(line, "");
    NothingBehind(line);
  }

  /** Data that is cut off is delivered, and the reading fails. */
  lemma CutOffFails(line: string, size: nat, data: string)
    requires IsLine(line) && StrToUL(line) == Some(size) && 0 < size < ULONG_MAX && |data| <= size
    ensures Dechunk(line + data) == Decoded(Failed, data, "")
  {
    LineRead(line, data);
    assert |data| == size ==> data[..size] == data && data[size..] == "";
  }

  /** Data followed by a line other than CRLF ends the reading. */
  lemma WrongSeparator(c: RawChunk, next: string, rest: string)
    requires Fits(c) && IsLineBefore(next, rest) && next != CRLF
    ensures Dechunk(c.line + (c.data + (next + rest))) == Decoded(BadSeparator, c.data, rest)
  {
    LineRead(c.line, c.data + (next + rest));
    DataRead(c.line, c.data, next + rest);
    LineRead(next, rest);
    NothingBehind(c.data);
  }

  // ----- Reading backwards -----

  predicate IsBody(cs: seq<RawChunk>, zero: string) { AllFit(cs) && IsLine(zero) && StrToUL(zero) == Some(0) }

  /** The text of a body with something behind it. */
  function BodyText(cs: seq<RawChunk>, zero: string, tail: string): string {
    ChunksText(cs) + (zero + (CRLF + tail))
  }

  predicate IsCut(cs: seq<RawChunk>, c: RawChunk, next: string, rest: string) {
    AllFit(cs) && Fits(c) && IsLineBefore(next, rest) && next != CRLF
  }

  /** The text of chunks of which the last has a wrong separator. */
  function CutText(cs: seq<RawChunk>, c: RawChunk, next: string, rest: string): string {
    ChunksText(cs) + (c.line + (c.data + (next + rest)))
  }

  lemma CrlfIsLine(rest: string)
    ensures IsLine(CRLF) && IsLineBefore(CRLF, rest)
  {
    LineOfCrlf("");
    NothingBehind(CRLF);
  }

  lemma BodyRead(cs: seq<RawChunk>, zero: string, tail: string)
    requires IsBody(cs, zero)
    ensures Dechunk(BodyText(cs, zero, tail)) == Decoded(Complete, AllData(cs), tail)
  {
    CrlfIsLine(tail);
    ZeroEnds(zero, CRLF, tail);
    ChunksRead(cs, zero + (CRLF + tail));
    NothingBehind(AllData(cs));
  }

  lemma CutRead(cs: seq<RawChunk>, c: RawChunk, next: string, rest: string)
    requires IsCut(cs, c, next, rest)
    ensures Dechunk(CutText(cs, c, next, rest)) == Decoded(BadSeparator, AllData(cs) + c.data, rest)
  {
    WrongSeparator(c, next, rest);
    ChunksRead(cs, c.line + (c.data + (next + rest)));
  }

  /** The chunk a text begins with, if it is read as one. */
  lemma FirstChunk(s: string) returns (c: RawChunk, t: string)
    requires Dechunk(s).ending != Failed && StrToUL(LineOf(s)) != Some(0)
    ensures Fits(c) && s == c.line + (c.data + t) && t != "" && |t| < |s|
    ensures if LineOf(t) == CRLF then Dechunk(s) == Behind(c.data, Dechunk(AfterLine(t)))
            else Dechunk(s).ending == BadSeparator
  {
    var line, rest := LineOf(s), AfterLine(s);
    var size := StrToUL(line).value;
    LineIsRead(s);
    c, t := RawChunk(line, rest[..size]), rest[size..];
    assert rest == c.data + t;
  }

  lemma OneChunkMore(c: RawChunk, cs: seq<RawChunk>, t: string, rest: string)
    requires Fits(c) && AllFit(cs) && t == CRLF + (ChunksText(cs) + rest)
    ensures AllFit([c] + cs) && c.line + (c.data + t) == ChunksText([c] + cs) + rest
  {
    assert ([c] + cs)[1..] == cs;
    ChunkMoves(c.line, c.data, CRLF, ChunksText(cs), rest);
  }

  lemma {:induction false} BodyIs(s: string) returns (cs: seq<RawChunk>, zero: string, tail: string)
    requires Dechunk(s).ending == Complete
    ensures IsBody(cs, zero) && s == BodyText(cs, zero, tail)
    decreases |s|
  {
    if StrToUL(LineOf(s)) == Some(0) {
      var rest := AfterLine(s);
      LineIsRead(s);
      LineIsRead(rest);
      cs, zero, tail := [], LineOf(s), AfterLine(rest);
      NothingBefore(zero + (CRLF + tail));
    } else {
      var c, t := FirstChunk(s);
      LineIsRead(t);
      cs, zero, tail := BodyIs(AfterLine(t));
      OneChunkMore(c, cs, t, zero + (CRLF + tail));
      cs := [c] + cs;
    }
  }

  lemma {:induction false} CutIs(s: string) returns (cs: seq<RawChunk>, c: RawChunk, next: string, rest: string)
    requires Dechunk(s).ending == BadSeparator
    ensures IsCut(cs, c, next, rest) && s == CutText(cs, c, next, rest)
    decreases |s|
  {
    var t;
    c, t := FirstChunk(s);
    LineIsRead(t);
    if LineOf(t) == CRLF {
      var first := c;
      cs, c, next, rest := CutIs(AfterLine(t));
      OneChunkMore(first, cs, t, c.line + (c.data + (next + rest)));
      cs := [first] + cs;
    } else {
      cs, next, rest := [], LineOf(t), AfterLine(t);
      NothingBefore(c.line + (c.data + (next + rest)));
    }
  }

  /** A body is read to its end exactly when it is chunks, a size of zero and an empty line; then their data is
      delivered, and what stands behind it is left. */
  lemma CompleteExactly(s: string)
    ensures Dechunk(s).ending == Complete <==>
              exists cs, zero, tail :: IsBody(cs, zero) && s == BodyText(cs, zero, tail)
    ensures forall cs, zero, tail :: IsBody(cs, zero) && s == BodyText(cs, zero, tail) ==>
              Dechunk(s) == Decoded(Complete, AllData(cs), tail)
  {
    if Dechunk(s).ending == Complete {
      var cs, zero, tail := BodyIs(s);
      assert IsBody(cs, zero) && s == BodyText(cs, zero, tail);
    }
    forall cs, zero, tail | IsBody(cs, zero) && s == BodyText(cs, zero, tail)
      ensures Dechunk(s) == Decoded(Complete, AllData(cs), tail)
    {
      BodyRead(cs, zero, tail);
    }
  }

  /** Without its terminator it is taken for complete exactly when a chunk's data is followed by another line than
      CRLF. */
  lemma SeparatorExactly(s: string)
    ensures Dechunk(s).ending == BadSeparator <==>
              exists cs, c, next, rest :: IsCut(cs, c, next, rest) && s == CutText(cs, c, next, rest)
    ensures forall cs, c, next, rest :: IsCut(cs, c, next, rest) && s == CutText(cs, c, next, rest) ==>
              Dechunk(s) == Decoded(BadSeparator, AllData(cs) + c.data, rest)
  {
    if Dechunk(s).ending == BadSeparator {
      var cs, c, next, rest := CutIs(s);
      assert IsCut(cs, c, next, rest) && s == CutText(cs, c, next, rest);
    }
    forall cs, c, next, rest | IsCut(cs, c, next, rest) && s == CutText(cs, c, next, rest)
      ensures Dechunk(s) == Decoded(BadSeparator, AllData(cs) + c.data, rest)
    {
      CutRead(cs, c, next, rest);
    }
  }

  /** The provider is asked again after an action exactly when the action was a write of something. */
  lemma AskedAgain(actions: seq<Action>, last: Action)
    ensures DataAvailable(actions + [last]) <==> last.Write? && last.data != ""
    ensures DataAvailable([])
  {
    assert (actions + [last])[|actions|] == last;
  }
}
