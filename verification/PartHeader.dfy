/** Header lines of a multipart part: how the parser reads them into the part's description, and how the
    serializer writes them. */
module PartHeader {
  import opened Text
  import opened Wrappers

  /** `MultipartFormData` without its content. */
  datatype FileInfo = FileInfo(name: string, filename: string, contentType: string)

  const NO_FILE_INFO: FileInfo := FileInfo("", "", "")

  // ----- The regular expression for Content-Disposition, as a backtracking matcher -----
  //
  // Each function consumes the front of its argument. A blank run is followed by a character that is not blank
  // wherever the pattern continues with a literal, so only the two lazy groups have anything to backtrack over.

  const DISPOSITION: string := "Content-Disposition:"
  const FORM_DATA: string := "form-data;"
  const NAME_QUOTE: string := "name=\""
  const FILENAME_QUOTE: string := "filename=\""
  const FILENAME_STAR: string := "filename*="

  function SkipNonSpaces(s: string): string {
    if s != "" && !IsSpace(s[0]) then SkipNonSpaces(s[1..]) else s
  }

  function StripLiteral(s: string, literal: string): Option<string> {
    if |literal| <= |s| && EqualIgnoringCase(s[..|literal|], literal) then Some(s[|literal|..]) else None
  }

  /** `literal1 \s* literal2` */
  function StripSpaced(s: string, literal1: string, literal2: string): Option<string> {
    match StripLiteral(s, literal1)
    case None => None
    case Some(t) => StripLiteral(SkipSpaces(t), literal2)
  }

  /** `(?:;\s*filename\*=\S+)?\s*$` */
  predicate EndMatches(s: string) {
    || SkipSpaces(s) == ""
    || match StripSpaced(s, ";", FILENAME_STAR)
       case None => false
       case Some(t) => t != "" && !IsSpace(t[0]) && SkipSpaces(SkipNonSpaces(t)) == ""
  }

  /** `(.*?)"` followed by the end of the pattern; `read` is what the group has taken so far. */
  function FilenameGroup(s: string, read: string): Option<string> {
    if s == "" then None
    else if s[0] == '"' && EndMatches(s[1..]) then Some(read)
    else if s[0] == '\r' || s[0] == '\n' then None
    else FilenameGroup(s[1..], read + [s[0]])
  }

  /** `(?:;\s*filename="(.*?)")?` followed by the end of the pattern; an absent group gives "". */
  function AfterName(s: string): Option<string> {
    var group := match StripSpaced(s, ";", FILENAME_QUOTE)
                 case None => None
                 case Some(t) => FilenameGroup(t, "");
    if group.Some? then group
    else if EndMatches(s) then Some("")
    else None
  }

  /** `(.*?)"` followed by the rest of the pattern. */
  function NameGroup(s: string, read: string): Option<(string, string)> {
    if s == "" then None
    else if s[0] == '"' && AfterName(s[1..]).Some? then Some((read, AfterName(s[1..]).value))
    else if s[0] == '\r' || s[0] == '\n' then None
    else NameGroup(s[1..], read + [s[0]])
  }

  /** The two groups of the whole pattern. */
  function MatchDisposition(line: string): Option<(string, string)> {
    match StripSpaced(line, DISPOSITION, FORM_DATA)
    case None => None
    case Some(t) =>
      match StripLiteral(SkipSpaces(t), NAME_QUOTE)
      case None => None
      case Some(u) => NameGroup(u, "")
  }

  // ----- Reading one header line -----

  const CONTENT_TYPE: string := "content-type:"

  function ReadHeaderLine(file: FileInfo, line: string): FileInfo {
    if StripLiteral(line, CONTENT_TYPE).Some? then
      file.(contentType := Trim(line[|CONTENT_TYPE|..]))
    else
      match MatchDisposition(line)
      case None => file
      case Some((name, filename)) => file.(name := name, filename := filename)
  }

  // ----- Writing the header lines -----

  function DispositionLine(file: FileInfo): string {
    "Content-Disposition: form-data; name=\"" + file.name + "\"" +
    if file.filename != "" then "; filename=\"" + file.filename + "\"" else ""
  }

  function ContentTypeLine(file: FileInfo): string {
    "Content-Type: " + file.contentType
  }

  /** A value that can stand between the quotes. */
  predicate Quotable(s: string) {
    '"' !in s && '\r' !in s && '\n' !in s
  }

  // ----- What is written is what is read -----

  lemma {:induction false} FilenameGroupReads(f: string, read: string)
    requires Quotable(f)
    ensures FilenameGroup(f + "\"", read) == Some(read + f)
  {
    var s := f + "\"";
    if f == "" {
      assert s[1..] == "";
      assert read + f == read;
    } else {
      FilenameGroupReads(f[1..], read + [f[0]]);
      assert s[1..] == f[1..] + "\"";
      assert read + [f[0]] + f[1..] == read + f;
    }
  }

  lemma {:induction false} NameGroupReads(n: string, after: string, read: string)
    requires Quotable(n) && AfterName(after).Some?
    ensures NameGroup(n + "\"" + after, read) == Some((read + n, AfterName(after).value))
  {
    var s := n + "\"" + after;
    if n == "" {
      assert s[1..] == after;
      assert read + n == read;
    } else {
      NameGroupReads(n[1..], after, read + [n[0]]);
      assert s[1..] == n[1..] + "\"" + after;
      assert read + [n[0]] + n[1..] == read + n;
    }
  }

  lemma StripLiteralReads(literal: string, rest: string)
    ensures StripLiteral(literal + rest, literal) == Some(rest)
  {
    assert (literal + rest)[..|literal|] == literal;
    assert (literal + rest)[|literal|..] == rest;
  }

  lemma SkipOneSpace(s: string)
    requires s != "" && !IsSpace(s[0])
    ensures SkipSpaces(" " + s) == s
  {
    assert (" " + s)[1..] == s;
    assert SkipSpaces(s) == s;
  }

  lemma AfterNameReads(f: string)
    requires Quotable(f)
    ensures AfterName(if f != "" then "; filename=\"" + f + "\"" else "") == Some(f)
  {
    if f != "" {
      var s := "; filename=\"" + f + "\"";
      assert s == ";" + (" " + (FILENAME_QUOTE + (f + "\"")));
      StripLiteralReads(";", " " + (FILENAME_QUOTE + (f + "\"")));
      SkipOneSpace(FILENAME_QUOTE + (f + "\""));
      StripLiteralReads(FILENAME_QUOTE, f + "\"");
      FilenameGroupReads(f, "");
      assert "" + f == f;
    }
  }

  lemma FrontReads(u: string)
    ensures MatchDisposition(DISPOSITION + (" " + (FORM_DATA + (" " + (NAME_QUOTE + u))))) == NameGroup(u, "")
  {
    var t := " " + (NAME_QUOTE + u);
    StripLiteralReads(DISPOSITION, " " + (FORM_DATA + t));
    SkipOneSpace(FORM_DATA + t);
    StripLiteralReads(FORM_DATA, t);
    SkipOneSpace(NAME_QUOTE + u);
    StripLiteralReads(NAME_QUOTE, u);
  }

  lemma AssociatesSix(a: string, b: string, c: string, d: string, e: string, f: string)
    ensures (a + b + c + d + e) + f == a + (b + (c + (d + (e + f))))
  {
    Associates(a + b + c + d, e, f);
    Associates(a + b + c, d, e + f);
    Associates(a + b, c, d + (e + f));
    Associates(a, b, c + (d + (e + f)));
  }

  lemma AssociatesFour(a: string, b: string, c: string, d: string)
    ensures a + b + c + d == a + (b + c + d)
  {
    Associates(a, b, c);
    Associates(a, b + c, d);
  }

  lemma FrontOfLine(u: string)
    ensures "Content-Disposition: form-data; name=\"" + u
         == DISPOSITION + (" " + (FORM_DATA + (" " + (NAME_QUOTE + u))))
  {
    assert "Content-Disposition: form-data; name=\"" == DISPOSITION + " " + FORM_DATA + " " + NAME_QUOTE;
    AssociatesSix(DISPOSITION, " ", FORM_DATA, " ", NAME_QUOTE, u);
  }

  /** The pattern recovers the name and the file name from the line the serializer writes. */
  lemma DispositionReads(file: FileInfo)
    requires Quotable(file.name) && Quotable(file.filename)
    ensures MatchDisposition(DispositionLine(file)) == Some((file.name, file.filename))
  {
    var after := if file.filename != "" then "; filename=\"" + file.filename + "\"" else "";
    var u := file.name + "\"" + after;
    AssociatesFour("Content-Disposition: form-data; name=\"", file.name, "\"", after);
    FrontOfLine(u);
    FrontReads(u);
    AfterNameReads(file.filename);
    NameGroupReads(file.name, after, "");
    assert "" + file.name == file.name;
  }

  lemma DispositionIsNoContentType(file: FileInfo)
    ensures StripLiteral(DispositionLine(file), CONTENT_TYPE) == None
  {
    var line := DispositionLine(file);
    assert line[8] == 'D';
    assert ToLower(line[..|CONTENT_TYPE|][8]) != ToLower(CONTENT_TYPE[8]);
  }

  lemma TrimOneSpace(s: string)
    requires Trimmed(s)
    ensures Trim(" " + s) == s
  {
    assert (" " + s)[1..] == s;
  }

  lemma ContentTypeReads(file: FileInfo, before: FileInfo)
    requires Trimmed(file.contentType)
    ensures ReadHeaderLine(before, ContentTypeLine(file)) == before.(contentType := file.contentType)
  {
    var line := ContentTypeLine(file);
    var head := "Content-Type:";
    assert line == head + (" " + file.contentType);
    assert line[..13] == head;
    assert EqualIgnoringCase(head, CONTENT_TYPE);
    assert line[13..] == " " + file.contentType;
    TrimOneSpace(file.contentType);
  }

  // ----- Other headers -----

  /** The name of a header: what stands before the first colon. */
  function FieldName(line: string): string { line[..SegmentLength(line, ':')] }

  /** A header that is neither of the two. */
  predicate IsOther(line: string) {
    && !EqualIgnoringCase(FieldName(line), "Content-Disposition")
    && !EqualIgnoringCase(FieldName(line), "Content-Type")
  }

  /** A line that begins with a literal that ends in its only colon has the literal's name. */
  lemma NameOfLiteral(line: string, literal: string, name: string)
    requires literal == name + ":" && ':' !in name && StripLiteral(line, literal).Some?
    ensures EqualIgnoringCase(FieldName(line), name)
  {
    var n := |name|;
    assert forall i :: 0 <= i <= n ==> ToLower(line[..n + 1][i]) == ToLower(literal[i]);
    assert line[n] == ':' by { assert line[..n + 1][n] == line[n] && literal[n] == ':'; }
    assert ':' !in line[..n] by {
      forall i | 0 <= i < n
        ensures line[..n][i] != ':'
      {
        assert line[..n + 1][i] == line[i] && literal[i] == name[i];
      }
    }
    SegmentIs(line[..n], ':', line[n + 1..]);
    assert line == line[..n] + ":" + line[n + 1..];
    forall i | 0 <= i < n
      ensures ToLower(line[..n][i]) == ToLower(name[i])
    {
      assert line[..n + 1][i] == line[..n][i] && literal[i] == name[i];
    }
  }

  lemma CaseOfNames(a: string)
    ensures EqualIgnoringCase(a, "content-type") ==> EqualIgnoringCase(a, "Content-Type")
  {
    assert forall i :: 0 <= i < 12 ==> ToLower("content-type"[i]) == ToLower("Content-Type"[i]);
  }

  /** The line of any other header leaves the description as it is. */
  lemma OtherHeader(file: FileInfo, line: string)
    requires IsOther(line)
    ensures ReadHeaderLine(file, line) == file
  {
    if StripLiteral(line, CONTENT_TYPE).Some? {
      NameOfLiteral(line, CONTENT_TYPE, "content-type");
      CaseOfNames(FieldName(line));
    }
    if StripLiteral(line, DISPOSITION).Some? {
      NameOfLiteral(line, DISPOSITION, "Content-Disposition");
    }
  }
}
