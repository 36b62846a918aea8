/** The expression for Content-Disposition as the lines it describes: the matcher of module PartHeader finds what the
    expression's groups stand for, each group as short as it can be. */
module HeaderPattern {
  import opened Text
  import opened Wrappers
  import opened PartHeader

  // ----- The expression -----

  predicate Blank(s: string) { forall k :: 0 <= k < |s| ==> IsSpace(s[k]) }

  predicate NoBlanks(s: string) { forall k :: 0 <= k < |s| ==> !IsSpace(s[k]) }

  /** What a dot may stand for. */
  predicate OneLine(s: string) { '\r' !in s && '\n' !in s }

  /** `\s* literal` at the beginning of `s`, with `t` behind; letters in either case. */
  ghost predicate BehindBlanks(s: string, literal: string, t: string) {
    exists i :: 0 <= i && i + |literal| <= |s| && Blank(s[..i])
             && EqualIgnoringCase(s[i..i + |literal|], literal) && t == s[i + |literal|..]
  }

  /** `literal1 \s* literal2` */
  ghost predicate Begins(s: string, literal1: string, literal2: string, t: string) {
    && |literal1| <= |s| && EqualIgnoringCase(s[..|literal1|], literal1)
    && BehindBlanks(s[|literal1|..], literal2, t)
  }

  /** `\S+\s*$`, with `k` characters of the first kind */
  predicate WordEnds(t: string, k: int) { 0 < k <= |t| && NoBlanks(t[..k]) && Blank(t[k..]) }

  /** `(?:;\s*filename\*=\S+)?\s*$` */
  ghost predicate Ends(s: string) {
    || Blank(s)
    || exists t: string, k: int :: Begins(s, ";", FILENAME_STAR, t) && WordEnds(t, k)
  }

  /** `s` goes on to a quote: `x` before it, on one line. */
  predicate Quoted(s: string, x: string) {
    |x| < |s| && s[..|x|] == x && s[|x|] == '"' && OneLine(x)
  }

  /** `;\s*filename="(.*?)"` and the end, with `f` for the group. */
  ghost predicate FileName(s: string, f: string) {
    exists t: string :: Begins(s, ";", FILENAME_QUOTE, t) && Quoted(t, f) && Ends(t[|f| + 1..])
  }

  /** What stands behind the name: a file name, the shortest there can be, or none if there can be none. */
  ghost predicate Behind(s: string, f: string) {
    || (FileName(s, f) && forall g: string :: FileName(s, g) ==> |f| <= |g|)
    || (f == "" && Ends(s) && forall g: string :: !FileName(s, g))
  }

  // ----- Blanks and literals -----

  lemma {:induction false} SkipSpacesIs(s: string, i: nat)
    requires i <= |s| && Blank(s[..i]) && (i < |s| ==> !IsSpace(s[i]))
    ensures SkipSpaces(s) == s[i..]
  {
    if i > 0 {
      assert s[..i][0] == s[0];
      assert s[1..][..i - 1] == s[..i][1..];
      assert s[1..][i - 1..] == s[i..];
      SkipSpacesIs(s[1..], i - 1);
    }
  }

  lemma {:induction false} Spaces(s: string) returns (i: nat)
    ensures i <= |s| && Blank(s[..i]) && (i < |s| ==> !IsSpace(s[i])) && SkipSpaces(s) == s[i..]
  {
    i := 0;
    if s != "" && IsSpace(s[0]) {
      var j := Spaces(s[1..]);
      i := j + 1;
      assert s[..i] == [s[0]] + s[1..][..j];
    }
    SkipSpacesIs(s, i);
  }

  lemma AllBlank(s: string)
    ensures SkipSpaces(s) == "" <==> Blank(s)
  {
    var i := Spaces(s);
    if i < |s| {
      assert !Blank(s);
    } else {
      assert s[..i] == s;
    }
  }

  lemma {:induction false} SkipNonSpacesIs(s: string, k: nat)
    requires k <= |s| && NoBlanks(s[..k]) && (k < |s| ==> IsSpace(s[k]))
    ensures SkipNonSpaces(s) == s[k..]
  {
    if k > 0 {
      assert s[..k][0] == s[0];
      assert s[1..][..k - 1] == s[..k][1..];
      assert s[1..][k - 1..] == s[k..];
      SkipNonSpacesIs(s[1..], k - 1);
    }
  }

  lemma {:induction false} Word(s: string) returns (k: nat)
    ensures k <= |s| && NoBlanks(s[..k]) && (k < |s| ==> IsSpace(s[k])) && SkipNonSpaces(s) == s[k..]
  {
    k := 0;
    if s != "" && !IsSpace(s[0]) {
      var j := Word(s[1..]);
      k := j + 1;
      assert s[..k] == [s[0]] + s[1..][..j];
    }
    SkipNonSpacesIs(s, k);
  }

  /** Up to the case of letters a blank is a blank. */
  lemma CaseOfBlank(a: string, b: string)
    requires EqualIgnoringCase(a, b) && b != "" && !IsSpace(b[0]) && !('A' <= b[0] <= 'Z')
    ensures !IsSpace(a[0])
  {
    assert ToLower(a[0]) == ToLower(b[0]);
  }

  /** A literal that a matcher looks for behind blanks. */
  predicate IsMark(literal: string) {
    literal != "" && !IsSpace(literal[0]) && !('A' <= literal[0] <= 'Z')
  }

  lemma LiteralAt(s: string, i: nat, literal: string)
    requires i <= |s|
    ensures StripLiteral(s[i..], literal).Some? <==>
              i + |literal| <= |s| && EqualIgnoringCase(s[i..i + |literal|], literal)
    ensures StripLiteral(s[i..], literal).Some? ==> StripLiteral(s[i..], literal).value == s[i + |literal|..]
  {
    if i + |literal| <= |s| {
      assert s[i..][..|literal|] == s[i..i + |literal|];
    }
  }

  /** The blanks before a literal leave no choice: it does not begin with one. */
  lemma BlanksEnd(s: string, i: nat, literal: string)
    requires IsMark(literal) && i + |literal| <= |s| && Blank(s[..i])
    requires EqualIgnoringCase(s[i..i + |literal|], literal)
    ensures SkipSpaces(s) == s[i..]
  {
    CaseOfBlank(s[i..i + |literal|], literal);
    SkipSpacesIs(s, i);
  }

  lemma BehindBlanksIs(s: string, literal: string, t: string)
    requires IsMark(literal)
    ensures StripLiteral(SkipSpaces(s), literal) == Some(t) <==> BehindBlanks(s, literal, t)
  {
    var i := Spaces(s);
    LiteralAt(s, i, literal);
    if BehindBlanks(s, literal, t) {
      var j :| 0 <= j && j + |literal| <= |s| && Blank(s[..j])
            && EqualIgnoringCase(s[j..j + |literal|], literal) && t == s[j + |literal|..];
      BlanksEnd(s, j, literal);
      LiteralAt(s, j, literal);
    }
  }

  lemma SpacedIs(s: string, literal1: string, literal2: string, t: string)
    requires IsMark(literal2)
    ensures StripSpaced(s, literal1, literal2) == Some(t) <==> Begins(s, literal1, literal2, t)
  {
    if |literal1| <= |s| {
      BehindBlanksIs(s[|literal1|..], literal2, t);
    }
  }

  // ----- The matcher against the expression -----

  lemma WordEndsIs(t: string)
    ensures (t != "" && !IsSpace(t[0]) && SkipSpaces(SkipNonSpaces(t)) == "") <==> exists k :: WordEnds(t, k)
  {
    var j := Word(t);
    AllBlank(t[j..]);
    assert j > 0 ==> t[..j][0] == t[0];
    if k :| WordEnds(t, k) {
      assert t[..k][0] == t[0] && (k < |t| ==> t[k..][0] == t[k]);
      SkipNonSpacesIs(t, k);
      AllBlank(t[k..]);
    } else if t != "" && !IsSpace(t[0]) && SkipSpaces(SkipNonSpaces(t)) == "" {
      assert WordEnds(t, j);
    }
  }

  lemma EndsIs(s: string)
    ensures EndMatches(s) <==> Ends(s)
  {
    AllBlank(s);
    var stripped := StripSpaced(s, ";", FILENAME_STAR);
    if stripped.Some? {
      SpacedIs(s, ";", FILENAME_STAR, stripped.value);
      WordEndsIs(stripped.value);
    }
    if t: string, k: int :| Begins(s, ";", FILENAME_STAR, t) && WordEnds(t, k) {
      SpacedIs(s, ";", FILENAME_STAR, t);
      WordEndsIs(t);
    }
  }

  lemma QuotedTail(s: string, x: string)
    requires s != "" && x != ""
    ensures Quoted(s, x) <==> x[0] == s[0] && s[0] != '\r' && s[0] != '\n' && Quoted(s[1..], x[1..])
  {
    if |x| < |s| {
      assert s[1..][..|x| - 1] == s[..|x|][1..];
      assert x == [x[0]] + x[1..];
      if s[0] == x[0] && s[1..][..|x| - 1] == x[1..] {
        assert s[..|x|] == [s[0]] + s[1..][..|x| - 1];
      }
    }
  }

  lemma QuotedSameLength(s: string, x: string, y: string)
    requires Quoted(s, x) && Quoted(s, y) && |x| == |y|
    ensures x == y
  {
  }

  ghost predicate FileAt(t: string, f: string) { Quoted(t, f) && Ends(t[|f| + 1..]) }

  lemma FileAtTail(s: string, f: string)
    requires s != ""
    ensures f != "" ==>
              (FileAt(s, f) <==> f[0] == s[0] && s[0] != '\r' && s[0] != '\n' && FileAt(s[1..], f[1..]))
    ensures f == "" ==> (FileAt(s, f) <==> s[0] == '"' && EndMatches(s[1..]))
  {
    EndsIs(s[1..]);
    if f != "" {
      QuotedTail(s, f);
      assert |f| < |s| ==> s[1..][|f[1..]| + 1..] == s[|f| + 1..];
    }
  }

  /** The file name's group stops at the first quote at which the rest matches. */
  lemma {:induction false} FilenameGroupFinds(s: string, read: string)
    ensures var r := FilenameGroup(s, read);
            r.Some? ==> |read| <= |r.value| && r.value[..|read|] == read && FileAt(s, r.value[|read|..])
  {
    if s != "" {
      if s[0] == '"' && EndMatches(s[1..]) {
        FileAtTail(s, "");
        assert read[|read|..] == "";
      } else if s[0] != '\r' && s[0] != '\n' {
        FilenameGroupFinds(s[1..], read + [s[0]]);
        var r := FilenameGroup(s, read);
        if r.Some? {
          var f := r.value[|read|..];
          assert r.value[..|read| + 1] == read + [s[0]];
          assert f[0] == s[0] && f[1..] == r.value[|read| + 1..];
          assert r.value[..|read|] == r.value[..|read| + 1][..|read|];
          FileAtTail(s, f);
        }
      }
    }
  }

  lemma {:induction false} FilenameGroupIsFirst(s: string, read: string, f: string)
    requires FileAt(s, f)
    ensures var r := FilenameGroup(s, read); r.Some? && |r.value| <= |read| + |f|
  {
    FileAtTail(s, f);
    if !(s[0] == '"' && EndMatches(s[1..])) {
      FilenameGroupIsFirst(s[1..], read + [s[0]], f[1..]);
    }
  }

  /** A file name behind the name, as the matcher looks for it. */
  lemma FileNameIs(s: string, f: string)
    ensures FileName(s, f) <==>
              var t := StripSpaced(s, ";", FILENAME_QUOTE); t.Some? && FileAt(t.value, f)
  {
    if t: string :| Begins(s, ";", FILENAME_QUOTE, t) && FileAt(t, f) {
      SpacedIs(s, ";", FILENAME_QUOTE, t);
    }
    var t := StripSpaced(s, ";", FILENAME_QUOTE);
    if t.Some? {
      SpacedIs(s, ";", FILENAME_QUOTE, t.value);
    }
  }

  lemma SameFileName(s: string, f: string, g: string)
    requires FileName(s, f) && FileName(s, g) && |f| == |g|
    ensures f == g
  {
    FileNameIs(s, f);
    FileNameIs(s, g);
    QuotedSameLength(StripSpaced(s, ";", FILENAME_QUOTE).value, f, g);
  }

  /** The optional group of the file name: tried first, as short as can be, and given up if nothing fits. */
  lemma AfterNameFinds(s: string, f: string)
    requires AfterName(s) == Some(f)
    ensures Behind(s, f)
  {
    EndsIs(s);
    var t := StripSpaced(s, ";", FILENAME_QUOTE);
    if t.Some? {
      FilenameGroupFinds(t.value, "");
    }
    forall g: string | FileName(s, g)
      ensures t.Some? && FilenameGroup(t.value, "").Some? && |f| <= |g|
    {
      FileNameIs(s, g);
      FilenameGroupIsFirst(t.value, "", g);
    }
    if t.Some? && FilenameGroup(t.value, "").Some? {
      assert f[0..] == f;
      FileNameIs(s, f);
    }
  }

  lemma BehindIsFound(s: string, f: string)
    requires Behind(s, f)
    ensures AfterName(s) == Some(f)
  {
    EndsIs(s);
    if FileName(s, f) {
      FileNameIs(s, f);
      FilenameGroupIsFirst(StripSpaced(s, ";", FILENAME_QUOTE).value, "", f);
    } else {
      assert AfterName(s).Some?;
    }
    var g := AfterName(s).value;
    AfterNameFinds(s, g);
    if FileName(s, f) {
      SameFileName(s, f, g);
    }
  }

  lemma BehindIs(s: string, f: string)
    ensures AfterName(s) == Some(f) <==> Behind(s, f)
  {
    if AfterName(s) == Some(f) {
      AfterNameFinds(s, f);
    }
    if Behind(s, f) {
      BehindIsFound(s, f);
    }
  }

  // ----- The name -----

  predicate NameAt(s: string, n: string) { Quoted(s, n) && AfterName(s[|n| + 1..]).Some? }

  lemma NameAtTail(s: string, n: string)
    requires s != ""
    ensures n != "" ==>
              (NameAt(s, n) <==> n[0] == s[0] && s[0] != '\r' && s[0] != '\n' && NameAt(s[1..], n[1..]))
    ensures n == "" ==> (NameAt(s, n) <==> s[0] == '"' && AfterName(s[1..]).Some?)
  {
    if n != "" {
      QuotedTail(s, n);
      assert |n| < |s| ==> s[1..][|n[1..]| + 1..] == s[|n| + 1..];
    }
  }

  lemma {:induction false} NameGroupFinds(s: string, read: string)
    ensures var r := NameGroup(s, read);
            r.Some? ==>
              && |read| <= |r.value.0| && r.value.0[..|read|] == read && NameAt(s, r.value.0[|read|..])
              && AfterName(s[|r.value.0| - |read| + 1..]) == Some(r.value.1)
  {
    if s != "" {
      if s[0] == '"' && AfterName(s[1..]).Some? {
        NameAtTail(s, "");
        assert read[|read|..] == "";
      } else if s[0] != '\r' && s[0] != '\n' {
        NameGroupFinds(s[1..], read + [s[0]]);
        var r := NameGroup(s, read);
        if r.Some? {
          var n := r.value.0[|read|..];
          assert r.value.0[..|read| + 1] == read + [s[0]];
          assert n[0] == s[0] && n[1..] == r.value.0[|read| + 1..];
          assert r.value.0[..|read|] == r.value.0[..|read| + 1][..|read|];
          NameAtTail(s, n);
          assert s[1..][|n[1..]| + 1..] == s[|n| + 1..];
        }
      }
    }
  }

  lemma {:induction false} NameGroupIsFirst(s: string, read: string, n: string)
    requires NameAt(s, n)
    ensures var r := NameGroup(s, read); r.Some? && |r.value.0| <= |read| + |n|
  {
    NameAtTail(s, n);
    if !(s[0] == '"' && AfterName(s[1..]).Some?) {
      NameGroupIsFirst(s[1..], read + [s[0]], n[1..]);
    }
  }

  ghost predicate NameThen(u: string, n: string, f: string) { Quoted(u, n) && Behind(u[|n| + 1..], f) }

  /** `name="` has been read: `n` is the shortest name behind which the rest matches, and `f` what the rest gives. */
  ghost predicate NameAndFile(u: string, n: string, f: string) {
    NameThen(u, n, f) && forall m: string, g: string :: NameThen(u, m, g) ==> |n| <= |m|
  }

  lemma NameThenIs(u: string, n: string, f: string)
    ensures NameThen(u, n, f) <==> NameAt(u, n) && AfterName(u[|n| + 1..]) == Some(f)
  {
    if Quoted(u, n) {
      BehindIs(u[|n| + 1..], f);
    }
  }

  lemma NameGroupGives(u: string, n: string, f: string)
    requires NameGroup(u, "") == Some((n, f))
    ensures NameAndFile(u, n, f)
  {
    NameGroupFinds(u, "");
    assert n[0..] == n;
    NameThenIs(u, n, f);
    forall m: string, g: string | NameThen(u, m, g)
      ensures |n| <= |m|
    {
      NameThenIs(u, m, g);
      NameGroupIsFirst(u, "", m);
    }
  }

  lemma NameAndFileIsFound(u: string, n: string, f: string)
    requires NameAndFile(u, n, f)
    ensures NameGroup(u, "") == Some((n, f))
  {
    NameThenIs(u, n, f);
    NameGroupIsFirst(u, "", n);
    var (m, g) := NameGroup(u, "").value;
    NameGroupGives(u, m, g);
    NameThenIs(u, m, g);
    QuotedSameLength(u, n, m);
  }

  lemma NameGroupIs(u: string, n: string, f: string)
    ensures NameGroup(u, "") == Some((n, f)) <==> NameAndFile(u, n, f)
  {
    if NameGroup(u, "") == Some((n, f)) {
      NameGroupGives(u, n, f);
    } else if NameAndFile(u, n, f) {
      NameAndFileIsFound(u, n, f);
    }
  }

  /** `^Content-Disposition:\s*form-data;\s*name="`, with `u` behind. */
  ghost predicate Opens(line: string, u: string) {
    exists t: string :: Begins(line, DISPOSITION, FORM_DATA, t) && BehindBlanks(t, NAME_QUOTE, u)
  }

  lemma OpensIs(line: string, u: string)
    ensures Opens(line, u) <==>
              var t := StripSpaced(line, DISPOSITION, FORM_DATA);
              t.Some? && StripLiteral(SkipSpaces(t.value), NAME_QUOTE) == Some(u)
  {
    if t: string :| Begins(line, DISPOSITION, FORM_DATA, t) && BehindBlanks(t, NAME_QUOTE, u) {
      SpacedIs(line, DISPOSITION, FORM_DATA, t);
      BehindBlanksIs(t, NAME_QUOTE, u);
    }
    var t := StripSpaced(line, DISPOSITION, FORM_DATA);
    if t.Some? {
      SpacedIs(line, DISPOSITION, FORM_DATA, t.value);
      BehindBlanksIs(t.value, NAME_QUOTE, u);
    }
  }

  /** The matcher finds exactly what the expression describes. */
  lemma MatchesExactly(line: string, n: string, f: string)
    ensures MatchDisposition(line) == Some((n, f)) <==> exists u: string :: Opens(line, u) && NameAndFile(u, n, f)
  {
    if u: string :| Opens(line, u) && NameAndFile(u, n, f) {
      OpensIs(line, u);
      NameGroupIs(u, n, f);
    }
    if MatchDisposition(line) == Some((n, f)) {
      var u := StripLiteral(SkipSpaces(StripSpaced(line, DISPOSITION, FORM_DATA).value), NAME_QUOTE).value;
      OpensIs(line, u);
      NameGroupIs(u, n, f);
    }
  }

  // ----- What a header line does to the description -----

  /** A Content-Disposition line gives name and file name, if it is as described. */
  lemma DispositionLineIs(file: FileInfo, line: string, u: string, n: string, f: string)
    requires Opens(line, u) && NameAndFile(u, n, f)
    ensures ReadHeaderLine(file, line) == file.(name := n, filename := f)
  {
    MatchesExactly(line, n, f);
    OpensIs(line, u);
    NotBoth(line);
  }

  lemma NotBoth(line: string)
    requires StripLiteral(line, DISPOSITION).Some?
    ensures StripLiteral(line, CONTENT_TYPE) == None
  {
    assert line[..20][8] == line[8] == line[..13][8];
    assert ToLower(line[8]) == ToLower(DISPOSITION[8]) == 'd' != ToLower(CONTENT_TYPE[8]);
  }

  /** A Content-Disposition line that is not changes nothing. */
  lemma MalformedLine(file: FileInfo, line: string)
    requires StripLiteral(line, CONTENT_TYPE) == None
    requires forall u: string, n: string, f: string :: Opens(line, u) ==> !NameAndFile(u, n, f)
    ensures ReadHeaderLine(file, line) == file
  {
    var m := MatchDisposition(line);
    if m.Some? {
      MatchesExactly(line, m.value.0, m.value.1);
    }
  }

  /** A Content-Type line, its name in any case, gives the content type without the blanks around it. */
  lemma TypeLineIs(file: FileInfo, name: string, before: string, value: string, after: string)
    requires EqualIgnoringCase(name, CONTENT_TYPE) && Trimmed(value) && AllSpaceOrTab(before) && AllSpaceOrTab(after)
    ensures ReadHeaderLine(file, name + (before + value + after)) == file.(contentType := value)
  {
    var line := name + (before + value + after);
    assert line[..|name|] == name && line[|name|..] == before + value + after;
    TrimAround(before, value, after);
  }
}
