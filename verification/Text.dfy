/** Strings as httplib handles them: first occurrences, prefixes, blanks.
    A C++ byte string is a sequence of characters; the functions here do not depend on the range of the
    characters, so every byte string is covered. */
module Text {
  const CRLF: string := "\r\n"

  /** `s` stands at position `i` of `t`. */
  predicate OccursAt(t: string, i: int, s: string) {
    0 <= i && i + |s| <= |t| && t[i..i + |s|] == s
  }

  /** Position of the first occurrence of `s` in `t`, or `|t|` when there is none. */
  function Find(t: string, s: string): (p: nat)
    requires s != ""
    ensures p == |t| || p + |s| <= |t|
  {
    FindFrom(t, s, 0)
  }

  function FindFrom(t: string, s: string, i: nat): (p: nat)
    requires s != "" && i <= |t|
    ensures p == |t| || p + |s| <= |t|
    decreases |t| - i
  {
    if i + |s| > |t| then |t|
    else if t[i..i + |s|] == s then i
    else FindFrom(t, s, i + 1)
  }

  lemma {:induction false} FindFromIsFirst(t: string, s: string, i: nat)
    requires s != "" && i <= |t|
    ensures var p := FindFrom(t, s, i);
            && i <= p
            && (p < |t| ==> OccursAt(t, p, s))
            && forall j :: i <= j < p ==> !OccursAt(t, j, s)
    decreases |t| - i
  {
    if i + |s| <= |t| && t[i..i + |s|] != s {
      FindFromIsFirst(t, s, i + 1);
    }
  }

  lemma FindIsFirst(t: string, s: string)
    requires s != ""
    ensures var p := Find(t, s);
            && (p < |t| ==> OccursAt(t, p, s))
            && forall j :: 0 <= j < p ==> !OccursAt(t, j, s)
  {
    FindFromIsFirst(t, s, 0);
  }

  /** The first occurrence is the only position that is an occurrence with none before it. */
  lemma FindIs(t: string, s: string, p: nat)
    requires s != "" && p <= |t|
    requires p < |t| ==> OccursAt(t, p, s)
    requires forall j :: 0 <= j < p ==> !OccursAt(t, j, s)
    ensures Find(t, s) == p
  {
    var q := Find(t, s);
    FindIsFirst(t, s);
    assert q < p ==> OccursAt(t, q, s);
    assert p < q ==> OccursAt(t, p, s);
  }

  lemma OccursInPrefix(a: string, b: string, i: int, s: string)
    requires 0 <= i && i + |s| <= |a|
    ensures OccursAt(a + b, i, s) <==> OccursAt(a, i, s)
  {
    assert (a + b)[i..i + |s|] == a[i..i + |s|];
  }

  lemma OccursInSuffix(t: string, k: nat, i: int, s: string)
    requires k <= |t| && 0 <= i
    ensures OccursAt(t[k..], i, s) <==> OccursAt(t, k + i, s)
  {
    if k + i + |s| <= |t| {
      assert t[k..][i..i + |s|] == t[k + i..k + i + |s|];
    }
  }

  lemma Associates(a: string, b: string, c: string)
    ensures (a + b) + c == a + (b + c)
  {
  }

  lemma CutAround(s: string, beg: nat, i: nat)
    requires beg <= i <= |s|
    ensures i < |s| ==> s[beg..] == s[beg..i] + [s[i]] + s[i + 1..]
    ensures i == |s| ==> s[beg..] == s[beg..i] && s[i..] == ""
  {
  }

  lemma CutOfAppended(a: string, b: string, k: nat)
    requires k <= |a|
    ensures (a + b)[..k] == a[..k] && (a + b)[k..] == a[k..] + b
  {
  }

  /** An occurrence found stays the first one when text is appended; when there was none, a new one must
      reach past the old end. */
  lemma FindInPrefix(a: string, b: string, s: string)
    requires s != ""
    ensures Find(a, s) < |a| ==> Find(a + b, s) == Find(a, s)
    ensures Find(a, s) == |a| ==> Find(a + b, s) + |s| > |a|
  {
    var p := Find(a, s);
    FindIsFirst(a, s);
    FindIsFirst(a + b, s);
    forall j | 0 <= j && j + |s| <= |a|
      ensures OccursAt(a + b, j, s) <==> OccursAt(a, j, s)
    {
      OccursInPrefix(a, b, j, s);
    }
    if p < |a| {
      FindIs(a + b, s, p);
    } else {
      var q := Find(a + b, s);
      assert q + |s| <= |a| ==> OccursAt(a, q, s);
    }
  }

  /** Text that holds no start of an occurrence can be cut off in front. */
  lemma FindInSuffix(t: string, k: nat, s: string)
    requires s != "" && k <= Find(t, s)
    ensures Find(t[k..], s) == Find(t, s) - k
  {
    var p := Find(t, s);
    FindIsFirst(t, s);
    forall j | 0 <= j
      ensures OccursAt(t[k..], j, s) <==> OccursAt(t, k + j, s)
    {
      OccursInSuffix(t, k, j, s);
    }
    FindIs(t[k..], s, p - k);
  }

  /** The length of the text before the first delimiter. */
  function SegmentLength(s: string, d: char): (n: nat)
    ensures n <= |s| && d !in s[..n] && (n < |s| ==> s[n] == d)
  {
    if s == "" || s[0] == d then 0
    else
      var n := 1 + SegmentLength(s[1..], d);
      assert s[..n] == [s[0]] + s[1..][..n - 1];
      n
  }

  lemma {:induction false} SegmentIs(x: string, d: char, rest: string)
    requires d !in x
    ensures SegmentLength(x + [d] + rest, d) == |x| && SegmentLength(x, d) == |x|
  {
    if x != "" {
      SegmentIs(x[1..], d, rest);
      assert (x + [d] + rest)[1..] == x[1..] + [d] + rest;
    }
  }

  predicate StartsWith(t: string, s: string) {
    |s| <= |t| && t[..|s|] == s
  }

  predicate IsSpaceOrTab(c: char) {
    c == ' ' || c == '\t'
  }

  /** The space class of C's `isspace` in the "C" locale. */
  predicate IsSpace(c: char) {
    c == ' ' || '\t' <= c <= '\r'
  }

  /** The text behind leading blanks. */
  function SkipSpaces(s: string): string {
    if s != "" && IsSpace(s[0]) then SkipSpaces(s[1..]) else s
  }

  predicate IsDigit(c: char) {
    '0' <= c <= '9'
  }

  predicate IsAlnum(c: char) {
    IsDigit(c) || 'A' <= c <= 'Z' || 'a' <= c <= 'z'
  }

  function ToLower(c: char): char {
    if 'A' <= c <= 'Z' then c + 32 as char else c
  }

  /** Equal up to the case of ASCII letters. */
  predicate EqualIgnoringCase(a: string, b: string) {
    |a| == |b| && forall i :: 0 <= i < |a| ==> ToLower(a[i]) == ToLower(b[i])
  }

  /** Blanks and tabs are dropped at both ends. */
  function Trim(s: string): string {
    if s != "" && IsSpaceOrTab(s[0]) then Trim(s[1..])
    else if s != "" && IsSpaceOrTab(s[|s| - 1]) then Trim(s[..|s| - 1])
    else s
  }

  predicate Trimmed(s: string) {
    s != "" ==> !IsSpaceOrTab(s[0]) && !IsSpaceOrTab(s[|s| - 1])
  }

  predicate AllSpaceOrTab(s: string) { forall i :: 0 <= i < |s| ==> IsSpaceOrTab(s[i]) }

  /** Blanks and tabs around a text are all that is dropped. */
  lemma {:induction false} TrimAround(before: string, s: string, after: string)
    requires AllSpaceOrTab(before) && AllSpaceOrTab(after) && Trimmed(s)
    ensures Trim(before + s + after) == s
    decreases |before| + |after|
  {
    var t := before + s + after;
    if before != "" {
      assert t[1..] == before[1..] + s + after;
      TrimAround(before[1..], s, after);
    } else if after != "" && s != "" {
      assert t[..|t| - 1] == before + s + after[..|after| - 1];
      TrimAround(before, s, after[..|after| - 1]);
    } else if after != "" {
      assert t[1..] == before + s + after[1..];
      TrimAround(before, s, after[1..]);
    } else {
      assert t == s;
    }
  }
}
