/** Query strings: `split`, `parse_query_text` and `params_to_query_str`, and that a parameter list comes back from its
    text. */
module QueryText {
  import opened Text
  import opened Percent
  import opened Multimap

  // ----- split -----

  /** The pieces between delimiters, trimmed of blanks, without the empty ones. */
  function Pieces(s: string, d: char): seq<string>
    decreases |s|
  {
    var n := SegmentLength(s, d);
    Kept(Trim(s[..n])) + if n < |s| then Pieces(s[n + 1..], d) else []
  }

  function Kept(piece: string): seq<string> { if piece == "" then [] else [piece] }

  /** A piece in front of a delimiter, and one at the end. */
  lemma PiecesOf(x: string, d: char, rest: string)
    requires d !in x
    ensures Pieces(x + [d] + rest, d) == Kept(Trim(x)) + Pieces(rest, d)
    ensures Pieces(x, d) == Kept(Trim(x))
  {
    var s := x + [d] + rest;
    SegmentIs(x, d, rest);
    assert s[..|x|] == x && s[|x| + 1..] == rest && x[..|x|] == x;
  }

  /** `trim`: both ends of a range are moved over blanks. The left one may run over the right one, and then nothing is
      left. */
  method TrimRange(s: string, left: nat, right: nat) returns (l: nat, r: nat)
    requires left <= right <= |s|
    ensures l <= |s| && r <= right && Trim(s[left..right]) == if l < r then s[l..r] else ""
  {
    l, r := left, right;
    while l < |s| && IsSpaceOrTab(s[l])
      invariant left <= l <= |s| && forall k :: left <= k < l ==> IsSpaceOrTab(s[k])
    {
      l := l + 1;
    }
    while r > 0 && IsSpaceOrTab(s[r - 1])
      invariant r <= right && forall k :: r <= k < right ==> IsSpaceOrTab(s[k])
    {
      r := r - 1;
    }
    TrimIs(s, left, right, l, r);
  }

  lemma {:induction false} TrimIs(s: string, left: nat, right: nat, l: nat, r: nat)
    requires left <= right <= |s| && left <= l <= |s| && r <= right
    requires forall k :: left <= k < l ==> IsSpaceOrTab(s[k])
    requires forall k :: r <= k < right ==> IsSpaceOrTab(s[k])
    requires (l < |s| ==> !IsSpaceOrTab(s[l])) && (r > 0 ==> !IsSpaceOrTab(s[r - 1]))
    ensures Trim(s[left..right]) == if l < r then s[l..r] else ""
    decreases right - left
  {
    if left < right && IsSpaceOrTab(s[left]) {
      assert s[left..right][1..] == s[left + 1..right];
      TrimIs(s, left + 1, right, l, r);
    } else if left < right && IsSpaceOrTab(s[right - 1]) {
      assert s[left..right][..right - left - 1] == s[left..right - 1];
      TrimIs(s, left, right - 1, l, r);
    } else if left < right {
      assert l == left && r == right;
      assert s[left..right][0] == s[left] && s[left..right][right - left - 1] == s[right - 1];
    } else {
      assert s[left..right] == "";
    }
  }

  /** A range is trimmed and handed over if something is left. */
  method Piece(s: string, beg: nat, end: nat) returns (kept: seq<string>)
    requires beg <= end <= |s|
    ensures kept == Kept(Trim(s[beg..end]))
  {
    var l, r := TrimRange(s, beg, end);
    kept := if l < r then [s[l..r]] else [];
  }

  lemma PieceFound(before: seq<string>, s: string, beg: nat, i: nat, d: char)
    requires beg <= i < |s| && NoneIn(s, beg, i, d) && s[i] == d
    ensures before + Pieces(s[beg..], d) == (before + Kept(Trim(s[beg..i]))) + Pieces(s[i + 1..], d)
  {
    CutAround(s, beg, i);
    NotInRange(s, beg, i, d);
    PiecesOf(s[beg..i], d, s[i + 1..]);
    PiecesAssociate(before, Kept(Trim(s[beg..i])), Pieces(s[i + 1..], d));
  }

  lemma LastPiece(s: string, beg: nat, d: char)
    requires beg <= |s| && NoneIn(s, beg, |s|, d)
    ensures Pieces(s[beg..], d) == Kept(Trim(s[beg..|s|]))
    ensures s == "" ==> Pieces(s, d) == []
  {
    CutAround(s, beg, |s|);
    NotInRange(s, beg, |s|, d);
    PiecesOf(s[beg..|s|], d, "");
  }

  lemma PiecesAssociate(a: seq<string>, b: seq<string>, c: seq<string>)
    ensures a + (b + c) == (a + b) + c
  {
  }

  predicate NoneIn(s: string, beg: nat, i: nat, d: char)
    requires i <= |s|
  {
    i <= beg || (s[i - 1] != d && NoneIn(s, beg, i - 1, d))
  }

  lemma {:induction false} NotInRange(s: string, beg: nat, i: nat, d: char)
    requires beg <= i <= |s| && NoneIn(s, beg, i, d)
    ensures d !in s[beg..i]
  {
    if beg < i {
      NotInRange(s, beg, i - 1, d);
      assert s[beg..i] == s[beg..i - 1] + [s[i - 1]];
    }
  }

  /** `split` */
  method Split(s: string, d: char) returns (pieces: seq<string>)
    ensures pieces == Pieces(s, d)
  {
    pieces := [];
    var i, beg := 0, 0;
    while i < |s|
      invariant beg <= i <= |s| && NoneIn(s, beg, i, d)
      invariant pieces + Pieces(s[beg..], d) == Pieces(s, d)
    {
      if s[i] == d {
        PieceFound(pieces, s, beg, i, d);
        var kept := Piece(s, beg, i);
        pieces := pieces + kept;
        beg := i + 1;
      }
      i := i + 1;
    }
    LastPiece(s, beg, d);
    if i != 0 {
      var kept := Piece(s, beg, i);
      pieces := pieces + kept;
    }
  }

  lemma {:induction false} PiecesNonempty(s: string, d: char)
    ensures "" !in Pieces(s, d)
    decreases |s|
  {
    var n := SegmentLength(s, d);
    if n < |s| {
      PiecesNonempty(s[n + 1..], d);
    }
  }

  // ----- Parameters -----

  type Param = Entry
  type Params = Entries

  /** The order of the keys: by bytes. */
  predicate Less(a: string, b: string) {
    b != "" && (a == "" || a[0] < b[0] || (a[0] == b[0] && Less(a[1..], b[1..])))
  }

  /** `Params`, ordered by `std::less`. */
  const LESS: Order := (a: string, b: string) => Less(a, b)

  // ----- parse_query_text -----

  function KeyOf(pieces: seq<string>): string { if pieces == [] then "" else pieces[0] }
  function ValueOf(pieces: seq<string>): string { if |pieces| <= 1 then "" else pieces[|pieces| - 1] }

  /** A piece between ampersands adds a parameter if it has a key. */
  function AddedBy(kv: string, ps: Params): Params {
    var pieces := Pieces(kv, '=');
    if KeyOf(pieces) == "" then ps
    else Emplace(LESS, ps, (Decoded(KeyOf(pieces), true), Decoded(ValueOf(pieces), true)))
  }

  /** The parameters that pieces between ampersands add; texts that were seen before add none. */
  function ParsedFrom(kvs: seq<string>, seen: set<string>, ps: Params): Params
    decreases |kvs|
  {
    if kvs == [] then ps
    else if kvs[0] in seen then ParsedFrom(kvs[1..], seen, ps)
    else ParsedFrom(kvs[1..], seen + {kvs[0]}, AddedBy(kvs[0], ps))
  }

  function Parsed(s: string): Params { ParsedFrom(Pieces(s, '&'), {}, []) }

  /** The callback for the pieces between equality signs: the first is the key, the last of the others the value. */
  method FirstAndLast(pieces: seq<string>) returns (key: string, val: string)
    requires "" !in pieces
    ensures key == KeyOf(pieces) && val == ValueOf(pieces)
  {
    key, val := "", "";
    for j := 0 to |pieces|
      invariant key == KeyOf(pieces[..j]) && val == ValueOf(pieces[..j])
    {
      assert pieces[j] in pieces && pieces[0] in pieces;
      if key == "" {
        key := pieces[j];
      } else {
        val := pieces[j];
      }
    }
    assert pieces[..|pieces|] == pieces;
  }

  /** The callback for the pieces between ampersands. */
  method AddPair(kv: string, params: Params) returns (added: Params)
    ensures added == AddedBy(kv, params)
  {
    var pieces := Split(kv, '=');
    PiecesNonempty(kv, '=');
    var key, val := FirstAndLast(pieces);
    if key == "" { return params; }
    var decodedKey := DecodeUrl(key, true);
    var decodedVal := DecodeUrl(val, true);
    added := Emplace(LESS, params, (decodedKey, decodedVal));
  }

  /** `parse_query_text` */
  method ParseQueryText(s: string) returns (params: Params)
    ensures params == Parsed(s)
  {
    params := [];
    var cache: set<string> := {};
    var kvs := Split(s, '&');
    for i := 0 to |kvs|
      invariant ParsedFrom(kvs[i..], cache, params) == Parsed(s)
    {
      var kv := kvs[i];
      assert kvs[i..][1..] == kvs[i + 1..];
      if kv !in cache {
        cache := cache + {kv};
        params := AddPair(kv, params);
      }
    }
  }

  // ----- params_to_query_str -----

  function PairText(p: Param): string
    requires IsBytes(p.1)
  {
    p.0 + "=" + Encoded(p.1)
  }

  predicate Writable(ps: Params) {
    forall p <- ps :: IsBytes(p.1)
  }

  function QueryText(ps: Params): string
    requires Writable(ps)
  {
    if ps == [] then ""
    else if |ps| == 1 then PairText(ps[0])
    else PairText(ps[0]) + "&" + QueryText(ps[1..])
  }

  function Separator(i: nat): string { if i == 0 then "" else "&" }

  /** What is still to be written from a parameter on. */
  function Remaining(ps: Params, i: nat): string
    requires Writable(ps) && i <= |ps|
  {
    if i == |ps| then "" else Separator(i) + QueryText(ps[i..])
  }

  lemma RemainingStep(before: string, ps: Params, i: nat)
    requires Writable(ps) && i < |ps|
    ensures before + Remaining(ps, i) == before + Separator(i) + PairText(ps[i]) + Remaining(ps, i + 1)
  {
    var text, next := PairText(ps[i]), Remaining(ps, i + 1);
    assert ps[i..][0] == ps[i] && ps[i..][1..] == ps[i + 1..];
    assert QueryText(ps[i..]) == text + next by {
      if i + 1 < |ps| {
        Associates(text, "&", QueryText(ps[i + 1..]));
      } else {
        assert text + "" == text;
      }
    }
    Regrouped(before, Separator(i), text, next);
  }

  lemma Regrouped(a: string, b: string, c: string, d: string)
    ensures a + (b + (c + d)) == a + b + c + d == a + (b + c + d) && a + "" == a
  {
  }

  /** `params_to_query_str` */
  method ParamsToQueryStr(params: Params) returns (query: string)
    requires Writable(params)
    ensures query == QueryText(params)
  {
    query := "";
    assert "" + QueryText(params) == QueryText(params) && params[0..] == params;
    for i := 0 to |params|
      invariant query + Remaining(params, i) == QueryText(params)
    {
      var escaped := EncodeQueryParam(params[i].1);
      RemainingStep(query, params, i);
      Regrouped(query, "", "", "");
      if i != 0 { query := query + "&"; }
      Regrouped(query, params[i].0, "=", escaped);
      query := query + params[i].0;
      query := query + "=";
      query := query + escaped;
    }
    Regrouped(query, "", "", "");
  }

  // ----- Reading what was written -----

  /** Keys that are sent as they are and can be told from the rest. */
  predicate PlainKey(key: string) {
    key != "" && forall i :: 0 <= i < |key| ==> PassesThrough(key[i])
  }

  predicate Faithful(ps: Params) {
    Writable(ps) && forall p <- ps :: PlainKey(p.0)
  }

  lemma NoBlanks(s: string)
    requires forall i :: 0 <= i < |s| ==> !IsSpaceOrTab(s[i])
    ensures Trim(s) == s
  {
  }

  /** The text of a pair has no blanks and no ampersand, and its parts no equality sign. */
  lemma PairChars(p: Param)
    requires PlainKey(p.0) && IsBytes(p.1)
    ensures '&' !in PairText(p) && PairText(p) != "" && Trim(PairText(p)) == PairText(p)
    ensures '=' !in p.0 && '=' !in Encoded(p.1) && Trim(p.0) == p.0 && Trim(Encoded(p.1)) == Encoded(p.1)
  {
    EncodedChars(p.1);
    var e := Encoded(p.1);
    assert forall i :: 0 <= i < |e| ==> !IsSpaceOrTab(e[i]) && e[i] != '=' && e[i] != '&';
    assert forall i :: 0 <= i < |p.0| ==> !IsSpaceOrTab(p.0[i]) && p.0[i] != '=' && p.0[i] != '&';
    NoBlanks(p.0);
    NoBlanks(e);
    NoBlanks(PairText(p));
  }

  lemma PairReads(p: Param)
    requires PlainKey(p.0) && IsBytes(p.1)
    ensures var pieces := Pieces(PairText(p), '=');
            && KeyOf(pieces) == p.0 && ValueOf(pieces) == Encoded(p.1)
            && (Decoded(KeyOf(pieces), true), Decoded(ValueOf(pieces), true)) == p
  {
    PairChars(p);
    PiecesOf(p.0, '=', Encoded(p.1));
    PiecesOf(Encoded(p.1), '=', "");
    PassedThrough(p.0);
    RoundTrip(p.0, true);
    RoundTrip(p.1, true);
  }

  lemma PairTextInjective(p: Param, q: Param)
    requires PlainKey(p.0) && IsBytes(p.1) && PlainKey(q.0) && IsBytes(q.1) && PairText(p) == PairText(q)
    ensures p == q
  {
    PairReads(p);
    PairReads(q);
  }

  function PairTexts(ps: Params): seq<string>
    requires Writable(ps)
  {
    seq(|ps|, i requires 0 <= i < |ps| => PairText(ps[i]))
  }

  lemma {:induction false} QueryPieces(ps: Params)
    requires Faithful(ps)
    ensures Pieces(QueryText(ps), '&') == PairTexts(ps)
  {
    if ps == [] {
      PiecesOf("", '&', "");
    } else {
      PairChars(ps[0]);
      assert PairTexts(ps) == [PairText(ps[0])] + PairTexts(ps[1..]);
      if |ps| == 1 {
        PiecesOf(PairText(ps[0]), '&', "");
      } else {
        QueryPieces(ps[1..]);
        PiecesOf(PairText(ps[0]), '&', QueryText(ps[1..]));
      }
    }
  }

  /** A list without the parameters that were there before. */
  function Collapsed(ps: Params, seen: set<Param>): Params {
    if ps == [] then []
    else if ps[0] in seen then Collapsed(ps[1..], seen)
    else [ps[0]] + Collapsed(ps[1..], seen + {ps[0]})
  }

  lemma {:induction false} CollapsedIs(ps: Params, seen: set<Param>)
    ensures var cs := Collapsed(ps, seen);
            && (forall p :: p in cs <==> p in ps && p !in seen)
            && (forall i, j :: 0 <= i < j < |cs| ==> cs[i] != cs[j])
  {
    if ps != [] {
      if ps[0] in seen {
        CollapsedIs(ps[1..], seen);
      } else {
        CollapsedIs(ps[1..], seen + {ps[0]});
        assert forall p :: p in Collapsed(ps, seen) <==> p == ps[0] || p in Collapsed(ps[1..], seen + {ps[0]});
      }
    }
  }

  /** Texts and pairs that were seen correspond. */
  predicate Corresponds(texts: set<string>, seen: set<Param>) {
    && (forall p <- seen :: PlainKey(p.0) && IsBytes(p.1) && PairText(p) in texts)
    && (forall t <- texts :: exists p :: p in seen && IsBytes(p.1) && PairText(p) == t)
  }

  lemma FirstMoves(before: Params, p: Param, others: Params)
    ensures before + [p] + others == before + ([p] + others)
  {
  }

  lemma {:induction false} ParsedPairs(ps: Params, texts: set<string>, seen: set<Param>, before: Params)
    requires Faithful(ps) && Sorted(LESS, before + ps) && Corresponds(texts, seen)
    ensures ParsedFrom(PairTexts(ps), texts, before) == before + Collapsed(ps, seen)
    decreases |ps|
  {
    if ps != [] {
      var p := ps[0];
      assert p in ps && PairTexts(ps)[1..] == PairTexts(ps[1..]);
      EmplaceInOrder(LESS, before, ps);
      if PairText(p) in texts {
        var q :| q in seen && IsBytes(q.1) && PairText(q) == PairText(p);
        PairTextInjective(p, q);
        ParsedPairs(ps[1..], texts, seen, before);
      } else {
        PairReads(p);
        FirstMoves(before, p, Collapsed(ps[1..], seen + {p}));
        ParsedPairs(ps[1..], texts + {PairText(p)}, seen + {p}, before + [p]);
      }
    } else {
      assert before + Collapsed(ps, seen) == before;
    }
  }

  /** Parameters with plain keys and arbitrary bytes as values come back, in order, each pair once. */
  lemma {:induction false} QueryRoundTrip(ps: Params)
    requires Faithful(ps) && Sorted(LESS, ps)
    ensures Parsed(QueryText(ps)) == Collapsed(ps, {})
  {
    QueryPieces(ps);
    assert [] + ps == ps;
    ParsedPairs(ps, {}, {}, []);
  }

  // ----- Any query text -----

  /** The order of the keys tells all keys apart. */
  lemma {:induction false} LessOrders(a: string, b: string, c: string)
    ensures Less(a, b) ==> !Less(b, a)
    ensures Less(a, c) ==> Less(a, b) || Less(b, c)
    ensures !Less(a, b) && !Less(b, a) ==> a == b
  {
    if a != "" && b != "" {
      LessOrders(a[1..], b[1..], if c == "" then "" else c[1..]);
      assert a == [a[0]] + a[1..] && b == [b[0]] + b[1..];
    }
  }

  lemma LessIsStrictWeak()
    ensures StrictWeak(LESS)
  {
    forall a: string, b: string, c: string
      ensures (LESS(a, b) ==> !LESS(b, a)) && (LESS(a, c) ==> LESS(a, b) || LESS(b, c))
    {
      LessOrders(a, b, c);
    }
  }

  /** Texts with a delimiter between them. */
  function Between(xs: seq<string>, d: char): string
    requires xs != []
  {
    if |xs| == 1 then xs[0] else xs[0] + [d] + Between(xs[1..], d)
  }

  function AllKept(xs: seq<string>): seq<string> {
    if xs == [] then [] else Kept(Trim(xs[0])) + AllKept(xs[1..])
  }

  /** Splitting gives the texts back, trimmed, without those of blanks only. */
  lemma {:induction false} SplitReads(xs: seq<string>, d: char)
    requires xs != [] && forall x <- xs :: d !in x
    ensures Pieces(Between(xs, d), d) == AllKept(xs)
  {
    assert xs[0] in xs;
    if |xs| == 1 {
      PiecesOf(xs[0], d, "");
      assert AllKept(xs[1..]) == [] && Kept(Trim(xs[0])) + [] == Kept(Trim(xs[0]));
    } else {
      SplitReads(xs[1..], d);
      PiecesOf(xs[0], d, Between(xs[1..], d));
    }
  }

  /** What one piece between ampersands adds: of its parts between equality signs, trimmed and without those of blanks
      only, the first is the key and the last of the others the value. Both are decoded, plus signs as blanks. */
  lemma PartsAdd(parts: seq<string>, ps: Params)
    requires parts != [] && forall x <- parts :: '=' !in x
    ensures AllKept(parts) == [] ==> AddedBy(Between(parts, '='), ps) == ps
    ensures |AllKept(parts)| == 1 ==>
              AddedBy(Between(parts, '='), ps) == Emplace(LESS, ps, (Decoded(AllKept(parts)[0], true), ""))
    ensures |AllKept(parts)| > 1 ==>
              AddedBy(Between(parts, '='), ps)
              == Emplace(LESS, ps, (Decoded(AllKept(parts)[0], true),
                                    Decoded(AllKept(parts)[|AllKept(parts)| - 1], true)))
  {
    SplitReads(parts, '=');
    PiecesNonempty(Between(parts, '='), '=');
    PiecesAdd(Between(parts, '='), AllKept(parts), ps);
  }

  lemma PiecesAdd(kv: string, pieces: seq<string>, ps: Params)
    requires Pieces(kv, '=') == pieces && "" !in pieces
    ensures pieces == [] ==> AddedBy(kv, ps) == ps
    ensures |pieces| == 1 ==> AddedBy(kv, ps) == Emplace(LESS, ps, (Decoded(pieces[0], true), ""))
    ensures |pieces| > 1 ==>
              AddedBy(kv, ps)
              == Emplace(LESS, ps, (Decoded(pieces[0], true), Decoded(pieces[|pieces| - 1], true)))
  {
    assert pieces != [] ==> pieces[0] in pieces;
    assert Decoded("", true) == "";
  }

  function AddedByAll(kvs: seq<string>, ps: Params): Params
    decreases |kvs|
  {
    if kvs == [] then ps else AddedByAll(kvs[1..], AddedBy(kvs[0], ps))
  }

  /** Each text of a list once, where it comes first. */
  function Once(kvs: seq<string>, seen: set<string>): seq<string> {
    if kvs == [] then []
    else if kvs[0] in seen then Once(kvs[1..], seen)
    else [kvs[0]] + Once(kvs[1..], seen + {kvs[0]})
  }

  lemma {:induction false} ParsedOnce(kvs: seq<string>, seen: set<string>, ps: Params)
    ensures ParsedFrom(kvs, seen, ps) == AddedByAll(Once(kvs, seen), ps)
    decreases |kvs|
  {
    if kvs != [] {
      if kvs[0] in seen {
        ParsedOnce(kvs[1..], seen, ps);
      } else {
        ParsedOnce(kvs[1..], seen + {kvs[0]}, AddedBy(kvs[0], ps));
        assert Once(kvs, seen)[1..] == Once(kvs[1..], seen + {kvs[0]});
      }
    }
  }

  /** The parameters of any query text: its texts between ampersands, trimmed, without those of blanks only, each once,
      add theirs one after the other. */
  lemma AnyTextParses(xs: seq<string>)
    requires xs != [] && forall x <- xs :: '&' !in x
    ensures Parsed(Between(xs, '&')) == AddedByAll(Once(AllKept(xs), {}), [])
  {
    SplitReads(xs, '&');
    ParsedOnce(AllKept(xs), {}, []);
  }
}
