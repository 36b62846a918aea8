/** What `decode_url` makes of any text: the text read as plain characters, escapes, and percent signs that begin
    none. */
module PercentText {
  import opened Text
  import opened Wrappers
  import opened Hexadecimal
  import opened Percent

  // ----- UTF-8 (section 3 of RFC 3629), as far as a code of 16 bits goes -----

  predicate IsSurrogate(code: nat) { 0xD800 <= code <= 0xDFFF }

  /** The six bits of a byte that continues a character. */
  function Continuation(c: char): Option<nat> {
    if 0x80 as char <= c < 0xC0 as char then Some(c as nat - 0x80) else None
  }

  /** The code whose shortest form, of up to three bytes, is `s`. */
  function ReadUtf8(s: string): Option<nat> {
    if |s| == 1 && s[0] < 0x80 as char then Some(s[0] as nat)
    else if |s| == 2 && 0xC0 as char <= s[0] < 0xE0 as char && Continuation(s[1]).Some? then
      Shortest(0x80, (s[0] as nat - 0xC0) * 64 + Continuation(s[1]).value)
    else if |s| == 3 && 0xE0 as char <= s[0] < 0xF0 as char && Continuation(s[1]).Some? && Continuation(s[2]).Some? then
      Shortest(0x800, (s[0] as nat - 0xE0) * 4096 + Continuation(s[1]).value * 64 + Continuation(s[2]).value)
    else None
  }

  function Shortest(least: nat, code: nat): Option<nat> {
    if code >= least && !IsSurrogate(code) then Some(code) else None
  }

  /** `to_utf8` writes what reads back as the code, and nothing for a surrogate. */
  lemma Utf8ReadsBack(code: nat)
    requires code < 0x10000
    ensures if IsSurrogate(code) then ToUtf8(code) == "" else ReadUtf8(ToUtf8(code)) == Some(code)
  {
    if code >= 0x800 && !IsSurrogate(code) {
      SixBits(code);
      SixBits(code / 64);
      assert code / 64 / 64 == code / 4096;
    }
  }

  lemma SixBits(n: nat)
    ensures n == 64 * (n / 64) + n % 64
  {
  }

  lemma Utf8IsUnique(s: string, t: string)
    requires ReadUtf8(s).Some? && ReadUtf8(s) == ReadUtf8(t)
    ensures s == t
  {
    if |s| == 3 {
      ThreeDigits(s[0] as nat, Continuation(s[1]).value, Continuation(s[2]).value,
                  t[0] as nat, Continuation(t[1]).value, Continuation(t[2]).value);
    }
  }

  lemma ThreeDigits(a: nat, b: nat, c: nat, a': nat, b': nat, c': nat)
    requires b < 64 && c < 64 && b' < 64 && c' < 64 && a * 4096 + b * 64 + c == a' * 4096 + b' * 64 + c'
    ensures a == a' && b == b' && c == c'
  {
  }

  // ----- Texts, piece by piece -----

  datatype Token = Plain(c: char) | Octet(high: char, low: char) | Code(digits: string) | LonePercent

  function Written(t: Token): string {
    match t
    case Plain(c) => [c]
    case Octet(high, low) => ['%', high, low]
    case Code(digits) => "%u" + digits
    case LonePercent => "%"
  }

  /** Text that makes an escape of a percent sign before it. */
  predicate Escapes(s: string) {
    || (|s| >= 2 && IsHexDigit(s[0]) && IsHexDigit(s[1]))
    || (|s| >= 5 && s[0] == 'u' && AllHex(s[1..5]))
  }

  /** Written in front of `rest`, the token is told from the others. */
  predicate Stands(t: Token, rest: string) {
    match t
    case Plain(c) => c != '%'
    case Octet(high, low) => IsHexDigit(high) && IsHexDigit(low)
    case Code(digits) => |digits| == 4 && AllHex(digits)
    case LonePercent => !Escapes(rest)
  }

  /** The number of four digits. */
  function CodeOf(digits: string): (code: nat)
    requires |digits| == 4 && AllHex(digits)
    ensures code < 0x10000
  {
    4096 * DigitValue(digits[0]) + 256 * DigitValue(digits[1]) + 16 * DigitValue(digits[2]) + DigitValue(digits[3])
  }

  function Meaning(t: Token, plus: bool): string
    requires Stands(t, "")
  {
    match t
    case Plain(c) => [if plus && c == '+' then ' ' else c]
    case Octet(high, low) => [Byte(16 * DigitValue(high) + DigitValue(low))]
    case Code(digits) => ToUtf8(CodeOf(digits))
    case LonePercent => "%"
  }

  function AllWritten(tokens: seq<Token>): string {
    if tokens == [] then "" else Written(tokens[0]) + AllWritten(tokens[1..])
  }

  predicate AllStand(tokens: seq<Token>) {
    tokens != [] ==> Stands(tokens[0], AllWritten(tokens[1..])) && AllStand(tokens[1..])
  }

  lemma StandsAlone(t: Token, rest: string)
    requires Stands(t, rest)
    ensures Stands(t, "")
  {
  }

  function AllMeant(tokens: seq<Token>, plus: bool): string
    requires AllStand(tokens)
  {
    if tokens == [] then ""
    else
      StandsAlone(tokens[0], AllWritten(tokens[1..]));
      Meaning(tokens[0], plus) + AllMeant(tokens[1..], plus)
  }

  lemma TwoDigitValue(s: string)
    requires |s| == 2 && AllHex(s)
    ensures HexValue(s) == 16 * DigitValue(s[0]) + DigitValue(s[1])
  {
    assert s[..1][..0] == "" && HexValue("") == 0;
    assert s[..1][0] == s[0] && HexValue(s[..1]) == DigitValue(s[0]);
  }

  lemma FourDigitValue(s: string)
    requires |s| == 4 && AllHex(s)
    ensures HexValue(s) == CodeOf(s)
  {
    TwoDigitValue(s[..2]);
    assert s[..3][..2] == s[..2] && s[..3][2] == s[2];
  }

  lemma OctetRead(high: char, low: char, rest: string, plus: bool)
    requires IsHexDigit(high) && IsHexDigit(low)
    ensures DecodeFirst("%" + [high, low] + rest, plus) == ([Byte(16 * DigitValue(high) + DigitValue(low))], 3)
  {
    var s := "%" + [high, low] + rest;
    assert s[1..3] == [high, low];
    TwoDigitValue([high, low]);
  }

  lemma CodeRead(digits: string, rest: string, plus: bool)
    requires |digits| == 4 && AllHex(digits)
    ensures DecodeFirst("%u" + digits + rest, plus) == (ToUtf8(CodeOf(digits)), 6)
  {
    var s := "%u" + digits + rest;
    assert s[2..6] == digits;
    FourDigitValue(digits);
  }

  lemma LonePercentRead(rest: string, plus: bool)
    requires !Escapes(rest)
    ensures DecodeFirst("%" + rest, plus) == ("%", 1)
  {
    var s := "%" + rest;
    if |s| > 1 && s[1] == 'u' {
      if |s| >= 6 {
        assert s[2..6] == rest[1..5];
      }
    } else if |s| >= 3 {
      assert s[1..3][0] == rest[0] && s[1..3][1] == rest[1];
    }
  }

  lemma TokenRead(t: Token, rest: string, plus: bool)
    requires Stands(t, rest) && Stands(t, "")
    ensures DecodeFirst(Written(t) + rest, plus) == (Meaning(t, plus), |Written(t)|)
  {
    match t
    case Plain(_) =>
    case Octet(high, low) => OctetRead(high, low, rest, plus);
    case Code(digits) => CodeRead(digits, rest, plus);
    case LonePercent => LonePercentRead(rest, plus);
  }

  /** A text is decoded piece by piece: escapes to their bytes, with either case of the digits, codes to UTF-8, plus
      signs to blanks if so wished, and everything else, a percent sign without its digits too, to itself. */
  lemma {:induction false} DecodedByToken(tokens: seq<Token>, plus: bool)
    requires AllStand(tokens)
    ensures Decoded(AllWritten(tokens), plus) == AllMeant(tokens, plus)
  {
    if tokens != [] {
      var rest := AllWritten(tokens[1..]);
      StandsAlone(tokens[0], rest);
      TokenRead(tokens[0], rest, plus);
      assert (Written(tokens[0]) + rest)[|Written(tokens[0])|..] == rest;
      DecodedByToken(tokens[1..], plus);
    }
  }

  /** The piece a text begins with. */
  function FirstToken(s: string): (t: Token)
    requires s != ""
    ensures |Written(t)| <= |s| && s[..|Written(t)|] == Written(t) && Stands(t, s[|Written(t)|..])
  {
    if s[0] != '%' then Plain(s[0])
    else if !Escapes(s[1..]) then LonePercent
    else if s[1] == 'u' then assert s[..6] == "%u" + s[1..][1..5]; Code(s[2..6])
    else assert s[..3] == ['%', s[1], s[2]]; Octet(s[1], s[2])
  }

  /** Every text is made of such pieces. */
  lemma {:induction false} EveryTextIsTokens(s: string) returns (tokens: seq<Token>)
    ensures AllStand(tokens) && AllWritten(tokens) == s
    decreases |s|
  {
    tokens := [];
    if s != "" {
      var t := FirstToken(s);
      var others := EveryTextIsTokens(s[|Written(t)|..]);
      tokens := [t] + others;
      assert tokens[1..] == others;
      assert s == s[..|Written(t)|] + s[|Written(t)|..];
    }
  }

  // ----- What is escaped -----

  /** Letters, digits and nine marks are sent as they are; every other byte as a percent sign and its two digits, of
      which letters are capitals. */
  lemma EscapesExactly(c: char)
    requires c < 256 as char
    ensures EncodeByte(c) == [c] <==> IsAlnum(c) || c in {'-', '_', '.', '!', '~', '*', '\'', '(', ')'}
    ensures EncodeByte(c) != [c] ==>
              var e := EncodeByte(c);
              && |e| == 3 && e[0] == '%' && AllHex(e[1..]) && HexValue(e[1..]) == c as nat
              && forall d <- e[1..] :: !('a' <= d <= 'f')
  {
    if EncodeByte(c) != [c] {
      UpperDigits(c as nat);
      assert EncodeByte(c)[1..] == [UpperHexDigit(c as nat / 16), UpperHexDigit(c as nat % 16)];
    }
  }

  // ----- Text without percent signs, and forms -----

  /** Without percent signs only the plus signs can change. */
  lemma {:induction false} WithoutPercent(s: string, plus: bool)
    requires '%' !in s
    ensures Decoded(s, plus) == seq(|s|, i requires 0 <= i < |s| => if plus && s[i] == '+' then ' ' else s[i])
  {
    if s != "" {
      WithoutPercent(s[1..], plus);
    }
  }

  /** A form's field: blanks as plus signs, the rest like `encode_query_param`. */
  function FormEncoded(s: string): string
    requires IsBytes(s)
  {
    if s == "" then "" else (if s[0] == ' ' then "+" else EncodeByte(s[0])) + FormEncoded(s[1..])
  }

  /** Every byte string comes back from a form when plus signs are read as blanks. */
  lemma {:induction false} FormRoundTrip(s: string)
    requires IsBytes(s)
    ensures Decoded(FormEncoded(s), true) == s
  {
    if s != "" {
      var first, rest := if s[0] == ' ' then "+" else EncodeByte(s[0]), FormEncoded(s[1..]);
      FormRoundTrip(s[1..]);
      if s[0] != ' ' {
        EncodedByteIsDecoded(s[0], rest, true);
      }
      assert (first + rest)[|first|..] == rest;
    }
  }
}
