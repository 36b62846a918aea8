/** Numbers to base 16: `from_i_to_hex`, by which the chunked writer gives the size of a chunk, against C's `strtoul`,
    by which the reader takes it. */
module Hexadecimal {
  import opened Text
  import opened Wrappers

  /** `unsigned long` has 64 bits. */
  const ULONG_MAX: nat := 0xFFFF_FFFF_FFFF_FFFF

  const CHARSET: string := "0123456789abcdef"

  function HexDigit(d: nat): char
    requires d < 16
  {
    if d < 10 then '0' + d as char else 'a' + (d - 10) as char
  }

  predicate IsHexDigit(c: char) {
    IsDigit(c) || 'a' <= c <= 'f' || 'A' <= c <= 'F'
  }

  function DigitValue(c: char): (d: nat)
    requires IsHexDigit(c)
    ensures d < 16
  {
    if IsDigit(c) then (c - '0') as nat
    else if 'a' <= c <= 'f' then (c - 'a') as nat + 10
    else (c - 'A') as nat + 10
  }

  /** The digits of a number, the most significant first, without leading zeros. */
  function Hex(n: nat): string {
    if n < 16 then [HexDigit(n)] else Hex(n / 16) + [HexDigit(n % 16)]
  }

  predicate AllHex(s: string) {
    forall i :: 0 <= i < |s| ==> IsHexDigit(s[i])
  }

  function HexValue(s: string): nat
    requires AllHex(s)
  {
    if s == "" then 0 else HexValue(s[..|s| - 1]) * 16 + DigitValue(s[|s| - 1])
  }

  lemma {:induction false} HexReadsBack(n: nat)
    ensures Hex(n) != "" && AllHex(Hex(n)) && HexValue(Hex(n)) == n
    decreases n
  {
    if n < 16 {
      assert [HexDigit(n)][..0] == "";
      assert HexValue("") == 0;
    } else {
      HexReadsBack(n / 16);
      assert Hex(n)[..|Hex(n)| - 1] == Hex(n / 16);
    }
  }

  /** `from_i_to_hex` */
  method FromIToHex(n: nat) returns (ret: string)
    ensures ret == Hex(n)
  {
    assert forall d: nat :: d < 16 ==> CHARSET[d] == HexDigit(d);
    var m := n;
    ret := [CHARSET[m % 16]];
    m := m / 16;
    while m > 0
      invariant Hex(n) == if m == 0 then ret else Hex(m) + ret
    {
      ghost var m', ret' := m, ret;
      ret := [CHARSET[m % 16]] + ret;
      m := m / 16;
      assert Hex(m') + ret' == if m == 0 then ret else Hex(m) + ret;
    }
  }

  // ----- strtoul(s, &end, 16) -----

  /** How many digits `s` begins with. */
  function HexDigits(s: string): (n: nat)
    ensures n <= |s| && AllHex(s[..n])
  {
    if s != "" && IsHexDigit(s[0]) then 1 + HexDigits(s[1..]) else 0
  }

  /** The number that `s` begins with. */
  function ReadDigits(s: string): Option<nat> {
    if HexDigits(s) == 0 then None else Some(HexValue(s[..HexDigits(s)]))
  }

  predicate Signed(s: string) { s != "" && (s[0] == '+' || s[0] == '-') }

  predicate Prefixed(s: string) {
    |s| >= 3 && s[0] == '0' && (s[1] == 'x' || s[1] == 'X') && IsHexDigit(s[2])
  }

  /** None: there is no number, `end` is `s`. A number that does not fit gives ULONG_MAX, a negative one wraps. */
  function StrToUL(s: string): Option<nat> {
    var t := SkipSpaces(s);
    var u := if Signed(t) then t[1..] else t;
    match ReadDigits(if Prefixed(u) then u[2..] else u)
    case None => None
    case Some(value) =>
      if value > ULONG_MAX then Some(ULONG_MAX)
      else if Signed(t) && t[0] == '-' && value > 0 then Some(ULONG_MAX + 1 - value)
      else Some(value)
  }

  lemma {:induction false} HexDigitsOf(s: string, rest: string)
    requires AllHex(s) && (rest != "" ==> !IsHexDigit(rest[0]))
    ensures HexDigits(s + rest) == |s|
  {
    if s != "" {
      assert (s + rest)[1..] == s[1..] + rest;
      HexDigitsOf(s[1..], rest);
    }
  }

  /** Text that begins with a digit, and not with "0x", is its digits. */
  lemma StartsWithDigit(s: string, value: nat)
    requires s != "" && IsHexDigit(s[0]) && (|s| > 1 ==> s[1] != 'x' && s[1] != 'X')
    requires ReadDigits(s) == Some(value) && value <= ULONG_MAX
    ensures StrToUL(s) == Some(value)
  {
    assert SkipSpaces(s) == s && !Signed(s) && !Prefixed(s);
  }

  /** A printed number is read back, whatever follows it that is neither a digit nor makes a "0x" of a zero. */
  lemma HexRoundTrip(n: nat, rest: string)
    requires n <= ULONG_MAX
    requires rest != "" ==> !IsHexDigit(rest[0]) && rest[0] != 'x' && rest[0] != 'X'
    ensures StrToUL(Hex(n) + rest) == Some(n)
  {
    var s, digits := Hex(n) + rest, Hex(n);
    HexReadsBack(n);
    HexDigitsOf(digits, rest);
    assert s[..|digits|] == digits;
    assert s[0] == digits[0] && (|s| > 1 ==> s[1] == if |digits| > 1 then digits[1] else rest[0]);
    StartsWithDigit(s, n);
  }

  // ----- Any text that begins with a number -----

  predicate AllSpaces(s: string) { forall i :: 0 <= i < |s| ==> IsSpace(s[i]) }

  lemma {:induction false} SpacesSkipped(blanks: string, s: string)
    requires AllSpaces(blanks) && (s != "" ==> !IsSpace(s[0]))
    ensures SkipSpaces(blanks + s) == s
  {
    if blanks == "" {
      assert blanks + s == s;
    } else {
      assert (blanks + s)[1..] == blanks[1..] + s;
      SpacesSkipped(blanks[1..], s);
    }
  }

  /** The value of `strtoul` for a sign and a number. */
  function Signedly(sign: string, value: nat): nat {
    if value > ULONG_MAX then ULONG_MAX
    else if sign == "-" && value != 0 then 0x1_0000_0000_0000_0000 - value
    else value
  }

  lemma NoBlankOrSign(c: char)
    requires IsHexDigit(c)
    ensures !IsSpace(c) && c != '+' && c != '-'
  {
  }

  lemma PrefixRead(prefix: string, number: string)
    requires prefix in {"0x", "0X"} && number != "" && IsHexDigit(number[0])
    ensures var u := prefix + number; Prefixed(u) && u[2..] == number && !IsSpace(u[0]) && !Signed(u)
  {
  }

  /** Digits, with "0x" before them or not. */
  lemma DigitsRead(prefix: string, digits: string, rest: string)
    requires prefix in {"", "0x", "0X"}
    requires digits != "" && AllHex(digits) && (rest != "" ==> !IsHexDigit(rest[0]))
    requires prefix == "" ==> !Prefixed(digits + rest)
    ensures var u := prefix + (digits + rest);
            && u != "" && !IsSpace(u[0]) && !Signed(u)
            && ReadDigits(if Prefixed(u) then u[2..] else u) == Some(HexValue(digits))
  {
    var number := digits + rest;
    HexDigitsOf(digits, rest);
    assert number[..|digits|] == digits && number[0] == digits[0];
    NoBlankOrSign(number[0]);
    if prefix == "" {
      assert prefix + number == number;
    } else {
      PrefixRead(prefix, number);
    }
  }

  /** What stands behind the blanks: a sign or none, "0x" or nothing, and digits. */
  lemma NumberBehindBlanks(sign: string, u: string, value: nat)
    requires sign in {"", "+", "-"} && u != "" && !IsSpace(u[0]) && !Signed(u)
    requires ReadDigits(if Prefixed(u) then u[2..] else u) == Some(value)
    ensures StrToUL(sign + u) == Some(Signedly(sign, value))
  {
    var t := sign + u;
    assert t[|sign|..] == u && (sign == "" ==> t == u);
    assert SkipSpaces(t) == t;
  }

  /** Any number that a text begins with is read: blanks before it are skipped, a sign and "0x" are allowed, digits are
      of either case, a number that is too large becomes ULONG_MAX, and a negative one wraps. */
  lemma NumberReads(blanks: string, sign: string, prefix: string, digits: string, rest: string)
    requires AllSpaces(blanks) && sign in {"", "+", "-"} && prefix in {"", "0x", "0X"}
    requires digits != "" && AllHex(digits) && (rest != "" ==> !IsHexDigit(rest[0]))
    requires prefix == "" ==> !Prefixed(digits + rest)
    ensures StrToUL(blanks + (sign + (prefix + (digits + rest)))) == Some(Signedly(sign, HexValue(digits)))
  {
    DigitsRead(prefix, digits, rest);
    BlanksBefore(blanks, sign, prefix + (digits + rest));
    NumberBehindBlanks(sign, prefix + (digits + rest), HexValue(digits));
  }

  lemma BlanksBefore(blanks: string, sign: string, u: string)
    requires AllSpaces(blanks) && sign in {"", "+", "-"} && u != "" && !IsSpace(u[0])
    ensures StrToUL(blanks + (sign + u)) == StrToUL(sign + u)
  {
    assert (sign + u)[0] == (if sign != "" then sign[0] else u[0]);
    SpacesSkipped(blanks, sign + u);
    assert SkipSpaces(sign + u) == sign + u;
  }

  /** Text without a digit behind blanks and a sign is no number. */
  lemma NoNumberReads(blanks: string, sign: string, rest: string)
    requires AllSpaces(blanks) && sign in {"", "+", "-"}
    requires rest != "" ==> !IsHexDigit(rest[0])
    requires rest != "" && sign == "" ==> !IsSpace(rest[0]) && rest[0] != '+' && rest[0] != '-'
    ensures StrToUL(blanks + (sign + rest)) == None
  {
    var t := sign + rest;
    assert t != "" ==> t[0] == (if sign != "" then sign[0] else rest[0]);
    SpacesSkipped(blanks, t);
    assert t[|sign|..] == rest;
    assert sign == "" ==> t == rest;
  }
}
