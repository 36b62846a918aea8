/** `base64_encode`, with its 32-bit accumulator, against coding and decoding by groups (section 4 of RFC 4648); the
    accumulator gives the digits that one without bounds gives. */
module Base64 {
  type Byte = n: nat | n < 256
  type Sextet = n: nat | n < 64

  /** A digit, or 64 for padding. */
  type Symbol = n: nat | n <= 64

  const PAD: Symbol := 64

  /** The table of digits: upper case, lower case, decimals, plus and slash. */
  function Character(d: Symbol): char {
    if d < 26 then 'A' + d as char else if d < 52 then 'a' + (d - 26) as char
    else if d < 62 then '0' + (d - 52) as char else if d == 62 then '+' else if d == 63 then '/' else '='
  }

  /** The value of a character in the table; 64 for others. */
  function SymbolOf(c: char): Symbol {
    if 'A' <= c <= 'Z' then (c - 'A') as nat
    else if 'a' <= c <= 'z' then (c - 'a') as nat + 26
    else if '0' <= c <= '9' then (c - '0') as nat + 52
    else if c == '+' then 62 else if c == '/' then 63 else PAD
  }

  lemma CharacterReads(d: Symbol)
    ensures SymbolOf(Character(d)) == d
  {
  }

  /** The letters of the program's table, thirteen at a time, and the rest of it. */
  lemma LetterIsLookedUp(d: nat)
    requires d < 13
    ensures Character(d) == "ABCDEFGHIJKLM"[d] && Character(d + 13) == "NOPQRSTUVWXYZ"[d]
    ensures Character(d + 26) == "abcdefghijklm"[d] && Character(d + 39) == "nopqrstuvwxyz"[d]
  {
  }

  lemma OtherIsLookedUp(d: nat)
    requires d < 12
    ensures Character(d + 52) == "0123456789+/"[d] && Character(PAD) == '='
  {
  }

  function TextOf(symbols: seq<Symbol>): string {
    seq(|symbols|, i requires 0 <= i < |symbols| => Character(symbols[i]))
  }

  function SymbolsOf(text: string): seq<Symbol> {
    seq(|text|, i requires 0 <= i < |text| => SymbolOf(text[i]))
  }

  lemma TextReads(symbols: seq<Symbol>)
    ensures SymbolsOf(TextOf(symbols)) == symbols
  {
    forall i | 0 <= i < |symbols|
      ensures SymbolsOf(TextOf(symbols))[i] == symbols[i]
    {
      CharacterReads(symbols[i]);
    }
  }

  lemma TextAppend(a: seq<Symbol>, b: seq<Symbol>)
    ensures TextOf(a + b) == TextOf(a) + TextOf(b)
  {
  }

  // ----- Coding by groups -----

  // The sextets of three bytes.
  function First(a: Byte): Sextet { a / 4 }
  function Second(a: Byte, b: Byte): Sextet { a % 4 * 16 + b / 16 }
  function Third(b: Byte, c: Byte): Sextet { b % 16 * 4 + c / 64 }
  function Fourth(c: Byte): Sextet { c % 64 }

  function Group(a: Byte, b: Byte, c: Byte): seq<Symbol> { [First(a), Second(a, b), Third(b, c), Fourth(c)] }

  /** The four sextets are the digits of the 24-bit number that the three bytes are. */
  lemma GroupIsNumber(a: Byte, b: Byte, c: Byte)
    ensures 262144 * First(a) + 4096 * Second(a, b) + 64 * Third(b, c) + Fourth(c) == 65536 * a + 256 * b + c
  {
  }

  /** Three bytes make four digits; what is left over at the end is padded. */
  function Encoded(s: seq<Byte>): seq<Symbol> {
    if |s| == 0 then []
    else if |s| == 1 then [First(s[0]), Second(s[0], 0), PAD, PAD]
    else if |s| == 2 then [First(s[0]), Second(s[0], s[1]), Third(s[1], 0), PAD]
    else Group(s[0], s[1], s[2]) + Encoded(s[3..])
  }

  /** The number of groups. */
  function Groups(n: nat): (g: nat)
    ensures g == (n + 2) / 3
  {
    if n == 0 then 0 else if n <= 3 then 1 else 1 + Groups(n - 3)
  }

  lemma GroupLength(a: Byte, b: Byte, c: Byte)
    ensures |Group(a, b, c)| == 4
  {
  }

  lemma {:induction false} EncodedLength(s: seq<Byte>)
    ensures |Encoded(s)| == 4 * Groups(|s|)
  {
    if |s| >= 3 {
      EncodedLength(s[3..]);
      GroupLength(s[0], s[1], s[2]);
    }
  }

  /** Decoding by groups of four; the padding says how many bytes the last group has. */
  function DecodedGroup(a: Symbol, b: Symbol, c: Symbol, d: Symbol): seq<int> {
    if c == PAD then [a * 4 + b / 16]
    else if d == PAD then [a * 4 + b / 16, b % 16 * 16 + c / 4]
    else [a * 4 + b / 16, b % 16 * 16 + c / 4, c % 4 * 64 + d]
  }

  function Decoded(s: seq<Symbol>): seq<int> {
    if |s| < 4 then [] else DecodedGroup(s[0], s[1], s[2], s[3]) + Decoded(s[4..])
  }

  lemma GroupReads(a: Byte, b: Byte, c: Byte)
    ensures First(a) * 4 + Second(a, b) / 16 == a
    ensures Second(a, b) % 16 * 16 + Third(b, c) / 4 == b
    ensures Third(b, c) % 4 * 64 + Fourth(c) == c
  {
  }

  lemma FullGroupReads(a: Byte, b: Byte, c: Byte)
    ensures DecodedGroup(First(a), Second(a, b), Third(b, c), Fourth(c)) == [a, b, c]
    ensures DecodedGroup(First(a), Second(a, b), Third(b, 0), PAD) == [a, b]
    ensures DecodedGroup(First(a), Second(a, 0), PAD, PAD) == [a]
  {
    GroupReads(a, b, c);
    GroupReads(a, b, 0);
    GroupReads(a, 0, 0);
  }

  lemma DecodedFirst(a: Symbol, b: Symbol, c: Symbol, d: Symbol, others: seq<Symbol>)
    ensures Decoded([a, b, c, d] + others) == DecodedGroup(a, b, c, d) + Decoded(others)
  {
    assert ([a, b, c, d] + others)[4..] == others;
  }

  lemma {:induction false} SymbolsDecode(s: seq<Byte>)
    ensures Decoded(Encoded(s)) == s
  {
    if s == [] {
    } else if |s| >= 3 {
      SymbolsDecode(s[3..]);
      FullGroupReads(s[0], s[1], s[2]);
      DecodedFirst(First(s[0]), Second(s[0], s[1]), Third(s[1], s[2]), Fourth(s[2]), Encoded(s[3..]));
      assert s == [s[0], s[1], s[2]] + s[3..];
    } else if |s| == 2 {
      FullGroupReads(s[0], s[1], 0);
      DecodedFirst(First(s[0]), Second(s[0], s[1]), Third(s[1], 0), PAD, []);
      assert Encoded(s) == [First(s[0]), Second(s[0], s[1]), Third(s[1], 0), PAD] + [];
    } else {
      FullGroupReads(s[0], 0, 0);
      DecodedFirst(First(s[0]), Second(s[0], 0), PAD, PAD, []);
      assert Encoded(s) == [First(s[0]), Second(s[0], 0), PAD, PAD] + [];
    }
  }

  /** Coding keeps every input. */
  lemma RoundTrip(s: seq<Byte>)
    ensures Decoded(SymbolsOf(TextOf(Encoded(s)))) == s
  {
    TextReads(Encoded(s));
    SymbolsDecode(s);
  }

  // ----- The program -----

  /** A signed 32-bit number. */
  function Wrapped(n: int): int { (n + 0x8000_0000) % 0x1_0000_0000 - 0x8000_0000 }

  /** `(val >> k) & 0x3F`: an arithmetic shift rounds down. */
  function Bits(val: int, k: nat): Sextet
    requires k in {0, 2, 4, 6}
  {
    (if k == 0 then val else if k == 2 then val / 4 else if k == 4 then val / 16 else val / 64) % 64
  }

  function Last(s: seq<Byte>): Byte
    requires s != []
  {
    s[|s| - 1]
  }

  /** The byte before the last one, if it is in the same group. */
  function Previous(s: seq<Byte>): Byte { if |s| % 3 == 1 || |s| < 2 then 0 else s[|s| - 2] }

  /** The digits that the last byte completes, by its place in its group. */
  function Completed(place: nat, b: Byte, c: Byte): seq<Symbol> {
    if place == 1 then [First(c)] else if place == 2 then [Second(b, c)] else [Third(b, c), Fourth(c)]
  }

  function NewDigits(s: seq<Byte>): seq<Symbol>
    requires s != []
  {
    Completed(|s| % 3, Previous(s), Last(s))
  }

  /** All digits that are complete. */
  function Digits(s: seq<Byte>): seq<Symbol> {
    if s == [] then [] else Digits(s[..|s| - 1]) + NewDigits(s)
  }

  /** The digit for the bits that are left over. */
  function LeftOverDigit(place: nat, c: Byte): seq<Symbol> {
    if place == 1 then [Second(c, 0)] else if place == 2 then [Third(c, 0)] else []
  }

  function Rest(s: seq<Byte>): seq<Symbol> { LeftOverDigit(|s| % 3, if s == [] then 0 else Last(s)) }

  function Padding(place: nat): seq<Symbol> { if place == 1 then [PAD, PAD] else if place == 2 then [PAD] else [] }

  /** What the accumulator's last bits are: the last two bytes. */
  predicate Ends(val: int, s: seq<Byte>) {
    && (|s| >= 1 ==> val % 256 == Last(s))
    && (|s| >= 2 ==> val % 65536 == (s[|s| - 2] as int) * 256 + Last(s))
  }

  // A number has one quotient and remainder.

  lemma Division65536(n: int, q: int, r: int)
    requires n == 65536 * q + r && 0 <= r < 65536
    ensures n / 65536 == q && n % 65536 == r
  {
  }

  lemma Division256(n: int, q: int, r: int)
    requires n == 256 * q + r && 0 <= r < 256
    ensures n / 256 == q && n % 256 == r
  {
  }

  lemma Division64(n: int, q: int, r: int)
    requires n == 64 * q + r && 0 <= r < 64
    ensures n / 64 == q && n % 64 == r
  {
  }

  lemma Division16(n: int, q: int, r: int)
    requires n == 16 * q + r && 0 <= r < 16
    ensures n / 16 == q && n % 16 == r
  {
  }

  lemma SameEnd(x: int, j: int)
    ensures (x + 65536 * j) % 65536 == x % 65536 && (x + 65536 * j) % 256 == x % 256
  {
    Division65536(x + 65536 * j, x / 65536 + j, x % 65536);
    Division256(x + 65536 * j, x / 256 + 256 * j, x % 256);
  }

  lemma WrappingKeepsEnd(n: int)
    ensures Wrapped(n) % 65536 == n % 65536 && Wrapped(n) % 256 == n % 256
  {
    var k := (n + 0x8000_0000) / 0x1_0000_0000;
    assert n == Wrapped(n) + 65536 * (65536 * k);
    SameEnd(Wrapped(n), 65536 * k);
  }

  lemma ShiftedEnd(val: int, c: Byte)
    ensures (val * 256 + c) % 65536 == val % 256 * 256 + c && (val * 256 + c) % 256 == c
  {
    Division65536(val * 256 + c, val / 256, val % 256 * 256 + c);
    Division256(val * 256 + c, val, c);
  }

  /** The wrapped accumulator ends in the right bytes, as one without bounds would. */
  lemma AccumulatorEnds(val: int, s: seq<Byte>, c: Byte)
    requires Ends(val, s)
    ensures Ends(Wrapped(val * 256 + c), s + [c])
  {
    WrappingKeepsEnd(val * 256 + c);
    ShiftedEnd(val, c);
  }

  /** Sextets read from the accumulator. */
  lemma BitsAre(val: int, b: Byte, c: Byte)
    requires val % 65536 == b * 256 + c
    ensures Bits(val, 4) == Second(b, c) && Bits(val, 6) == Third(b, c)
  {
    var q := val / 65536;
    Division16(val, 4096 * q + 16 * b + c / 16, c % 16);
    Division64(val / 16, 64 * q + b / 4, Second(b, c));
    Division64(val, 1024 * q + 4 * b + c / 64, c % 64);
    Division64(val / 64, 16 * q + b / 16, Third(b, c));
  }

  lemma LowBitsAre(val: int, c: Byte)
    requires val % 256 == c
    ensures Bits(val, 2) == First(c) && Bits(val, 0) == Fourth(c)
  {
    var q := val / 256;
    assert val / 4 == 64 * q + c / 4;
    Division64(val / 4, q, First(c));
    Division64(val, 4 * q + c / 64, Fourth(c));
  }

  lemma LeftOver(val: int, c: Byte)
    requires val % 256 == c
    ensures Bits(Wrapped(val * 256), 4) == Second(c, 0) && Bits(Wrapped(val * 256), 6) == Third(c, 0)
  {
    WrappingKeepsEnd(val * 256);
    ShiftedEnd(val, 0);
    BitsAre(Wrapped(val * 256), c, 0);
  }

  /** The program's accumulator after some bytes, and one without bounds. */
  function Accumulated(s: seq<Byte>): int {
    if s == [] then 0 else Wrapped(Accumulated(s[..|s| - 1]) * 256 + Last(s))
  }

  function Unbounded(s: seq<Byte>): int {
    if s == [] then 0 else Unbounded(s[..|s| - 1]) * 256 + Last(s)
  }

  lemma {:induction false} AccumulatorsEndAlike(s: seq<Byte>)
    ensures Accumulated(s) % 65536 == Unbounded(s) % 65536
  {
    if s != [] {
      var a, u := Accumulated(s[..|s| - 1]), Unbounded(s[..|s| - 1]);
      AccumulatorsEndAlike(s[..|s| - 1]);
      WrappingKeepsEnd(a * 256 + Last(s));
      ShiftedEnd(a, Last(s));
      ShiftedEnd(u, Last(s));
      SameEnd(a % 65536, a / 65536);
      SameEnd(u % 65536, u / 65536);
    }
  }

  /** The wrapped accumulator gives the same digits as one without bounds. */
  lemma SameDigits(s: seq<Byte>, k: nat)
    requires k in {0, 2, 4, 6}
    ensures Bits(Accumulated(s), k) == Bits(Unbounded(s), k)
  {
    AccumulatorsEndAlike(s);
    var a, u := Accumulated(s), Unbounded(s);
    var b, c := u % 65536 / 256, u % 65536 % 256;
    SameEnd(a % 65536, a / 65536);
    SameEnd(u % 65536, u / 65536);
    BitsAre(a, b, c);
    BitsAre(u, b, c);
    LowBitsAre(a, c);
    LowBitsAre(u, c);
  }

  /** What the inner loop has still to write for a byte, by the number of bits it has. */
  function ToWrite(valb: int, b: Byte, c: Byte): seq<Symbol> {
    if valb == 6 then [Third(b, c), Fourth(c)]
    else if valb == 4 then [Second(b, c)]
    else if valb == 2 then [First(c)]
    else if valb == 0 then [Fourth(c)]
    else []
  }

  /** The number of bits before the inner loop, and after it. */
  function BitsBefore(place: nat): int { if place == 1 then 2 else if place == 2 then 4 else 6 }
  function BitsAfter(place: nat): int { if place == 1 then -4 else if place == 2 then -2 else -6 }

  /** The inner loop of `base64_encode`: all complete sextets are written. */
  method WriteSextets(out0: string, val: int, valb0: int, ghost s: seq<Byte>, ghost before: seq<Symbol>)
    returns (out: string, valb: int)
    requires s != [] && Ends(val, s) && valb0 == BitsBefore(|s| % 3) && out0 == TextOf(before)
    ensures out == TextOf(before + NewDigits(s)) && valb == BitsAfter(|s| % 3)
  {
    ghost var b, c, written := Previous(s), Last(s), before;
    out, valb := out0, valb0;
    while valb >= 0
      invariant valb == valb0 || valb == valb0 - 6 || (valb0 == 6 && valb == -6)
      invariant out == TextOf(written) && written + ToWrite(valb, b, c) == before + ToWrite(valb0, b, c)
    {
      if valb >= 4 { BitsAre(val, b, c); } else { LowBitsAre(val, c); }
      var d: Symbol := Bits(val, valb);
      WritesOne(written, valb, b, c, d);
      TextAppend(written, [d]);
      written := written + [d];
      out := out + [Character(d)];
      valb := valb - 6;
    }
    assert written + [] == written;
  }

  lemma WritesOne(out: seq<Symbol>, valb: int, b: Byte, c: Byte, d: Sextet)
    requires valb in {0, 2, 4, 6}
    requires d == if valb == 6 then Third(b, c) else if valb == 4 then Second(b, c)
                  else if valb == 2 then First(c) else Fourth(c)
    ensures out + ToWrite(valb, b, c) == out + [d] + ToWrite(valb - 6, b, c)
  {
  }

  /** The digit for what is left over. */
  method WriteRest(out0: string, val: int, valb: int, ghost s: seq<Byte>, ghost before: seq<Symbol>)
    returns (out: string)
    requires Ends(val, s) && valb == BitsAfter(|s| % 3) && out0 == TextOf(before)
    ensures out == TextOf(before + Rest(s))
  {
    out := out0;
    assert before + [] == before;
    if valb > -6 {
      LeftOver(val, Last(s));
      TextAppend(before, Rest(s));
      out := out + [Character(Bits(Wrapped(val * 256), valb + 8))];
    }
  }

  /** The padding. */
  method Pad(out0: string, ghost place: nat, ghost before: seq<Symbol>) returns (out: string)
    requires place < 3 && |before| % 4 == (if place == 0 then 0 else place + 1) && out0 == TextOf(before)
    ensures out == TextOf(before + Padding(place))
  {
    out := out0;
    ghost var k := 0;
    assert before + Padding(place)[..0] == before;
    while |out| % 4 != 0
      invariant k <= |Padding(place)| && out == TextOf(before + Padding(place)[..k])
      decreases |Padding(place)| - k
    {
      TextAppend(before + Padding(place)[..k], [PAD]);
      assert before + Padding(place)[..k + 1] == before + Padding(place)[..k] + [PAD];
      out := out + "=";
      k := k + 1;
    }
    assert Padding(place)[..k] == Padding(place);
  }

  /** `base64_encode` */
  method Base64Encode(input: seq<Byte>) returns (out: string)
    ensures out == TextOf(Encoded(input)) && |out| == 4 * ((|input| + 2) / 3)
  {
    out := "";
    var val, valb := 0, -6;
    for i := 0 to |input|
      invariant Ends(val, input[..i]) && out == TextOf(Digits(input[..i]))
      invariant valb == BitsAfter(i % 3)
    {
      ghost var s := input[..i + 1];
      assert s[..i] == input[..i] && s == input[..i] + [input[i]];
      AccumulatorEnds(val, input[..i], input[i]);
      NextPlace(i);
      val := Wrapped(val * 256 + input[i]);
      valb := valb + 8;
      out, valb := WriteSextets(out, val, valb, s, Digits(input[..i]));
    }
    assert input[..|input|] == input;
    RestLength(input);
    DigitsAreEncoded(input);
    EncodedLength(input);
    out := WriteRest(out, val, valb, input, Digits(input));
    out := Pad(out, |input| % 3, Digits(input) + Rest(input));
  }

  lemma NextPlace(i: nat)
    ensures BitsAfter(i % 3) + 8 == BitsBefore((i + 1) % 3)
  {
  }

  lemma {:induction false} DigitsLength(s: seq<Byte>)
    ensures |Digits(s)| == |s| + |s| / 3
  {
    if s != [] {
      DigitsLength(s[..|s| - 1]);
      assert |NewDigits(s)| == if |s| % 3 == 0 then 2 else 1;
    }
  }

  lemma Division4(n: int, q: int, r: int)
    requires n == 4 * q + r && 0 <= r < 4
    ensures n % 4 == r
  {
  }

  lemma RestSize(s: seq<Byte>)
    ensures |Rest(s)| == if |s| % 3 == 0 then 0 else 1
  {
  }

  /** `n` bytes make `d` complete digits, and `r` more. */
  lemma LengthsFit(n: nat, d: nat, r: nat)
    requires d == n + n / 3 && r == if n % 3 == 0 then 0 else 1
    ensures (d + r) % 4 == if n % 3 == 0 then 0 else n % 3 + 1
  {
    Division4(d + r, n / 3, if n % 3 == 0 then 0 else n % 3 + 1);
  }

  lemma RestLength(s: seq<Byte>)
    ensures (|Digits(s)| + |Rest(s)|) % 4 == if |s| % 3 == 0 then 0 else |s| % 3 + 1
  {
    DigitsLength(s);
    RestSize(s);
    LengthsFit(|s|, |Digits(s)|, |Rest(s)|);
  }

  /** The last bytes of a group are the same without the groups before it. */
  lemma LaterGroup(s: seq<Byte>)
    requires |s| > 3
    ensures |s| % 3 == |s[3..]| % 3 && Last(s) == Last(s[3..]) && Previous(s) == Previous(s[3..])
    ensures s[..|s| - 1][3..] == s[3..][..|s| - 4]
  {
  }

  lemma {:induction false} DigitsFront(s: seq<Byte>)
    requires |s| >= 3
    ensures Digits(s) == Group(s[0], s[1], s[2]) + Digits(s[3..])
    decreases |s|
  {
    if |s| == 3 {
      DigitsOfThree(s[0], s[1], s[2]);
      assert s == [s[0], s[1], s[2]] && s[3..] == [];
      assert Group(s[0], s[1], s[2]) + [] == Group(s[0], s[1], s[2]);
    } else {
      var t := s[..|s| - 1];
      DigitsFront(t);
      LaterGroup(s);
      Regrouped(Group(s[0], s[1], s[2]), Digits(t[3..]), NewDigits(s), []);
    }
  }

  lemma DigitsOfThree(a: Byte, b: Byte, c: Byte)
    ensures Digits([a, b, c]) == Group(a, b, c)
  {
    assert [a, b, c][..2] == [a, b] && [a, b][..1] == [a] && [a][..0] == [];
    assert Digits([a]) == [First(a)];
    assert Digits([a, b]) == [First(a), Second(a, b)];
  }

  /** All that is written: the complete digits, the rest, the padding. */
  predicate IsCoded(s: seq<Byte>) {
    Digits(s) + Rest(s) + Padding(|s| % 3) == Encoded(s)
  }

  lemma OneIsEncoded(a: Byte)
    ensures IsCoded([a])
  {
    assert [a][..0] == [];
  }

  lemma TwoAreEncoded(a: Byte, b: Byte)
    ensures IsCoded([a, b])
  {
    assert [a, b][..1] == [a] && [a][..0] == [];
    assert Digits([a]) == [First(a)];
  }

  lemma ThreeAreEncoded(a: Byte, b: Byte, c: Byte)
    ensures IsCoded([a, b, c])
  {
    DigitsOfThree(a, b, c);
    assert [a, b, c][3..] == [];
  }

  lemma FrontIsEncoded(s: seq<Byte>)
    requires |s| > 3 && IsCoded(s[3..])
    ensures IsCoded(s)
  {
    DigitsFront(s);
    LaterGroup(s);
    Regrouped(Group(s[0], s[1], s[2]), Digits(s[3..]), Rest(s), Padding(|s| % 3));
  }

  /** Byte by byte or by groups, the digits are the same. */
  lemma {:induction false} DigitsAreEncoded(s: seq<Byte>)
    ensures IsCoded(s)
    decreases |s|
  {
    if |s| > 3 {
      DigitsAreEncoded(s[3..]);
      FrontIsEncoded(s);
    } else if |s| == 3 {
      assert s == [s[0], s[1], s[2]];
      ThreeAreEncoded(s[0], s[1], s[2]);
    } else if |s| == 2 {
      assert s == [s[0], s[1]];
      TwoAreEncoded(s[0], s[1]);
    } else if |s| == 1 {
      assert s == [s[0]];
      OneIsEncoded(s[0]);
    }
  }

  lemma Regrouped(a: seq<Symbol>, b: seq<Symbol>, c: seq<Symbol>, d: seq<Symbol>)
    ensures a + b + c + d == a + (b + c + d) && (a + b) + c == a + (b + c)
  {
  }
}
