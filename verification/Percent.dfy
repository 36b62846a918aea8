/** Percent coding: `encode_query_param` and `decode_url`, which undoes it.
    Strings are byte strings: their characters are below 256. */
module Percent {
  import opened Text
  import opened Wrappers
  import opened Hexadecimal

  predicate IsBytes(s: string) {
    forall i :: 0 <= i < |s| ==> s[i] < 256 as char
  }

  /** Characters that are sent as they are. */
  predicate PassesThrough(c: char) {
    IsAlnum(c) || c in "-_.!~*'()"
  }

  function UpperHexDigit(d: nat): char
    requires d < 16
  {
    if d < 10 then '0' + d as char else 'A' + (d - 10) as char
  }

  function EncodeByte(c: char): string
    requires c < 256 as char
  {
    if PassesThrough(c) then [c] else ['%', UpperHexDigit(c as nat / 16), UpperHexDigit(c as nat % 16)]
  }

  function Encoded(s: string): string
    requires IsBytes(s)
  {
    if s == "" then "" else EncodeByte(s[0]) + Encoded(s[1..])
  }

  /** `encode_query_param` */
  method EncodeQueryParam(value: string) returns (escaped: string)
    requires IsBytes(value)
    ensures escaped == Encoded(value)
  {
    escaped := "";
    for i := 0 to |value|
      invariant escaped + Encoded(value[i..]) == Encoded(value)
    {
      var c := value[i];
      assert value[i..][1..] == value[i + 1..];
      Associates(escaped, EncodeByte(c), Encoded(value[i + 1..]));
      if PassesThrough(c) {
        escaped := escaped + [c];
      } else {
        escaped := escaped + ['%', UpperHexDigit(c as nat / 16), UpperHexDigit(c as nat % 16)];
      }
    }
  }

  // ----- Decoding -----

  /** `from_hex_to_i`: the number of the `count` digits at a position, if they are there. */
  function FromHexToI(s: string, i: nat, count: nat): Option<nat> {
    if i + count <= |s| && count > 0 && AllHex(s[i..i + count]) then Some(HexValue(s[i..i + count])) else None
  }

  function Byte(n: nat): char
    requires n < 256
  {
    n as char
  }

  /** `to_utf8`: nothing for surrogates. */
  function ToUtf8(code: nat): string
    requires code < 0x10000
  {
    if code < 0x80 then [Byte(code)]
    else if code < 0x800 then [Byte(0xC0 + code / 64), Byte(0x80 + code % 64)]
    else if 0xD800 <= code < 0xE000 then ""
    else [Byte(0xE0 + code / 4096), Byte(0x80 + code / 64 % 64), Byte(0x80 + code % 64)]
  }

  lemma {:induction false} HexBound(s: string)
    requires AllHex(s)
    ensures |s| == 0 ==> HexValue(s) < 1
    ensures |s| == 1 ==> HexValue(s) < 16
    ensures |s| == 2 ==> HexValue(s) < 256
    ensures |s| == 3 ==> HexValue(s) < 4096
    ensures |s| == 4 ==> HexValue(s) < 65536
  {
    if s != "" {
      HexBound(s[..|s| - 1]);
    }
  }

  /** What `decode_url` makes of the text from its beginning: the bytes, and how much of the text they stand for. */
  function DecodeFirst(s: string, plus: bool): (r: (string, nat))
    requires s != ""
    ensures 0 < r.1 <= |s|
  {
    if s[0] == '%' && |s| > 1 then
      if s[1] == 'u' then
        match FromHexToI(s, 2, 4)
        case Some(val) => HexBound(s[2..6]); (ToUtf8(val), 6)
        case None => ([s[0]], 1)
      else
        match FromHexToI(s, 1, 2)
        case Some(val) => HexBound(s[1..3]); ([Byte(val)], 3)
        case None => ([s[0]], 1)
    else ([if plus && s[0] == '+' then ' ' else s[0]], 1)
  }

  function Decoded(s: string, plus: bool): string
    decreases |s|
  {
    if s == "" then "" else var r := DecodeFirst(s, plus); r.0 + Decoded(s[r.1..], plus)
  }

  /** The body of the loop of `decode_url`: what is appended, and how far the index goes beyond the loop's own step. */
  method DecodeAt(s: string, i: nat, convertPlusToSpace: bool) returns (piece: string, skip: nat)
    requires i < |s|
    ensures (piece, skip + 1) == DecodeFirst(s[i..], convertPlusToSpace)
  {
    if s[i] == '%' && i + 1 < |s| {
      if s[i + 1] == 'u' {
        var val := FromHexToI(s, i + 2, 4);
        FromHexBehind(s, i, 2, 4);
        if val.Some? {
          HexBound(s[i + 2..i + 6]);
          return ToUtf8(val.value), 5;
        }
        return [s[i]], 0;
      } else {
        var val := FromHexToI(s, i + 1, 2);
        FromHexBehind(s, i, 1, 2);
        if val.Some? {
          HexBound(s[i + 1..i + 3]);
          return [Byte(val.value)], 2;
        }
        return [s[i]], 0;
      }
    } else if convertPlusToSpace && s[i] == '+' {
      return [' '], 0;
    } else {
      return [s[i]], 0;
    }
  }

  lemma FromHexBehind(s: string, k: nat, i: nat, count: nat)
    requires k <= |s|
    ensures FromHexToI(s[k..], i, count) == FromHexToI(s, k + i, count)
  {
    if k + i + count <= |s| {
      assert s[k..][i..i + count] == s[k + i..k + i + count];
    }
  }

  /** `decode_url` */
  method DecodeUrl(s: string, convertPlusToSpace: bool) returns (result: string)
    ensures result == Decoded(s, convertPlusToSpace)
  {
    result := "";
    var i := 0;
    while i < |s|
      invariant i <= |s| && result + Decoded(s[i..], convertPlusToSpace) == Decoded(s, convertPlusToSpace)
    {
      var piece, skip := DecodeAt(s, i, convertPlusToSpace);
      assert s[i..][skip + 1..] == s[i + skip + 1..];
      Associates(result, piece, Decoded(s[i + skip + 1..], convertPlusToSpace));
      result := result + piece;
      i := i + skip;
      i := i + 1;
    }
  }

  // ----- Decoding what was encoded -----

  lemma UpperDigits(n: nat)
    requires n < 256
    ensures var s := [UpperHexDigit(n / 16), UpperHexDigit(n % 16)]; AllHex(s) && HexValue(s) == n
  {
    var h, l := UpperHexDigit(n / 16), UpperHexDigit(n % 16);
    assert [h, l][..1] == [h] && [h][..0] == "";
    assert HexValue([h]) == DigitValue(h) by {
      assert HexValue("") == 0;
    }
  }

  lemma EncodedByteIsDecoded(c: char, rest: string, plus: bool)
    requires c < 256 as char
    ensures DecodeFirst(EncodeByte(c) + rest, plus) == ([c], |EncodeByte(c)|)
  {
    var s := EncodeByte(c) + rest;
    if !PassesThrough(c) {
      UpperDigits(c as nat);
      assert s[1..3] == [UpperHexDigit(c as nat / 16), UpperHexDigit(c as nat % 16)];
    }
  }

  /** Every byte string comes back, whatever is made of a plus sign. */
  lemma {:induction false} RoundTrip(s: string, plus: bool)
    requires IsBytes(s)
    ensures Decoded(Encoded(s), plus) == s
  {
    if s != "" {
      RoundTrip(s[1..], plus);
      EncodedByteIsDecoded(s[0], Encoded(s[1..]), plus);
      assert (EncodeByte(s[0]) + Encoded(s[1..]))[|EncodeByte(s[0])|..] == Encoded(s[1..]);
    }
  }

  /** Nothing is encoded twice or left unencoded: the coding is faithful. */
  lemma EncodedInjective(s: string, t: string)
    requires IsBytes(s) && IsBytes(t) && Encoded(s) == Encoded(t)
    ensures s == t
  {
    RoundTrip(s, false);
    RoundTrip(t, false);
  }

  /** What is encoded is made of characters that pass through and of percent signs. */
  lemma {:induction false} EncodedChars(s: string)
    requires IsBytes(s)
    ensures forall i :: 0 <= i < |Encoded(s)| ==> PassesThrough(Encoded(s)[i]) || Encoded(s)[i] == '%'
  {
    if s != "" {
      EncodedChars(s[1..]);
    }
  }

  /** Text of characters that pass through is its own encoding. */
  lemma {:induction false} PassedThrough(s: string)
    requires forall i :: 0 <= i < |s| ==> PassesThrough(s[i])
    ensures IsBytes(s) && Encoded(s) == s
  {
    if s != "" {
      PassedThrough(s[1..]);
    }
  }
}
