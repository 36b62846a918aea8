/** Numbers in Modbus registers: what `SetRequest::setValue` writes against what `TypeConversion` reads. */
module RegisterCodec {
  // A float is its 32-bit pattern; a signed number is its bits. A register goes over the wire high byte first.

  datatype Endianness = BigEndian | LittleEndian

  // ----- Registers and bytes -----

  function HighByte(r: bv16): bv8 { (r >> 8) as bv8 }
  function LowByte(r: bv16): bv8 { (r & 0xFF) as bv8 }
  function SwapBytes(r: bv16): bv16 { ((r & 0xFF) << 8) | ((r & 0xFF00) >> 8) }

  /** The bytes of registers on the wire. */
  function Wire(registers: seq<bv16>): (bytes: seq<bv8>)
    ensures |bytes| == 2 * |registers|
  {
    if registers == [] then []
    else BytesOf(registers[0]) + Wire(registers[1..])
  }

  function BytesOf(r: bv16): seq<bv8> { [HighByte(r), LowByte(r)] }

  lemma AssociatesBytes(a: seq<bv8>, b: seq<bv8>, c: seq<bv8>)
    ensures (a + b) + c == a + (b + c)
  {
  }

  lemma {:induction false} WireAppend(a: seq<bv16>, b: seq<bv16>)
    ensures Wire(a + b) == Wire(a) + Wire(b)
  {
    if a == [] {
      assert a + b == b;
    } else {
      WireAppend(a[1..], b);
      assert (a + b)[1..] == a[1..] + b && (a + b)[0] == a[0];
      AssociatesBytes(BytesOf(a[0]), Wire(a[1..]), Wire(b));
    }
  }

  /** The 16-bit words of a number, the most significant first. */
  function Words32(n: bv32): seq<bv16> { [(n >> 16) as bv16, (n & 0xFFFF) as bv16] }
  function Words64(n: bv64): seq<bv16> {
    [(n >> 48) as bv16, ((n >> 32) & 0xFFFF) as bv16, ((n >> 16) & 0xFFFF) as bv16, (n & 0xFFFF) as bv16]
  }

  function OfWords32(high: bv16, low: bv16): bv32 { ((high as bv32) << 16) | (low as bv32) }
  function OfWords64(a: bv16, b: bv16, c: bv16, d: bv16): bv64 {
    ((a as bv64) << 48) | ((b as bv64) << 32) | ((c as bv64) << 16) | (d as bv64)
  }

  lemma WordsOf32(n: bv32)
    ensures OfWords32(Words32(n)[0], Words32(n)[1]) == n
  {
  }

  lemma WordsOf64(n: bv64)
    ensures var w := Words64(n); OfWords64(w[0], w[1], w[2], w[3]) == n
  {
  }

  /** The words in the opposite order. */
  function ReverseWords32(n: bv32): bv32 { OfWords32(Words32(n)[1], Words32(n)[0]) }
  function ReverseWords64(n: bv64): bv64 { var w := Words64(n); OfWords64(w[3], w[2], w[1], w[0]) }

  // ----- Writing -----

  /** Registers for a number: its words, the most significant first, with swapped bytes in the little-endian case. */
  function Registers32(e: Endianness, n: bv32): seq<bv16> {
    if e.BigEndian? then Words32(n) else [SwapBytes(Words32(n)[0]), SwapBytes(Words32(n)[1])]
  }

  function Registers64(e: Endianness, n: bv64): seq<bv16> {
    var w := Words64(n);
    if e.BigEndian? then w else [SwapBytes(w[0]), SwapBytes(w[1]), SwapBytes(w[2]), SwapBytes(w[3])]
  }

  /** The `i`-th 16 bits of a number in the memory of a little-endian machine. */
  function Half32(n: bv32, i: nat): bv16
    requires i < 2
  {
    if i == 0 then (n & 0xFFFF) as bv16 else (n >> 16) as bv16
  }

  function Quarter64(n: bv64, i: nat): bv16
    requires i < 4
  {
    if i == 0 then (n & 0xFFFF) as bv16 else if i == 1 then ((n >> 16) & 0xFFFF) as bv16
    else if i == 2 then ((n >> 32) & 0xFFFF) as bv16 else (n >> 48) as bv16
  }

  /** The program's exchange of the words of a number, and the quarters of the result in memory. */
  function Target32(n: bv32): bv32 { ((n & 0x0000FFFF) << 16) | ((n & 0xFFFF0000) >> 16) }

  function Target64(n: bv64): bv64 {
    ((n & 0x000000000000FFFF) << 48) | ((n & 0x00000000FFFF0000) << 16)
    | ((n & 0x0000FFFF00000000) >> 16) | ((n & 0xFFFF000000000000) >> 48)
  }

  lemma HalvesAreWords(n: bv32)
    ensures [Half32(Target32(n), 0), Half32(Target32(n), 1)] == Words32(n) == [Half32(n, 1), Half32(n, 0)]
  {
  }

  lemma QuartersAreWords(n: bv64, i: nat)
    requires i < 4
    ensures Quarter64(Target64(n), i) == Words64(n)[i] && Quarter64(n, 3 - i) == Words64(n)[i]
  {
  }

  /** `setValue` for UINT32, INT32 and FLOAT. */
  method SetValue32(e: Endianness, number: bv32, dest: array<bv16>) returns (rc: nat)
    requires dest.Length == 100
    modifies dest
    ensures rc == 2 && dest[..rc] == Registers32(e, number)
    ensures forall i :: rc <= i < 100 ==> dest[i] == old(dest[i])
  {
    rc := 2;
    HalvesAreWords(number);
    if e.BigEndian? {
      var target := Target32(number);
      dest[0] := Half32(target, 0);
      dest[1] := Half32(target, 1);
    } else {
      dest[0] := Half32(number, 1);
      dest[0] := SwapBytes(dest[0]);
      dest[1] := Half32(number, 0);
      dest[1] := SwapBytes(dest[1]);
    }
  }

  /** The loop of the big-endian case. */
  method PutQuarters(target: bv64, dest: array<bv16>, ghost words: seq<bv16>)
    requires dest.Length == 100 && |words| == 4 && forall i :: 0 <= i < 4 ==> Quarter64(target, i) == words[i]
    modifies dest
    ensures dest[..4] == words && forall i :: 4 <= i < 100 ==> dest[i] == old(dest[i])
  {
    for i := 0 to 4
      invariant forall k :: 0 <= k < i ==> dest[k] == words[k]
      invariant forall k :: 4 <= k < 100 ==> dest[k] == old(dest[k])
    {
      dest[i] := Quarter64(target, i);
    }
  }

  /** The loop of the little-endian case. */
  method PutSwappedQuarters(number: bv64, dest: array<bv16>, ghost words: seq<bv16>)
    requires dest.Length == 100 && |words| == 4 && forall i :: 0 <= i < 4 ==> Quarter64(number, i) == words[3 - i]
    modifies dest
    ensures forall i :: 0 <= i < 4 ==> dest[i] == SwapBytes(words[i])
    ensures forall i :: 4 <= i < 100 ==> dest[i] == old(dest[i])
  {
    for i := 0 to 4
      invariant forall k :: 4 - i <= k < 4 ==> dest[k] == SwapBytes(words[k])
      invariant forall k :: 4 <= k < 100 ==> dest[k] == old(dest[k])
    {
      dest[3 - i] := Quarter64(number, i);
      dest[3 - i] := SwapBytes(dest[3 - i]);
    }
  }

  /** `setValue` for UINT64 and INT64. */
  method SetValue64(e: Endianness, number: bv64, dest: array<bv16>) returns (rc: nat)
    requires dest.Length == 100
    modifies dest
    ensures rc == 4 && dest[..rc] == Registers64(e, number)
    ensures forall i :: rc <= i < 100 ==> dest[i] == old(dest[i])
  {
    rc := 4;
    forall i: nat | i < 4
      ensures Quarter64(Target64(number), i) == Words64(number)[i] && Quarter64(number, i) == Words64(number)[3 - i]
    {
      QuartersAreWords(number, i);
      QuartersAreWords(number, 3 - i);
    }
    if e.BigEndian? {
      PutQuarters(Target64(number), dest, Words64(number));
    } else {
      PutSwappedQuarters(number, dest, Words64(number));
    }
  }

  // ----- Reading -----

  function Reverse(b: seq<bv8>): (r: seq<bv8>)
    ensures |r| == |b| && forall i :: 0 <= i < |b| ==> r[i] == b[|b| - 1 - i]
  {
    if b == [] then [] else Reverse(b[1..]) + [b[0]]
  }

  function OfBytes32(a: bv8, b: bv8, c: bv8, d: bv8): bv32 {
    ((a as bv32) << 24) | ((b as bv32) << 16) | ((c as bv32) << 8) | (d as bv32)
  }

  function OfBytes64(a: bv8, b: bv8, c: bv8, d: bv8, e: bv8, f: bv8, g: bv8, h: bv8): bv64 {
    ((OfBytes32(a, b, c, d) as bv64) << 32) | (OfBytes32(e, f, g, h) as bv64)
  }

  /** The number that bytes mean. */
  function Value32(e: Endianness, bytes: seq<bv8>): bv32
    requires |bytes| == 4
  {
    var b := if e.BigEndian? then bytes else Reverse(bytes);
    OfBytes32(b[0], b[1], b[2], b[3])
  }

  function Value64(e: Endianness, bytes: seq<bv8>): bv64
    requires |bytes| == 8
  {
    var b := if e.BigEndian? then bytes else Reverse(bytes);
    OfBytes64(b[0], b[1], b[2], b[3], b[4], b[5], b[6], b[7])
  }

  /** One element: its bytes put together in the order of the registers. */
  method Element32(e: Endianness, dest: array<bv8>, i: nat) returns (v: bv32)
    requires i + 4 <= dest.Length
    ensures v == Value32(e, dest[i..i + 4])
  {
    v := if e.LittleEndian? then OfBytes32(dest[i + 3], dest[i + 2], dest[i + 1], dest[i])
         else OfBytes32(dest[i], dest[i + 1], dest[i + 2], dest[i + 3]);
  }

  /** `UINT32`, `INT32`, and `FLOAT` up to the meaning of the pattern. */
  method ReadUInt32(e: Endianness, rc: nat, dest: array<bv8>) returns (conversion: array<bv32>)
    requires dest.Length == 100 && rc <= 100
    ensures fresh(conversion) && conversion.Length == 100
    ensures forall j :: 0 <= j && 4 * j < rc ==> conversion[j] == Value32(e, dest[4 * j..4 * j + 4])
  {
    conversion := new bv32[100];
    var i, j := 0, 0;
    while i < rc
      invariant i == 4 * j && i < rc + 4
      invariant forall k :: 0 <= k < j ==> conversion[k] == Value32(e, dest[4 * k..4 * k + 4])
    {
      var element := Element32(e, dest, i);
      conversion[j] := element;
      i, j := i + 4, j + 1;
    }
  }

  /** Bytes shifted into a number, from the right. */
  function ShiftIn(start: bv64, bytes: seq<bv8>): bv64 {
    if bytes == [] then start else Shift(ShiftIn(start, bytes[..|bytes| - 1]), bytes[|bytes| - 1])
  }

  function Shift(n: bv64, b: bv8): bv64 { (n << 8) | (b as bv64) }

  lemma EightShifts(n: bv64, a: bv8, b: bv8, c: bv8, d: bv8, e: bv8, f: bv8, g: bv8, h: bv8)
    ensures Shift(Shift(Shift(Shift(Shift(Shift(Shift(Shift(n, a), b), c), d), e), f), g), h)
         == OfBytes64(a, b, c, d, e, f, g, h)
  {
  }

  /** Eight bytes push the start value out. So it does not matter that the program does not initialize it. */
  lemma StartIsPushedOut(start: bv64, b: seq<bv8>)
    requires |b| == 8
    ensures ShiftIn(start, b) == OfBytes64(b[0], b[1], b[2], b[3], b[4], b[5], b[6], b[7])
  {
    EightShifts(start, b[0], b[1], b[2], b[3], b[4], b[5], b[6], b[7]);
    assert b[..7][..6] == b[..6] && b[..6][..5] == b[..5] && b[..5][..4] == b[..4];
    assert b[..4][..3] == b[..3] && b[..3][..2] == b[..2] && b[..2][..1] == b[..1] && b[..1][..0] == [];
    assert ShiftIn(start, b[..1]) == Shift(start, b[0]);
    assert ShiftIn(start, b[..2]) == Shift(ShiftIn(start, b[..1]), b[1]);
    assert ShiftIn(start, b[..3]) == Shift(ShiftIn(start, b[..2]), b[2]);
    assert ShiftIn(start, b[..4]) == Shift(ShiftIn(start, b[..3]), b[3]);
    assert ShiftIn(start, b[..5]) == Shift(ShiftIn(start, b[..4]), b[4]);
    assert ShiftIn(start, b[..6]) == Shift(ShiftIn(start, b[..5]), b[5]);
    assert ShiftIn(start, b[..7]) == Shift(ShiftIn(start, b[..6]), b[6]);
    assert ShiftIn(start, b) == Shift(ShiftIn(start, b[..7]), b[7]);
  }

  lemma ReverseStep(b: seq<bv8>)
    requires b != []
    ensures Reverse(b) == Reverse(b[1..]) + [b[0]] && (Reverse(b[1..]) + [b[0]])[..|b| - 1] == Reverse(b[1..])
  {
  }

  /** Bytes shifted into a number from the last to the first. */
  function ShiftInBack(start: bv64, bytes: seq<bv8>): bv64 {
    if bytes == [] then start else Shift(ShiftInBack(start, bytes[1..]), bytes[0])
  }

  lemma {:induction false} BackIsReversed(start: bv64, bytes: seq<bv8>)
    ensures ShiftInBack(start, bytes) == ShiftIn(start, Reverse(bytes))
  {
    if bytes != [] {
      BackIsReversed(start, bytes[1..]);
      ReverseStep(bytes);
    }
  }

  lemma ShiftBack(start: bv64, bytes: seq<bv8>, k: nat)
    requires k < |bytes|
    ensures ShiftInBack(start, bytes[k..]) == Shift(ShiftInBack(start, bytes[k + 1..]), bytes[k])
  {
    assert bytes[k..][1..] == bytes[k + 1..];
  }

  lemma ShiftOn(start: bv64, bytes: seq<bv8>, k: nat)
    requires k < |bytes|
    ensures ShiftIn(start, bytes[..k + 1]) == Shift(ShiftIn(start, bytes[..k]), bytes[k])
  {
    assert bytes[..k + 1][..k] == bytes[..k];
  }

  /** The inner loops of `UINT64` and `INT64`: eight bytes are shifted into an element. */
  method ShiftInBackwards(dest: array<bv8>, i: nat, conversion: array<bv64>, j: nat)
    requires i + 8 <= dest.Length && j < conversion.Length
    modifies conversion
    ensures conversion[j] == ShiftIn(old(conversion[j]), Reverse(dest[i..i + 8]))
    ensures forall k :: 0 <= k < conversion.Length && k != j ==> conversion[k] == old(conversion[k])
  {
    ghost var start, bytes := conversion[j], dest[i..i + 8];
    var k := i + 8 - 1;
    while k >= i
      invariant i - 1 <= k < i + 8
      invariant conversion[j] == ShiftInBack(start, bytes[k + 1 - i..])
      invariant forall l :: 0 <= l < conversion.Length && l != j ==> conversion[l] == old(conversion[l])
    {
      ShiftBack(start, bytes, k - i);
      conversion[j] := Shift(conversion[j], dest[k]);
      k := k - 1;
    }
    assert bytes[0..] == bytes;
    BackIsReversed(start, bytes);
  }

  method ShiftInForwards(dest: array<bv8>, i: nat, conversion: array<bv64>, j: nat)
    requires i + 8 <= dest.Length && j < conversion.Length
    modifies conversion
    ensures conversion[j] == ShiftIn(old(conversion[j]), dest[i..i + 8])
    ensures forall k :: 0 <= k < conversion.Length && k != j ==> conversion[k] == old(conversion[k])
  {
    ghost var start, bytes := conversion[j], dest[i..i + 8];
    for k := i to i + 8
      invariant conversion[j] == ShiftIn(start, bytes[..k - i])
      invariant forall l :: 0 <= l < conversion.Length && l != j ==> conversion[l] == old(conversion[l])
    {
      ShiftOn(start, bytes, k - i);
      conversion[j] := Shift(conversion[j], dest[k]);
    }
    assert bytes[..8] == bytes;
  }

  /** One element; the value it had is pushed out. */
  method Element64(e: Endianness, dest: array<bv8>, i: nat, conversion: array<bv64>, j: nat)
    requires i + 8 <= dest.Length && j < conversion.Length
    modifies conversion
    ensures conversion[j] == Value64(e, dest[i..i + 8])
    ensures forall k :: 0 <= k < conversion.Length && k != j ==> conversion[k] == old(conversion[k])
  {
    ghost var start, bytes := conversion[j], dest[i..i + 8];
    if e.LittleEndian? {
      StartIsPushedOut(start, Reverse(bytes));
      ShiftInBackwards(dest, i, conversion, j);
    } else {
      StartIsPushedOut(start, bytes);
      ShiftInForwards(dest, i, conversion, j);
    }
  }

  /** `UINT64` and `INT64` */
  method ReadUInt64(e: Endianness, rc: nat, dest: array<bv8>) returns (conversion: array<bv64>)
    requires dest.Length == 100 && rc <= 96
    ensures fresh(conversion) && conversion.Length == 100
    ensures forall j :: 0 <= j && 8 * j < rc ==> conversion[j] == Value64(e, dest[8 * j..8 * j + 8])
  {
    conversion := new bv64[100];
    var i, j := 0, 0;
    while i < rc
      invariant i == 8 * j && i < rc + 8
      invariant forall k :: 0 <= k < j ==> conversion[k] == Value64(e, dest[8 * k..8 * k + 8])
    {
      Element64(e, dest, i, conversion, j);
      i, j := i + 8, j + 1;
    }
  }

  // ----- Reading what was written -----

  lemma BytesOfWord(w: bv16)
    ensures HighByte(SwapBytes(w)) == LowByte(w) && LowByte(SwapBytes(w)) == HighByte(w)
  {
  }

  lemma WordsOfBytes32(w: bv16, v: bv16)
    ensures OfBytes32(HighByte(w), LowByte(w), HighByte(v), LowByte(v)) == OfWords32(w, v)
  {
  }

  lemma WordsOfBytes64(a: bv16, b: bv16, c: bv16, d: bv16)
    ensures OfBytes64(HighByte(a), LowByte(a), HighByte(b), LowByte(b),
                      HighByte(c), LowByte(c), HighByte(d), LowByte(d))
         == OfWords64(a, b, c, d)
  {
  }

  lemma Wire32(a: bv16, b: bv16)
    ensures Wire([a, b]) == [HighByte(a), LowByte(a), HighByte(b), LowByte(b)]
  {
    assert [a, b][1..] == [b] && [b][1..] == [];
  }

  lemma Wire64(a: bv16, b: bv16, c: bv16, d: bv16)
    ensures Wire([a, b, c, d])
         == [HighByte(a), LowByte(a), HighByte(b), LowByte(b), HighByte(c), LowByte(c), HighByte(d), LowByte(d)]
  {
    Wire32(a, b);
    Wire32(c, d);
    WireAppend([a, b], [c, d]);
    assert [a, b] + [c, d] == [a, b, c, d];
  }

  lemma BigValue32(a: bv16, b: bv16)
    ensures Value32(BigEndian, Wire([a, b])) == OfWords32(a, b)
  {
    Wire32(a, b);
    WordsOfBytes32(a, b);
  }

  lemma LittleValue32(a: bv16, b: bv16)
    ensures Value32(LittleEndian, Wire([SwapBytes(a), SwapBytes(b)])) == OfWords32(b, a)
  {
    var c, d := SwapBytes(a), SwapBytes(b);
    Wire32(c, d);
    BytesOfWord(a);
    BytesOfWord(b);
    WordsOfBytes32(b, a);
    assert Reverse([HighByte(c), LowByte(c), HighByte(d), LowByte(d)])
        == [LowByte(d), HighByte(d), LowByte(c), HighByte(c)];
  }

  lemma BigValue64(a: bv16, b: bv16, c: bv16, d: bv16)
    ensures Value64(BigEndian, Wire([a, b, c, d])) == OfWords64(a, b, c, d)
  {
    Wire64(a, b, c, d);
    WordsOfBytes64(a, b, c, d);
  }

  lemma LittleValue64(a: bv16, b: bv16, c: bv16, d: bv16)
    ensures Value64(LittleEndian, Wire([SwapBytes(a), SwapBytes(b), SwapBytes(c), SwapBytes(d)]))
         == OfWords64(d, c, b, a)
  {
    var p, q, r, s := SwapBytes(a), SwapBytes(b), SwapBytes(c), SwapBytes(d);
    Wire64(p, q, r, s);
    BytesOfWord(a);
    BytesOfWord(b);
    BytesOfWord(c);
    BytesOfWord(d);
    WordsOfBytes64(d, c, b, a);
  }

  /** Big-endian, a number comes back; little-endian, it comes back with its words in the opposite order. */
  lemma ReadsBack32(e: Endianness, n: bv32)
    ensures Value32(e, Wire(Registers32(e, n))) == if e.BigEndian? then n else ReverseWords32(n)
  {
    var w := Words32(n);
    WordsOf32(n);
    BigValue32(w[0], w[1]);
    LittleValue32(w[0], w[1]);
    assert Words32(n) == [w[0], w[1]];
  }

  lemma ReadsBack64(e: Endianness, n: bv64)
    ensures Value64(e, Wire(Registers64(e, n))) == if e.BigEndian? then n else ReverseWords64(n)
  {
    var w := Words64(n);
    WordsOf64(n);
    BigValue64(w[0], w[1], w[2], w[3]);
    LittleValue64(w[0], w[1], w[2], w[3]);
  }

  lemma WordsBack32(a: bv16, b: bv16)
    ensures Words32(OfWords32(a, b))[0] == a && Words32(OfWords32(a, b))[1] == b
  {
  }

  lemma WordsBack64(a: bv16, b: bv16, c: bv16, d: bv16)
    ensures var w := Words64(OfWords64(a, b, c, d)); w[0] == a && w[1] == b && w[2] == c && w[3] == d
  {
  }

  lemma Palindromes32(n: bv32)
    ensures ReverseWords32(n) == n <==> Words32(n)[0] == Words32(n)[1]
    ensures ReverseWords32(ReverseWords32(n)) == n
  {
    var a, b := Words32(n)[0], Words32(n)[1];
    WordsOf32(n);
    WordsBack32(a, b);
    WordsBack32(b, a);
  }

  lemma Palindromes64(n: bv64)
    ensures ReverseWords64(n) == n <==> Words64(n)[0] == Words64(n)[3] && Words64(n)[1] == Words64(n)[2]
    ensures ReverseWords64(ReverseWords64(n)) == n
  {
    var a, b, c, d := Words64(n)[0], Words64(n)[1], Words64(n)[2], Words64(n)[3];
    WordsOf64(n);
    WordsBack64(a, b, c, d);
    WordsBack64(d, c, b, a);
  }

  /** Little-endian, a number comes back exactly when its words read the same in both orders. */
  lemma LittleEndianReadsBack(n: bv32, m: bv64)
    ensures Value32(LittleEndian, Wire(Registers32(LittleEndian, n))) == n <==> Words32(n)[0] == Words32(n)[1]
    ensures Value64(LittleEndian, Wire(Registers64(LittleEndian, m))) == m
       <==> Words64(m)[0] == Words64(m)[3] && Words64(m)[1] == Words64(m)[2]
  {
    ReadsBack32(LittleEndian, n);
    ReadsBack64(LittleEndian, m);
    Palindromes32(n);
    Palindromes64(m);
  }

  // ----- Several numbers -----

  function Flatten<T>(chunks: seq<seq<T>>): seq<T> {
    if chunks == [] then [] else chunks[0] + Flatten(chunks[1..])
  }

  lemma {:induction false} FlattenedAt<T>(chunks: seq<seq<T>>, size: nat, j: nat)
    requires j < |chunks| && forall i :: 0 <= i < |chunks| ==> |chunks[i]| == size
    ensures (j + 1) * size <= |Flatten(chunks)| && Flatten(chunks)[j * size..(j + 1) * size] == chunks[j]
  {
    var first, others := chunks[0], Flatten(chunks[1..]);
    if j == 0 {
      assert (first + others)[..size] == first;
    } else {
      FlattenedAt(chunks[1..], size, j - 1);
      assert j * size == size + (j - 1) * size && (j + 1) * size == size + j * size;
      SliceBehind(first, others, (j - 1) * size, j * size);
    }
  }

  lemma SliceBehind<T>(a: seq<T>, b: seq<T>, lo: nat, hi: nat)
    requires lo <= hi <= |b|
    ensures (a + b)[|a| + lo..|a| + hi] == b[lo..hi]
  {
  }

  function WireEach(chunks: seq<seq<bv16>>): seq<seq<bv8>> {
    seq(|chunks|, i requires 0 <= i < |chunks| => Wire(chunks[i]))
  }

  lemma {:induction false} WireFlattened(chunks: seq<seq<bv16>>)
    ensures Wire(Flatten(chunks)) == Flatten(WireEach(chunks))
  {
    if chunks != [] {
      WireFlattened(chunks[1..]);
      WireAppend(chunks[0], Flatten(chunks[1..]));
      assert WireEach(chunks)[1..] == WireEach(chunks[1..]);
    }
  }

  function EachRegisters32(e: Endianness, ns: seq<bv32>): seq<seq<bv16>> {
    seq(|ns|, i requires 0 <= i < |ns| => Registers32(e, ns[i]))
  }

  function EachRegisters64(e: Endianness, ns: seq<bv64>): seq<seq<bv16>> {
    seq(|ns|, i requires 0 <= i < |ns| => Registers64(e, ns[i]))
  }

  /** Numbers written one behind the other are read back one by one. */
  lemma AllReadBack32(e: Endianness, ns: seq<bv32>, j: nat)
    requires j < |ns|
    ensures var bytes := Wire(Flatten(EachRegisters32(e, ns)));
            4 * j + 4 <= |bytes|
            && Value32(e, bytes[4 * j..4 * j + 4]) == if e.BigEndian? then ns[j] else ReverseWords32(ns[j])
  {
    WireFlattened(EachRegisters32(e, ns));
    FlattenedAt(WireEach(EachRegisters32(e, ns)), 4, j);
    ReadsBack32(e, ns[j]);
  }

  lemma AllReadBack64(e: Endianness, ns: seq<bv64>, j: nat)
    requires j < |ns|
    ensures var bytes := Wire(Flatten(EachRegisters64(e, ns)));
            8 * j + 8 <= |bytes|
            && Value64(e, bytes[8 * j..8 * j + 8]) == if e.BigEndian? then ns[j] else ReverseWords64(ns[j])
  {
    WireFlattened(EachRegisters64(e, ns));
    FlattenedAt(WireEach(EachRegisters64(e, ns)), 8, j);
    ReadsBack64(e, ns[j]);
  }
}
