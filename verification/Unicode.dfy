/**
 Code points and their two encoding forms: UTF-8 (RFC 3629, sections 3 and 4) and UTF-16 (RFC 2781, section 2).
 A decoder for each form is written from the tables of the standards and proved inverse to the encoder, so that
 "valid UTF-8" and "well-formed UTF-16" are decidable properties of the raw bytes and units.
 */
module Unicode {
  import opened Wrappers

  type Byte = bv8
  type Unit = bv16
  type CodePoint = c: bv32 | c <= 0x10FFFF && !(0xD800 <= c <= 0xDFFF)

  // ----- UTF-8 -----

  /** RFC 3629, section 3: the octets of one character. */
  function Utf8Of(c: CodePoint): seq<Byte> {
    if c < 0x80 then
      [c as Byte]
    else if c < 0x800 then
      [(0xC0 | (c >> 6)) as Byte, (0x80 | (c & 0x3F)) as Byte]
    else if c < 0x1_0000 then
      [(0xE0 | (c >> 12)) as Byte, (0x80 | ((c >> 6) & 0x3F)) as Byte, (0x80 | (c & 0x3F)) as Byte]
    else
      [(0xF0 | (c >> 18)) as Byte, (0x80 | ((c >> 12) & 0x3F)) as Byte,
       (0x80 | ((c >> 6) & 0x3F)) as Byte, (0x80 | (c & 0x3F)) as Byte]
  }

  function Utf8(cps: seq<CodePoint>): seq<Byte> {
    if cps == [] then [] else Utf8Of(cps[0]) + Utf8(cps[1..])
  }

  predicate IsTail(b: Byte) {
    0x80 <= b <= 0xBF
  }

  predicate IsSecondOfThree(lead: Byte, b: Byte) {
    if lead == 0xE0 then 0xA0 <= b <= 0xBF
    else if lead == 0xED then 0x80 <= b <= 0x9F
    else IsTail(b)
  }

  predicate IsSecondOfFour(lead: Byte, b: Byte) {
    if lead == 0xF0 then 0x90 <= b <= 0xBF
    else if lead == 0xF4 then 0x80 <= b <= 0x8F
    else IsTail(b)
  }

  /** The number of octets of the character that starts `b`, following the UTF8-char rules of RFC 3629, section 4. */
  function CharLength(b: seq<Byte>): (n: nat)
    ensures n <= |b| && n <= 4
  {
    if |b| >= 1 && b[0] <= 0x7F then 1
    else if |b| >= 2 && 0xC2 <= b[0] <= 0xDF && IsTail(b[1]) then 2
    else if |b| >= 3 && 0xE0 <= b[0] <= 0xEF && IsSecondOfThree(b[0], b[1]) && IsTail(b[2]) then 3
    else if |b| >= 4 && 0xF0 <= b[0] <= 0xF4 && IsSecondOfFour(b[0], b[1]) && IsTail(b[2]) && IsTail(b[3]) then 4
    else 0
  }

  function Join2(b0: Byte, b1: Byte): bv32 {
    ((b0 & 0x1F) as bv32 << 6) | ((b1 & 0x3F) as bv32)
  }

  function Join3(b0: Byte, b1: Byte, b2: Byte): bv32 {
    ((b0 & 0x0F) as bv32 << 12) | ((b1 & 0x3F) as bv32 << 6) | ((b2 & 0x3F) as bv32)
  }

  function Join4(b0: Byte, b1: Byte, b2: Byte, b3: Byte): bv32 {
    ((b0 & 0x07) as bv32 << 18) | ((b1 & 0x3F) as bv32 << 12) | ((b2 & 0x3F) as bv32 << 6) | ((b3 & 0x3F) as bv32)
  }

  function FirstChar(b: seq<Byte>): CodePoint
    requires CharLength(b) > 0
  {
    match CharLength(b)
    case 1 => b[0] as bv32
    case 2 => Join2(b[0], b[1])
    case 3 => Join3(b[0], b[1], b[2])
    case _ => Join4(b[0], b[1], b[2], b[3])
  }

  function Prepend(c: CodePoint, tail: Option<seq<CodePoint>>): Option<seq<CodePoint>> {
    if tail.None? then None else Some([c] + tail.value)
  }

  /** The characters of a byte string, or `None` when the bytes are not valid UTF-8. */
  function DecodeUtf8(b: seq<Byte>): Option<seq<CodePoint>>
    decreases |b|
  {
    if b == [] then Some([])
    else
      var n := CharLength(b);
      if n == 0 then None else Prepend(FirstChar(b), DecodeUtf8(b[n..]))
  }

  predicate ValidUtf8(b: seq<Byte>) {
    DecodeUtf8(b).Some?
  }

  lemma SplitJoin2(c: bv32)
    requires 0x80 <= c < 0x800
    ensures var b0, b1 := (0xC0 | (c >> 6)) as Byte, (0x80 | (c & 0x3F)) as Byte;
      0xC2 <= b0 <= 0xDF && IsTail(b1) && Join2(b0, b1) == c
  {
  }

  lemma SplitJoin3(c: bv32)
    requires 0x800 <= c < 0x1_0000 && !(0xD800 <= c <= 0xDFFF)
    ensures
      var b0, b1, b2 :=
        (0xE0 | (c >> 12)) as Byte, (0x80 | ((c >> 6) & 0x3F)) as Byte, (0x80 | (c & 0x3F)) as Byte;
      0xE0 <= b0 <= 0xEF && IsSecondOfThree(b0, b1) && IsTail(b2) && Join3(b0, b1, b2) == c
  {
  }

  lemma SplitRange4(c: bv32)
    requires 0x1_0000 <= c <= 0x10FFFF
    ensures
      var b0, b1 := (0xF0 | (c >> 18)) as Byte, (0x80 | ((c >> 12) & 0x3F)) as Byte;
      0xF0 <= b0 <= 0xF4 && IsSecondOfFour(b0, b1)
    ensures IsTail((0x80 | ((c >> 6) & 0x3F)) as Byte) && IsTail((0x80 | (c & 0x3F)) as Byte)
  {
  }

  lemma SplitJoin4(c: bv32)
    requires c <= 0x10FFFF
    ensures Join4((0xF0 | (c >> 18)) as Byte, (0x80 | ((c >> 12) & 0x3F)) as Byte,
                  (0x80 | ((c >> 6) & 0x3F)) as Byte, (0x80 | (c & 0x3F)) as Byte) == c
  {
  }

  lemma JoinSplit2(b0: Byte, b1: Byte)
    requires 0xC2 <= b0 <= 0xDF && IsTail(b1)
    ensures var c := Join2(b0, b1);
      0x80 <= c < 0x800 && (0xC0 | (c >> 6)) as Byte == b0 && (0x80 | (c & 0x3F)) as Byte == b1
  {
  }

  lemma JoinSplit3(b0: Byte, b1: Byte, b2: Byte)
    requires 0xE0 <= b0 <= 0xEF && IsSecondOfThree(b0, b1) && IsTail(b2)
    ensures var c := Join3(b0, b1, b2);
      0x800 <= c < 0x1_0000 && !(0xD800 <= c <= 0xDFFF)
      && (0xE0 | (c >> 12)) as Byte == b0 && (0x80 | ((c >> 6) & 0x3F)) as Byte == b1
      && (0x80 | (c & 0x3F)) as Byte == b2
  {
  }

  lemma JoinSplit4(b0: Byte, b1: Byte, b2: Byte, b3: Byte)
    requires 0xF0 <= b0 <= 0xF4 && IsSecondOfFour(b0, b1) && IsTail(b2) && IsTail(b3)
    ensures var c := Join4(b0, b1, b2, b3);
      0x1_0000 <= c <= 0x10FFFF && (0xF0 | (c >> 18)) as Byte == b0
      && (0x80 | ((c >> 12) & 0x3F)) as Byte == b1
      && (0x80 | ((c >> 6) & 0x3F)) as Byte == b2 && (0x80 | (c & 0x3F)) as Byte == b3
  {
  }

  lemma FirstCharOfUtf8(c: CodePoint, tail: seq<Byte>)
    ensures CharLength(Utf8Of(c) + tail) == |Utf8Of(c)|
    ensures FirstChar(Utf8Of(c) + tail) == c
  {
    if c < 0x80 {
    } else if c < 0x800 {
      SplitJoin2(c);
    } else if c < 0x1_0000 {
      SplitJoin3(c);
    } else {
      SplitRange4(c);
      SplitJoin4(c);
    }
  }

  lemma Utf8OfTwo(c: CodePoint, b0: Byte, b1: Byte)
    requires 0x80 <= c < 0x800 && (0xC0 | (c >> 6)) as Byte == b0 && (0x80 | (c & 0x3F)) as Byte == b1
    ensures Utf8Of(c) == [b0, b1]
  {
  }

  lemma Utf8OfThree(c: CodePoint, b0: Byte, b1: Byte, b2: Byte)
    requires 0x800 <= c < 0x1_0000 && (0xE0 | (c >> 12)) as Byte == b0
    requires (0x80 | ((c >> 6) & 0x3F)) as Byte == b1 && (0x80 | (c & 0x3F)) as Byte == b2
    ensures Utf8Of(c) == [b0, b1, b2]
  {
  }

  lemma Utf8OfFour(c: CodePoint, b0: Byte, b1: Byte, b2: Byte, b3: Byte)
    requires 0x1_0000 <= c
    requires (0xF0 | (c >> 18)) as Byte == b0 && (0x80 | ((c >> 12) & 0x3F)) as Byte == b1
    requires (0x80 | ((c >> 6) & 0x3F)) as Byte == b2 && (0x80 | (c & 0x3F)) as Byte == b3
    ensures Utf8Of(c) == [b0, b1, b2, b3]
  {
  }

  lemma Utf8OfJoin2(b0: Byte, b1: Byte, c: CodePoint)
    requires 0xC2 <= b0 <= 0xDF && IsTail(b1) && c == Join2(b0, b1)
    ensures Utf8Of(c) == [b0, b1]
  {
    JoinSplit2(b0, b1);
    hide *;
    Utf8OfTwo(c, b0, b1);
  }

  lemma Utf8OfJoin3(b0: Byte, b1: Byte, b2: Byte, c: CodePoint)
    requires 0xE0 <= b0 <= 0xEF && IsSecondOfThree(b0, b1) && IsTail(b2) && c == Join3(b0, b1, b2)
    ensures Utf8Of(c) == [b0, b1, b2]
  {
    JoinSplit3(b0, b1, b2);
    hide *;
    Utf8OfThree(c, b0, b1, b2);
  }

  lemma Utf8OfJoin4(b0: Byte, b1: Byte, b2: Byte, b3: Byte, c: CodePoint)
    requires 0xF0 <= b0 <= 0xF4 && IsSecondOfFour(b0, b1) && IsTail(b2) && IsTail(b3) && c == Join4(b0, b1, b2, b3)
    ensures Utf8Of(c) == [b0, b1, b2, b3]
  {
    JoinSplit4(b0, b1, b2, b3);
    hide *;
    Utf8OfFour(c, b0, b1, b2, b3);
  }

  lemma Utf8OfFirstChar(b: seq<Byte>)
    requires CharLength(b) > 0
    ensures Utf8Of(FirstChar(b)) == b[..CharLength(b)]
  {
    match CharLength(b)
    case 1 =>
      assert b[..1] == [b[0]];
    case 2 =>
      Utf8OfJoin2(b[0], b[1], FirstChar(b));
    case 3 =>
      Utf8OfJoin3(b[0], b[1], b[2], FirstChar(b));
    case _ =>
      Utf8OfJoin4(b[0], b[1], b[2], b[3], FirstChar(b));
  }

  lemma DecodeFirstChar(c: CodePoint, rest: seq<Byte>)
    ensures DecodeUtf8(Utf8Of(c) + rest) == Prepend(c, DecodeUtf8(rest))
  {
    FirstCharOfUtf8(c, rest);
    assert (Utf8Of(c) + rest)[|Utf8Of(c)|..] == rest;
  }

  lemma {:induction false} DecodeUtf8OfUtf8(cps: seq<CodePoint>)
    ensures DecodeUtf8(Utf8(cps)) == Some(cps)
  {
    if cps != [] {
      DecodeUtf8OfUtf8(cps[1..]);
      DecodeFirstChar(cps[0], Utf8(cps[1..]));
      assert [cps[0]] + cps[1..] == cps;
    }
  }

  lemma Utf8Cons(c: CodePoint, cps: seq<CodePoint>)
    ensures Utf8([c] + cps) == Utf8Of(c) + Utf8(cps)
  {
    assert ([c] + cps)[1..] == cps;
  }

  lemma DecodeStep(b: seq<Byte>)
    requires b != [] && ValidUtf8(b)
    ensures var n := CharLength(b);
      && 0 < n && ValidUtf8(b[n..])
      && DecodeUtf8(b).value == [FirstChar(b)] + DecodeUtf8(b[n..]).value
  {
    hide CharLength, FirstChar;
  }

  lemma {:induction false} Utf8OfDecodeUtf8(b: seq<Byte>)
    requires ValidUtf8(b)
    ensures Utf8(DecodeUtf8(b).value) == b
    decreases |b|
  {
    hide CharLength, FirstChar, Utf8Of;
    if b != [] {
      DecodeStep(b);
      Utf8OfDecodeUtf8(b[CharLength(b)..]);
      Utf8OfDecodedStep(b);
    }
  }

  lemma Utf8OfDecodedStep(b: seq<Byte>)
    requires b != [] && ValidUtf8(b) && ValidUtf8(b[CharLength(b)..])
    requires var rest := b[CharLength(b)..]; Utf8(DecodeUtf8(rest).value) == rest
    ensures Utf8(DecodeUtf8(b).value) == b
  {
    hide CharLength, FirstChar, Utf8Of, Utf8;
    var n := CharLength(b);
    DecodeStep(b);
    Utf8OfFirstChar(b);
    Utf8Cons(FirstChar(b), DecodeUtf8(b[n..]).value);
    assert b == b[..n] + b[n..];
  }

  lemma {:induction false} Utf8Concat(a: seq<CodePoint>, b: seq<CodePoint>)
    ensures Utf8(a + b) == Utf8(a) + Utf8(b)
  {
    if a == [] {
      assert a + b == b;
    } else {
      assert (a + b)[1..] == a[1..] + b;
      Utf8Concat(a[1..], b);
    }
  }

  // ----- UTF-16 -----

  predicate IsHigh(u: Unit) {
    0xD800 <= u <= 0xDBFF
  }

  predicate IsLow(u: Unit) {
    0xDC00 <= u <= 0xDFFF
  }

  /** RFC 2781, section 2.1: the code units of one character. */
  function Utf16Of(c: CodePoint): seq<Unit> {
    if c < 0x1_0000 then [c as Unit]
    else [HighOf(c - 0x1_0000), LowOf(c - 0x1_0000)]
  }

  /** The units that carry the upper and the lower ten of twenty bits. */
  function HighOf(d: bv32): Unit
    requires d <= 0xF_FFFF
  {
    (0xD800 | (d >> 10)) as Unit
  }

  function LowOf(d: bv32): Unit {
    (0xDC00 | (d & 0x3FF)) as Unit
  }

  function Utf16(cps: seq<CodePoint>): seq<Unit> {
    if cps == [] then [] else Utf16Of(cps[0]) + Utf16(cps[1..])
  }

  /** RFC 2781, section 2.2: the characters of a unit string, or `None` when a surrogate is unpaired. */
  function DecodeUtf16(u: seq<Unit>): Option<seq<CodePoint>>
    decreases |u|
  {
    if u == [] then Some([])
    else if !IsHigh(u[0]) && !IsLow(u[0]) then
      Prepend(u[0] as bv32, DecodeUtf16(u[1..]))
    else if IsHigh(u[0]) && |u| >= 2 && IsLow(u[1]) then
      Prepend(FromPair(u[0], u[1]), DecodeUtf16(u[2..]))
    else None
  }

  function FromPair(high: Unit, low: Unit): CodePoint
    requires IsHigh(high) && IsLow(low)
  {
    PairBits(high, low) + 0x1_0000
  }

  /** The twenty bits that a pair of units carries. */
  function PairBits(high: Unit, low: Unit): (d: bv32)
    ensures d <= 0xF_FFFF
  {
    (((high & 0x3FF) as bv32) << 10) | ((low & 0x3FF) as bv32)
  }

  predicate WellFormedUtf16(u: seq<Unit>) {
    DecodeUtf16(u).Some?
  }

  lemma BitsOfSplit(d: bv32)
    requires d <= 0xF_FFFF
    ensures IsHigh(HighOf(d)) && IsLow(LowOf(d)) && PairBits(HighOf(d), LowOf(d)) == d
  {
  }

  lemma SplitOfBits(high: Unit, low: Unit)
    requires IsHigh(high) && IsLow(low)
    ensures HighOf(PairBits(high, low)) == high && LowOf(PairBits(high, low)) == low
  {
  }

  lemma AstralOffset(d: bv32)
    requires d <= 0xF_FFFF
    ensures 0x1_0000 <= d + 0x1_0000 <= 0x10FFFF && (d + 0x1_0000) - 0x1_0000 == d
  {
  }

  lemma BackFromOffset(c: bv32)
    requires 0x1_0000 <= c <= 0x10FFFF
    ensures c - 0x1_0000 <= 0xF_FFFF && (c - 0x1_0000) + 0x1_0000 == c
  {
  }

  lemma JoinPair(high: Unit, low: Unit)
    requires IsHigh(high) && IsLow(low)
    ensures 0x1_0000 <= FromPair(high, low) <= 0x10FFFF
    ensures FromPair(high, low) - 0x1_0000 == PairBits(high, low)
    ensures HighOf(PairBits(high, low)) == high && LowOf(PairBits(high, low)) == low
  {
    SplitOfBits(high, low);
    hide PairBits, HighOf, LowOf;
    AstralOffset(PairBits(high, low));
  }

  lemma Utf16OfPair(high: Unit, low: Unit)
    requires IsHigh(high) && IsLow(low)
    ensures Utf16Of(FromPair(high, low)) == [high, low]
  {
    JoinPair(high, low);
  }

  lemma UnitOfBmp(c: bv32)
    requires c < 0x1_0000 && !(0xD800 <= c <= 0xDFFF)
    ensures !IsHigh(c as Unit) && !IsLow(c as Unit) && (c as Unit) as bv32 == c
  {
  }

  lemma PairOfAstral(c: bv32)
    requires 0x1_0000 <= c <= 0x10FFFF
    ensures var d := c - 0x1_0000;
      d <= 0xF_FFFF && IsHigh(HighOf(d)) && IsLow(LowOf(d)) && FromPair(HighOf(d), LowOf(d)) == c
  {
    BackFromOffset(c);
    hide PairBits, HighOf, LowOf;
    BitsOfSplit(c - 0x1_0000);
  }

  lemma FirstOfUtf16(c: CodePoint)
    ensures |Utf16Of(c)| == if c < 0x1_0000 then 1 else 2
    ensures c < 0x1_0000 ==> !IsHigh(Utf16Of(c)[0]) && !IsLow(Utf16Of(c)[0]) && Utf16Of(c)[0] as bv32 == c
    ensures c >= 0x1_0000 ==>
      IsHigh(Utf16Of(c)[0]) && IsLow(Utf16Of(c)[1]) && FromPair(Utf16Of(c)[0], Utf16Of(c)[1]) == c
  {
    if c < 0x1_0000 {
      UnitOfBmp(c);
    } else {
      PairOfAstral(c);
    }
  }

  lemma DecodeUnit(u: Unit, rest: seq<Unit>)
    requires !IsHigh(u) && !IsLow(u)
    ensures DecodeUtf16([u] + rest) == Prepend(u as bv32, DecodeUtf16(rest))
  {
    assert ([u] + rest)[1..] == rest;
  }

  lemma DecodePair(high: Unit, low: Unit, rest: seq<Unit>)
    requires IsHigh(high) && IsLow(low)
    ensures DecodeUtf16([high, low] + rest) == Prepend(FromPair(high, low), DecodeUtf16(rest))
  {
    assert ([high, low] + rest)[2..] == rest;
  }

  lemma DecodeFirstOfUtf16(c: CodePoint, rest: seq<Unit>)
    ensures DecodeUtf16(Utf16Of(c) + rest) == Prepend(c, DecodeUtf16(rest))
  {
    var first := Utf16Of(c);
    FirstOfUtf16(c);
    if |first| == 1 {
      DecodeUnit(first[0], rest);
      assert first == [first[0]];
    } else {
      DecodePair(first[0], first[1], rest);
      assert first == [first[0], first[1]];
    }
  }

  lemma {:induction false} DecodeUtf16OfUtf16(cps: seq<CodePoint>)
    ensures DecodeUtf16(Utf16(cps)) == Some(cps)
  {
    if cps != [] {
      DecodeUtf16OfUtf16(cps[1..]);
      DecodeFirstOfUtf16(cps[0], Utf16(cps[1..]));
      assert [cps[0]] + cps[1..] == cps;
    }
  }

  lemma Utf16Cons(c: CodePoint, cps: seq<CodePoint>)
    ensures Utf16([c] + cps) == Utf16Of(c) + Utf16(cps)
  {
    assert ([c] + cps)[1..] == cps;
  }

  lemma {:induction false} Utf16OfDecodeUtf16(u: seq<Unit>)
    requires WellFormedUtf16(u)
    ensures Utf16(DecodeUtf16(u).value) == u
    decreases |u|
  {
    if u == [] {
    } else if IsHigh(u[0]) {
      Utf16OfDecodeUtf16(u[2..]);
      Utf16OfPair(u[0], u[1]);
      Utf16Cons(FromPair(u[0], u[1]), DecodeUtf16(u[2..]).value);
      assert u == [u[0], u[1]] + u[2..];
    } else {
      Utf16OfDecodeUtf16(u[1..]);
      Utf16Cons(u[0] as bv32, DecodeUtf16(u[1..]).value);
      assert u == [u[0]] + u[1..];
    }
  }

  lemma {:induction false} Utf16Concat(a: seq<CodePoint>, b: seq<CodePoint>)
    ensures Utf16(a + b) == Utf16(a) + Utf16(b)
  {
    if a == [] {
      assert a + b == b;
    } else {
      assert (a + b)[1..] == a[1..] + b;
      Utf16Concat(a[1..], b);
    }
  }

  /** The UTF-8 form of a UTF-16 string, as the browser serialises it; `None` for an unpaired surrogate. */
  function Transcode(u: seq<Unit>): Option<seq<Byte>> {
    match DecodeUtf16(u)
    case None => None
    case Some(cps) => Some(Utf8(cps))
  }
}
