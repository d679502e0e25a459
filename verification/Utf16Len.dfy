/**
 Counting the UTF-16 units of a UTF-8 string without decoding it: the word-parallel count of the content reader and
 the byte-at-a-time walk it replaced. Both are proved equal to the number of units of the decoded text.
 */
module Utf16Len {
  import opened Unicode
  import opened Wrappers
  import opened ZeroBytes

  /** total - continuation bytes + four-byte leads, clamped to 32 bits. */
  function CountedUnits(bytes: seq<Byte>): nat {
    Min(|bytes| - Count(bytes, IsContinuation) + Count(bytes, IsFourByteLead), U32_MAX)
  }

  /** One step of the word loop: load eight bytes in the machine's order, mask, count the zero bytes. */
  method CountWord(chunk: seq<Byte>, bigEndian: bool) returns (cont: nat, four: nat)
    requires |chunk| == 8
    ensures cont == Count(chunk, IsContinuation) && four == Count(chunk, IsFourByteLead)
  {
    var w := FromNeBytes(chunk, bigEndian);
    cont := CountZeroBytes(ContinuationMask(w));
    four := CountZeroBytes(FourByteLeadMask(w));
    WordCountsAreExact(chunk, bigEndian);
  }

  /**
   `utf16_len_of_utf8`: eight bytes per step, then a byte-wise tail. A Rust slice is shorter than 2^64 bytes, so the
   64-bit counters cannot wrap.
   */
  method Utf16LenOfUtf8(bytes: seq<Byte>, bigEndian: bool) returns (units: nat)
    requires |bytes| <= U64_MAX
    ensures units == CountedUnits(bytes)
    ensures ValidUtf8(bytes) ==> units == Min(|Utf16(DecodeUtf8(bytes).value)|, U32_MAX)
  {
    var total := |bytes|;
    var cont, four := 0, 0;
    var i := 0;
    while i + 8 <= total
      invariant 0 <= i <= total
      invariant cont == Count(bytes[..i], IsContinuation) && four == Count(bytes[..i], IsFourByteLead)
    {
      var c, f := CountWord(bytes[i..i + 8], bigEndian);
      CountTaken(bytes, i, i + 8, IsContinuation);
      CountTaken(bytes, i, i + 8, IsFourByteLead);
      cont := (cont + c) % (U64_MAX + 1);
      four := (four + f) % (U64_MAX + 1);
      i := i + 8;
    }
    var c, f := CountTail(bytes, i);
    units := Min(Min(Max(total - (cont + c), 0) + (four + f), U64_MAX), U32_MAX);
    assert bytes[..|bytes|] == bytes;
    if ValidUtf8(bytes) {
      CountedUnitsOfValidUtf8(bytes);
    }
  }

  /** The byte-wise tail. */
  method CountTail(bytes: seq<Byte>, from: nat) returns (cont: nat, four: nat)
    requires from <= |bytes|
    ensures cont + Count(bytes[..from], IsContinuation) == Count(bytes[..|bytes|], IsContinuation)
    ensures four + Count(bytes[..from], IsFourByteLead) == Count(bytes[..|bytes|], IsFourByteLead)
  {
    cont, four := 0, 0;
    for i := from to |bytes|
      invariant cont + Count(bytes[..from], IsContinuation) == Count(bytes[..i], IsContinuation)
      invariant four + Count(bytes[..from], IsFourByteLead) == Count(bytes[..i], IsFourByteLead)
    {
      CountByte(bytes, i, IsContinuation);
      CountByte(bytes, i, IsFourByteLead);
      if IsContinuation(bytes[i]) {
        cont := cont + 1;
      }
      if IsFourByteLead(bytes[i]) {
        four := four + 1;
      }
    }
  }

  lemma CountTaken(s: seq<Byte>, i: nat, j: nat, p: Byte -> bool)
    requires i <= j <= |s|
    ensures Count(s[..j], p) == Count(s[..i], p) + Count(s[i..j], p)
  {
    assert s[..j] == s[..i] + s[i..j];
    CountConcat(s[..i], s[i..j], p);
  }

  lemma CountByte(s: seq<Byte>, i: nat, p: Byte -> bool)
    requires i < |s|
    ensures Count(s[..i + 1], p) == Count(s[..i], p) + Bit(p(s[i]))
  {
    CountTaken(s, i, i + 1, p);
    assert s[i..i + 1][1..] == [];
  }

  // ----- The scalar walk -----

  /** By lead byte: how many bytes the walk skips and how many units it adds. */
  function Advance(lead: Byte): (nat, nat) {
    if lead < 0x80 then (1, 1)
    else if lead < 0xC0 then (1, 0)
    else if lead < 0xE0 then (2, 1)
    else if lead < 0xF0 then (3, 1)
    else (4, 2)
  }

  function WalkedUnits(bytes: seq<Byte>): nat
    decreases |bytes|
  {
    if bytes == [] then 0
    else
      var (skip, units) := Advance(bytes[0]);
      units + if skip <= |bytes| then WalkedUnits(bytes[skip..]) else 0
  }

  /** The baseline `scalar::utf16_len_of_utf8`. */
  method ScalarUtf16LenOfUtf8(bytes: seq<Byte>) returns (units: nat)
    ensures units == Min(WalkedUnits(bytes), U32_MAX)
    ensures ValidUtf8(bytes) ==> units == CountedUnits(bytes)
  {
    units := 0;
    var i := 0;
    ghost var exact := 0;
    while i < |bytes|
      invariant 0 <= i
      invariant WalkedUnits(bytes) == exact + if i < |bytes| then WalkedUnits(bytes[i..]) else 0
      invariant units == Min(exact, U32_MAX)
    {
      var (skip, u) := Advance(bytes[i]);
      if i + skip <= |bytes| {
        assert bytes[i..][skip..] == bytes[i + skip..];
      }
      i := i + skip;
      units := Min(units + u, U32_MAX);
      exact := exact + u;
    }
    if ValidUtf8(bytes) {
      CountedUnitsOfValidUtf8(bytes);
      WalkedUnitsOfUtf8(DecodeUtf8(bytes).value);
      Utf8OfDecodeUtf8(bytes);
    }
  }

  // ----- Both count the units of the decoded text -----

  lemma LeadBytes(c: CodePoint)
    ensures c < 0x80 ==> Advance(c as Byte) == (1, 1)
    ensures 0x80 <= c < 0x800 ==> Advance((0xC0 | (c >> 6)) as Byte) == (2, 1)
    ensures 0x800 <= c < 0x1_0000 ==> Advance((0xE0 | (c >> 12)) as Byte) == (3, 1)
    ensures 0x1_0000 <= c ==> Advance((0xF0 | (c >> 18)) as Byte) == (4, 2)
  {
  }

  /** The lead byte says how long the character is and how many units it takes. */
  lemma AdvanceOfUtf8Of(c: CodePoint)
    ensures Advance(Utf8Of(c)[0]) == (|Utf8Of(c)|, |Utf16Of(c)|)
  {
    LeadBytes(c);
  }

  lemma ByteKinds(b: Byte)
    ensures IsContinuation(b) <==> Advance(b).1 == 0
    ensures IsFourByteLead(b) <==> Advance(b).1 == 2
  {
  }

  lemma TailBytes(x: bv32)
    ensures IsTail((0x80 | (x & 0x3F)) as Byte)
  {
  }

  lemma TailsOfUtf8Of(c: CodePoint, k: nat)
    requires 1 <= k < |Utf8Of(c)|
    ensures IsTail(Utf8Of(c)[k])
  {
    TailBytes(c);
    TailBytes(c >> 6);
    TailBytes(c >> 12);
  }

  lemma TailIsContinuation(b: Byte)
    requires IsTail(b)
    ensures IsContinuation(b) && !IsFourByteLead(b)
  {
  }

  lemma {:induction false} CountsOfTails(s: seq<Byte>)
    requires forall k :: 0 <= k < |s| ==> IsTail(s[k])
    ensures Count(s, IsContinuation) == |s| && Count(s, IsFourByteLead) == 0
  {
    if s != [] {
      TailIsContinuation(s[0]);
      CountsOfTails(s[1..]);
    }
  }

  lemma CountsOfUtf8Of(c: CodePoint)
    ensures var b := Utf8Of(c);
      |b| - Count(b, IsContinuation) + Count(b, IsFourByteLead) == |Utf16Of(c)|
  {
    var b := Utf8Of(c);
    forall k | 0 <= k < |b[1..]| ensures IsTail(b[1..][k]) {
      TailsOfUtf8Of(c, k + 1);
    }
    CountsOfTails(b[1..]);
    AdvanceOfUtf8Of(c);
    ByteKinds(b[0]);
  }

  lemma {:induction false} CountsOfUtf8(cps: seq<CodePoint>)
    ensures var b := Utf8(cps);
      |b| - Count(b, IsContinuation) + Count(b, IsFourByteLead) == |Utf16(cps)|
  {
    if cps != [] {
      CountsOfUtf8Of(cps[0]);
      CountsOfUtf8(cps[1..]);
      CountConcat(Utf8Of(cps[0]), Utf8(cps[1..]), IsContinuation);
      CountConcat(Utf8Of(cps[0]), Utf8(cps[1..]), IsFourByteLead);
    }
  }

  lemma {:induction false} WalkedUnitsOfUtf8(cps: seq<CodePoint>)
    ensures WalkedUnits(Utf8(cps)) == |Utf16(cps)|
  {
    if cps != [] {
      var first, rest := Utf8Of(cps[0]), Utf8(cps[1..]);
      AdvanceOfUtf8Of(cps[0]);
      WalkedUnitsOfUtf8(cps[1..]);
      assert (first + rest)[|first|..] == rest;
    }
  }

  lemma CountedUnitsOfUtf8(cps: seq<CodePoint>)
    ensures CountedUnits(Utf8(cps)) == Min(|Utf16(cps)|, U32_MAX)
  {
    CountsOfUtf8(cps);
  }

  /** The counting identity on every valid UTF-8 string. */
  lemma CountedUnitsOfValidUtf8(bytes: seq<Byte>)
    requires ValidUtf8(bytes)
    ensures CountedUnits(bytes) == Min(|Utf16(DecodeUtf8(bytes).value)|, U32_MAX)
  {
    Utf8OfDecodeUtf8(bytes);
    CountedUnitsOfUtf8(DecodeUtf8(bytes).value);
  }
}
