/**
 Mycroft's zero-byte trick on 64-bit words, as the content reader uses it: when it is exact, and why the two masks of
 the counting loop stay inside that domain.
 */
module ZeroBytes {
  import opened Unicode

  type Word = bv64

  function Bit(b: bool): nat {
    if b then 1 else 0
  }

  function LaneAt(v: Word, s: Word): Byte
    requires s < 64
  {
    ((v >> s) & 0xFF) as Byte
  }

  /** The bytes of a word, least significant first. */
  function Lanes(v: Word): (lanes: seq<Byte>)
    ensures |lanes| == 8
  {
    [LaneAt(v, 0), LaneAt(v, 8), LaneAt(v, 16), LaneAt(v, 24),
     LaneAt(v, 32), LaneAt(v, 40), LaneAt(v, 48), LaneAt(v, 56)]
  }

  function OnesOfByte(b: Byte): nat {
    Bit(b & 0x01 != 0) + Bit(b & 0x02 != 0) + Bit(b & 0x04 != 0) + Bit(b & 0x08 != 0)
    + Bit(b & 0x10 != 0) + Bit(b & 0x20 != 0) + Bit(b & 0x40 != 0) + Bit(b & 0x80 != 0)
  }

  function OnesOfBytes(s: seq<Byte>): nat {
    if s == [] then 0 else OnesOfByte(s[0]) + OnesOfBytes(s[1..])
  }

  /** `u64::count_ones`: the one bits of a word, byte by byte. */
  function CountOnes(v: Word): nat {
    OnesOfBytes(Lanes(v))
  }

  function ZeroByteMask(v: Word): Word {
    (v - 0x0101_0101_0101_0101) & !v & 0x8080_8080_8080_8080
  }

  function CountZeroBytes(v: Word): nat {
    CountOnes(ZeroByteMask(v))
  }

  /** The number of elements of `s` that satisfy `p`. */
  function Count(s: seq<Byte>, p: Byte -> bool): (n: nat)
    ensures n <= |s|
  {
    if s == [] then 0 else Bit(p(s[0])) + Count(s[1..], p)
  }

  predicate IsZero(b: Byte) {
    b == 0
  }

  lemma {:induction false} CountConcat(a: seq<Byte>, b: seq<Byte>, p: Byte -> bool)
    ensures Count(a + b, p) == Count(a, p) + Count(b, p)
  {
    if a == [] {
      assert a + b == b;
    } else {
      assert (a + b)[1..] == a[1..] + b;
      CountConcat(a[1..], b, p);
    }
  }

  lemma CountOfEight(s: seq<Byte>, p: Byte -> bool)
    requires |s| == 8
    ensures Count(s, p) == Bit(p(s[0])) + Bit(p(s[1])) + Bit(p(s[2])) + Bit(p(s[3]))
      + Bit(p(s[4])) + Bit(p(s[5])) + Bit(p(s[6])) + Bit(p(s[7]))
  {
    CountConcat(s[..4], s[4..], p);
    assert s[..4] + s[4..] == s;
    CountOfFour(s[..4], p);
    CountOfFour(s[4..], p);
  }

  lemma CountOfFour(s: seq<Byte>, p: Byte -> bool)
    requires |s| == 4
    ensures Count(s, p) == Bit(p(s[0])) + Bit(p(s[1])) + Bit(p(s[2])) + Bit(p(s[3]))
  {
    assert Count(s[3..], p) == Bit(p(s[3]));
    assert s[2..][1..] == s[3..];
    assert Count(s[2..], p) == Bit(p(s[2])) + Bit(p(s[3]));
    assert s[1..][1..] == s[2..];
  }

  /** A byte whose only possible one bit is the highest. */
  lemma {:induction false} OnesOfHighBits(s: seq<Byte>)
    requires forall k :: 0 <= k < |s| ==> s[k] == 0 || s[k] == 0x80
    ensures OnesOfBytes(s) == Count(s, IsKept)
  {
    if s != [] {
      OnesOfHighBits(s[1..]);
    }
  }

  /**
   What the mask keeps of a byte: the high bit of a zero byte, and of a byte 1 exactly when the byte below was kept,
   because the subtraction then borrows from it.
   */
  predicate KeepsByte(lane: Byte, kept: Byte, keptBelow: Byte) {
    && (kept == 0 || kept == 0x80)
    && (lane == 0 ==> kept == 0x80)
    && (lane > 1 ==> kept == 0)
    && (lane == 1 ==> kept == keptBelow)
  }

  predicate KeepsLane(lanes: seq<Byte>, kept: seq<Byte>, k: nat)
    requires k < |lanes| == |kept|
  {
    KeepsByte(lanes[k], kept[k], if k == 0 then 0 else kept[k - 1])
  }

  lemma MaskKeepsLowest(v: Word)
    ensures KeepsByte(LaneAt(v, 0), LaneAt(ZeroByteMask(v), 0), 0)
  {
  }

  lemma MaskKeepsAt(v: Word, s: Word)
    requires s in {8, 16, 24, 32, 40, 48, 56}
    ensures KeepsByte(LaneAt(v, s), LaneAt(ZeroByteMask(v), s), LaneAt(ZeroByteMask(v), s - 8))
  {
  }

  predicate KeepsAll(lanes: seq<Byte>, kept: seq<Byte>)
    requires |lanes| == |kept|
  {
    forall k :: 0 <= k < |lanes| ==> KeepsLane(lanes, kept, k)
  }

  lemma KeepsEight(l: seq<Byte>, m: seq<Byte>)
    requires |l| == |m| == 8
    requires KeepsByte(l[0], m[0], 0) && KeepsByte(l[1], m[1], m[0])
    requires KeepsByte(l[2], m[2], m[1]) && KeepsByte(l[3], m[3], m[2])
    requires KeepsByte(l[4], m[4], m[3]) && KeepsByte(l[5], m[5], m[4])
    requires KeepsByte(l[6], m[6], m[5]) && KeepsByte(l[7], m[7], m[6])
    ensures KeepsAll(l, m)
  {
    assert KeepsLane(l, m, 0) && KeepsLane(l, m, 1) && KeepsLane(l, m, 2) && KeepsLane(l, m, 3);
    assert KeepsLane(l, m, 4) && KeepsLane(l, m, 5) && KeepsLane(l, m, 6) && KeepsLane(l, m, 7);
    forall k | 0 <= k < 8 ensures KeepsLane(l, m, k) {
      assert k in {0, 1, 2, 3, 4, 5, 6, 7};
    }
  }

  lemma MaskKeepsAll(v: Word)
    ensures KeepsAll(Lanes(v), Lanes(ZeroByteMask(v)))
  {
    MaskKeepsLowest(v);
    MaskKeepsAt(v, 8);
    MaskKeepsAt(v, 16);
    MaskKeepsAt(v, 24);
    MaskKeepsAt(v, 32);
    MaskKeepsAt(v, 40);
    MaskKeepsAt(v, 48);
    MaskKeepsAt(v, 56);
    KeepsEight(Lanes(v), Lanes(ZeroByteMask(v)));
  }

  predicate IsKept(b: Byte) {
    b == 0x80
  }

  /** Pointwise implication bounds the counts, and equal counts mean pointwise equivalence. */
  lemma {:induction false} CountImplied(a: seq<Byte>, p: Byte -> bool, b: seq<Byte>, q: Byte -> bool)
    requires |a| == |b|
    requires forall k :: 0 <= k < |a| && p(a[k]) ==> q(b[k])
    ensures Count(a, p) <= Count(b, q)
    ensures Count(a, p) == Count(b, q) <==> forall k :: 0 <= k < |a| && q(b[k]) ==> p(a[k])
  {
    if a != [] {
      CountImplied(a[1..], p, b[1..], q);
      if Count(a, p) == Count(b, q) {
        forall k | 0 <= k < |a| && q(b[k]) ensures p(a[k]) {
          if k > 0 {
            assert q(b[1..][k - 1]) && p(a[1..][k - 1]);
          }
        }
      }
    }
  }

  /** A byte 1 directly above a zero byte: the pattern the trick miscounts. */
  predicate Miscounts(lanes: seq<Byte>) {
    exists k :: 1 <= k < |lanes| && lanes[k] == 1 && lanes[k - 1] == 0
  }

  lemma {:induction false} KeptOneHasZeroBelow(lanes: seq<Byte>, kept: seq<Byte>, k: nat)
    requires k < |lanes| == |kept|
    requires KeepsAll(lanes, kept)
    requires lanes[k] == 1 && kept[k] == 0x80
    ensures Miscounts(lanes)
  {
    assert KeepsLane(lanes, kept, k);
    assert KeepsLane(lanes, kept, k - 1);
    if lanes[k - 1] == 1 {
      KeptOneHasZeroBelow(lanes, kept, k - 1);
    }
  }

  lemma KeptCountExactness(lanes: seq<Byte>, kept: seq<Byte>)
    requires |lanes| == |kept| && KeepsAll(lanes, kept)
    ensures OnesOfBytes(kept) >= Count(lanes, IsZero)
    ensures OnesOfBytes(kept) == Count(lanes, IsZero) <==> !Miscounts(lanes)
  {
    forall k | 0 <= k < |lanes| ensures kept[k] == 0 || kept[k] == 0x80 {
      assert KeepsLane(lanes, kept, k);
    }
    OnesOfHighBits(kept);
    forall k | 0 <= k < |lanes| && IsZero(lanes[k]) ensures IsKept(kept[k]) {
      assert KeepsLane(lanes, kept, k);
    }
    CountImplied(lanes, IsZero, kept, IsKept);
    if Miscounts(lanes) {
      var k :| 1 <= k < |lanes| && lanes[k] == 1 && lanes[k - 1] == 0;
      assert KeepsLane(lanes, kept, k) && KeepsLane(lanes, kept, k - 1);
      assert IsKept(kept[k]) && !IsZero(lanes[k]);
    } else {
      forall k | 0 <= k < |lanes| && IsKept(kept[k]) ensures IsZero(lanes[k]) {
        assert KeepsLane(lanes, kept, k);
        if lanes[k] == 1 {
          KeptOneHasZeroBelow(lanes, kept, k);
        }
      }
    }
  }

  /**
   The trick never undercounts the zero bytes of a word, and it is exact precisely when no byte 1 sits directly above
   a zero byte.
   */
  lemma CountZeroBytesExactness(v: Word)
    ensures CountZeroBytes(v) >= Count(Lanes(v), IsZero)
    ensures CountZeroBytes(v) == Count(Lanes(v), IsZero) <==> !Miscounts(Lanes(v))
  {
    MaskKeepsAll(v);
    KeptCountExactness(Lanes(v), Lanes(ZeroByteMask(v)));
  }

  /** The comment on `count_zero_bytes_u64` promises the number of zero bytes of any word; this word has seven. */
  lemma CountZeroBytesOvercounts()
    ensures CountZeroBytes(0x0100) == 8 && Count(Lanes(0x0100), IsZero) == 7
  {
    CountOfEight(Lanes(0x0100), IsZero);
    var kept := Lanes(ZeroByteMask(0x0100));
    assert kept == [0x80, 0x80, 0x80, 0x80, 0x80, 0x80, 0x80, 0x80];
    OnesOfHighBits(kept);
    CountOfEight(kept, IsKept);
  }

  // ----- The two masks of the counting loop -----

  predicate IsContinuation(b: Byte) {
    b & 0xC0 == 0x80
  }

  predicate IsFourByteLead(b: Byte) {
    b >= 0xF0
  }

  function ContinuationMask(w: Word): Word {
    (w & 0xC0C0_C0C0_C0C0_C0C0) ^ 0x8080_8080_8080_8080
  }

  function FourByteLeadMask(w: Word): Word {
    (w & 0xF0F0_F0F0_F0F0_F0F0) ^ 0xF0F0_F0F0_F0F0_F0F0
  }

  function JoinBytes(b0: Byte, b1: Byte, b2: Byte, b3: Byte, b4: Byte, b5: Byte, b6: Byte, b7: Byte): Word {
    (b0 as Word) | ((b1 as Word) << 8) | ((b2 as Word) << 16) | ((b3 as Word) << 24)
    | ((b4 as Word) << 32) | ((b5 as Word) << 40) | ((b6 as Word) << 48) | ((b7 as Word) << 56)
  }

  /** `u64::from_ne_bytes`, for either byte order of the machine. */
  function FromNeBytes(b: seq<Byte>, bigEndian: bool): Word
    requires |b| == 8
  {
    if bigEndian then JoinBytes(b[7], b[6], b[5], b[4], b[3], b[2], b[1], b[0])
    else JoinBytes(b[0], b[1], b[2], b[3], b[4], b[5], b[6], b[7])
  }

  lemma LaneOfJoinBytes(b0: Byte, b1: Byte, b2: Byte, b3: Byte, b4: Byte, b5: Byte, b6: Byte, b7: Byte, w: Word)
    requires w == JoinBytes(b0, b1, b2, b3, b4, b5, b6, b7)
    ensures LaneAt(w, 0) == b0 && LaneAt(w, 8) == b1 && LaneAt(w, 16) == b2 && LaneAt(w, 24) == b3
    ensures LaneAt(w, 32) == b4 && LaneAt(w, 40) == b5 && LaneAt(w, 48) == b6 && LaneAt(w, 56) == b7
  {
  }

  lemma LanesAre(w: Word, b: seq<Byte>)
    requires |b| == 8
    requires LaneAt(w, 0) == b[0] && LaneAt(w, 8) == b[1] && LaneAt(w, 16) == b[2] && LaneAt(w, 24) == b[3]
    requires LaneAt(w, 32) == b[4] && LaneAt(w, 40) == b[5] && LaneAt(w, 48) == b[6] && LaneAt(w, 56) == b[7]
    ensures Lanes(w) == b
  {
  }

  function Reversed(b: seq<Byte>): (r: seq<Byte>)
    requires |b| == 8
    ensures |r| == 8
  {
    [b[7], b[6], b[5], b[4], b[3], b[2], b[1], b[0]]
  }

  lemma CountOfReversed(b: seq<Byte>, p: Byte -> bool)
    requires |b| == 8
    ensures Count(Reversed(b), p) == Count(b, p)
  {
    CountOfEight(b, p);
    CountOfEight(Reversed(b), p);
  }

  lemma LanesOfWord(b: seq<Byte>, bigEndian: bool)
    requires |b| == 8
    ensures Lanes(FromNeBytes(b, bigEndian)) == if bigEndian then Reversed(b) else b
  {
    var w := FromNeBytes(b, bigEndian);
    if bigEndian {
      LaneOfJoinBytes(b[7], b[6], b[5], b[4], b[3], b[2], b[1], b[0], w);
      LanesAre(w, Reversed(b));
    } else {
      LaneOfJoinBytes(b[0], b[1], b[2], b[3], b[4], b[5], b[6], b[7], w);
      LanesAre(w, b);
    }
  }

  lemma CountOfWordBytes(b: seq<Byte>, bigEndian: bool, p: Byte -> bool)
    requires |b| == 8
    ensures Count(Lanes(FromNeBytes(b, bigEndian)), p) == Count(b, p)
  {
    LanesOfWord(b, bigEndian);
    CountOfReversed(b, p);
  }

  /** `masked` is zero exactly where `q` holds of `lane`, and never 1. */
  predicate ZeroWhere(masked: Byte, lane: Byte, q: Byte -> bool) {
    masked != 1 && (masked == 0 <==> q(lane))
  }

  lemma ContinuationMaskAt(w: Word, s: Word)
    requires s in {0, 8, 16, 24, 32, 40, 48, 56}
    ensures ZeroWhere(LaneAt(ContinuationMask(w), s), LaneAt(w, s), IsContinuation)
  {
  }

  lemma FourByteLeadMaskAt(w: Word, s: Word)
    requires s in {0, 8, 16, 24, 32, 40, 48, 56}
    ensures ZeroWhere(LaneAt(FourByteLeadMask(w), s), LaneAt(w, s), IsFourByteLead)
  {
  }

  lemma CountOfMasked(masked: seq<Byte>, lanes: seq<Byte>, q: Byte -> bool)
    requires |masked| == |lanes| == 8
    requires ZeroWhere(masked[0], lanes[0], q) && ZeroWhere(masked[1], lanes[1], q)
    requires ZeroWhere(masked[2], lanes[2], q) && ZeroWhere(masked[3], lanes[3], q)
    requires ZeroWhere(masked[4], lanes[4], q) && ZeroWhere(masked[5], lanes[5], q)
    requires ZeroWhere(masked[6], lanes[6], q) && ZeroWhere(masked[7], lanes[7], q)
    ensures Count(masked, IsZero) == Count(lanes, q) && !Miscounts(masked)
  {
    CountOfEight(masked, IsZero);
    CountOfEight(lanes, q);
  }

  lemma ContinuationMaskCounts(w: Word)
    ensures CountZeroBytes(ContinuationMask(w)) == Count(Lanes(w), IsContinuation)
  {
    ContinuationMaskAt(w, 0);
    ContinuationMaskAt(w, 8);
    ContinuationMaskAt(w, 16);
    ContinuationMaskAt(w, 24);
    ContinuationMaskAt(w, 32);
    ContinuationMaskAt(w, 40);
    ContinuationMaskAt(w, 48);
    ContinuationMaskAt(w, 56);
    CountOfMasked(Lanes(ContinuationMask(w)), Lanes(w), IsContinuation);
    CountZeroBytesExactness(ContinuationMask(w));
  }

  lemma FourByteLeadMaskCounts(w: Word)
    ensures CountZeroBytes(FourByteLeadMask(w)) == Count(Lanes(w), IsFourByteLead)
  {
    FourByteLeadMaskAt(w, 0);
    FourByteLeadMaskAt(w, 8);
    FourByteLeadMaskAt(w, 16);
    FourByteLeadMaskAt(w, 24);
    FourByteLeadMaskAt(w, 32);
    FourByteLeadMaskAt(w, 40);
    FourByteLeadMaskAt(w, 48);
    FourByteLeadMaskAt(w, 56);
    CountOfMasked(Lanes(FourByteLeadMask(w)), Lanes(w), IsFourByteLead);
    CountZeroBytesExactness(FourByteLeadMask(w));
  }

  /** Whatever the byte order, the two mask-and-count steps count the continuation bytes and the four-byte leads. */
  lemma WordCountsAreExact(chunk: seq<Byte>, bigEndian: bool)
    requires |chunk| == 8
    ensures var w := FromNeBytes(chunk, bigEndian);
      && CountZeroBytes(ContinuationMask(w)) == Count(chunk, IsContinuation)
      && CountZeroBytes(FourByteLeadMask(w)) == Count(chunk, IsFourByteLead)
  {
    ContinuationMaskCounts(FromNeBytes(chunk, bigEndian));
    FourByteLeadMaskCounts(FromNeBytes(chunk, bigEndian));
    CountOfWordBytes(chunk, bigEndian, IsContinuation);
    CountOfWordBytes(chunk, bigEndian, IsFourByteLead);
  }
}
