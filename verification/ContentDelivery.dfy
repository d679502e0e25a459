/**
 What the chunked reader and the pump deliver from a well-formed document. Both walk the same greedy partition of the
 document into chunks of whole code points; the round bounds are bounds on the length of that partition.
 */
module ContentDelivery {
  import opened ContentStream
  import opened Unicode
  import opened Utf16Len
  import opened Wrappers

  function Units(cps: seq<CodePoint>): nat {
    |Utf16(cps)|
  }

  lemma UnitsOfOne(c: CodePoint)
    ensures 1 <= |Utf16Of(c)| <= 2
    ensures |Utf16Of(c)| == 2 ==> IsHigh(Utf16Of(c)[0])
    ensures !IsHigh(Utf16Of(c)[|Utf16Of(c)| - 1])
  {
    FirstOfUtf16(c);
  }

  lemma UnitsConcat(a: seq<CodePoint>, b: seq<CodePoint>)
    ensures Units(a + b) == Units(a) + Units(b)
  {
    Utf16Concat(a, b);
  }

  lemma {:induction false} Utf8AtMostThreePerUnit(cps: seq<CodePoint>)
    ensures |cps| <= Units(cps) && |Utf8(cps)| <= 3 * Units(cps)
    ensures cps != [] ==> 0 < |Utf8(cps)|
  {
    if cps != [] {
      Utf8AtMostThreePerUnit(cps[1..]);
    }
  }

  // ----- One slice -----

  /** How many leading code points fit whole into `size` units. */
  function Fit(cps: seq<CodePoint>, size: nat): (n: nat)
    ensures n <= |cps|
  {
    if cps == [] || |Utf16Of(cps[0])| > size then 0 else 1 + Fit(cps[1..], size - |Utf16Of(cps[0])|)
  }

  /** `k` units is where a request for `size` units of `u` is cut. */
  predicate IsCut(u: seq<Unit>, size: nat, k: nat) {
    && k <= |u| && k <= size
    && (size >= |u| ==> k == |u|)
    && (0 < size < |u| ==> k == if IsHigh(u[size - 1]) then size - 1 else size)
  }

  lemma CutBehindFirst(first: seq<Unit>, u: seq<Unit>, size: nat, k: nat)
    requires 1 <= |first| <= size && !IsHigh(first[|first| - 1])
    requires IsCut(u, size - |first|, k)
    ensures IsCut(first + u, size, |first| + k)
  {
  }

  lemma CutBeforeFirst(first: seq<Unit>, u: seq<Unit>, size: nat)
    requires size < |first| <= 2 && (|first| == 2 ==> IsHigh(first[0]))
    ensures IsCut(first + u, size, 0)
  {
  }

  /** The code points that fit into `size` units take a cut of the text's units. */
  predicate FitsAsCut(cps: seq<CodePoint>, size: nat) {
    var taken := Utf16(cps[..Fit(cps, size)]);
    IsCut(Utf16(cps), size, |taken|) && taken == Utf16(cps)[..|taken|]
  }

  lemma FitTakesFirst(cps: seq<CodePoint>, size: nat)
    requires cps != [] && |Utf16Of(cps[0])| <= size
    requires FitsAsCut(cps[1..], size - |Utf16Of(cps[0])|)
    ensures FitsAsCut(cps, size)
  {
    hide Utf16Of, IsHigh, IsCut;
    UnitsOfOne(cps[0]);
    var first := Utf16Of(cps[0]);
    var m := Fit(cps[1..], size - |first|);
    CutBehindFirst(first, Utf16(cps[1..]), size, |Utf16(cps[1..][..m])|);
    assert cps[..Fit(cps, size)][1..] == cps[1..][..m];
  }

  lemma {:induction false} FitIsCut(cps: seq<CodePoint>, size: nat)
    ensures FitsAsCut(cps, size)
  {
    if cps == [] {
    } else if |Utf16Of(cps[0])| <= size {
      FitIsCut(cps[1..], size - |Utf16Of(cps[0])|);
      FitTakesFirst(cps, size);
    } else {
      UnitsOfOne(cps[0]);
      CutBeforeFirst(Utf16Of(cps[0]), Utf16(cps[1..]), size);
    }
  }

  lemma {:induction false} FitTakesAll(cps: seq<CodePoint>, size: nat)
    ensures Fit(cps, size) == |cps| <==> Units(cps) <= size
  {
    if cps != [] && |Utf16Of(cps[0])| <= size {
      FitTakesAll(cps[1..], size - |Utf16Of(cps[0])|);
    }
  }

  lemma SliceFromHere(a: seq<Unit>, b: seq<Unit>, size: nat)
    requires 0 < size
    ensures SliceFn(a + b, |a|, size) == SliceFn(b, 0, size)
  {
    if b != [] {
      var end := Min(size, |b|);
      assert (a + b)[|a| + end - 1] == b[end - 1];
      assert (a + b)[|a|..|a| + end] == b[..end];
      assert (a + b)[|a|..|a| + end - 1] == b[..end - 1];
    }
  }

  lemma SliceIsCut(u: seq<Unit>, size: nat, k: nat)
    requires 0 < size && IsCut(u, size, k)
    ensures SliceFn(u, 0, size) == u[..k]
  {
  }

  /** At a code-point boundary the page slices off exactly the code points that fit. */
  lemma SliceIsWholeCodePoints(pre: seq<CodePoint>, rest: seq<CodePoint>, size: nat)
    requires 0 < size
    ensures SliceFn(Utf16(pre + rest), Units(pre), size) == Utf16(rest[..Fit(rest, size)])
  {
    Utf16Concat(pre, rest);
    SliceFromHere(Utf16(pre), Utf16(rest), size);
    FitIsCut(rest, size);
    SliceIsCut(Utf16(rest), size, Units(rest[..Fit(rest, size)]));
  }

  lemma ReadSliceOfDocument(cps: seq<CodePoint>, i: nat, size: nat)
    requires 0 < size && i <= |cps|
    ensures ReadSlice(PageOf(Utf16(cps)), Units(cps[..i]), size) == Ok(Utf8(cps[i..][..Fit(cps[i..], size)]))
  {
    assert cps == cps[..i] + cps[i..];
    SliceIsWholeCodePoints(cps[..i], cps[i..], size);
    DecodeUtf16OfUtf16(cps[i..][..Fit(cps[i..], size)]);
  }

  // ----- The partition -----

  /** The document cut greedily into chunks of at most `size` units of whole code points. */
  function Partition(cps: seq<CodePoint>, size: nat): seq<seq<CodePoint>>
    requires 2 <= size
    decreases |cps|
  {
    if cps == [] then []
    else
      UnitsOfOne(cps[0]);
      var n := Fit(cps, size);
      [cps[..n]] + Partition(cps[n..], size)
  }

  function Concat(chunks: seq<seq<CodePoint>>): seq<CodePoint> {
    if chunks == [] then [] else chunks[0] + Concat(chunks[1..])
  }

  function EncodeAll(chunks: seq<seq<CodePoint>>): (r: seq<seq<Byte>>)
    ensures |r| == |chunks|
  {
    if chunks == [] then [] else [Utf8(chunks[0])] + EncodeAll(chunks[1..])
  }

  /** A chunk is whole code points; unless it is the last it fills its request up to at most one unit. */
  lemma FirstChunk(cps: seq<CodePoint>, size: nat)
    requires 2 <= size && cps != []
    ensures var n := Fit(cps, size);
      && 0 < n && cps == cps[..n] + cps[n..] && Units(cps) == Units(cps[..n]) + Units(cps[n..])
      && Units(cps[..n]) <= size
      && (cps[n..] != [] <==> size < Units(cps))
      && (cps[n..] != [] ==> size - 1 <= Units(cps[..n]))
  {
    UnitsOfOne(cps[0]);
    var n := Fit(cps, size);
    FitIsCut(cps, size);
    FitTakesAll(cps, size);
    assert cps == cps[..n] + cps[n..];
    UnitsConcat(cps[..n], cps[n..]);
  }

  /** Nothing is lost, and every chunk but the last fills its request up to at most one unit. */
  lemma {:induction false} PartitionIsExact(cps: seq<CodePoint>, size: nat)
    requires 2 <= size
    ensures var p := Partition(cps, size);
      && Concat(p) == cps
      && (forall i :: 0 <= i < |p| ==> 0 < |p[i]| && Units(p[i]) <= size)
      && (forall i :: 0 <= i < |p| - 1 ==> size - 1 <= Units(p[i]))
    decreases |cps|
  {
    hide Utf16Of, Utf16;
    if cps != [] {
      UnitsOfOne(cps[0]);
      var n := Fit(cps, size);
      PartitionIsExact(cps[n..], size);
      FirstChunk(cps, size);
    }
  }

  lemma OneRoundLess(rounds: nat, size: nat)
    requires 0 < rounds && 0 < size
    ensures 0 <= (rounds - 1) * size && rounds * size == (rounds - 1) * size + size
  {
  }

  /** Every chunk but the last takes at least `size - 1` units. */
  lemma {:induction false} PartitionLength(cps: seq<CodePoint>, size: nat, rounds: nat)
    requires 2 <= size && 1 <= rounds && Units(cps) <= rounds * (size - 1) + 1
    ensures |Partition(cps, size)| <= rounds
    decreases rounds
  {
    if cps != [] {
      FirstChunk(cps, size);
      if size < Units(cps) {
        OneRoundLess(rounds, size - 1);
        PartitionLength(cps[Fit(cps, size)..], size, rounds - 1);
      }
    }
  }

  // ----- Reader and pump walk the partition -----

  lemma UnitsTaken(cps: seq<CodePoint>, i: nat, j: nat)
    requires i <= j <= |cps|
    ensures Units(cps[..j]) == Units(cps[..i]) + Units(cps[i..j])
    ensures Utf8(cps[..j]) == Utf8(cps[..i]) + Utf8(cps[i..j])
  {
    assert cps[..j] == cps[..i] + cps[i..j];
    Utf16Concat(cps[..i], cps[i..j]);
    Utf8Concat(cps[..i], cps[i..j]);
  }

  /** The index behind the chunk that starts at index `i`. */
  function ChunkEnd(cps: seq<CodePoint>, i: nat, size: nat): (j: nat)
    requires i <= |cps|
    ensures i <= j <= |cps|
  {
    i + Fit(cps[i..], size)
  }

  /** At a boundary before the end, a slice is the next chunk of the partition and advances by its length. */
  lemma ReadSliceAdvances(cps: seq<CodePoint>, i: nat, size: nat)
    requires 2 <= size && i < |cps| && Units(cps) <= MAX_DOCUMENT_UNITS
    ensures var j := ChunkEnd(cps, i, size);
      var bytes := Utf8(cps[i..j]);
      && ReadSlice(PageOf(Utf16(cps)), Units(cps[..i]), size) == Ok(bytes)
      && i < j && bytes != [] && 0 < CountedUnits(bytes) == Units(cps[i..j]) <= size
      && Partition(cps[i..], size) == [cps[i..j]] + Partition(cps[j..], size)
  {
    var j := ChunkEnd(cps, i, size);
    FirstChunk(cps[i..], size);
    ReadSliceOfDocument(cps, i, size);
    assert cps[i..][..j - i] == cps[i..j];
    assert cps[i..][j - i..] == cps[j..];
    Utf8AtMostThreePerUnit(cps[i..j]);
    UnitsTaken(cps, i, j);
    UnitsTaken(cps, j, |cps|);
    assert cps[..|cps|] == cps;
    CountedUnitsOfUtf8(cps[i..j]);
  }

  /** The unit before a code-point boundary is never the first half of a pair. */
  lemma {:induction false} BoundaryKeepsPairs(cps: seq<CodePoint>, i: nat)
    requires 0 < i <= |cps|
    ensures var offset := Units(cps[..i]); 0 < offset <= Units(cps) && !IsHigh(Utf16(cps)[offset - 1])
    decreases i
  {
    UnitsTaken(cps, i, |cps|);
    UnitsTaken(cps, i - 1, i);
    assert cps[..|cps|] == cps;
    UnitsOfOne(cps[i - 1]);
    assert cps[i - 1..i] == [cps[i - 1]] + [];
    Utf16Cons(cps[i - 1], []);
    Utf16Concat(cps[..i - 1], cps[i - 1..i]);
    Utf16Concat(cps[..i], cps[i..]);
    assert cps == cps[..i] + cps[i..];
    assert cps[..i] == cps[..i - 1] + cps[i - 1..i];
  }

  lemma BoundedBy(cps: seq<CodePoint>, i: nat)
    requires i <= |cps|
    ensures Units(cps[..i]) <= Units(cps) && |Utf8(cps[..i])| <= |Utf8(cps)|
    ensures Units(cps[..i]) == Units(cps) <==> i == |cps|
  {
    assert cps[..|cps|] == cps;
    UnitsTaken(cps, i, |cps|);
    Utf8AtMostThreePerUnit(cps[i..]);
  }

  lemma ReaderStep(page: Page, total: nat, chunk: nat, byteCap: nat, r: Reader, bytes: seq<Byte>)
    requires r.offset < total && r.rounds < MAX_CHUNKS
    requires ReadSlice(page, r.offset, chunk) == Ok(bytes) && bytes != [] && 0 < CountedUnits(bytes)
    requires r.totalBytes + |bytes| <= U64_MAX && r.offset + CountedUnits(bytes) <= U32_MAX
    ensures ReadFrom(page, total, chunk, byteCap, r) ==
      if r.totalBytes + |bytes| > byteCap then Outcome(Err(ExceededByteCap(r.totalBytes + |bytes|)), r.rounds + 1)
      else ReadFrom(page, total, chunk, byteCap,
                    Reader(r.offset + CountedUnits(bytes), r.rounds + 1, r.totalBytes + |bytes|, r.buf + bytes))
  {
  }

  ghost predicate Delivers(result: Result<seq<Byte>, Error>, text: seq<Byte>, byteCap: nat) {
    if |text| <= byteCap then result == Ok(text)
    else result.Err? && result.error.ExceededByteCap? && byteCap < result.error.bytes
  }

  /**
   From any code-point boundary, with rounds to spare, the reader returns the whole text, in one round for each chunk of
   the partition, or reports the byte cap after no more than that.
   */
  lemma {:induction false} ReaderDelivers(cps: seq<CodePoint>, i: nat, chunk: nat, byteCap: nat, r: Reader)
    requires 2 <= chunk && Units(cps) <= MAX_DOCUMENT_UNITS && i <= |cps|
    requires r.offset == Units(cps[..i]) && r.buf == Utf8(cps[..i]) && r.totalBytes == |r.buf| <= byteCap
    requires r.rounds + |Partition(cps[i..], chunk)| <= MAX_CHUNKS
    ensures var outcome := ReadFrom(PageOf(Utf16(cps)), Units(cps), chunk, byteCap, r);
      && Delivers(outcome.result, Utf8(cps), byteCap)
      && (i < |cps| ==> r.rounds < outcome.rounds) && outcome.rounds <= r.rounds + |Partition(cps[i..], chunk)|
      && (outcome.result.Ok? ==> outcome.rounds == r.rounds + |Partition(cps[i..], chunk)|)
    decreases |cps| - i
  {
    if i == |cps| {
      assert cps[..i] == cps;
    } else {
      var j := ChunkEnd(cps, i, chunk);
      var bytes := Utf8(cps[i..j]);
      ReadSliceAdvances(cps, i, chunk);
      UnitsTaken(cps, i, j);
      BoundedBy(cps, i);
      BoundedBy(cps, j);
      Utf8AtMostThreePerUnit(cps);
      ReaderStep(PageOf(Utf16(cps)), Units(cps), chunk, byteCap, r, bytes);
      if r.totalBytes + |bytes| <= byteCap {
        ReaderDelivers(cps, j, chunk, byteCap,
                       Reader(r.offset + CountedUnits(bytes), r.rounds + 1, r.totalBytes + |bytes|, r.buf + bytes));
      }
    }
  }

  lemma PumpStep(page: Page, p: Pump, bytes: seq<Byte>)
    requires p.offset < p.total && p.rounds < MAX_CHUNKS
    requires ReadSlice(page, p.offset, p.chunk) == Ok(bytes) && bytes != [] && 0 < CountedUnits(bytes)
    requires p.offset + CountedUnits(bytes) <= U32_MAX
    ensures PumpNext(page, p) ==
      Ok(Some((bytes, p.(offset := p.offset + CountedUnits(bytes), rounds := p.rounds + 1))))
  {
  }

  lemma PumpAtEnd(page: Page, p: Pump)
    requires p.total <= p.offset || MAX_CHUNKS <= p.rounds
    ensures PumpAll(page, p) == ([], None)
  {
  }

  lemma PumpGoesOn(page: Page, p: Pump, bytes: seq<Byte>, next: Pump)
    requires PumpNext(page, p) == Ok(Some((bytes, next)))
    ensures PumpAll(page, p) == ([bytes] + PumpAll(page, next).0, PumpAll(page, next).1)
  {
    hide ReadSlice;
  }

  /** One round of the pump at a boundary before the end. */
  lemma PumpTakesChunk(cps: seq<CodePoint>, i: nat, p: Pump)
    requires 2 <= p.chunk && p.total == Units(cps) <= MAX_DOCUMENT_UNITS && i < |cps|
    requires p.offset == Units(cps[..i]) && p.rounds < MAX_CHUNKS
    ensures var j := ChunkEnd(cps, i, p.chunk);
      && i < j && Partition(cps[i..], p.chunk) == [cps[i..j]] + Partition(cps[j..], p.chunk)
      && PumpNext(PageOf(Utf16(cps)), p)
        == Ok(Some((Utf8(cps[i..j]), p.(offset := Units(cps[..j]), rounds := p.rounds + 1))))
  {
    hide Utf16, Utf8, Fit, Partition, CountedUnits, Units, ReadSlice, PageOf, PumpNext, ChunkEnd;
    var j := ChunkEnd(cps, i, p.chunk);
    ReadSliceAdvances(cps, i, p.chunk);
    UnitsTaken(cps, i, j);
    BoundedBy(cps, i);
    BoundedBy(cps, j);
    PumpStep(PageOf(Utf16(cps)), p, Utf8(cps[i..j]));
  }

  lemma PartitionOfNothing(size: nat)
    requires 2 <= size
    ensures Partition([], size) == [] && EncodeAll([]) == []
  {
  }

  /** The pump yields the UTF-8 of the partition, chunk by chunk, until it has made `MAX_CHUNKS` rounds. */
  lemma {:induction false} PumpDelivers(cps: seq<CodePoint>, i: nat, p: Pump)
    requires 2 <= p.chunk && p.total == Units(cps) <= MAX_DOCUMENT_UNITS && i <= |cps|
    requires p.offset == Units(cps[..i]) && p.rounds <= MAX_CHUNKS
    ensures var chunks := Partition(cps[i..], p.chunk);
      PumpAll(PageOf(Utf16(cps)), p) == (EncodeAll(chunks)[..Min(|chunks|, MAX_CHUNKS - p.rounds)], None)
    decreases |cps| - i
  {
    hide Utf16, Utf8, PageOf, PumpNext, PumpAll, ChunkEnd, Partition, EncodeAll, Units;
    var page, chunks := PageOf(Utf16(cps)), Partition(cps[i..], p.chunk);
    if i == |cps| {
      assert cps[..i] == cps && cps[i..] == [];
      PartitionOfNothing(p.chunk);
      PumpAtEnd(page, p);
    } else if p.rounds < MAX_CHUNKS {
      var j := ChunkEnd(cps, i, p.chunk);
      var next := p.(offset := Units(cps[..j]), rounds := p.rounds + 1);
      PumpTakesChunk(cps, i, p);
      PumpGoesOn(page, p, Utf8(cps[i..j]), next);
      PumpDelivers(cps, j, next);
      EncodeAllTake(chunks, Min(|chunks|, MAX_CHUNKS - p.rounds));
    } else {
      PumpAtEnd(page, p);
    }
  }

  lemma EncodeAllTake(chunks: seq<seq<CodePoint>>, k: nat)
    requires 0 < k <= |chunks|
    ensures EncodeAll(chunks)[..k] == [Utf8(chunks[0])] + EncodeAll(chunks[1..])[..k - 1]
  {
  }

  // ----- The entry points -----

  /** The text a well-formed document stands for, as UTF-8. */
  function TextOf(doc: seq<Unit>): seq<Byte>
    requires WellFormedUtf16(doc)
  {
    Transcode(doc).value
  }

  /** The threshold falls from 1048576 units with no page to 262144 at 128 pages and stays there. */
  lemma ThresholdFallsWithPressure(pages: nat, more: nat)
    requires pages <= more
    ensures 262_144 <= StreamThresholdUnits(more) <= StreamThresholdUnits(pages) <= 1_048_576
    ensures StreamThresholdUnits(0) == 1_048_576 && StreamThresholdUnits(64) == 655_360
    ensures 128 <= more ==> StreamThresholdUnits(more) == 262_144
  {
  }

  /** An admitted document is cut into at most 4097 chunks at the default size, and into one below the threshold. */
  lemma ChunksOfAdmittedDocument(cps: seq<CodePoint>, pages: nat)
    requires var init := InitState(Units(cps), pages); init.Ok? && init.value.Some?
    ensures var (total, chunk) := InitState(Units(cps), pages).value.value;
      && total == Units(cps) && DEFAULT_CHUNK_UNITS <= chunk
      && 1 <= |Partition(cps, chunk)| <= 4097
      && (total < StreamThresholdUnits(pages) ==> |Partition(cps, chunk)| == 1)
  {
    var (total, chunk) := InitState(Units(cps), pages).value.value;
    if chunk >= total {
      PartitionLength(cps, chunk, 1);
    } else {
      PartitionLength(cps, chunk, 4097);
    }
  }

  /**
   The reader counts between one and 4097 rounds on an admitted document, one below the threshold, and, when it returns
   the text, one for each chunk.
   */
  lemma RoundsOfAdmittedDocument(cps: seq<CodePoint>, pages: nat, byteCap: nat)
    requires var init := InitState(Units(cps), pages); init.Ok? && init.value.Some?
    ensures var (total, chunk) := InitState(Units(cps), pages).value.value;
      var outcome := ReadFrom(PageOf(Utf16(cps)), total, chunk, byteCap, Reader(0, 0, 0, []));
      && 1 <= outcome.rounds <= 4097
      && (total < StreamThresholdUnits(pages) ==> outcome.rounds == 1)
      && (outcome.result.Ok? ==> outcome.rounds == |Partition(cps, chunk)|)
      && Delivers(outcome.result, Utf8(cps), byteCap)
  {
    ChunksOfAdmittedDocument(cps, pages);
    var (total, chunk) := InitState(Units(cps), pages).value.value;
    assert cps[0..] == cps;
    assert cps != [];
    ReaderDelivers(cps, 0, chunk, byteCap, Reader(0, 0, 0, []));
  }

  /**
   `content_bytes_streaming` on every well-formed document: too large a document is refused, any other is returned
   whole, or refused for its size in bytes. The round limit is never what stops it.
   */
  lemma ContentBytesDelivers(doc: seq<Unit>, pages: nat, byteCap: nat)
    requires WellFormedUtf16(doc)
    ensures var result := ContentBytes(doc, pages, byteCap);
      if |doc| > MAX_DOCUMENT_UNITS then result == Err(TooLarge(|doc|))
      else Delivers(result, TextOf(doc), byteCap)
  {
    var cps := DecodeUtf16(doc).value;
    Utf16OfDecodeUtf16(doc);
    if 0 < |doc| <= MAX_DOCUMENT_UNITS {
      RoundsOfAdmittedDocument(cps, pages, byteCap);
    }
  }

  /** The chunk stream yields the UTF-8 of whole code points, chunk by chunk, each valid on its own, and never fails. */
  lemma ContentChunksAreThePartition(doc: seq<Unit>, pages: nat, chunkUnits: Option<nat>)
    requires WellFormedUtf16(doc) && 0 < |doc| <= MAX_DOCUMENT_UNITS
    ensures var default := InitState(|doc|, pages).value.value.1;
      var chunk := if chunkUnits.Some? then ClampChunkUnits(chunkUnits.value) else default;
      var chunks := Partition(DecodeUtf16(doc).value, chunk);
      && ContentChunks(doc, pages, chunkUnits) == (EncodeAll(chunks)[..Min(|chunks|, MAX_CHUNKS)], None)
      && forall b :: b in ContentChunks(doc, pages, chunkUnits).0 ==> ValidUtf8(b)
  {
    var cps := DecodeUtf16(doc).value;
    Utf16OfDecodeUtf16(doc);
    hide PumpAll, Partition, EncodeAll, DecodeUtf16, ValidUtf8, StreamThresholdUnits;
    var (total, default) := InitState(|doc|, pages).value.value;
    var chunk := if chunkUnits.Some? then ClampChunkUnits(chunkUnits.value) else default;
    assert cps[0..] == cps;
    PumpDelivers(cps, 0, Pump(total, 0, chunk, 0));
    EncodeAllIsValid(Partition(cps, chunk));
  }

  lemma {:induction false} EncodeAllIsValid(chunks: seq<seq<CodePoint>>)
    ensures forall b :: b in EncodeAll(chunks) ==> ValidUtf8(b)
  {
    if chunks != [] {
      DecodeUtf8OfUtf8(chunks[0]);
      EncodeAllIsValid(chunks[1..]);
    }
  }

  // ----- When the pump delivers everything -----

  lemma {:induction false} ConcatOfEncodeAll(chunks: seq<seq<CodePoint>>, k: nat)
    requires k <= |chunks|
    ensures Utf8(Concat(chunks)) == ConcatBytes(EncodeAll(chunks)[..k]) + Utf8(Concat(chunks[k..]))
  {
    if k > 0 {
      EncodeAllTake(chunks, k);
      ConcatOfEncodeAll(chunks[1..], k - 1);
      Utf8Concat(chunks[0], Concat(chunks[1..]));
      assert EncodeAll(chunks)[..k][1..] == EncodeAll(chunks[1..])[..k - 1];
      assert chunks[1..][k - 1..] == chunks[k..];
    } else {
      assert chunks[0..] == chunks;
    }
  }

  /** A part of the chunks is the whole text only if it is all of them. */
  lemma TextOfChunks(chunks: seq<seq<CodePoint>>, k: nat)
    requires k <= |chunks| && forall i :: 0 <= i < |chunks| ==> 0 < |chunks[i]|
    ensures ConcatBytes(EncodeAll(chunks)[..k]) == Utf8(Concat(chunks)) <==> k == |chunks|
  {
    ConcatOfEncodeAll(chunks, k);
    if k < |chunks| {
      assert Concat(chunks[k..]) == chunks[k] + Concat(chunks[k..][1..]);
      Utf8AtMostThreePerUnit(Concat(chunks[k..]));
    }
  }

  ghost predicate PumpDeliversWhole(cps: seq<CodePoint>, chunk: nat) {
    ConcatBytes(PumpAll(PageOf(Utf16(cps)), Pump(Units(cps), 0, chunk, 0)).0) == Utf8(cps)
  }

  lemma PumpDeliversWholeIff(cps: seq<CodePoint>, chunk: nat)
    requires 2 <= chunk && Units(cps) <= MAX_DOCUMENT_UNITS
    ensures PumpDeliversWhole(cps, chunk) <==> |Partition(cps, chunk)| <= MAX_CHUNKS
  {
    var chunks := Partition(cps, chunk);
    assert cps[0..] == cps;
    PumpDelivers(cps, 0, Pump(Units(cps), 0, chunk, 0));
    PartitionIsExact(cps, chunk);
    TextOfChunks(chunks, Min(|chunks|, MAX_CHUNKS));
  }

  const LETTER: CodePoint := 0x61
  const ASTRAL: CodePoint := 0x1F600

  /** `units` units of text that begins with a surrogate pair. */
  function Filler(units: nat): (cps: seq<CodePoint>)
    ensures units >= 2 ==> cps != [] && cps[0] == ASTRAL
  {
    if units == 0 then [] else if units == 1 then [LETTER] else [ASTRAL] + Filler(units - 2)
  }

  /** Text in which every request for `size` units would split a pair and so returns one unit less. */
  function Worst(units: nat, size: nat): (cps: seq<CodePoint>)
    requires 3 <= size
    ensures units >= 2 ==> cps != [] && cps[0] == ASTRAL
  {
    if units <= size then Filler(units) else Filler(size - 1) + Worst(units - (size - 1), size)
  }

  lemma FillerUnits()
    ensures |Utf16Of(LETTER)| == 1 && |Utf16Of(ASTRAL)| == 2
  {
    assert LETTER < 0x1_0000 <= ASTRAL;
    FirstOfUtf16(LETTER);
    FirstOfUtf16(ASTRAL);
  }

  lemma {:induction false} UnitsOfFiller(units: nat)
    ensures Units(Filler(units)) == units
  {
    FillerUnits();
    if units == 1 {
      assert [LETTER] + [] == Filler(1);
      Utf16Cons(LETTER, []);
    } else if units >= 2 {
      UnitsOfFiller(units - 2);
      Utf16Cons(ASTRAL, Filler(units - 2));
    }
  }

  lemma {:induction false} FitOfConcat(a: seq<CodePoint>, b: seq<CodePoint>, size: nat)
    requires Units(a) <= size
    ensures Fit(a + b, size) == |a| + Fit(b, size - Units(a))
  {
    if a == [] {
      assert a + b == b;
    } else {
      assert (a + b)[1..] == a[1..] + b;
      FitOfConcat(a[1..], b, size - |Utf16Of(a[0])|);
    }
  }

  lemma WorstFirstChunk(units: nat, size: nat)
    requires 3 <= size < units
    ensures var first, rest := Filler(size - 1), Worst(units - (size - 1), size);
      && Units(Worst(units, size)) == size - 1 + Units(rest)
      && Partition(Worst(units, size), size) == [first] + Partition(rest, size)
  {
    var first, rest := Filler(size - 1), Worst(units - (size - 1), size);
    UnitsOfFiller(size - 1);
    UnitsConcat(first, rest);
    FitOfConcat(first, rest, size);
    FillerUnits();
    assert Fit(rest, 1) == 0;
    assert (first + rest)[..|first|] == first;
    assert (first + rest)[|first|..] == rest;
  }

  lemma {:induction false} UnitsOfWorst(units: nat, size: nat)
    requires 3 <= size
    ensures Units(Worst(units, size)) == units
  {
    if units <= size {
      UnitsOfFiller(units);
    } else {
      WorstFirstChunk(units, size);
      UnitsOfWorst(units - (size - 1), size);
    }
  }

  lemma {:induction false} PartitionOfWorst(units: nat, size: nat, rounds: nat)
    requires 3 <= size && rounds * (size - 1) + 2 <= units
    ensures rounds < |Partition(Worst(units, size), size)|
  {
    if rounds > 0 {
      hide *;
      OneRoundLess(rounds, size - 1);
      WorstFirstChunk(units, size);
      PartitionOfWorst(units - (size - 1), size, rounds - 1);
    }
  }

  /**
   The exact reach of the pump: at chunk size `chunk` it delivers every document of `units` units if and only if
   `units` is at most `MAX_CHUNKS` times `chunk - 1`, plus one.
   */
  lemma PumpReach(units: nat, chunk: nat)
    requires 3 <= chunk && units <= MAX_DOCUMENT_UNITS
    ensures (forall cps :: Units(cps) == units ==> PumpDeliversWhole(cps, chunk))
      <==> units <= MAX_CHUNKS * (chunk - 1) + 1
  {
    if units <= MAX_CHUNKS * (chunk - 1) + 1 {
      forall cps | Units(cps) == units ensures PumpDeliversWhole(cps, chunk) {
        PartitionLength(cps, chunk, MAX_CHUNKS);
        PumpDeliversWholeIff(cps, chunk);
      }
    } else {
      UnitsOfWorst(units, chunk);
      PartitionOfWorst(units, chunk, MAX_CHUNKS);
      PumpDeliversWholeIff(Worst(units, chunk), chunk);
    }
  }

  /** With no chunk size requested the stream uses the one from the length probe, and loses nothing. */
  lemma PumpDeliversAtDefaultSize(cps: seq<CodePoint>, pages: nat)
    requires var init := InitState(Units(cps), pages); init.Ok? && init.value.Some?
    ensures PumpDeliversWhole(cps, InitState(Units(cps), pages).value.value.1)
  {
    ChunksOfAdmittedDocument(cps, pages);
    PumpDeliversWholeIff(cps, InitState(Units(cps), pages).value.value.1);
  }

  /**
   Which chunk sizes lose nothing from any admitted document: all of them except the smallest, at which the stream
   silently ends before the end of some document.
   */
  lemma PumpDeliversEveryAdmittedDocumentIff(chunkUnits: nat)
    ensures var chunk := ClampChunkUnits(chunkUnits);
      (forall cps :: Units(cps) <= MAX_DOCUMENT_UNITS ==> PumpDeliversWhole(cps, chunk))
        <==> MIN_CHUNK_UNITS < chunkUnits
  {
    var chunk := ClampChunkUnits(chunkUnits);
    if MIN_CHUNK_UNITS < chunkUnits {
      forall cps | Units(cps) <= MAX_DOCUMENT_UNITS ensures PumpDeliversWhole(cps, chunk) {
        PumpReach(Units(cps), chunk);
      }
    } else {
      PumpReach(MAX_DOCUMENT_UNITS, chunk);
    }
  }
}
