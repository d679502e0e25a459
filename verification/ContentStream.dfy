/**
 The chunked content reader: the page-side slice function, the accumulating reader, the pump, and the choice of chunk
 size. The page is an arbitrary function from slice requests to replies; the delivery theorems are about the page that
 holds a well-formed document.
 */
module ContentStream {
  import opened Unicode
  import opened Utf16Len
  import opened Wrappers

  const DEFAULT_CHUNK_UNITS: nat := 65_536
  const MIN_CHUNK_UNITS: nat := 1024
  const MAX_CHUNK_UNITS: nat := 4_194_304
  const MAX_DOCUMENT_UNITS: nat := 256 * 1024 * 1024
  const MAX_CHUNKS: nat := 262_144

  datatype Error = TooLarge(units: nat) | ExceededMaxChunks | ExceededByteCap(bytes: nat) | Script | UnexpectedValue

  // ----- The page -----

  datatype SliceReply = Text(bytes: seq<Byte>) | NoValue | Exception | OtherValue

  type Page = (nat, nat) -> SliceReply

  /** `SLICE_FN`: at most `size` units from `start`, one fewer where the cut would split a surrogate pair. */
  function SliceFn(s: seq<Unit>, start: nat, size: nat): seq<Unit> {
    if start >= |s| then []
    else
      var end := Min(start + size, |s|);
      var cut := if 0 < end < |s| && IsHigh(s[end - 1]) then end - 1 else end;
      if start <= cut then s[start..cut] else []
  }

  /** The page that holds `doc`; a slice with an unpaired surrogate has no UTF-8 form. */
  function PageOf(doc: seq<Unit>): Page {
    (start: nat, size: nat) =>
      match Transcode(SliceFn(doc, start, size))
      case Some(bytes) => Text(bytes)
      case None => OtherValue
  }

  function ReadSlice(page: Page, offset: nat, chunk: nat): Result<seq<Byte>, Error> {
    match page(offset, chunk)
    case Text(bytes) => Ok(bytes)
    case NoValue => Ok([])
    case Exception => Err(Script)
    case OtherValue => Err(UnexpectedValue)
  }

  // ----- The accumulating reader -----

  datatype Reader = Reader(offset: nat, rounds: nat, totalBytes: nat, buf: seq<Byte>)

  /** What the reading loop returns, and the rounds it has counted by then. */
  datatype Outcome = Outcome(result: Result<seq<Byte>, Error>, rounds: nat)

  /** The outcome of the reading loop when it is entered in state `r`. */
  function ReadFrom(page: Page, total: nat, chunk: nat, byteCap: nat, r: Reader): Outcome
    decreases MAX_CHUNKS - r.rounds
  {
    if r.offset >= total then Outcome(Ok(r.buf), r.rounds)
    else if r.rounds >= MAX_CHUNKS then Outcome(Err(ExceededMaxChunks), r.rounds)
    else
      match ReadSlice(page, r.offset, chunk)
      case Err(e) => Outcome(Err(e), r.rounds)
      case Ok(bytes) =>
        var advanced := CountedUnits(bytes);
        var totalBytes := Min(r.totalBytes + |bytes|, U64_MAX);
        if bytes == [] || advanced == 0 then Outcome(Ok(r.buf), r.rounds + 1)
        else if totalBytes > byteCap then Outcome(Err(ExceededByteCap(totalBytes)), r.rounds + 1)
        else
          ReadFrom(page, total, chunk, byteCap,
                   Reader(Min(r.offset + advanced, U32_MAX), r.rounds + 1, totalBytes, r.buf + bytes))
  }

  method ReadChunks(page: Page, total: nat, chunk: nat, byteCap: nat, bigEndian: bool)
    returns (result: Result<seq<Byte>, Error>, rounds: nat)
    requires forall start, size :: page(start, size).Text? ==> |page(start, size).bytes| <= U64_MAX
    ensures Outcome(result, rounds) == ReadFrom(page, total, chunk, byteCap, Reader(0, 0, 0, []))
  {
    var offset: nat, totalBytes: nat, buf := 0, 0, [];
    rounds := 0;
    while offset < total
      invariant rounds <= MAX_CHUNKS
      invariant ReadFrom(page, total, chunk, byteCap, Reader(0, 0, 0, []))
             == ReadFrom(page, total, chunk, byteCap, Reader(offset, rounds, totalBytes, buf))
      decreases MAX_CHUNKS - rounds
    {
      if rounds >= MAX_CHUNKS {
        return Err(ExceededMaxChunks), rounds;
      }
      var slice := ReadSlice(page, offset, chunk);
      if slice.Err? {
        return Err(slice.error), rounds;
      }
      rounds := rounds + 1;
      var bytes := slice.value;
      if bytes == [] {
        break;
      }
      var advanced := Utf16LenOfUtf8(bytes, bigEndian);
      if advanced == 0 {
        break;
      }
      totalBytes := Min(totalBytes + |bytes|, U64_MAX);
      if totalBytes > byteCap {
        return Err(ExceededByteCap(totalBytes)), rounds;
      }
      buf := buf + bytes;
      offset := Min(offset + advanced, U32_MAX);
    }
    result := Ok(buf);
  }

  // ----- How a reading ends, on any page -----

  function ConcatBytes(chunks: seq<seq<Byte>>): seq<Byte> {
    if chunks == [] then [] else chunks[0] + ConcatBytes(chunks[1..])
  }

  /** The page answers requests from `offset` on with the texts `slices`, each of which is taken and moves it on. */
  ghost predicate Serves(page: Page, chunk: nat, offset: nat, slices: seq<seq<Byte>>)
    decreases |slices|
  {
    slices != [] ==>
      && page(offset, chunk) == Text(slices[0]) && slices[0] != [] && CountedUnits(slices[0]) > 0
      && Serves(page, chunk, Min(offset + CountedUnits(slices[0]), U32_MAX), slices[1..])
  }

  /** The page has no more text to give: no value, an empty one, or one that starts no character. */
  predicate EndsReading(reply: SliceReply) {
    reply.NoValue? || (reply.Text? && (reply.bytes == [] || CountedUnits(reply.bytes) == 0))
  }

  /** The offset behind the slices. */
  function OffsetAfter(offset: nat, slices: seq<seq<Byte>>): nat
    decreases |slices|
  {
    if slices == [] then offset
    else OffsetAfter(Min(offset + CountedUnits(slices[0]), U32_MAX), slices[1..])
  }

  /** At none of the slices is the reading at its end: it asks for each. */
  predicate StaysBelow(total: nat, offset: nat, slices: seq<seq<Byte>>)
    decreases |slices|
  {
    slices != [] ==>
      offset < total && StaysBelow(total, Min(offset + CountedUnits(slices[0]), U32_MAX), slices[1..])
  }

  /** The reader after it has taken the slices: as long as they fit under the cap, it takes them all. */
  lemma {:induction false} ReadsSlices(
    page: Page, total: nat, chunk: nat, byteCap: nat, r: Reader, slices: seq<seq<Byte>>)
    requires Serves(page, chunk, r.offset, slices) && StaysBelow(total, r.offset, slices)
    requires r.rounds + |slices| <= MAX_CHUNKS
    requires r.totalBytes == |r.buf| && |r.buf + ConcatBytes(slices)| <= Min(byteCap, U64_MAX)
    ensures var buf := r.buf + ConcatBytes(slices);
      ReadFrom(page, total, chunk, byteCap, r)
        == ReadFrom(page, total, chunk, byteCap,
                    Reader(OffsetAfter(r.offset, slices), r.rounds + |slices|, |buf|, buf))
    decreases |slices|
  {
    if slices == [] {
      assert r.buf + [] == r.buf;
    } else {
      var offset := Min(r.offset + CountedUnits(slices[0]), U32_MAX);
      assert r.buf + ConcatBytes(slices) == (r.buf + slices[0]) + ConcatBytes(slices[1..]);
      hide CountedUnits;
      ReadsSlices(page, total, chunk, byteCap,
                  Reader(offset, r.rounds + 1, r.totalBytes + |slices[0]|, r.buf + slices[0]), slices[1..]);
    }
  }

  /**
   How the reading of any page ends that has taken the slices `slices`: what the page answers next decides. It returns
   what it has taken if it has reached the total, or if the page answers nothing; an error of the page is its error, and
   so is the round limit or a slice too many for the byte cap.
   */
  lemma ReaderEnds(page: Page, total: nat, chunk: nat, byteCap: nat, slices: seq<seq<Byte>>)
    requires Serves(page, chunk, 0, slices) && StaysBelow(total, 0, slices) && |slices| <= MAX_CHUNKS
    requires |ConcatBytes(slices)| <= Min(byteCap, U64_MAX)
    ensures var outcome := ReadFrom(page, total, chunk, byteCap, Reader(0, 0, 0, []));
      var (n, bytes, offset) := (|slices|, ConcatBytes(slices), OffsetAfter(0, slices));
      var next := page(offset, chunk);
      if offset >= total then outcome == Outcome(Ok(bytes), n)
      else if n == MAX_CHUNKS then outcome == Outcome(Err(ExceededMaxChunks), n)
      else if next.Exception? then outcome == Outcome(Err(Script), n)
      else if next.OtherValue? then outcome == Outcome(Err(UnexpectedValue), n)
      else if EndsReading(next) then outcome == Outcome(Ok(bytes), n + 1)
      else
        var size := Min(|bytes| + |next.bytes|, U64_MAX);
        size > byteCap ==> outcome == Outcome(Err(ExceededByteCap(size)), n + 1)
  {
    assert [] + ConcatBytes(slices) == ConcatBytes(slices);
    ReadsSlices(page, total, chunk, byteCap, Reader(0, 0, 0, []), slices);
    hide CountedUnits;
  }

  /** A reading that returns a document has met no error: it is made of the slices the page answered, all of them. */
  lemma {:induction false} OkMetNoError(page: Page, total: nat, chunk: nat, byteCap: nat, r: Reader)
    returns (slices: seq<seq<Byte>>)
    requires ReadFrom(page, total, chunk, byteCap, r).result.Ok?
    ensures Serves(page, chunk, r.offset, slices) && StaysBelow(total, r.offset, slices)
    ensures ReadFrom(page, total, chunk, byteCap, r).result.value == r.buf + ConcatBytes(slices)
    ensures var offset := OffsetAfter(r.offset, slices);
      offset >= total || EndsReading(page(offset, chunk))
    decreases MAX_CHUNKS - r.rounds
  {
    slices := [];
    assert r.buf + [] == r.buf && CountedUnits([]) == 0;
    if r.offset < total {
      var bytes := ReadSlice(page, r.offset, chunk).value;
      var advanced := CountedUnits(bytes);
      if bytes != [] && advanced != 0 {
        var next := Reader(Min(r.offset + advanced, U32_MAX), r.rounds + 1,
                           Min(r.totalBytes + |bytes|, U64_MAX), r.buf + bytes);
        hide CountedUnits;
        var rest := OkMetNoError(page, total, chunk, byteCap, next);
        slices := [bytes] + rest;
        assert slices[1..] == rest;
        assert r.buf + ConcatBytes(slices) == (r.buf + bytes) + ConcatBytes(rest);
      }
    }
  }

  // ----- The pump -----

  datatype Pump = Pump(total: nat, offset: nat, chunk: nat, rounds: nat)

  /** One poll of the chunk stream: the next chunk and state, `None` at the end, or the error that ends it. */
  function PumpNext(page: Page, p: Pump): Result<Option<(seq<Byte>, Pump)>, Error> {
    if p.offset >= p.total || p.rounds >= MAX_CHUNKS then Ok(None)
    else
      match ReadSlice(page, p.offset, p.chunk)
      case Err(e) => Err(e)
      case Ok(bytes) =>
        var advanced := CountedUnits(bytes);
        if bytes == [] || advanced == 0 then Ok(None)
        else Ok(Some((bytes, p.(offset := Min(p.offset + advanced, U32_MAX), rounds := p.rounds + 1))))
  }

  /** Everything the chunk stream yields from state `p`, and the error that ends it, if any. */
  function PumpAll(page: Page, p: Pump): (seq<seq<Byte>>, Option<Error>)
    decreases MAX_CHUNKS - p.rounds
  {
    match PumpNext(page, p)
    case Err(e) => ([], Some(e))
    case Ok(None) => ([], None)
    case Ok(Some((bytes, next))) =>
      var (rest, end) := PumpAll(page, next);
      ([bytes] + rest, end)
  }

  /** How the chunk stream goes on any page, behind the slices it has yielded: what the page answers next decides. */
  lemma {:induction false} PumpEnds(page: Page, p: Pump, slices: seq<seq<Byte>>)
    requires Serves(page, p.chunk, p.offset, slices) && StaysBelow(p.total, p.offset, slices)
    requires p.rounds + |slices| <= MAX_CHUNKS
    ensures var offset := OffsetAfter(p.offset, slices);
      var next := page(offset, p.chunk);
      && slices <= PumpAll(page, p).0
      && (offset >= p.total || p.rounds + |slices| == MAX_CHUNKS ==> PumpAll(page, p) == (slices, None))
      && (offset < p.total && p.rounds + |slices| < MAX_CHUNKS ==>
            && (next.Exception? ==> PumpAll(page, p) == (slices, Some(Script)))
            && (next.OtherValue? ==> PumpAll(page, p) == (slices, Some(UnexpectedValue)))
            && (EndsReading(next) ==> PumpAll(page, p) == (slices, None)))
    decreases |slices|
  {
    hide CountedUnits;
    if slices != [] {
      var offset := Min(p.offset + CountedUnits(slices[0]), U32_MAX);
      PumpEnds(page, p.(offset := offset, rounds := p.rounds + 1), slices[1..]);
      assert slices == [slices[0]] + slices[1..];
    }
  }

  // ----- Chunk size -----

  function ClampChunkUnits(units: nat): nat {
    if units < MIN_CHUNK_UNITS then MIN_CHUNK_UNITS
    else if units > MAX_CHUNK_UNITS then MAX_CHUNK_UNITS
    else units
  }

  /** The chunk size is the admissible one nearest to the requested one. */
  lemma ClampIsNearest(units: nat, other: nat)
    requires 1024 <= other <= 4_194_304
    ensures 1024 <= ClampChunkUnits(units) <= 4_194_304
    ensures Max(units - ClampChunkUnits(units), ClampChunkUnits(units) - units) <= Max(units - other, other - units)
  {
  }

  /** `stream_threshold_units`, with the number of active pages as a parameter. */
  function StreamThresholdUnits(pages: nat): nat {
    var base, min, highPressure := 1_048_576, 262_144, 128;
    if pages >= highPressure then min else base - (base - min) * pages / highPressure
  }

  /** The length probe of `init_state`: nothing to read, or the total and the default chunk size. */
  function InitState(length: nat, pages: nat): Result<Option<(nat, nat)>, Error> {
    if length > MAX_DOCUMENT_UNITS then Err(TooLarge(length))
    else if length == 0 then Ok(None)
    else if length < StreamThresholdUnits(pages) then Ok(Some((length, Max(DEFAULT_CHUNK_UNITS, length))))
    else Ok(Some((length, DEFAULT_CHUNK_UNITS)))
  }

  /** `content_bytes_streaming` on a page that holds `doc`. */
  function ContentBytes(doc: seq<Unit>, pages: nat, byteCap: nat): Result<seq<Byte>, Error> {
    match InitState(|doc|, pages)
    case Err(e) => Err(e)
    case Ok(None) => Ok([])
    case Ok(Some((total, chunk))) => ReadFrom(PageOf(doc), total, chunk, byteCap, Reader(0, 0, 0, [])).result
  }

  /** `content_bytes_stream` on a page that holds `doc`: the chunks it yields and the error that ends it. */
  function ContentChunks(doc: seq<Unit>, pages: nat, chunkUnits: Option<nat>): (seq<seq<Byte>>, Option<Error>) {
    match InitState(|doc|, pages)
    case Err(e) => ([], Some(e))
    case Ok(None) => ([], None)
    case Ok(Some((total, default))) =>
      var chunk := if chunkUnits.Some? then ClampChunkUnits(chunkUnits.value) else default;
      PumpAll(PageOf(doc), Pump(total, 0, chunk, 0))
  }
}
