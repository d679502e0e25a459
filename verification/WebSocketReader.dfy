/**
 The background reader of a WebSocket connection. The serial loop is the specification: decode each frame as it
 arrives and send what decodes. The pipelined loop reads ahead while large frames decode elsewhere; it is run here
 against an arbitrary schedule of what the environment does at each turn.
 */
module WebSocketReader {
  import opened Wrappers

  type Payload = seq<bv8>
  type TransportError = nat

  datatype Message = Response(callId: nat, body: string) | Event(methodId: string, body: string)

  datatype Item =
    | Text(payload: Payload) | Binary(payload: Payload) | Close | Ping | Pong | Raw | Failed(error: TransportError)

  type Decoder = Payload -> Result<Message, string>

  type Output = Result<Message, TransportError>

  const MAX_IN_FLIGHT_DECODES: nat := 32
  const LARGE_FRAME_THRESHOLD: nat := 256 * 1024

  // ----- The serial loop -----

  predicate IsData(item: Item) {
    item.Text? || item.Binary?
  }

  predicate IsTerminator(item: Item) {
    item.Close? || item.Failed?
  }

  /** Byte 512 of the text continues a character, so that the preview of the text cannot be cut there. */
  predicate SplitsPreview(payload: Payload) {
    |payload| > 512 && payload[512] & 0xC0 == 0x80
  }

  /** The readers: the background reader decodes only small frames itself, the polled one every frame. */
  datatype Reader = Background | Polled

  /** A text that does not parse, read inline, whose preview for the log cuts a character in two. */
  predicate Panics(reader: Reader, item: Item, decode: Decoder) {
    && item.Text? && decode(item.payload).Err? && SplitsPreview(item.payload)
    && (reader.Background? ==> |item.payload| < LARGE_FRAME_THRESHOLD)
  }

  /** The items that the reader takes before one it panics at. */
  function Heard(reader: Reader, items: seq<Item>, decode: Decoder): seq<Item> {
    if items == [] || Panics(reader, items[0], decode) then [] else [items[0]] + Heard(reader, items[1..], decode)
  }

  /** An item at which the reader panics comes before any close, failure or end. */
  predicate MeetsPanic(reader: Reader, items: seq<Item>, decode: Decoder) {
    exists k :: 0 <= k < |items| && PanicsAt(reader, items, decode, k)
  }

  predicate PanicsAt(reader: Reader, items: seq<Item>, decode: Decoder, k: nat)
    requires k < |items|
  {
    Panics(reader, items[k], decode) && forall i :: 0 <= i < k ==> !IsTerminator(items[i])
  }

  lemma MeetsPanicFromFront(reader: Reader, items: seq<Item>, decode: Decoder)
    requires items != []
    ensures MeetsPanic(reader, items, decode) <==>
      Panics(reader, items[0], decode) || (!IsTerminator(items[0]) && MeetsPanic(reader, items[1..], decode))
  {
    hide Panics;
    if Panics(reader, items[0], decode) {
      assert PanicsAt(reader, items, decode, 0);
    }
    if MeetsPanic(reader, items, decode) && !Panics(reader, items[0], decode) {
      var k :| 0 <= k < |items| && PanicsAt(reader, items, decode, k);
      assert PanicsAt(reader, items[1..], decode, k - 1);
    }
    if !IsTerminator(items[0]) && MeetsPanic(reader, items[1..], decode) {
      var k :| 0 <= k < |items| - 1 && PanicsAt(reader, items[1..], decode, k);
      forall i | 0 <= i < k + 1 ensures !IsTerminator(items[i]) {
        assert i > 0 ==> items[i] == items[1..][i - 1];
      }
      assert PanicsAt(reader, items, decode, k + 1);
    }
  }

  /** What sending a decode result puts on the channel: a malformed frame is dropped. */
  function Emitted(decoded: Result<Message, string>): seq<Output> {
    if decoded.Ok? then [Ok(decoded.value)] else []
  }

  /** What the serial loop sends for the items that arrive before the stream ends. */
  function Serial(items: seq<Item>, decode: Decoder): seq<Output> {
    if items == [] then []
    else
      match items[0]
      case Text(p) => Emitted(decode(p)) + Serial(items[1..], decode)
      case Binary(p) => Emitted(decode(p)) + Serial(items[1..], decode)
      case Close => []
      case Failed(e) => [Err(e)]
      case _ => Serial(items[1..], decode)
  }

  /** What is sent by a reader that panics where the serial loop drops a frame. */
  function Audible(reader: Reader, items: seq<Item>, decode: Decoder): seq<Output> {
    Serial(Heard(reader, items, decode), decode)
  }

  lemma AudibleFromFront(reader: Reader, items: seq<Item>, decode: Decoder)
    requires items != [] && !Panics(reader, items[0], decode)
    ensures Audible(reader, items, decode) ==
      if IsData(items[0]) then Emitted(decode(items[0].payload)) + Audible(reader, items[1..], decode)
      else if items[0].Close? then []
      else if items[0].Failed? then [Err(items[0].error)]
      else Audible(reader, items[1..], decode)
  {
    var heard := Heard(reader, items[1..], decode);
    assert ([items[0]] + heard)[1..] == heard;
  }

  /** A panic costs what comes after it; without one the serial loop is followed to the end. */
  lemma {:induction false} AudibleIsSerial(reader: Reader, items: seq<Item>, decode: Decoder)
    ensures Audible(reader, items, decode) <= Serial(items, decode)
    ensures !MeetsPanic(reader, items, decode) ==> Audible(reader, items, decode) == Serial(items, decode)
  {
    if items != [] {
      MeetsPanicFromFront(reader, items, decode);
      if !Panics(reader, items[0], decode) {
        AudibleFromFront(reader, items, decode);
        AudibleIsSerial(reader, items[1..], decode);
      }
      hide MeetsPanic, Panics, Heard;
    }
  }

  /** The shortest preview that splits a character: 511 letters and a character of two bytes. */
  const SPLIT_TEXT: Payload := seq(511, _ => 0x78) + [0xC3, 0xA9]

  /** A malformed frame before a good one: the serial loop drops it, and both readers panic before the good one. */
  lemma MalformedFrameIsNotDropped(good: Payload, message: Message, decode: Decoder, reader: Reader)
    requires decode(SPLIT_TEXT).Err? && decode(good) == Ok(message)
    ensures var items := [Text(SPLIT_TEXT), Text(good)];
      && Serial(items, decode) == [Ok(message)] && Audible(reader, items, decode) == []
      && MeetsPanic(reader, items, decode)
  {
    var items := [Text(SPLIT_TEXT), Text(good)];
    assert SPLIT_TEXT[512] == 0xA9 && (0xA9 as bv8) & 0xC0 == 0x80;
    assert Panics(reader, items[0], decode);
    assert PanicsAt(reader, items, decode, 0);
    assert items[1..] == [Text(good)] && items[1..][1..] == [];
    assert Serial(items[1..], decode) == [Ok(message)];
  }

  /** The successful decodes among the items, in order. */
  function Successes(items: seq<Item>, decode: Decoder): seq<Output> {
    if items == [] then []
    else
      var before, last := Successes(items[..|items| - 1], decode), items[|items| - 1];
      if IsData(last) then before + Emitted(decode(last.payload)) else before
  }

  lemma {:induction false} SuccessesFromFront(items: seq<Item>, decode: Decoder)
    requires items != []
    ensures Successes(items, decode) ==
      (if IsData(items[0]) then Emitted(decode(items[0].payload)) else []) + Successes(items[1..], decode)
  {
    if |items| > 1 {
      var front := items[..|items| - 1];
      SuccessesFromFront(front, decode);
      assert front[1..] == items[1..][..|items| - 2];
      hide Emitted;
    }
  }

  /**
   The serial loop sends the successful decodes before the first close, failure or end, and then the transport error
   if and only if a failure came first.
   */
  lemma {:induction false} SerialUpToTerminator(items: seq<Item>, decode: Decoder, k: nat)
    requires k <= |items| && (forall i :: 0 <= i < k ==> !IsTerminator(items[i]))
    requires k < |items| ==> IsTerminator(items[k])
    ensures Serial(items, decode) ==
      Successes(items[..k], decode) + if k < |items| && items[k].Failed? then [Err(items[k].error)] else []
    decreases k
  {
    if k > 0 {
      SerialUpToTerminator(items[1..], decode, k - 1);
      SuccessesFromFront(items[..k], decode);
      assert items[..k][1..] == items[1..][..k - 1];
      hide Emitted;
    }
  }

  // ----- The pipelined loop -----

  /** A frame in the pipeline: decoded inline, or decoding on the blocking pool under the number it arrived with. */
  datatype InFlightDecode = Inline(decoded: Result<Message, string>) | Blocking(task: nat, payload: Payload)

  /**
   What the environment does at one turn of the loop: which offloaded decodes have completed, whether the stream has
   something (its end included) to read, and whether the handler still holds the receiving end.
   */
  datatype Turn = Turn(completed: nat -> bool, arrived: bool, open: bool)

  datatype Exit = Waiting | HandlerGone | Finished | Panicked

  function Decoded(entry: InFlightDecode, decode: Decoder): Result<Message, string> {
    if entry.Inline? then entry.decoded else decode(entry.payload)
  }

  /** What the pipeline will send when it drains. */
  function Drained(entries: seq<InFlightDecode>, decode: Decoder): seq<Output> {
    if entries == [] then [] else Emitted(Decoded(entries[0], decode)) + Drained(entries[1..], decode)
  }

  lemma {:induction false} DrainedSnoc(entries: seq<InFlightDecode>, entry: InFlightDecode, decode: Decoder)
    ensures Drained(entries + [entry], decode) == Drained(entries, decode) + Emitted(Decoded(entry, decode))
  {
    hide Emitted;
    if entries == [] {
      assert [entry][1..] == [];
    } else {
      assert (entries + [entry])[1..] == entries[1..] + [entry];
      DrainedSnoc(entries[1..], entry, decode);
    }
  }

  /** What the stream still has to say: nothing after a close, the deferred error after a failure. */
  function Rest(stream: seq<Item>, pos: nat, terminated: bool, pendingErr: Option<TransportError>, decode: Decoder)
    : seq<Output>
    requires pos <= |stream|
  {
    if !terminated then Audible(Background, stream[pos..], decode)
    else if pendingErr.Some? then [Err(pendingErr.value)]
    else []
  }

  /** Sent, in flight and still to come together are what the serial loop sends, up to a panic. */
  ghost predicate Refines(
    stream: seq<Item>, decode: Decoder, sent: seq<Output>, inFlight: seq<InFlightDecode>,
    pos: nat, terminated: bool, pendingErr: Option<TransportError>)
  {
    && pos <= |stream| && (pendingErr.Some? ==> terminated)
    && Audible(Background, stream, decode)
         == sent + (Drained(inFlight, decode) + Rest(stream, pos, terminated, pendingErr, decode))
  }

  lemma EmitRefines(
    stream: seq<Item>, decode: Decoder, sent: seq<Output>, inFlight: seq<InFlightDecode>,
    pos: nat, terminated: bool, pendingErr: Option<TransportError>)
    requires Refines(stream, decode, sent, inFlight, pos, terminated, pendingErr) && inFlight != []
    ensures var emitted := Emitted(Decoded(inFlight[0], decode));
      Refines(stream, decode, sent + emitted, inFlight[1..], pos, terminated, pendingErr)
  {
    var emitted := Emitted(Decoded(inFlight[0], decode));
    hide Emitted, Decoded, Rest, Audible;
    Regroup(sent, emitted, Drained(inFlight[1..], decode), Rest(stream, pos, terminated, pendingErr, decode));
  }

  lemma Regroup(sent: seq<Output>, emitted: seq<Output>, drained: seq<Output>, rest: seq<Output>)
    ensures (sent + emitted) + (drained + rest) == sent + ((emitted + drained) + rest)
  {
    assert (emitted + drained) + rest == emitted + (drained + rest);
  }

  lemma EnqueueRefines(
    stream: seq<Item>, decode: Decoder, sent: seq<Output>, inFlight: seq<InFlightDecode>,
    pos: nat, entry: InFlightDecode)
    requires Refines(stream, decode, sent, inFlight, pos, false, None)
    requires pos < |stream| && IsData(stream[pos]) && !Panics(Background, stream[pos], decode)
    requires Decoded(entry, decode) == decode(stream[pos].payload)
    ensures Refines(stream, decode, sent, inFlight + [entry], pos + 1, false, None)
  {
    DrainedSnoc(inFlight, entry, decode);
    assert stream[pos..][1..] == stream[pos + 1..];
    AudibleFromFront(Background, stream[pos..], decode);
    var emitted := Emitted(decode(stream[pos].payload));
    hide Emitted, Decoded, Drained, Audible, Panics;
    var drained, rest := Drained(inFlight, decode), Audible(Background, stream[pos + 1..], decode);
    assert (drained + emitted) + rest == drained + (emitted + rest);
  }

  /** A frame that carries no data is skipped, or ends the reading and leaves its error pending. */
  lemma SkipRefines(
    stream: seq<Item>, decode: Decoder, sent: seq<Output>, inFlight: seq<InFlightDecode>, pos: nat)
    requires Refines(stream, decode, sent, inFlight, pos, false, None)
    requires pos < |stream| && !IsData(stream[pos])
    ensures var item := stream[pos];
      var pendingErr := if item.Failed? then Some(item.error) else None;
      Refines(stream, decode, sent, inFlight, pos + 1, IsTerminator(item), pendingErr)
  {
    assert stream[pos..][1..] == stream[pos + 1..];
    AudibleFromFront(Background, stream[pos..], decode);
    hide Drained, Audible;
  }

  lemma RefinesAtStart(stream: seq<Item>, decode: Decoder)
    ensures Refines(stream, decode, [], [], 0, false, None)
  {
    assert stream[0..] == stream;
  }

  lemma RefinesAtEnd(stream: seq<Item>, decode: Decoder, sent: seq<Output>, inFlight: seq<InFlightDecode>)
    requires Refines(stream, decode, sent, inFlight, |stream|, false, None)
    ensures Refines(stream, decode, sent, inFlight, |stream|, true, None)
  {
    assert stream[|stream|..] == [];
  }

  lemma SentIsPrefix(
    stream: seq<Item>, decode: Decoder, sent: seq<Output>, inFlight: seq<InFlightDecode>,
    pos: nat, terminated: bool, pendingErr: Option<TransportError>)
    requires Refines(stream, decode, sent, inFlight, pos, terminated, pendingErr)
    ensures sent <= Audible(Background, stream, decode)
    ensures inFlight == [] && terminated ==>
      Audible(Background, stream, decode) == sent + if pendingErr.Some? then [Err(pendingErr.value)] else []
  {
    hide Audible;
    var rest := Rest(stream, pos, terminated, pendingErr, decode);
    assert [] + rest == rest;
  }

  /** What is left to read still holds the panic, if there is one, until the reading ends. */
  predicate PanicIsAhead(stream: seq<Item>, decode: Decoder, pos: nat, terminated: bool)
    requires pos <= |stream|
  {
    MeetsPanic(Background, stream, decode) <==> !terminated && MeetsPanic(Background, stream[pos..], decode)
  }

  lemma PanicStaysAhead(stream: seq<Item>, decode: Decoder, pos: nat)
    requires pos < |stream| && PanicIsAhead(stream, decode, pos, false) && !Panics(Background, stream[pos], decode)
    ensures PanicIsAhead(stream, decode, pos + 1, IsTerminator(stream[pos]))
  {
    assert stream[pos..][1..] == stream[pos + 1..];
    MeetsPanicFromFront(Background, stream[pos..], decode);
  }

  lemma NothingIsAhead(stream: seq<Item>, decode: Decoder)
    requires PanicIsAhead(stream, decode, |stream|, false)
    ensures PanicIsAhead(stream, decode, |stream|, true)
  {
    assert stream[|stream|..] == [];
  }

  /** At a panic, what has been sent lacks just what is in flight of what could be sent. */
  lemma PanicLosesInFlight(
    stream: seq<Item>, decode: Decoder, sent: seq<Output>, inFlight: seq<InFlightDecode>, pos: nat)
    requires Refines(stream, decode, sent, inFlight, pos, false, None) && PanicIsAhead(stream, decode, pos, false)
    requires pos < |stream| && Panics(Background, stream[pos], decode)
    ensures MeetsPanic(Background, stream, decode)
    ensures Audible(Background, stream, decode) == sent + Drained(inFlight, decode)
  {
    MeetsPanicFromFront(Background, stream[pos..], decode);
    assert Rest(stream, pos, false, None, decode) == [];
    hide Audible, Drained, Rest;
    assert Drained(inFlight, decode) + [] == Drained(inFlight, decode);
  }

  /** The turns at which nothing holds the loop up. */
  ghost predicate Unhindered(t: Turn) {
    t.arrived && t.open && forall task :: t.completed(task)
  }

  ghost function UnhinderedTurns(turns: seq<Turn>): nat {
    if turns == [] then 0
    else UnhinderedTurns(turns[..|turns| - 1]) + if Unhindered(turns[|turns| - 1]) then 1 else 0
  }

  lemma UnhinderedSnoc(turns: seq<Turn>, i: nat)
    requires i < |turns|
    ensures UnhinderedTurns(turns[..i + 1]) == UnhinderedTurns(turns[..i]) + if Unhindered(turns[i]) then 1 else 0
  {
    assert turns[..i + 1][..i] == turns[..i];
  }

  /** Decodes a small frame at once and hands a large one to the blocking pool. */
  method StartDecode(payload: Payload, decode: Decoder, task: nat) returns (entry: InFlightDecode)
    ensures Decoded(entry, decode) == decode(payload)
    ensures entry.Blocking? <==> |payload| >= LARGE_FRAME_THRESHOLD
    ensures entry.Blocking? ==> entry.task == task
  {
    if |payload| >= LARGE_FRAME_THRESHOLD {
      entry := Blocking(task, payload);
    } else {
      entry := Inline(decode(payload));
    }
  }

  /**
   For every completion order and every schedule: at most 32 decodes are in flight, what has been sent is a prefix of
   what the serial loop sends, and a loop that is still running has been held up at all but `2 * (|stream| + 1)` turns.
   A loop that ends by itself finishes if the stream meets no panic, and with the channel open has then sent exactly
   what the serial loop sends. Otherwise it panics, and loses, of what comes before the panic, just the large frames
   still in flight.
   */
  method WsReadLoop(stream: seq<Item>, decode: Decoder, turns: seq<Turn>)
    returns (sent: seq<Output>, inFlight: seq<InFlightDecode>, exit: Exit)
    ensures |inFlight| <= MAX_IN_FLIGHT_DECODES
    ensures sent <= Audible(Background, stream, decode) <= Serial(stream, decode)
    ensures exit.Finished? ==> inFlight == [] && !MeetsPanic(Background, stream, decode)
    ensures exit.Finished? && sent != Serial(stream, decode) ==>
      (exists t :: t in turns && !t.open) && exists e :: Serial(stream, decode) == sent + [Err(e)]
    ensures exit.Panicked? ==>
      && MeetsPanic(Background, stream, decode)
      && Audible(Background, stream, decode) == sent + Drained(inFlight, decode)
      && (inFlight != [] ==> inFlight[0].Blocking?)
    ensures exit.HandlerGone? ==> exists t :: t in turns && !t.open
    ensures exit.Waiting? ==> UnhinderedTurns(turns) <= 2 * (|stream| + 1)
  {
    var pos: nat, terminated, pendingErr := 0, false, None;
    sent, inFlight := [], [];
    RefinesAtStart(stream, decode);
    assert stream[0..] == stream;
    AudibleIsSerial(Background, stream, decode);
    hide Audible, MeetsPanic, Serial, SplitsPreview, Drained, Refines;
    for i := 0 to |turns|
      invariant pos <= |stream| && |inFlight| <= MAX_IN_FLIGHT_DECODES && (pendingErr.Some? ==> terminated)
      invariant Refines(stream, decode, sent, inFlight, pos, terminated, pendingErr)
      invariant PanicIsAhead(stream, decode, pos, terminated)
      invariant UnhinderedTurns(turns[..i]) + |inFlight| + (if terminated then 0 else 2 * (|stream| - pos + 1))
        <= 2 * (|stream| + 1)
    {
      var turn := turns[i];
      SentIsPrefix(stream, decode, sent, inFlight, pos, terminated, pendingErr);
      UnhinderedSnoc(turns, i);
      if inFlight != [] && (inFlight[0].Inline? || turn.completed(inFlight[0].task)) {
        var decoded := Decoded(inFlight[0], decode);
        if decoded.Ok? && !turn.open {
          return sent, inFlight, HandlerGone;
        }
        EmitRefines(stream, decode, sent, inFlight, pos, terminated, pendingErr);
        sent, inFlight := sent + Emitted(decoded), inFlight[1..];
      } else if !terminated && |inFlight| < MAX_IN_FLIGHT_DECODES {
        if turn.arrived {
          if pos == |stream| {
            NothingIsAhead(stream, decode);
            RefinesAtEnd(stream, decode, sent, inFlight);
            terminated := true;
          } else {
            match stream[pos] {
              case Text(payload) =>
                if |payload| < LARGE_FRAME_THRESHOLD && decode(payload).Err? && SplitsPreview(payload) {
                  PanicLosesInFlight(stream, decode, sent, inFlight, pos);
                  return sent, inFlight, Panicked;
                }
                var entry := StartDecode(payload, decode, pos);
                EnqueueRefines(stream, decode, sent, inFlight, pos, entry);
                inFlight := inFlight + [entry];
              case Binary(payload) =>
                var entry := StartDecode(payload, decode, pos);
                EnqueueRefines(stream, decode, sent, inFlight, pos, entry);
                inFlight := inFlight + [entry];
              case Close =>
                SkipRefines(stream, decode, sent, inFlight, pos);
                terminated := true;
              case Failed(error) =>
                SkipRefines(stream, decode, sent, inFlight, pos);
                terminated, pendingErr := true, Some(error);
              case _ =>
                SkipRefines(stream, decode, sent, inFlight, pos);
            }
            PanicStaysAhead(stream, decode, pos);
            pos := pos + 1;
          }
        }
      } else if inFlight == [] {
        if pendingErr.Some? && turn.open {
          sent := sent + [Err(pendingErr.value)];
        }
        return sent, inFlight, Finished;
      }
    }
    exit := Waiting;
    SentIsPrefix(stream, decode, sent, inFlight, pos, terminated, pendingErr);
    assert turns[..|turns|] == turns;
  }
}
