/** The polled connection: its write queue and its skipping reader, changed in place as in the source. */
module Connections {
  import opened BudgetedPoll
  import opened WebSocketReader
  import opened Wrappers
  import opened WritePath

  const MAX_SKIPS_PER_POLL: nat := 16

  datatype ConnectionError = Write(error: WriteError) | Transport(code: TransportError)

  /** How a poll leaves: with a result, having woken its own task if `woken`, or by a panic. */
  datatype PollOutcome =
    | Returned(polled: Poll<Option<Result<Message, ConnectionError>>>, woken: bool)
    | Unwound

  /** What an item that is not skipped makes of a read: an output, the end of the stream, or a panic. */
  datatype Read = Got(output: Output) | StreamEnd | Panic

  /** What the reader makes of one item: `None` to skip it. */
  function Verdict(item: Item, decode: Decoder): Option<Read> {
    if Panics(Polled, item, decode) then Some(Panic)
    else
      match item
      case Text(p) => if decode(p).Ok? then Some(Got(Ok(decode(p).value))) else None
      case Binary(p) => if decode(p).Ok? then Some(Got(Ok(decode(p).value))) else None
      case Close => Some(StreamEnd)
      case Failed(e) => Some(Got(Err(e)))
      case _ => None
  }

  function Verdicts(items: seq<Item>, decode: Decoder): (vs: seq<Option<Read>>)
    ensures |vs| == |items|
    ensures forall i :: 0 <= i < |items| ==> vs[i] == Verdict(items[i], decode)
  {
    if items == [] then [] else [Verdict(items[0], decode)] + Verdicts(items[1..], decode)
  }

  /** How the poll leaves that has read `read` and consumed `n` items. */
  function OutcomeOf(read: Option<Read>, n: nat, ended: bool): PollOutcome {
    match read
    case None =>
      if n == MAX_SKIPS_PER_POLL then Returned(Pending, true)
      else Returned(if ended then Ready(None) else Pending, false)
    case Some(Got(Ok(message))) => Returned(Ready(Some(Ok(message))), false)
    case Some(Got(Err(error))) => Returned(Ready(Some(Err(Transport(error)))), false)
    case Some(StreamEnd) => Returned(Ready(None), false)
    case Some(Panic) => Unwound
  }

  /** An item that brings nothing: no end, no error, no message, and no panic. */
  predicate IsSkipped(item: Item, decode: Decoder) {
    !IsTerminator(item) && !Panics(Polled, item, decode) && (IsData(item) ==> decode(item.payload).Err?)
  }

  /** Item `n` is the first that is not skipped, and comes within the budget of a poll. */
  predicate IsNext(items: seq<Item>, decode: Decoder, n: nat) {
    && n < |items| && n < MAX_SKIPS_PER_POLL && !IsSkipped(items[n], decode)
    && forall i :: 0 <= i < n ==> IsSkipped(items[i], decode)
  }

  predicate AllSkipped(items: seq<Item>, decode: Decoder, n: nat)
    requires n <= |items|
  {
    forall i :: 0 <= i < n ==> IsSkipped(items[i], decode)
  }

  ghost predicate MeetsMessage(items: seq<Item>, decode: Decoder, message: Message) {
    exists n: nat :: IsNext(items, decode, n) && IsData(items[n]) && decode(items[n].payload) == Ok(message)
  }

  ghost predicate MeetsFailure(items: seq<Item>, decode: Decoder, error: TransportError) {
    exists n: nat :: IsNext(items, decode, n) && items[n] == Failed(error)
  }

  ghost predicate MeetsClose(items: seq<Item>, decode: Decoder) {
    exists n: nat :: IsNext(items, decode, n) && items[n].Close?
  }

  ghost predicate UnwindsAt(items: seq<Item>, decode: Decoder) {
    exists n: nat :: IsNext(items, decode, n) && Panics(Polled, items[n], decode)
  }

  predicate RunsOut(items: seq<Item>, decode: Decoder) {
    |items| < MAX_SKIPS_PER_POLL && AllSkipped(items, decode, |items|)
  }

  predicate GivesWay(items: seq<Item>, decode: Decoder) {
    MAX_SKIPS_PER_POLL <= |items| && AllSkipped(items, decode, MAX_SKIPS_PER_POLL)
  }

  /** What a poll that comes to reading returns, by the items that are there, and what it leaves of them. */
  ghost predicate ReadsFirst(items: seq<Item>, decode: Decoder, ended: bool, outcome: PollOutcome, left: seq<Item>) {
    && (forall m :: outcome == Returned(Ready(Some(Ok(m))), false) <==> MeetsMessage(items, decode, m))
    && (forall e :: outcome == Returned(Ready(Some(Err(Transport(e)))), false) <==> MeetsFailure(items, decode, e))
    && (outcome == Returned(Ready(None), false) <==>
          MeetsClose(items, decode) || (ended && RunsOut(items, decode)))
    && (outcome == Unwound <==> UnwindsAt(items, decode))
    && (outcome == Returned(Pending, true) <==> GivesWay(items, decode))
    && (outcome == Returned(Pending, false) <==> !ended && RunsOut(items, decode))
    && (forall n: nat :: IsNext(items, decode, n) ==> left == items[n + 1..])
    && (RunsOut(items, decode) ==> left == [])
    && (GivesWay(items, decode) ==> left == items[MAX_SKIPS_PER_POLL..])
  }

  lemma VerdictIsNoneIff(item: Item, decode: Decoder)
    ensures Verdict(item, decode).None? <==> IsSkipped(item, decode)
  {
  }

  lemma OnlyOneIsNext(items: seq<Item>, decode: Decoder, n: nat)
    requires IsNext(items, decode, n)
    ensures forall k: nat :: IsNext(items, decode, k) <==> k == n
    ensures !RunsOut(items, decode) && !GivesWay(items, decode)
  {
    hide IsSkipped;
  }

  lemma NoneIsNext(items: seq<Item>, decode: Decoder, n: nat)
    requires n <= |items| && n <= MAX_SKIPS_PER_POLL && AllSkipped(items, decode, n)
    requires n == |items| || n == MAX_SKIPS_PER_POLL
    ensures forall k: nat :: !IsNext(items, decode, k)
    ensures RunsOut(items, decode) <==> n < MAX_SKIPS_PER_POLL
    ensures GivesWay(items, decode) <==> n == MAX_SKIPS_PER_POLL
  {
    hide IsSkipped;
  }

  /** The poll of the budget and what it is returned as are what `ReadsFirst` says. */
  lemma OutcomeReadsFirst(items: seq<Item>, decode: Decoder, ended: bool)
    ensures var (read, n) := PollOnce(Verdicts(items, decode), MAX_SKIPS_PER_POLL);
      ReadsFirst(items, decode, ended, OutcomeOf(read, n, ended), items[n..])
  {
    var vs := Verdicts(items, decode);
    var n := Unwanted(vs);
    forall i | 0 <= i < |items| ensures vs[i].None? <==> IsSkipped(items[i], decode) {
      VerdictIsNoneIff(items[i], decode);
    }
    if n < |items| && n < MAX_SKIPS_PER_POLL {
      OnlyOneIsNext(items, decode, n);
      NextIsRead(items, decode, ended, n);
    } else {
      NoneIsNext(items, decode, Min(n, MAX_SKIPS_PER_POLL));
      NothingIsRead(items, decode, ended, Min(n, MAX_SKIPS_PER_POLL));
    }
  }

  lemma NextIsRead(items: seq<Item>, decode: Decoder, ended: bool, n: nat)
    requires IsNext(items, decode, n)
    ensures ReadsFirst(items, decode, ended, OutcomeOf(Verdict(items[n], decode), n + 1, ended), items[n + 1..])
  {
    OnlyOneIsNext(items, decode, n);
    hide IsNext, RunsOut, GivesWay, SplitsPreview;
  }

  lemma NothingIsRead(items: seq<Item>, decode: Decoder, ended: bool, n: nat)
    requires n <= |items| && n <= MAX_SKIPS_PER_POLL && AllSkipped(items, decode, n)
    requires n == |items| || n == MAX_SKIPS_PER_POLL
    ensures ReadsFirst(items, decode, ended, OutcomeOf(None, n, ended), items[n..])
  {
    NoneIsNext(items, decode, n);
    hide IsNext, RunsOut, GivesWay;
  }

  class Connection {
    var pendingCommands: seq<MethodCall>
    var nextId: nat
    var needsFlush: bool
    /** The socket: what its write buffer holds, what it has written, what it has received, whether it has ended. */
    var buffered: seq<MethodCall>
    var flushed: seq<MethodCall>
    var incoming: seq<Item>
    var ended: bool

    ghost function WriteSide(): Writer
      reads this
    {
      Writer(pendingCommands, nextId, needsFlush, buffered, flushed)
    }

    constructor ()
      ensures WriteSide() == FRESH && incoming == [] && !ended
    {
      pendingCommands, nextId, needsFlush, buffered, flushed, incoming, ended := [], 0, false, [], [], [], false;
    }

    method NextCallId() returns (id: nat)
      modifies this`nextId
      ensures id == old(nextId) && nextId == (old(nextId) + 1) % U64_SPAN
    {
      id := nextId;
      nextId := (nextId + 1) % U64_SPAN;
    }

    method SubmitCommand(methodId: string, sessionId: Option<string>, params: string) returns (id: nat)
      modifies this`nextId, this`pendingCommands
      ensures var call := NewCall(old(WriteSide()), methodId, sessionId, params);
        id == call.id && WriteSide() == OnSubmit(old(WriteSide()), call)
    {
      id := NextCallId();
      pendingCommands := pendingCommands + [MethodCall(id, methodId, sessionId, params)];
    }

    /** Asks the socket to write out what it holds. */
    method PollFlush(outcome: Flush)
      modifies this`buffered, this`flushed
      ensures WriteSide() == if outcome.Flushed? then FlushAll(old(WriteSide())) else old(WriteSide())
    {
      if outcome.Flushed? {
        buffered, flushed := [], flushed + buffered;
      }
    }

    /** Hands over as many queued commands as the socket takes. */
    method BufferPending(accepts: seq<Accept>) returns (sent: nat, error: Option<WriteError>)
      modifies this`pendingCommands, this`buffered
      ensures var w := old(WriteSide());
        && sent == Taken(accepts, |w.pending|)
        && error == (if sent < |w.pending| then Refusal(accepts, sent) else None)
        && var taken := HandOver(w, sent);
           WriteSide() == if error.None? then taken else taken.(pending := taken.pending[1..])
    {
      ghost var w := WriteSide();
      HandOverFrom(w, 0);
      hide HandOver, Taken;
      sent := 0;
      while pendingCommands != []
        invariant sent <= |w.pending| && sent <= |accepts|
        invariant WriteSide() == HandOver(w, sent)
        invariant Taken(accepts, |w.pending|) == sent + Taken(accepts[sent..], |w.pending| - sent)
        decreases |pendingCommands|
      {
        HandOverFrom(w, sent);
        TakenFrom(accepts, |w.pending|, sent);
        if sent == |accepts| || accepts[sent].NotReady? {
          return sent, None;
        }
        var command := pendingCommands[0];
        pendingCommands := pendingCommands[1..];
        if accepts[sent].SerializeFailed? {
          return sent, Some(SerializeError);
        }
        if accepts[sent].SendFailed? {
          return sent, Some(SendError);
        }
        buffered := buffered + [command];
        sent := sent + 1;
      }
      HandOverFrom(w, sent);
      TakenFrom(accepts, |w.pending|, sent);
      error := None;
    }

    method StartSendNext(turn: SinkTurn) returns (error: Option<WriteError>)
      modifies this`pendingCommands, this`needsFlush, this`buffered, this`flushed
      ensures (WriteSide(), error) == SendNext(old(WriteSide()), turn)
    {
      hide Taken, Refusal, HandOver;
      if needsFlush {
        PollFlush(turn.before);
        match turn.before {
          case Flushed => needsFlush := false;
          case FlushFailed => return Some(FlushError);
          case FlushPending => return None;
        }
      }
      assert WriteSide() == Cleared(old(WriteSide()));
      var sent;
      sent, error := BufferPending(turn.accepts);
      if error.Some? {
        return;
      }
      if sent > 0 {
        PollFlush(turn.after);
        match turn.after {
          case Flushed =>
          case FlushFailed => return Some(FlushError);
          case FlushPending => needsFlush := true;
        }
      }
    }

    /** Items the socket receives, and whether the stream ends behind them. */
    method Receive(items: seq<Item>, end: bool)
      modifies this`incoming, this`ended
      ensures incoming == old(incoming) + items && (ended <==> old(ended) || end)
    {
      incoming, ended := incoming + items, ended || end;
    }

    /** Sends what can be sent, then reads up to the first item that is not skipped, or skips 16 and gives way. */
    method PollNext(decode: Decoder, turn: SinkTurn) returns (outcome: PollOutcome)
      modifies this`pendingCommands, this`needsFlush, this`buffered, this`flushed, this`incoming
      ensures WriteSide() == SendNext(old(WriteSide()), turn).0
      ensures var error := SendNext(old(WriteSide()), turn).1;
        error.Some? ==>
          outcome == Returned(Ready(Some(Err(Write(error.value)))), false) && incoming == old(incoming)
      ensures SendNext(old(WriteSide()), turn).1.None? ==>
        var (read, n) := PollOnce(Verdicts(old(incoming), decode), MAX_SKIPS_PER_POLL);
        incoming == old(incoming)[n..] && outcome == OutcomeOf(read, n, ended)
      ensures SendNext(old(WriteSide()), turn).1.None? ==>
        ReadsFirst(old(incoming), decode, ended, outcome, incoming)
    {
      var error := StartSendNext(turn);
      if error.Some? {
        return Returned(Ready(Some(Err(Write(error.value)))), false);
      }
      OutcomeReadsFirst(incoming, decode, ended);
      hide PollOnce, Verdicts, OutcomeOf, ReadsFirst, SendNext;
      outcome := ReadNext(decode);
    }

    /** The reading loop of `PollNext`. */
    method ReadNext(decode: Decoder) returns (outcome: PollOutcome)
      modifies this`incoming
      ensures var (read, n) := PollOnce(Verdicts(old(incoming), decode), MAX_SKIPS_PER_POLL);
        incoming == old(incoming)[n..] && outcome == OutcomeOf(read, n, ended)
    {
      ghost var verdicts := Verdicts(incoming, decode);
      hide Verdicts, PollOnce, Unwanted, SplitsPreview;
      var skips := 0;
      while true
        invariant skips < MAX_SKIPS_PER_POLL && skips <= Unwanted(verdicts)
        invariant skips <= |old(incoming)| && incoming == old(incoming)[skips..]
        decreases |incoming|
      {
        PollFrom(verdicts, MAX_SKIPS_PER_POLL, skips);
        if incoming == [] {
          return Returned(if ended then Ready(None) else Pending, false);
        }
        var item := incoming[0];
        incoming := incoming[1..];
        match item {
          case Text(payload) =>
            if decode(payload).Ok? {
              return Returned(Ready(Some(Ok(decode(payload).value))), false);
            }
            if SplitsPreview(payload) {
              return Unwound;
            }
          case Binary(payload) =>
            if decode(payload).Ok? {
              return Returned(Ready(Some(Ok(decode(payload).value))), false);
            }
          case Close =>
            return Returned(Ready(None), false);
          case Failed(error) =>
            return Returned(Ready(Some(Err(Transport(error)))), false);
          case _ =>
        }
        skips := skips + 1;
        if skips >= MAX_SKIPS_PER_POLL {
          PollFrom(verdicts, MAX_SKIPS_PER_POLL, skips);
          return Returned(Pending, true);
        }
      }
    }

    /** Moves the queue into the bounded channel of the background writer, which has not started to drain it. */
    method IntoAsync() returns (queued: seq<MethodCall>, next: nat)
      ensures queued == Moved(WriteSide()) && next == nextId
    {
      queued := [];
      for i := 0 to |pendingCommands|
        invariant queued == pendingCommands[..Min(i, WS_CMD_CHANNEL_CAPACITY)]
      {
        if |queued| < WS_CMD_CHANNEL_CAPACITY {
          queued := queued + [pendingCommands[i]];
        }
      }
      next := nextId;
    }
  }

  lemma {:induction false} VerdictsConcat(a: seq<Item>, b: seq<Item>, decode: Decoder)
    ensures Verdicts(a + b, decode) == Verdicts(a, decode) + Verdicts(b, decode)
  {
  }

  // ----- The polled reader against the background reader -----

  /** What a reader takes from successive polls: everything up to the end of the stream, an error or a panic. */
  function UpToEnd(got: seq<Read>): seq<Output> {
    if got == [] || !got[0].Got? then []
    else if got[0].output.Err? then [got[0].output]
    else [got[0].output] + UpToEnd(got[1..])
  }

  datatype Fate = Open | AtEnd | AtPanic

  /** How the reading stands after these reads: whether it has met the end or an error, or a panic, and which first. */
  function FateOf(got: seq<Read>): Fate {
    if got == [] then Open
    else if got[0].Panic? then AtPanic
    else if got[0].StreamEnd? || got[0].output.Err? then AtEnd
    else FateOf(got[1..])
  }

  lemma UpToEndCons(r: Read, later: seq<Read>)
    ensures UpToEnd([r] + later) ==
      if !r.Got? then [] else if r.output.Err? then [r.output] else [r.output] + UpToEnd(later)
    ensures FateOf([r] + later) ==
      if r.Panic? then AtPanic else if r.StreamEnd? || r.output.Err? then AtEnd else FateOf(later)
  {
    assert ([r] + later)[1..] == later;
  }

  lemma WantedFromFront(items: seq<Item>, decode: Decoder)
    requires items != []
    ensures var v, later := Verdict(items[0], decode), Wanted(Verdicts(items[1..], decode));
      Wanted(Verdicts(items, decode)) == if v.Some? then [v.value] + later else later
  {
    hide Wanted, Verdict;
    WantedCons(Verdict(items[0], decode), Verdicts(items[1..], decode));
    var later := Wanted(Verdicts(items[1..], decode));
    assert [] + later == later;
  }

  lemma AudibleByVerdict(items: seq<Item>, decode: Decoder)
    requires items != [] && !Panics(Polled, items[0], decode)
    ensures var v, later := Verdict(items[0], decode), Audible(Polled, items[1..], decode);
      && v != Some(Panic)
      && (IsTerminator(items[0]) <==> v.Some? && (v.value.StreamEnd? || v.value.output.Err?))
      && Audible(Polled, items, decode) ==
           if v.None? then later
           else if v.value.StreamEnd? then []
           else if v.value.output.Err? then [v.value.output]
           else [v.value.output] + later
  {
    AudibleFromFront(Polled, items, decode);
    hide Audible, Panics;
    assert [] + Audible(Polled, items[1..], decode) == Audible(Polled, items[1..], decode);
  }

  lemma WantedGoesOn(items: seq<Item>, decode: Decoder)
    requires items != [] && !Panics(Polled, items[0], decode)
    requires UpToEnd(Wanted(Verdicts(items[1..], decode))) == Audible(Polled, items[1..], decode)
    requires FateOf(Wanted(Verdicts(items[1..], decode))).AtPanic? <==> MeetsPanic(Polled, items[1..], decode)
    ensures UpToEnd(Wanted(Verdicts(items, decode))) == Audible(Polled, items, decode)
    ensures FateOf(Wanted(Verdicts(items, decode))).AtPanic? <==> MeetsPanic(Polled, items, decode)
  {
    WantedFromFront(items, decode);
    MeetsPanicFromFront(Polled, items, decode);
    AudibleByVerdict(items, decode);
    var v := Verdict(items[0], decode);
    hide *;
    if v.Some? {
      UpToEndCons(v.value, Wanted(Verdicts(items[1..], decode)));
    }
  }

  /** The wanted items, read to the end, are what the serial loop sends, up to a panic. */
  lemma {:induction false} WantedIsAudible(items: seq<Item>, decode: Decoder)
    ensures UpToEnd(Wanted(Verdicts(items, decode))) == Audible(Polled, items, decode)
    ensures FateOf(Wanted(Verdicts(items, decode))).AtPanic? <==> MeetsPanic(Polled, items, decode)
  {
    if items == [] {
    } else if Panics(Polled, items[0], decode) {
      WantedFromFront(items, decode);
      MeetsPanicFromFront(Polled, items, decode);
    } else {
      WantedIsAudible(items[1..], decode);
      WantedGoesOn(items, decode);
    }
  }

  lemma {:induction false} UpToEndOfPrefix(a: seq<Read>, b: seq<Read>)
    ensures UpToEnd(a) <= UpToEnd(a + b)
    ensures !FateOf(a).Open? ==> UpToEnd(a) == UpToEnd(a + b) && FateOf(a) == FateOf(a + b)
  {
    if a != [] && a[0].Got? && a[0].output.Ok? {
      assert (a + b)[1..] == a[1..] + b;
      UpToEndOfPrefix(a[1..], b);
    }
  }

  function VerdictBatches(arrivals: seq<seq<Item>>, decode: Decoder): (r: seq<seq<Option<Read>>>)
    ensures |r| == |arrivals|
  {
    if arrivals == [] then [] else [Verdicts(arrivals[0], decode)] + VerdictBatches(arrivals[1..], decode)
  }

  /** What happens to a connection: a command is submitted, or items arrive, the stream may end, and it is polled. */
  datatype ConnectionOp =
    | Submitting(methodId: string, sessionId: Option<string>, params: string)
    | Polling(arrivals: seq<Item>, ended: bool, turn: SinkTurn)

  /** What the polls of a run read, in order, and the items left; a poll whose write part fails reads nothing. */
  function Reads(w: Writer, queue: seq<Item>, ops: seq<ConnectionOp>, decode: Decoder)
    : (seq<Read>, seq<Item>)
    decreases |ops|
  {
    if ops == [] then ([], queue)
    else
      match ops[0]
      case Submitting(methodId, sessionId, params) =>
        Reads(OnSubmit(w, NewCall(w, methodId, sessionId, params)), queue, ops[1..], decode)
      case Polling(arrivals, _, turn) =>
        var (after, error) := SendNext(w, turn);
        var items := queue + arrivals;
        if error.Some? then Reads(after, items, ops[1..], decode)
        else
          var (read, n) := PollOnce(Verdicts(items, decode), MAX_SKIPS_PER_POLL);
          var (got, rest) := Reads(after, items[n..], ops[1..], decode);
          (Yielded(read) + got, rest)
  }

  /** Everything that arrives in a run. */
  function Arrived(ops: seq<ConnectionOp>): seq<Item> {
    if ops == [] then []
    else (if ops[0].Polling? then ops[0].arrivals else []) + Arrived(ops[1..])
  }

  lemma VerdictsFrom(items: seq<Item>, n: nat, decode: Decoder)
    requires n <= |items|
    ensures Verdicts(items[n..], decode) == Verdicts(items, decode)[n..]
  {
    hide Verdicts;
  }

  lemma OneReadConserves(items: seq<Item>, later: seq<Item>, decode: Decoder)
    ensures var (read, n) := PollOnce(Verdicts(items, decode), MAX_SKIPS_PER_POLL);
      Wanted(Verdicts(items + later, decode)) == Yielded(read) + Wanted(Verdicts(items[n..] + later, decode))
  {
    var vs := Verdicts(items, decode);
    var n := PollOnce(vs, MAX_SKIPS_PER_POLL).1;
    hide *;
    VerdictsFrom(items, n, decode);
    VerdictsConcat(items, later, decode);
    VerdictsConcat(items[n..], later, decode);
    PollConservesBefore(vs, Verdicts(later, decode), MAX_SKIPS_PER_POLL);
  }

  lemma {:induction false} ReadsConserve(w: Writer, queue: seq<Item>, ops: seq<ConnectionOp>, decode: Decoder)
    ensures var (got, rest) := Reads(w, queue, ops, decode);
      got + Wanted(Verdicts(rest, decode)) == Wanted(Verdicts(queue + Arrived(ops), decode))
    decreases |ops|
  {
    hide SendNext, PollOnce, Wanted, Verdicts, Yielded, OnSubmit;
    if ops == [] {
      assert queue + Arrived(ops) == queue;
      assert [] + Wanted(Verdicts(queue, decode)) == Wanted(Verdicts(queue, decode));
    } else if ops[0].Submitting? {
      assert Arrived(ops) == Arrived(ops[1..]);
      ReadsConserve(OnSubmit(w, NewCall(w, ops[0].methodId, ops[0].sessionId, ops[0].params)), queue, ops[1..], decode);
    } else {
      var items, later := queue + ops[0].arrivals, Arrived(ops[1..]);
      var (after, error) := SendNext(w, ops[0].turn);
      assert queue + Arrived(ops) == items + later;
      if error.Some? {
        ReadsConserve(after, items, ops[1..], decode);
      } else {
        var (read, n) := PollOnce(Verdicts(items, decode), MAX_SKIPS_PER_POLL);
        ReadsConserve(after, items[n..], ops[1..], decode);
        OneReadConserves(items, later, decode);
        var (got, rest) := Reads(after, items[n..], ops[1..], decode);
        hide Reads, Arrived;
        assert (Yielded(read) + got) + Wanted(Verdicts(rest, decode))
          == Yielded(read) + (got + Wanted(Verdicts(rest, decode)));
      }
    }
  }

  /**
   However items arrive, commands are submitted and writes fail between and during polls, the polled reader reads
   a prefix of what the serial loop, and so the background reader, sends for what has arrived. It panics only if that
   meets a panic, and then reads what comes before it. If it comes to the end of the stream or to an error, or has
   nothing but skipped items left, then nothing meets a panic and it has read all that the serial loop sends.
   */
  lemma PolledReaderAgrees(ops: seq<ConnectionOp>, decode: Decoder)
    ensures var (got, rest) := Reads(FRESH, [], ops, decode);
      var items := Arrived(ops);
      && UpToEnd(got) <= Audible(Polled, items, decode) <= Serial(items, decode)
      && (FateOf(got).AtPanic? ==>
            MeetsPanic(Polled, items, decode) && UpToEnd(got) == Audible(Polled, items, decode))
      && (FateOf(got).AtEnd? || (FateOf(got).Open? && Wanted(Verdicts(rest, decode)) == []) ==>
            !MeetsPanic(Polled, items, decode) && UpToEnd(got) == Serial(items, decode))
  {
    var (got, rest) := Reads(FRESH, [], ops, decode);
    ReadsConserve(FRESH, [], ops, decode);
    assert [] + Arrived(ops) == Arrived(ops);
    WantedIsAudible(Arrived(ops), decode);
    AudibleIsSerial(Polled, Arrived(ops), decode);
    UpToEndOfPrefix(got, Wanted(Verdicts(rest, decode)));
    hide *;
    if Wanted(Verdicts(rest, decode)) == [] {
      assert got + [] == got;
    }
  }

  // ----- What the polls return -----

  /** What successive polls return. */
  function Outcomes(w: Writer, queue: seq<Item>, ops: seq<ConnectionOp>, decode: Decoder): seq<PollOutcome>
    decreases |ops|
  {
    if ops == [] then []
    else
      match ops[0]
      case Submitting(methodId, sessionId, params) =>
        Outcomes(OnSubmit(w, NewCall(w, methodId, sessionId, params)), queue, ops[1..], decode)
      case Polling(arrivals, ended, turn) =>
        var (after, error) := SendNext(w, turn);
        var items := queue + arrivals;
        if error.Some? then
          [Returned(Ready(Some(Err(Write(error.value)))), false)] + Outcomes(after, items, ops[1..], decode)
        else
          var (read, n) := PollOnce(Verdicts(items, decode), MAX_SKIPS_PER_POLL);
          [OutcomeOf(read, n, ended)] + Outcomes(after, items[n..], ops[1..], decode)
  }

  /** What a caller learns from what a poll returns: nothing from a pending poll or an error in writing. */
  function Reported(outcome: PollOutcome): Option<Read> {
    if outcome.Unwound? then Some(Panic)
    else if outcome.polled.Pending? then None
    else if outcome.polled.value.None? then Some(StreamEnd)
    else if outcome.polled.value.value.Ok? then Some(Got(Ok(outcome.polled.value.value.value)))
    else if outcome.polled.value.value.error.Transport? then Some(Got(Err(outcome.polled.value.value.error.code)))
    else None
  }

  function Reports(outcomes: seq<PollOutcome>): seq<Read> {
    if outcomes == [] then [] else Yielded(Reported(outcomes[0])) + Reports(outcomes[1..])
  }

  /** A stream that has ended brings nothing more. */
  predicate NothingAfterEnd(ops: seq<ConnectionOp>) {
    forall i, j :: 0 <= i < j < |ops| && ops[i].Polling? && ops[j].Polling? && ops[i].ended ==> ops[j].arrivals == []
  }

  lemma {:induction false} NothingMore(w: Writer, ops: seq<ConnectionOp>, decode: Decoder)
    requires forall i :: 0 <= i < |ops| && ops[i].Polling? ==> ops[i].arrivals == []
    ensures Reads(w, [], ops, decode) == ([], [])
    decreases |ops|
  {
    if ops != [] {
      hide SendNext, OnSubmit;
      if ops[0].Submitting? {
        NothingMore(OnSubmit(w, NewCall(w, ops[0].methodId, ops[0].sessionId, ops[0].params)), ops[1..], decode);
      } else {
        NothingMore(SendNext(w, ops[0].turn).0, ops[1..], decode);
      }
    }
  }

  lemma ReportsCons(outcome: PollOutcome, later: seq<PollOutcome>)
    ensures Reports([outcome] + later) == Yielded(Reported(outcome)) + Reports(later)
  {
    assert ([outcome] + later)[1..] == later;
  }

  /** What the polls return is what they read; without a read, an end is returned only when there is nothing left. */
  ghost predicate Follows(reports: seq<Read>, got: seq<Read>, rest: seq<Item>) {
    && UpToEnd(reports) == UpToEnd(got)
    && (FateOf(reports).AtPanic? <==> FateOf(got).AtPanic?)
    && (FateOf(reports).AtEnd? ==> FateOf(got).AtEnd? || (FateOf(got).Open? && rest == []))
    && (FateOf(got).AtEnd? ==> FateOf(reports).AtEnd?)
  }

  lemma FollowsRead(read: Read, later: seq<Read>, got: seq<Read>, rest: seq<Item>)
    requires Follows(later, got, rest)
    ensures Follows([read] + later, [read] + got, rest)
  {
    UpToEndCons(read, later);
    UpToEndCons(read, got);
    hide UpToEnd, FateOf;
  }

  lemma AllConsumed(items: seq<Item>, decode: Decoder)
    ensures var (read, n) := PollOnce(Verdicts(items, decode), MAX_SKIPS_PER_POLL);
      read.None? && n < MAX_SKIPS_PER_POLL ==> n == |items|
  {
    hide Verdicts, Unwanted;
  }

  lemma ReportedRead(read: Option<Read>, n: nat, ended: bool)
    requires n <= MAX_SKIPS_PER_POLL
    ensures Reported(OutcomeOf(read, n, ended)) ==
      if read.None? && ended && n < MAX_SKIPS_PER_POLL then Some(StreamEnd) else read
  {
  }

  lemma {:induction false} OutcomesFollowReads(w: Writer, queue: seq<Item>, ops: seq<ConnectionOp>, decode: Decoder)
    requires NothingAfterEnd(ops)
    ensures var (got, rest) := Reads(w, queue, ops, decode);
      Follows(Reports(Outcomes(w, queue, ops, decode)), got, rest)
    decreases |ops|
  {
    if ops != [] {
      assert NothingAfterEnd(ops[1..]) by {
        assert forall i :: 0 <= i < |ops| - 1 ==> ops[1..][i] == ops[i + 1];
      }
      hide SendNext, PollOnce, Verdicts, OnSubmit, NothingAfterEnd;
      match ops[0] {
        case Submitting(methodId, sessionId, params) =>
          OutcomesFollowReads(OnSubmit(w, NewCall(w, methodId, sessionId, params)), queue, ops[1..], decode);
        case Polling(arrivals, ended, turn) =>
          var (after, error) := SendNext(w, turn);
          var items := queue + arrivals;
          if error.Some? {
            OutcomesFollowReads(after, items, ops[1..], decode);
            var later := Outcomes(after, items, ops[1..], decode);
            ReportsCons(Returned(Ready(Some(Err(Write(error.value)))), false), later);
            assert [] + Reports(later) == Reports(later);
          } else {
            PollFollows(after, items, ended, ops, decode);
          }
      }
    }
  }

  lemma EndFollows(later: seq<Read>)
    ensures Follows([StreamEnd] + later, [], [])
  {
  }

  lemma OutcomeFollows(
    read: Option<Read>, n: nat, ended: bool, later: seq<PollOutcome>, got: seq<Read>, rest: seq<Item>)
    requires n <= MAX_SKIPS_PER_POLL
    requires if read.None? && ended && n < MAX_SKIPS_PER_POLL then got == [] && rest == []
             else Follows(Reports(later), got, rest)
    ensures Follows(Reports([OutcomeOf(read, n, ended)] + later), Yielded(read) + got, rest)
  {
    ReportsCons(OutcomeOf(read, n, ended), later);
    ReportedRead(read, n, ended);
    var reports := Reports(later);
    assert [] + got == got && [] + reports == reports;
    hide Follows, Reports, OutcomeOf, Reported;
    if read.Some? {
      FollowsRead(read.value, reports, got, rest);
    } else if ended && n < MAX_SKIPS_PER_POLL {
      EndFollows(reports);
    }
  }

  lemma LaterArrivals(ops: seq<ConnectionOp>)
    requires NothingAfterEnd(ops) && ops != [] && ops[0].Polling? && ops[0].ended
    ensures forall i :: 0 <= i < |ops[1..]| && ops[1..][i].Polling? ==> ops[1..][i].arrivals == []
  {
    assert forall i :: 0 <= i < |ops| - 1 ==> ops[1..][i] == ops[i + 1];
  }

  lemma PollFollows(after: Writer, items: seq<Item>, ended: bool, ops: seq<ConnectionOp>, decode: Decoder)
    requires ops != [] && ops[0].Polling? && ops[0].ended == ended
    requires NothingAfterEnd(ops) && NothingAfterEnd(ops[1..])
    ensures var (read, n) := PollOnce(Verdicts(items, decode), MAX_SKIPS_PER_POLL);
      var (got, rest) := Reads(after, items[n..], ops[1..], decode);
      Follows(Reports([OutcomeOf(read, n, ended)] + Outcomes(after, items[n..], ops[1..], decode)),
              Yielded(read) + got, rest)
    decreases |ops|, 0
  {
    var (read, n) := PollOnce(Verdicts(items, decode), MAX_SKIPS_PER_POLL);
    AllConsumed(items, decode);
    if read.None? && ended && n < MAX_SKIPS_PER_POLL {
      LaterArrivals(ops);
      NothingMore(after, ops[1..], decode);
    } else {
      OutcomesFollowReads(after, items[n..], ops[1..], decode);
    }
    hide SendNext, Reads, Outcomes, Follows, Reports, OutcomeOf, NothingAfterEnd, Unwanted;
    var (got, rest) := Reads(after, items[n..], ops[1..], decode);
    OutcomeFollows(read, n, ended, Outcomes(after, items[n..], ops[1..], decode), got, rest);
  }

  /**
   What a caller is returned over any run: the messages, and the transport error, are a prefix of what the serial loop
   sends for what has arrived; a poll unwinds only if that meets a panic; and once the end or a transport error has been
   returned, nothing met a panic and all that the serial loop sends has been returned.
   */
  lemma ReturnedIsSerial(ops: seq<ConnectionOp>, decode: Decoder)
    requires NothingAfterEnd(ops)
    ensures var reports, items := Reports(Outcomes(FRESH, [], ops, decode)), Arrived(ops);
      && UpToEnd(reports) <= Serial(items, decode)
      && (FateOf(reports).AtPanic? ==> MeetsPanic(Polled, items, decode))
      && (FateOf(reports).AtEnd? ==> !MeetsPanic(Polled, items, decode) && UpToEnd(reports) == Serial(items, decode))
  {
    OutcomesFollowReads(FRESH, [], ops, decode);
    PolledReaderAgrees(ops, decode);
    assert Verdicts([], decode) == [] && Wanted<Read>([]) == [];
    hide Outcomes, Reads, Reports, Serial, UpToEnd, Audible, Arrived, MeetsPanic, FateOf;
  }

  /** With items at hand, a message behind `n` skipped ones comes out of poll `n / 16`, counted from zero. */
  lemma MessageArrivesOnTime(queue: seq<Item>, arrivals: seq<seq<Item>>, decode: Decoder)
    requires var n := Unwanted(Verdicts(queue, decode)); n < |queue| && n / MAX_SKIPS_PER_POLL < |arrivals|
    ensures var n := Unwanted(Verdicts(queue, decode));
      var polls := Polls(Verdicts(queue, decode), VerdictBatches(arrivals, decode), MAX_SKIPS_PER_POLL).0;
      && n / MAX_SKIPS_PER_POLL < |polls|
      && polls[n / MAX_SKIPS_PER_POLL] == Verdict(queue[n], decode)
      && forall i :: 0 <= i < n / MAX_SKIPS_PER_POLL ==> polls[i].None?
  {
    ArrivesOnTime(Verdicts(queue, decode), VerdictBatches(arrivals, decode), MAX_SKIPS_PER_POLL);
  }
}
