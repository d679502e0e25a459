/**
 The write side of a connection as a value: commands wait in a queue, are handed to the sink, and are flushed. What the
 sink and the serialiser do is the environment's choice at every poll.
 */
module WritePath {
  import opened Wrappers

  const WS_CMD_CHANNEL_CAPACITY: nat := 2048

  datatype MethodCall = MethodCall(id: nat, methodId: string, sessionId: Option<string>, params: string)

  /** `buffered` and `flushed` are the commands the sink holds and those it has written out. */
  datatype Writer = Writer(
    pending: seq<MethodCall>, nextId: nat, needsFlush: bool, buffered: seq<MethodCall>, flushed: seq<MethodCall>)

  const FRESH: Writer := Writer([], 0, false, [], [])

  datatype Flush = Flushed | FlushPending | FlushFailed

  /** What happens to one more command: `NotReady` also stands for a sink that reports an error when asked. */
  datatype Accept = Sent | NotReady | SerializeFailed | SendFailed

  /**
   One poll of the sink; `accepts[k]` is for the command taken after `k` others, and behind the last it is not ready.
   */
  datatype SinkTurn = SinkTurn(before: Flush, accepts: seq<Accept>, after: Flush)

  datatype WriteError = FlushError | SerializeError | SendError

  function NewCall(w: Writer, methodId: string, sessionId: Option<string>, params: string): MethodCall {
    MethodCall(w.nextId, methodId, sessionId, params)
  }

  function OnSubmit(w: Writer, call: MethodCall): Writer {
    w.(pending := w.pending + [call], nextId := (w.nextId + 1) % U64_SPAN)
  }

  function FlushAll(w: Writer): Writer {
    w.(buffered := [], flushed := w.flushed + w.buffered)
  }

  /** How many of `n` commands the sink takes before it refuses one. */
  function Taken(accepts: seq<Accept>, n: nat): (taken: nat)
    ensures taken <= n && taken <= |accepts|
  {
    if n == 0 || accepts == [] || !accepts[0].Sent? then 0 else 1 + Taken(accepts[1..], n - 1)
  }

  /** The error, if any, that the command taken after `k` others ends in; a sink that is not ready is none. */
  function Refusal(accepts: seq<Accept>, k: nat): Option<WriteError> {
    if k >= |accepts| then None
    else
      match accepts[k]
      case SerializeFailed => Some(SerializeError)
      case SendFailed => Some(SendError)
      case _ => None
  }

  /** The first `n` pending commands have been handed over. */
  function HandOver(w: Writer, n: nat): Writer
    requires n <= |w.pending|
  {
    w.(pending := w.pending[n..], buffered := w.buffered + w.pending[..n])
  }

  lemma HandOverFrom(w: Writer, n: nat)
    requires n <= |w.pending|
    ensures HandOver(w, 0) == w && |HandOver(w, n).pending| == |w.pending| - n
    ensures n < |w.pending| ==>
      var h := HandOver(w, n);
      HandOver(w, n + 1) == h.(pending := h.pending[1..], buffered := h.buffered + [h.pending[0]])
  {
    if n < |w.pending| {
      assert w.pending[n..][1..] == w.pending[n + 1..];
      assert w.pending[..n] + [w.pending[n]] == w.pending[..n + 1];
    }
  }

  lemma TakenFrom(accepts: seq<Accept>, n: nat, k: nat)
    requires k <= n && k <= |accepts|
    ensures Taken(accepts[k..], n - k) ==
      if k < n && k < |accepts| && accepts[k].Sent? then 1 + Taken(accepts[k + 1..], n - k - 1) else 0
  {
    assert k < |accepts| ==> accepts[k..][1..] == accepts[k + 1..];
  }

  /** Whether the poll stops at a flush that was left over from an earlier one. */
  predicate HeldUp(w: Writer, t: SinkTurn) {
    w.needsFlush && !t.before.Flushed?
  }

  /** The writer once a left-over flush is done. */
  function Cleared(w: Writer): Writer {
    if w.needsFlush then FlushAll(w).(needsFlush := false) else w
  }

  /** `start_send_next`: the writer after one poll, and the error it reports. */
  function SendNext(w: Writer, t: SinkTurn): (Writer, Option<WriteError>) {
    if HeldUp(w, t) then (w, if t.before.FlushFailed? then Some(FlushError) else None)
    else
      var n := Taken(t.accepts, |w.pending|);
      var sent := HandOver(Cleared(w), n);
      if n < |w.pending| && Refusal(t.accepts, n).Some? then
        (sent.(pending := sent.pending[1..]), Refusal(t.accepts, n))
      else if n == 0 || t.after.Flushed? then (if n == 0 then sent else FlushAll(sent), None)
      else if t.after.FlushFailed? then (sent, Some(FlushError))
      else (sent.(needsFlush := true), None)
  }

  /** Whether the poll takes a command off the queue without handing it over. */
  predicate Loses(w: Writer, t: SinkTurn) {
    var n := Taken(t.accepts, |w.pending|);
    !HeldUp(w, t) && n < |w.pending| && Refusal(t.accepts, n).Some?
  }

  // ----- What every poll does -----

  /** Of `n` commands the sink accepts the first `k`, and then no more: there are none, or it refuses the next. */
  predicate AcceptsFirst(accepts: seq<Accept>, n: nat, k: nat) {
    && k <= n && k <= |accepts| && (forall i :: 0 <= i < k ==> accepts[i].Sent?)
    && (k < n && k < |accepts| ==> !accepts[k].Sent?)
  }

  lemma {:induction false} TakenIff(accepts: seq<Accept>, n: nat, k: nat)
    ensures Taken(accepts, n) == k <==> AcceptsFirst(accepts, n, k)
    decreases n
  {
    if n > 0 && accepts != [] && accepts[0].Sent? {
      var rest := accepts[1..];
      if k > 0 {
        TakenIff(rest, n - 1, k - 1);
        assert forall i :: 1 <= i < |accepts| ==> accepts[i] == rest[i - 1];
      }
    }
  }

  /** A flush that is still owed and does not complete is all that a poll does. */
  lemma OwedFlushComesFirst(w: Writer, t: SinkTurn)
    requires w.needsFlush && !t.before.Flushed?
    ensures SendNext(w, t) == (w, if t.before.FlushFailed? then Some(FlushError) else None)
  {
  }

  /**
   Any other poll, by the number of commands that the sink accepts: it writes out what was owed, hands those over, takes
   and loses one more if that fails with an error, and otherwise flushes the batch in the same poll if there is one.
   A flush is owed afterwards exactly if that flush is pending.
   */
  lemma SendAnswers(w: Writer, t: SinkTurn, k: nat)
    requires w.needsFlush ==> t.before.Flushed?
    requires AcceptsFirst(t.accepts, |w.pending|, k)
    ensures var written := if w.needsFlush then w.flushed + w.buffered else w.flushed;
      var held := (if w.needsFlush then [] else w.buffered) + w.pending[..k];
      SendNext(w, t) ==
        if k < |w.pending| && k < |t.accepts| && t.accepts[k].SerializeFailed? then
          (Writer(w.pending[k + 1..], w.nextId, false, held, written), Some(SerializeError))
        else if k < |w.pending| && k < |t.accepts| && t.accepts[k].SendFailed? then
          (Writer(w.pending[k + 1..], w.nextId, false, held, written), Some(SendError))
        else if k == 0 then (Writer(w.pending, w.nextId, false, held, written), None)
        else
          match t.after
          case Flushed => (Writer(w.pending[k..], w.nextId, false, [], written + held), None)
          case FlushFailed => (Writer(w.pending[k..], w.nextId, false, held, written), Some(FlushError))
          case FlushPending => (Writer(w.pending[k..], w.nextId, true, held, written), None)
  {
    TakenIff(t.accepts, |w.pending|, k);
    hide Taken, AcceptsFirst;
    assert k < |w.pending| ==> w.pending[k..][1..] == w.pending[k + 1..];
    assert w.pending[0..] == w.pending;
  }

  /** A sink that takes and flushes everything gets everything, in one poll. */
  predicate TakesAll(t: SinkTurn, n: nat) {
    t.before.Flushed? && t.after.Flushed? && n <= |t.accepts| && forall i :: 0 <= i < n ==> t.accepts[i].Sent?
  }

  lemma AllIsWritten(w: Writer, t: SinkTurn)
    requires TakesAll(t, |w.pending|) && (w.needsFlush || w.pending != [])
    ensures SendNext(w, t) == (Writer([], w.nextId, false, [], (w.flushed + w.buffered) + w.pending), None)
  {
    SendAnswers(w, t, |w.pending|);
    hide SendNext;
    assert w.pending[..|w.pending|] == w.pending && w.pending[|w.pending|..] == [];
    if w.needsFlush {
      assert [] + w.pending == w.pending && w.pending == [] ==> (w.flushed + w.buffered) + [] == w.flushed + w.buffered;
    } else {
      assert w.flushed + (w.buffered + w.pending) == (w.flushed + w.buffered) + w.pending;
    }
  }

  // ----- Runs -----

  datatype Op = Submit(methodId: string, sessionId: Option<string>, params: string) | SendPoll(turn: SinkTurn)

  /** The writer, the commands submitted so far, and the positions among them of those that polls took and lost. */
  datatype History = History(w: Writer, submitted: seq<MethodCall>, lost: seq<int>)

  function Step(h: History, op: Op): History {
    match op
    case Submit(methodId, sessionId, params) =>
      var call := NewCall(h.w, methodId, sessionId, params);
      History(OnSubmit(h.w, call), h.submitted + [call], h.lost)
    case SendPoll(turn) =>
      History(SendNext(h.w, turn).0, h.submitted, h.lost + LostBy(h, turn))
  }

  function LostBy(h: History, t: SinkTurn): seq<int> {
    if Loses(h.w, t) then [|h.submitted| - |h.w.pending| + Taken(t.accepts, |h.w.pending|)] else []
  }

  function Run(ops: seq<Op>): History {
    if ops == [] then History(FRESH, [], []) else Step(Run(ops[..|ops| - 1]), ops[|ops| - 1])
  }

  /** The commands at the positions below `n` that are not in `lost`. */
  function Except(calls: seq<MethodCall>, n: nat, lost: seq<int>): seq<MethodCall>
    requires n <= |calls|
  {
    if n == 0 then []
    else Except(calls, n - 1, lost) + if n - 1 in lost then [] else [calls[n - 1]]
  }

  function Handed(w: Writer): seq<MethodCall> {
    w.flushed + w.buffered
  }

  /** Pending is the tail of what was submitted; handed over is the rest, except the lost ones. */
  ghost predicate Accounted(h: History) {
    && |h.w.pending| <= |h.submitted|
    && var taken: nat := |h.submitted| - |h.w.pending|;
      && h.w.pending == h.submitted[taken..]
      && Handed(h.w) == Except(h.submitted, taken, h.lost)
      && forall k :: 0 <= k < |h.lost| ==> 0 <= h.lost[k] < taken
  }

  lemma {:induction false} ExceptExtends(
    calls: seq<MethodCall>, more: seq<MethodCall>, n: nat, lost: seq<int>, moreLost: seq<int>)
    requires n <= |calls| && forall k :: 0 <= k < |moreLost| ==> n <= moreLost[k]
    ensures Except(calls + more, n, lost + moreLost) == Except(calls, n, lost)
  {
    if n > 0 {
      ExceptExtends(calls, more, n - 1, lost, moreLost);
    }
  }

  lemma {:induction false} ExceptTakes(calls: seq<MethodCall>, n: nat, m: nat, lost: seq<int>)
    requires n <= m <= |calls| && forall k :: 0 <= k < |lost| ==> lost[k] < n || m <= lost[k]
    ensures Except(calls, m, lost) == Except(calls, n, lost) + calls[n..m]
  {
    if n < m {
      ExceptTakes(calls, n, m - 1, lost);
      assert calls[n..m] == calls[n..m - 1] + [calls[m - 1]];
    }
  }

  lemma SubmitAccounts(h: History, call: MethodCall)
    requires Accounted(h)
    ensures Accounted(History(OnSubmit(h.w, call), h.submitted + [call], h.lost))
  {
    ExceptExtends(h.submitted, [call], |h.submitted| - |h.w.pending|, h.lost, []);
    assert h.lost + [] == h.lost;
  }

  lemma HandOverAccounts(h: History, n: nat)
    requires Accounted(h) && n <= |h.w.pending|
    ensures Accounted(h.(w := HandOver(h.w, n)))
  {
    var taken: nat := |h.submitted| - |h.w.pending|;
    ExceptTakes(h.submitted, taken, taken + n, h.lost);
    hide Except;
    assert h.w.pending[n..] == h.submitted[taken + n..];
    assert h.w.pending[..n] == h.submitted[taken..taken + n];
    assert h.w.flushed + (h.w.buffered + h.w.pending[..n]) == Handed(h.w) + h.w.pending[..n];
  }

  lemma LossAccounts(h: History)
    requires Accounted(h) && h.w.pending != []
    ensures Accounted(
      History(h.w.(pending := h.w.pending[1..]), h.submitted, h.lost + [|h.submitted| - |h.w.pending|]))
  {
    var taken: nat := |h.submitted| - |h.w.pending|;
    ExceptExtends(h.submitted, [], taken, h.lost, [taken]);
    assert h.submitted + [] == h.submitted;
  }

  lemma FlushAccounts(h: History)
    requires Accounted(h)
    ensures Accounted(h.(w := FlushAll(h.w))) && Accounted(h.(w := Cleared(h.w)))
    ensures Accounted(h.(w := h.w.(needsFlush := true)))
  {
    hide Except;
    assert Handed(FlushAll(h.w)) == Handed(h.w);
  }

  /** The ways a poll that is not held up ends. */
  lemma SendNextCases(w: Writer, t: SinkTurn)
    requires !HeldUp(w, t)
    ensures var n := Taken(t.accepts, |w.pending|);
      var sent, after := HandOver(Cleared(w), n), SendNext(w, t).0;
      && |sent.pending| == |w.pending| - n
      && (Loses(w, t) ==> sent.pending != [] && after == sent.(pending := sent.pending[1..]))
      && (!Loses(w, t) ==> after == sent || after == FlushAll(sent) || after == sent.(needsFlush := true))
  {
  }

  lemma SentAccounts(h: History, n: nat)
    requires Accounted(h) && n <= |h.w.pending|
    ensures Accounted(h.(w := HandOver(Cleared(h.w), n)))
  {
    assert Cleared(h.w).pending == h.w.pending;
    hide *;
    FlushAccounts(h);
    HandOverAccounts(h.(w := Cleared(h.w)), n);
  }

  lemma LossyStep(h: History, t: SinkTurn)
    requires Loses(h.w, t)
    ensures var n := Taken(t.accepts, |h.w.pending|);
      var sent := HandOver(Cleared(h.w), n);
      && sent.pending != []
      && Step(h, SendPoll(t))
        == History(sent.(pending := sent.pending[1..]), h.submitted, h.lost + [|h.submitted| - |sent.pending|])
  {
    SendNextCases(h.w, t);
    hide SendNext, HandOver, Cleared, Taken;
  }

  lemma LossyPollAccounts(h: History, t: SinkTurn)
    requires Accounted(h) && Loses(h.w, t)
    ensures Accounted(Step(h, SendPoll(t)))
  {
    var n := Taken(t.accepts, |h.w.pending|);
    LossyStep(h, t);
    assert n <= |h.w.pending|;
    hide *;
    SentAccounts(h, n);
    LossAccounts(h.(w := HandOver(Cleared(h.w), n)));
  }

  lemma LosslessPollAccounts(h: History, t: SinkTurn)
    requires Accounted(h) && !Loses(h.w, t)
    ensures Accounted(Step(h, SendPoll(t)))
  {
    assert h.lost + [] == h.lost;
    hide Accounted, Taken, HandOver, Cleared, FlushAll;
    if !HeldUp(h.w, t) {
      var n := Taken(t.accepts, |h.w.pending|);
      SendNextCases(h.w, t);
      hide SendNext;
      SentAccounts(h, n);
      FlushAccounts(h.(w := HandOver(Cleared(h.w), n)));
    }
  }

  /**
   Whatever the sink does, every submitted command is handed over, lost or still pending, each once and in order:
   what is pending is the tail of what was submitted, and what was handed over is the rest except the lost ones.
   */
  lemma {:induction false} EveryRunIsAccounted(ops: seq<Op>)
    ensures Accounted(Run(ops))
  {
    if ops != [] {
      var h, op := Run(ops[..|ops| - 1]), ops[|ops| - 1];
      EveryRunIsAccounted(ops[..|ops| - 1]);
      hide Accounted, SendNext, OnSubmit, NewCall, Loses;
      match op {
        case Submit(methodId, sessionId, params) => SubmitAccounts(h, NewCall(h.w, methodId, sessionId, params));
        case SendPoll(turn) =>
          if Loses(h.w, turn) {
            LossyPollAccounts(h, turn);
          } else {
            LosslessPollAccounts(h, turn);
          }
      }
    }
  }

  lemma {:induction false} ExceptLosesSome(calls: seq<MethodCall>, n: nat, lost: seq<int>)
    requires n <= |calls|
    ensures |Except(calls, n, lost)| <= n
    ensures (exists k :: 0 <= k < |lost| && 0 <= lost[k] < n) ==> |Except(calls, n, lost)| < n
  {
    if n > 0 {
      ExceptLosesSome(calls, n - 1, lost);
    }
  }

  lemma AccountedIsWholeIff(h: History)
    requires Accounted(h)
    ensures Handed(h.w) + h.w.pending == h.submitted <==> h.lost == []
    ensures |Handed(h.w)| + |h.w.pending| <= |h.submitted|
  {
    var taken: nat := |h.submitted| - |h.w.pending|;
    ExceptLosesSome(h.submitted, taken, h.lost);
    if h.lost == [] {
      ExceptTakes(h.submitted, 0, taken, h.lost);
      hide Except, Handed;
      assert h.submitted == h.submitted[..taken] + h.submitted[taken..];
    } else {
      assert 0 <= h.lost[0] < taken;
      hide Except, Handed;
    }
  }

  /** No poll of the run meets a serialisation or send error. */
  predicate NeverLoses(ops: seq<Op>) {
    forall i :: 0 <= i < |ops| && ops[i].SendPoll? ==> !Loses(Run(ops[..i]).w, ops[i].turn)
  }

  lemma {:induction false} LostNothingIff(ops: seq<Op>)
    ensures Run(ops).lost == [] <==> NeverLoses(ops)
  {
    if ops != [] {
      var before, op := ops[..|ops| - 1], ops[|ops| - 1];
      LostNothingIff(before);
      NeverLosesSnoc(ops);
      hide NeverLoses, Loses, SendNext, Taken;
    }
  }

  lemma NeverLosesSnoc(ops: seq<Op>)
    requires ops != []
    ensures var before, op := ops[..|ops| - 1], ops[|ops| - 1];
      NeverLoses(ops) <==> NeverLoses(before) && (op.SendPoll? ==> !Loses(Run(before).w, op.turn))
  {
    hide Run, Loses;
    var before := ops[..|ops| - 1];
    assert forall i :: 0 <= i < |before| ==> before[..i] == ops[..i] && before[i] == ops[i];
  }

  /**
   What was handed over followed by what is pending is exactly what was submitted if and only if no poll met
   a serialisation or send error.
   */
  lemma NothingIsLostIff(ops: seq<Op>)
    ensures var h := Run(ops); Handed(h.w) + h.w.pending == h.submitted <==> NeverLoses(ops)
  {
    EveryRunIsAccounted(ops);
    AccountedIsWholeIff(Run(ops));
    LostNothingIff(ops);
  }

  /**
   Whatever has happened before, after a poll at which the sink takes and flushes everything, what has been written out
   is everything submitted and not lost, in order, unless nothing was pending and no flush was owed.
   */
  lemma EverythingIsWritten(ops: seq<Op>, t: SinkTurn)
    requires var w := Run(ops).w; TakesAll(t, |w.pending|) && (w.needsFlush || w.pending != [])
    ensures var h := Run(ops + [SendPoll(t)]);
      && h.w.flushed == Except(h.submitted, |h.submitted|, h.lost) && h.lost == Run(ops).lost
      && h.w.pending == [] && h.w.buffered == [] && !h.w.needsFlush
  {
    var all, w := ops + [SendPoll(t)], Run(ops).w;
    assert all[..|all| - 1] == ops;
    AllIsWritten(w, t);
    TakenIff(t.accepts, |w.pending|, |w.pending|);
    EveryRunIsAccounted(all);
    assert !Loses(w, t) && Run(ops).lost + [] == Run(ops).lost;
    hide SendNext, Except, Loses;
    assert Run(all).w.flushed + [] == Run(all).w.flushed;
  }

  /** The submissions of a run, in order. */
  function Submissions(ops: seq<Op>): (r: seq<Op>)
    ensures forall i :: 0 <= i < |r| ==> r[i].Submit?
  {
    if ops == [] then []
    else Submissions(ops[..|ops| - 1]) + if ops[|ops| - 1].Submit? then [ops[|ops| - 1]] else []
  }

  /** Every command carries what it was submitted with, and the position of its submission as its id. */
  lemma {:induction false} CommandsAreAsSubmitted(ops: seq<Op>)
    ensures var calls, given := Run(ops).submitted, Submissions(ops);
      && |calls| == |given|
      && forall i :: 0 <= i < |calls| ==>
           calls[i] == MethodCall(i % U64_SPAN, given[i].methodId, given[i].sessionId, given[i].params)
  {
    if ops != [] {
      IdsCountUp(ops);
      CommandsAreAsSubmitted(ops[..|ops| - 1]);
      hide SendNext, LostBy;
    }
  }

  // ----- Numbering -----

  lemma PollKeepsNextId(w: Writer, op: Op)
    requires op.SendPoll?
    ensures SendNext(w, op.turn).0.nextId == w.nextId
  {
    hide Taken;
  }

  ghost predicate Numbered(h: History) {
    && h.w.nextId == |h.submitted| % U64_SPAN
    && forall i :: 0 <= i < |h.submitted| ==> h.submitted[i].id == i % U64_SPAN
  }

  lemma StepKeepsNumbering(h: History, op: Op)
    requires Numbered(h)
    ensures Numbered(Step(h, op))
  {
    hide SendNext, LostBy;
    if op.SendPoll? {
      PollKeepsNextId(h.w, op);
    }
  }

  /** The ids count up from zero and wrap at the width of a 64-bit counter. */
  lemma IdsCountUp(ops: seq<Op>)
    ensures var h := Run(ops);
      && h.w.nextId == |h.submitted| % U64_SPAN
      && forall i :: 0 <= i < |h.submitted| ==> h.submitted[i].id == i % U64_SPAN
  {
    NumberedRun(ops);
  }

  lemma {:induction false} NumberedRun(ops: seq<Op>)
    ensures Numbered(Run(ops))
  {
    if ops != [] {
      hide Numbered, Step;
      NumberedRun(ops[..|ops| - 1]);
      StepKeepsNumbering(Run(ops[..|ops| - 1]), ops[|ops| - 1]);
    }
  }

  /** No two submitted commands share an id exactly as long as the counter has not wrapped. */
  lemma IdsAreDistinctIff(ops: seq<Op>)
    ensures var calls := Run(ops).submitted;
      (forall i, j :: 0 <= i < j < |calls| ==> calls[i].id != calls[j].id) <==> |calls| <= U64_SPAN
  {
    IdsCountUp(ops);
    var calls := Run(ops).submitted;
    hide Run;
    if |calls| > U64_SPAN {
      assert calls[0].id == calls[U64_SPAN].id;
    } else {
      assert forall i :: 0 <= i < |calls| ==> calls[i].id == i;
    }
  }

  // ----- Flushing -----

  /** A flush is owed exactly when the sink holds something. */
  predicate Tidy(w: Writer) {
    w.needsFlush <==> w.buffered != []
  }

  /** The poll hands at least one command over and then ends in an error. */
  predicate FailsAfterSending(w: Writer, t: SinkTurn) {
    !HeldUp(w, t) && 0 < Taken(t.accepts, |w.pending|) && (Loses(w, t) || t.after.FlushFailed?)
  }

  /** A poll keeps the account of owed flushes right unless it fails after sending: then the flag is not raised. */
  lemma SendKeepsTidyIff(w: Writer, t: SinkTurn)
    requires Tidy(w)
    ensures Tidy(SendNext(w, t).0) <==> !FailsAfterSending(w, t)
  {
    hide Taken;
  }

  ghost predicate NeverFailsAfterSending(ops: seq<Op>) {
    forall i :: 0 <= i < |ops| && ops[i].SendPoll? ==> !FailsAfterSending(Run(ops[..i]).w, ops[i].turn)
  }

  /** Without such a failure, what has been buffered and not written always owes a flush. */
  lemma {:induction false} BufferedOwesFlush(ops: seq<Op>)
    requires NeverFailsAfterSending(ops)
    ensures Tidy(Run(ops).w)
  {
    if ops != [] {
      var before, op := ops[..|ops| - 1], ops[|ops| - 1];
      forall i | 0 <= i < |before| && before[i].SendPoll?
        ensures !FailsAfterSending(Run(before[..i]).w, before[i].turn)
      {
        assert before[..i] == ops[..i] && before[i] == ops[i];
      }
      BufferedOwesFlush(before);
      hide SendNext, FailsAfterSending;
      if op.SendPoll? {
        SendKeepsTidyIff(Run(before).w, op.turn);
      }
    }
  }

  /** Over a run the account stays right at every moment if and only if no poll fails after sending. */
  lemma AlwaysTidyIff(ops: seq<Op>)
    ensures (forall i :: 0 <= i <= |ops| ==> Tidy(Run(ops[..i]).w)) <==> NeverFailsAfterSending(ops)
  {
    if NeverFailsAfterSending(ops) {
      forall i | 0 <= i <= |ops| ensures Tidy(Run(ops[..i]).w) {
        assert forall j :: 0 <= j < i ==> ops[..i][..j] == ops[..j];
        BufferedOwesFlush(ops[..i]);
      }
    }
    if forall i :: 0 <= i <= |ops| ==> Tidy(Run(ops[..i]).w) {
      forall i | 0 <= i < |ops| && ops[i].SendPoll? ensures !FailsAfterSending(Run(ops[..i]).w, ops[i].turn) {
        assert ops[..i + 1][..i] == ops[..i] && Tidy(Run(ops[..i + 1]).w);
        SendKeepsTidyIff(Run(ops[..i]).w, ops[i].turn);
      }
    }
  }

  function SendPolls(w: Writer, turns: seq<SinkTurn>): Writer
    decreases |turns|
  {
    if turns == [] then w else SendPolls(SendNext(w, turns[0]).0, turns[1..])
  }

  /**
   When the last pending command fails after others were handed over, those others stay unflushed through any number of
   further polls: no flush is owed, and with nothing pending a poll does not flush of itself.
   */
  lemma FailureStrandsBuffered(w: Writer, t: SinkTurn, later: seq<SinkTurn>)
    requires FailsAfterSending(w, t) && Loses(w, t) && Taken(t.accepts, |w.pending|) + 1 == |w.pending|
    ensures var stuck := SendNext(w, t).0;
      && stuck.pending == [] && stuck.buffered != [] && SendPolls(stuck, later) == stuck
  {
    var stuck := SendNext(w, t).0;
    assert stuck.pending == [] && stuck.buffered != [] && !stuck.needsFlush;
    IdlePolls(stuck, later);
  }

  lemma {:induction false} IdlePolls(w: Writer, turns: seq<SinkTurn>)
    requires w.pending == [] && !w.needsFlush
    ensures SendPolls(w, turns) == w
    decreases |turns|
  {
    if turns != [] {
      assert SendNext(w, turns[0]).0 == w;
      IdlePolls(w, turns[1..]);
    }
  }

  /** Two commands, of which the sink takes the first and the second does not serialise. */
  const TWO_COMMANDS: seq<Op> := [
    Submit("Page.enable", None, "{}"),
    Submit("Page.navigate", None, "{}"),
    SendPoll(SinkTurn(Flushed, [Sent, SerializeFailed], Flushed))
  ]

  /** After such a run the first command is buffered, no flush is owed, and no further poll writes it out. */
  lemma StrandedRun(later: seq<SinkTurn>)
    ensures var w := Run(TWO_COMMANDS).w;
      && w.buffered == [MethodCall(0, "Page.enable", None, "{}")] && !w.needsFlush && w.pending == []
      && SendPolls(w, later) == w && Run(TWO_COMMANDS).lost == [1]
  {
    var ops := TWO_COMMANDS;
    assert ops[..3] == ops && ops[..2][..1] == ops[..1] && ops[..1][..0] == [];
    assert ops[..2][1] == ops[1] && ops[..1][0] == ops[0];
    var first, second := MethodCall(0, "Page.enable", None, "{}"), MethodCall(1, "Page.navigate", None, "{}");
    assert Run(ops[..1]) == History(Writer([first], 1, false, [], []), [first], []);
    var h := Run(ops[..2]);
    assert h == History(Writer([first, second], 2, false, [], []), [first, second], []);
    assert [Sent, SerializeFailed][1..] == [SerializeFailed];
    assert Taken([Sent, SerializeFailed], 2) == 1;
    assert [first, second][1..][1..] == [];
    IdlePolls(Run(ops).w, later);
  }

  // ----- Handing the queue to the background writer -----

  /** The commands that fit the bounded channel of the background writer; the others are dropped. */
  function Moved(w: Writer): seq<MethodCall> {
    w.pending[..Min(|w.pending|, WS_CMD_CHANNEL_CAPACITY)]
  }

  /**
   Splitting the connection after any run loses nothing exactly when no poll has met a serialisation or send error and
   at most 2048 commands are pending; the numbering goes on where it stopped.
   */
  lemma SplitLosesNothingIff(ops: seq<Op>)
    ensures var h := Run(ops);
      && (Handed(h.w) + Moved(h.w) == h.submitted <==> NeverLoses(ops) && |h.w.pending| <= 2048)
      && h.w.nextId == |h.submitted| % U64_SPAN
  {
    EveryRunIsAccounted(ops);
    IdsCountUp(ops);
    var h := Run(ops);
    AccountedIsWholeIff(h);
    LostNothingIff(ops);
    hide Run, Accounted, Handed, NeverLoses;
    if |h.w.pending| <= WS_CMD_CHANNEL_CAPACITY {
      assert Moved(h.w) == h.w.pending;
    }
  }
}
