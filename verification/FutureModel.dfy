/**
 The hand-written futures as values: one message is delivered to the target's channel, then a reply is awaited, all
 under a deadline. Command futures and wait-message futures share this protocol; the HTTP future runs one of each in
 turn. What the channel, the clock and the replier do is the environment's choice at every poll.
 */
module FutureModel {
  import opened Wrappers

  type Instant = nat

  datatype FutureError = ChannelClosed | Timeout | ReplyDropped | Failed(reason: string)

  datatype TrySend = Accepted | Full | Closed

  datatype Send = Delivered | Waiting | Disconnected

  datatype Reply<R> = NoReply | Answer(result: Result<R, FutureError>) | Dropped

  /** One poll: the time, an attempt to send, the send that waits for capacity, and the reply, where each is asked. */
  datatype Env<R> = Env(now: Instant, trySend: TrySend, send: Send, reply: Reply<R>)

  /** `channel` holds what this future has put into the channel. */
  datatype MessageState<M> = MessageState(message: Option<M>, parked: Option<M>, deadline: Instant, channel: seq<M>)

  function NewMessage<M>(m: M, deadline: Instant): MessageState<M> {
    MessageState(Some(m), None, deadline, [])
  }

  /** Phase one: hand the message over at once or park it; an error if the channel is closed. */
  function Offer<M>(f: MessageState<M>, trySend: TrySend): (MessageState<M>, bool) {
    if f.message.None? then (f, true)
    else
      var taken := f.(message := None);
      match trySend
      case Accepted => (taken.(channel := f.channel + [f.message.value]), true)
      case Full => (taken.(parked := f.message), true)
      case Closed => (taken, false)
  }

  function Expired<M>(f: MessageState<M>, now: Instant): bool {
    f.deadline <= now
  }

  /** Phase two: the reply, unless the deadline has passed. */
  function Await<M, R>(f: MessageState<M>, env: Env<R>): Poll<Result<R, FutureError>> {
    if Expired(f, env.now) then Ready(Err(Timeout))
    else
      match env.reply
      case NoReply => Pending
      case Answer(result) => Ready(result)
      case Dropped => Ready(Err(ReplyDropped))
  }

  function PollMessage<M, R>(f: MessageState<M>, env: Env<R>): (MessageState<M>, Poll<Result<R, FutureError>>) {
    var (offered, open) := Offer(f, env.trySend);
    if !open then (offered, Ready(Err(ChannelClosed)))
    else if offered.parked.Some? then
      match env.send
      case Delivered =>
        var sent := offered.(parked := None, channel := offered.channel + [offered.parked.value]);
        (sent, Await(sent, env))
      case Disconnected => (offered, Ready(Err(ChannelClosed)))
      case Waiting => (offered, if Expired(offered, env.now) then Ready(Err(Timeout)) else Pending)
    else (offered, Await(offered, env))
  }

  /** Polls until the future resolves or there are no more polls. */
  function RunMessage<M, R>(f: MessageState<M>, envs: seq<Env<R>>): (MessageState<M>, Poll<Result<R, FutureError>>)
    decreases |envs|
  {
    if envs == [] then (f, Pending)
    else
      var (next, polled) := PollMessage(f, envs[0]);
      if polled.Ready? then (next, polled) else RunMessage(next, envs[1..])
  }

  /** The message is in one place only: still to be offered, parked, in the channel, or gone with the failed send. */
  ghost predicate Once<M>(f: MessageState<M>, m: M) {
    || (f.message == Some(m) && f.parked == None && f.channel == [])
    || (f.message == None && f.parked == Some(m) && f.channel == [])
    || (f.message == None && f.parked == None && (f.channel == [m] || f.channel == []))
  }

  /** A poll that leaves the future pending leaves its message parked or delivered. */
  ghost predicate OnItsWay<M>(f: MessageState<M>, m: M) {
    f.message == None && if f.parked.Some? then f.parked == Some(m) && f.channel == [] else f.channel == [m]
  }

  lemma PollKeepsOnce<M, R>(f: MessageState<M>, env: Env<R>, m: M)
    requires OnItsWay(f, m) || f == NewMessage(m, f.deadline)
    ensures var (after, polled) := PollMessage(f, env);
      && Once(after, m) && after.deadline == f.deadline
      && (polled.Pending? ==> OnItsWay(after, m) && env.now < f.deadline)
      && (f.deadline <= env.now ==> polled.Ready? && polled.value.Err?)
      && (polled.Ready? && polled.value.Ok? ==>
            after.channel == [m] && env.now < f.deadline && env.reply == Answer(polled.value))
  {
  }

  /** Some poll of the run, before the deadline, was answered with `result`. */
  ghost predicate AnsweredInTime<R>(envs: seq<Env<R>>, deadline: Instant, result: Result<R, FutureError>) {
    exists i :: 0 <= i < |envs| && envs[i].now < deadline && envs[i].reply == Answer(result)
  }

  lemma {:induction false} RunKeepsOnce<M, R>(f: MessageState<M>, envs: seq<Env<R>>, m: M)
    requires OnItsWay(f, m) || f == NewMessage(m, f.deadline)
    ensures var (after, polled) := RunMessage(f, envs);
      && Once(after, m) && after.deadline == f.deadline
      && (polled.Ready? && polled.value.Ok? ==>
            after.channel == [m] && AnsweredInTime(envs, f.deadline, polled.value))
      && ((exists i :: 0 <= i < |envs| && f.deadline <= envs[i].now) ==> polled.Ready?)
    decreases |envs|
  {
    if envs != [] {
      PollKeepsOnce(f, envs[0], m);
      var (next, polled) := PollMessage(f, envs[0]);
      if polled.Pending? {
        RunKeepsOnce(next, envs[1..], m);
        assert forall i :: 0 <= i < |envs| - 1 ==> envs[1..][i] == envs[i + 1];
      }
    }
  }

  /**
   For every schedule of polls and every behaviour of the channel: the message enters the channel at most once, a
   success is an answer that was given before the deadline, to a message that had been delivered, and a run with a poll
   at or after the deadline has resolved.
   */
  lemma MessageRuns<M, R>(m: M, deadline: Instant, envs: seq<Env<R>>)
    ensures var (after, polled) := RunMessage(NewMessage(m, deadline), envs);
      && (after.channel == [] || after.channel == [m])
      && (polled.Ready? && polled.value.Ok? ==>
            after.channel == [m] && AnsweredInTime(envs, deadline, polled.value))
      && ((exists i :: 0 <= i < |envs| && deadline <= envs[i].now) ==> polled.Ready?)
  {
    RunKeepsOnce(NewMessage(m, deadline), envs, m);
  }

  /** Once the message is delivered, the first reply before the deadline decides. */
  lemma {:induction false} FirstReplyIsTaken<M, R>(f: MessageState<M>, envs: seq<Env<R>>, k: nat)
    requires f.message.None? && f.parked.None? && k < |envs|
    requires forall i :: 0 <= i <= k ==> envs[i].now < f.deadline
    requires (forall i :: 0 <= i < k ==> envs[i].reply.NoReply?) && envs[k].reply.Answer?
    ensures RunMessage(f, envs) == (f, Ready(envs[k].reply.result))
    decreases k
  {
    if k > 0 {
      assert forall i :: 0 <= i < |envs| - 1 ==> envs[1..][i] == envs[i + 1];
      FirstReplyIsTaken(f, envs[1..], k - 1);
    }
  }

  // ----- What every poll answers -----

  /** The message is waiting for capacity by the time of the poll, or starts to at it. */
  predicate IsParked<M, R>(f: MessageState<M>, env: Env<R>) {
    f.parked.Some? || (f.message.Some? && env.trySend.Full?)
  }

  /** The poll finds the channel closed, when it offers the message or while that waits for capacity. */
  predicate FindsClosed<M, R>(f: MessageState<M>, env: Env<R>) {
    (f.message.Some? && env.trySend.Closed?) || (IsParked(f, env) && env.send.Disconnected?)
  }

  predicate IsStuck<M, R>(f: MessageState<M>, env: Env<R>) {
    IsParked(f, env) && env.send.Waiting?
  }

  /**
   The answer of a poll in every case: a closed channel fails it, then a passed deadline; before the deadline it is
   pending exactly as long as the message waits for capacity or there is no reply; otherwise the reply decides. The
   message is in the channel from the poll on that finds room for it.
   */
  lemma PollAnswers<M, R>(f: MessageState<M>, env: Env<R>, m: M)
    requires OnItsWay(f, m) || f == NewMessage(m, f.deadline)
    ensures var (after, polled) := PollMessage(f, env);
      && (FindsClosed(f, env) ==> polled == Ready(Err(ChannelClosed)))
      && (!FindsClosed(f, env) && f.deadline <= env.now ==> polled == Ready(Err(Timeout)))
      && (polled.Pending? <==>
            env.now < f.deadline && !FindsClosed(f, env) && (IsStuck(f, env) || env.reply.NoReply?))
      && (env.now < f.deadline && !FindsClosed(f, env) && !IsStuck(f, env) ==>
            && (env.reply.Answer? ==> polled == Ready(env.reply.result))
            && (env.reply.Dropped? ==> polled == Ready(Err(ReplyDropped))))
      && (after.channel == [m] <==>
            f.channel == [m]
            || (f.message.Some? && env.trySend.Accepted?) || (IsParked(f, env) && env.send.Delivered?))
  {
  }

  /** Polls that leave the future pending can be taken first. */
  lemma {:induction false} RunMessageFrom<M, R>(f: MessageState<M>, envs: seq<Env<R>>, k: nat)
    requires k <= |envs| && RunMessage(f, envs[..k]).1.Pending?
    ensures RunMessage(f, envs) == RunMessage(RunMessage(f, envs[..k]).0, envs[k..])
    decreases k
  {
    if k == 0 {
      assert envs[0..] == envs;
    } else {
      assert envs[..k][1..] == envs[1..][..k - 1] && envs[1..][k - 1..] == envs[k..];
      hide PollMessage;
      RunMessageFrom(PollMessage(f, envs[0]).0, envs[1..], k - 1);
    }
  }

  /** The message finds room at poll `j`: at once, or after it has waited for capacity since the first poll. */
  predicate DeliveredAt<R>(envs: seq<Env<R>>, j: nat)
    requires j < |envs|
  {
    (j == 0 && envs[0].trySend.Accepted?)
    || (envs[0].trySend.Full? && envs[j].send.Delivered? && forall i :: 0 <= i < j ==> envs[i].send.Waiting?)
  }

  /** Polls before the deadline that find no room leave the message parked, and nothing else happens. */
  lemma {:induction false} StaysParked<M, R>(f: MessageState<M>, envs: seq<Env<R>>, m: M)
    requires f.message == None && f.parked == Some(m)
    requires forall i :: 0 <= i < |envs| ==> envs[i].now < f.deadline && envs[i].send.Waiting?
    ensures RunMessage(f, envs) == (f, Pending)
    decreases |envs|
  {
    if envs != [] {
      StaysParked(f, envs[1..], m);
    }
  }

  /**
   The future waits as long as it may: a message that finds room at poll `j`, at once or after a full channel, and
   is first answered at poll `k`, before the deadline, resolves with that answer.
   */
  lemma AnswerIsTaken<M, R>(m: M, deadline: Instant, envs: seq<Env<R>>, j: nat, k: nat)
    requires j <= k < |envs| && DeliveredAt(envs, j)
    requires forall i :: 0 <= i <= k ==> envs[i].now < deadline
    requires (forall i :: j <= i < k ==> envs[i].reply.NoReply?) && envs[k].reply.Answer?
    ensures RunMessage(NewMessage(m, deadline), envs)
      == (MessageState(None, None, deadline, [m]), Ready(envs[k].reply.result))
  {
    var f := NewMessage(m, deadline);
    var sent := MessageState(None, None, deadline, [m]);
    assert [] + [m] == [m];
    if j > 0 {
      var parked := MessageState(None, Some(m), deadline, []);
      assert PollMessage(f, envs[0]) == (parked, Pending);
      assert envs[..j][1..] == envs[1..j];
      StaysParked(parked, envs[1..j], m);
      RunMessageFrom(f, envs, j);
      assert PollMessage(parked, envs[j]) == (sent, Await(sent, envs[j]));
    } else {
      assert envs[0..] == envs;
      assert PollMessage(f, envs[0]) == (sent, Await(sent, envs[0]));
    }
    var rest := envs[j..];
    hide PollMessage;
    if j < k {
      assert rest[1..] == envs[j + 1..];
      FirstReplyIsTaken(sent, rest[1..], k - j - 1);
    }
  }

  /** A poll at or after the deadline, the first to be so late, ends the future with a timeout, unless it is closed. */
  lemma TimesOut<M, R>(f: MessageState<M>, envs: seq<Env<R>>, k: nat, m: M)
    requires OnItsWay(f, m) || f == NewMessage(m, f.deadline)
    requires k < |envs| && RunMessage(f, envs[..k]).1.Pending? && f.deadline <= envs[k].now
    ensures var before := RunMessage(f, envs[..k]).0;
      RunMessage(f, envs).1 == Ready(Err(if FindsClosed(before, envs[k]) then ChannelClosed else Timeout))
  {
    PendingIsOnItsWay(f, envs[..k], m);
    RunMessageFrom(f, envs, k);
    PollAnswers(RunMessage(f, envs[..k]).0, envs[k], m);
  }

  lemma {:induction false} PendingIsOnItsWay<M, R>(f: MessageState<M>, envs: seq<Env<R>>, m: M)
    requires OnItsWay(f, m) || f == NewMessage(m, f.deadline)
    requires RunMessage(f, envs).1.Pending?
    ensures var after := RunMessage(f, envs).0;
      after.deadline == f.deadline && (OnItsWay(after, m) || (envs == [] && after == f))
    decreases |envs|
  {
    if envs != [] {
      PollKeepsOnce(f, envs[0], m);
      PendingIsOnItsWay(PollMessage(f, envs[0]).0, envs[1..], m);
    }
  }

  // ----- The HTTP future -----

  /** A command, then a wait for the navigation it causes; `done` once the command has resolved. */
  datatype HttpState<C, W> = HttpState(
    command: MessageState<C>, done: bool, navigation: MessageState<W>, timeout: nat)

  /** Both futures are constructed at `start`, each with its own timeout. */
  function NewHttp<C, W>(command: C, wait: W, start: Instant, commandTimeout: nat, timeout: nat): HttpState<C, W> {
    HttpState(NewMessage(command, start + commandTimeout), false, NewMessage(wait, start + timeout), timeout)
  }

  /** One poll: what the command meets, the time at which the wait is restarted, and what the wait meets. */
  datatype HttpEnv<R, N> = HttpEnv(command: Env<R>, restart: Instant, navigation: Env<N>)

  /** The clock is read anew for each part of a poll, and does not run backwards. */
  ghost predicate Clocked<R, N>(env: HttpEnv<R, N>) {
    env.command.now <= env.restart <= env.navigation.now
  }

  /** The longest time that passes in any poll between looking at the command and restarting the wait. */
  function Lag<R, N>(envs: seq<HttpEnv<R, N>>): nat {
    if envs == [] then 0
    else Max(Lag(envs[1..]), envs[0].restart - envs[0].command.now)
  }

  lemma {:induction false} LagBounds<R, N>(envs: seq<HttpEnv<R, N>>, i: nat)
    requires i < |envs|
    ensures envs[i].restart <= envs[i].command.now + Lag(envs)
  {
    if i > 0 {
      LagBounds(envs[1..], i - 1);
    }
  }

  function PollNavigation<C, W, N>(h: HttpState<C, W>, env: Env<N>): (HttpState<C, W>, Poll<Result<N, FutureError>>) {
    var (navigation, polled) := PollMessage(h.navigation, env);
    (h.(navigation := navigation), polled)
  }

  /** The navigation gets its full timeout from the moment the command succeeds. */
  function Restarted<C, W>(h: HttpState<C, W>, command: MessageState<C>, now: Instant): HttpState<C, W> {
    h.(command := command, done := true, navigation := h.navigation.(deadline := now + h.timeout))
  }

  function PollHttp<C, W, R, N>(h: HttpState<C, W>, env: HttpEnv<R, N>)
    : (HttpState<C, W>, Poll<Result<N, FutureError>>)
  {
    if h.done then PollNavigation(h, env.navigation)
    else
      var (command, polled) := PollMessage(h.command, env.command);
      match polled
      case Pending => (h.(command := command), Pending)
      case Ready(Err(e)) => (h.(command := command, done := true), Ready(Err(e)))
      case Ready(Ok(_)) => PollNavigation(Restarted(h, command, env.restart), env.navigation)
  }

  function RunHttp<C, W, R, N>(h: HttpState<C, W>, envs: seq<HttpEnv<R, N>>)
    : (HttpState<C, W>, Poll<Result<N, FutureError>>)
    decreases |envs|
  {
    if envs == [] then (h, Pending)
    else
      var (next, polled) := PollHttp(h, envs[0]);
      if polled.Ready? then (next, polled) else RunHttp(next, envs[1..])
  }

  function Commands<R, N>(envs: seq<HttpEnv<R, N>>): (r: seq<Env<R>>)
    ensures |r| == |envs| && forall i :: 0 <= i < |envs| ==> r[i] == envs[i].command
  {
    seq(|envs|, i requires 0 <= i < |envs| => envs[i].command)
  }

  function Waits<R, N>(envs: seq<HttpEnv<R, N>>): (r: seq<Env<N>>)
    ensures |r| == |envs| && forall i :: 0 <= i < |envs| ==> r[i] == envs[i].navigation
  {
    seq(|envs|, i requires 0 <= i < |envs| => envs[i].navigation)
  }

  /** Once the command has resolved, the future is the wait. */
  lemma {:induction false} DoneIsWait<C, W, R, N>(h: HttpState<C, W>, envs: seq<HttpEnv<R, N>>)
    requires h.done
    ensures var (after, polled) := RunHttp(h, envs);
      (after.navigation, polled) == RunMessage(h.navigation, Waits(envs)) && after.command == h.command
    decreases |envs|
  {
    if envs != [] {
      hide PollMessage;
      assert Waits(envs)[1..] == Waits(envs[1..]);
      DoneIsWait(PollHttp(h, envs[0]).0, envs[1..]);
    }
  }

  /** As long as the command is pending, the future is the command, and the wait is untouched. */
  lemma {:induction false} PendingIsCommand<C, W, R, N>(h: HttpState<C, W>, envs: seq<HttpEnv<R, N>>)
    requires !h.done && RunMessage(h.command, Commands(envs)).1.Pending?
    ensures RunHttp(h, envs) == (h.(command := RunMessage(h.command, Commands(envs)).0), Pending)
    decreases |envs|
  {
    if envs != [] {
      hide PollMessage;
      assert Commands(envs)[1..] == Commands(envs[1..]);
      PendingIsCommand(PollHttp(h, envs[0]).0, envs[1..]);
    }
  }

  lemma {:induction false} RunHttpFrom<C, W, R, N>(h: HttpState<C, W>, envs: seq<HttpEnv<R, N>>, k: nat)
    requires k <= |envs| && RunHttp(h, envs[..k]).1.Pending?
    ensures RunHttp(h, envs) == RunHttp(RunHttp(h, envs[..k]).0, envs[k..])
    decreases k
  {
    if k == 0 {
      assert envs[0..] == envs;
    } else {
      assert envs[..k][1..] == envs[1..][..k - 1] && envs[1..][k - 1..] == envs[k..];
      hide PollHttp;
      RunHttpFrom(PollHttp(h, envs[0]).0, envs[1..], k - 1);
    }
  }

  /**
   The future is the command and then the wait: if the command resolves at poll `k`, a failure is the answer and the
   wait stays untouched; after a success the answer is that of the wait, run with its full timeout from the moment of
   its restart, over the polls from `k` itself on.
   */
  lemma HttpIsCommandThenWait<C, W, R, N>(h: HttpState<C, W>, envs: seq<HttpEnv<R, N>>, k: nat)
    requires !h.done && k < |envs| && RunMessage(h.command, Commands(envs[..k])).1.Pending?
    requires PollMessage(RunMessage(h.command, Commands(envs[..k])).0, envs[k].command).1.Ready?
    ensures var resolved := PollMessage(RunMessage(h.command, Commands(envs[..k])).0, envs[k].command).1.value;
      var (after, polled) := RunHttp(h, envs);
      if resolved.Err? then polled == Ready(Err(resolved.error)) && after.navigation == h.navigation
      else (after.navigation, polled) ==
             RunMessage(h.navigation.(deadline := envs[k].restart + h.timeout), Waits(envs[k..]))
  {
    PendingIsCommand(h, envs[..k]);
    RunHttpFrom(h, envs, k);
    var at := RunHttp(h, envs[..k]).0;
    var (command, polled) := PollMessage(at.command, envs[k].command);
    assert envs[k..][0] == envs[k];
    hide PollMessage;
    if polled.value.Ok? {
      var done := Restarted(at, command, envs[k].restart);
      assert PollHttp(at, envs[k]) == PollHttp(done, envs[k]);
      DoneIsWait(done, envs[k..]);
    }
  }

  /** Still at the command, with the wait message untouched, or past a delivered command and on to the wait. */
  ghost predicate InOrder<C, W>(h: HttpState<C, W>, c: C, w: W) {
    if h.done then h.command.channel == [c] && OnItsWay(h.navigation, w)
    else (OnItsWay(h.command, c) || h.command == NewMessage(c, h.command.deadline))
         && h.navigation == NewMessage(w, h.navigation.deadline)
  }

  /**
   Latest moment by which the future resolves: the deadline of the wait, or that of the command, plus the time it takes
   to restart the wait, plus the timeout of the wait.
   */
  function Horizon<C, W>(h: HttpState<C, W>, lag: nat): Instant {
    if h.done then h.navigation.deadline else h.command.deadline + lag + h.timeout
  }

  lemma PollKeepsOrder<C, W, R, N>(h: HttpState<C, W>, env: HttpEnv<R, N>, lag: nat, c: C, w: W)
    requires InOrder(h, c, w) && Clocked(env) && env.restart <= env.command.now + lag
    ensures var (after, polled) := PollHttp(h, env);
      && (polled.Pending? ==> InOrder(after, c, w) && Horizon(after, lag) <= Horizon(h, lag))
      && after.timeout == h.timeout
      && (after.done && !h.done && polled.Pending? ==> after.navigation.deadline == env.restart + h.timeout)
      && (after.navigation.channel != [] ==> after.navigation.channel == [w] && after.command.channel == [c])
      && (after.navigation.channel != [] && !h.done ==>
            env.command.reply.Answer? && env.command.reply.result.Ok? && env.command.now < h.command.deadline)
      && (Horizon(h, lag) <= env.command.now ==> polled.Ready? && polled.value.Err?)
      && (polled.Ready? && polled.value.Ok? ==>
            after.navigation.channel == [w] && env.navigation.now < Horizon(h, lag)
            && env.navigation.reply == Answer(polled.value))
  {
    hide PollMessage;
    if h.done {
      PollKeepsOnce(h.navigation, env.navigation, w);
    } else {
      PollKeepsOnce(h.command, env.command, c);
      var (command, polled) := PollMessage(h.command, env.command);
      if polled.Ready? && polled.value.Ok? {
        PollKeepsOnce(Restarted(h, command, env.restart).navigation, env.navigation, w);
      }
    }
  }

  /** Some poll of the run, before the deadline, brought the success of the command. */
  ghost predicate CommandSucceeds<R, N>(envs: seq<HttpEnv<R, N>>, deadline: Instant) {
    exists i :: 0 <= i < |envs| && IsSuccess(envs[i].command, deadline)
  }

  predicate IsSuccess<R>(env: Env<R>, deadline: Instant) {
    env.now < deadline && env.reply.Answer? && env.reply.result.Ok?
  }

  /** Some poll of the run, before the horizon, brought `result` as the answer to the wait. */
  ghost predicate WaitAnswered<R, N>(envs: seq<HttpEnv<R, N>>, horizon: Instant, result: Result<N, FutureError>) {
    exists i :: 0 <= i < |envs| && envs[i].navigation.now < horizon && envs[i].navigation.reply == Answer(result)
  }

  lemma {:induction false} RunKeepsOrder<C, W, R, N>(
    h: HttpState<C, W>, envs: seq<HttpEnv<R, N>>, lag: nat, c: C, w: W)
    requires InOrder(h, c, w)
    requires forall i :: 0 <= i < |envs| ==> Clocked(envs[i]) && envs[i].restart <= envs[i].command.now + lag
    ensures var (after, polled) := RunHttp(h, envs);
      && (after.navigation.channel != [] ==>
            after.navigation.channel == [w] && after.command.channel == [c]
            && (h.done || CommandSucceeds(envs, h.command.deadline)))
      && (polled.Ready? && polled.value.Ok? ==>
            after.navigation.channel == [w] && WaitAnswered(envs, Horizon(h, lag), polled.value))
      && ((exists i :: 0 <= i < |envs| && Horizon(h, lag) <= envs[i].command.now) ==> polled.Ready?)
    decreases |envs|
  {
    if envs != [] {
      PollKeepsOrder(h, envs[0], lag, c, w);
      var (next, polled) := PollHttp(h, envs[0]);
      var rest := envs[1..];
      assert forall i :: 0 <= i < |rest| ==> rest[i] == envs[i + 1];
      if polled.Pending? {
        RunKeepsOrder(next, rest, lag, c, w);
        DeadlineKept(h, envs[0]);
        if next.done && !h.done {
          CommandJustSucceeded(h, envs[0], c, w);
        }
      }
    }
  }

  lemma DeadlineKept<C, W, R, N>(h: HttpState<C, W>, env: HttpEnv<R, N>)
    ensures PollHttp(h, env).0.command.deadline == h.command.deadline
  {
  }

  /** The wait begins in the very poll that brings the success of the command. */
  lemma CommandJustSucceeded<C, W, R, N>(h: HttpState<C, W>, env: HttpEnv<R, N>, c: C, w: W)
    requires InOrder(h, c, w) && !h.done
    requires PollHttp(h, env).0.done && PollHttp(h, env).1.Pending?
    ensures IsSuccess(env.command, h.command.deadline)
  {
    PollKeepsOnce(h.command, env.command, c);
    hide PollMessage;
  }

  /**
   For every schedule: the wait message enters the channel at most once, after the command has been delivered and has
   succeeded in time; a success is an answer to it; and the future has resolved by the first poll at or after the
   command's deadline plus the timeout of the wait, plus the time that passed between seeing the success of the command
   and restarting the wait.
   */
  lemma HttpRuns<C, W, R, N>(
    c: C, w: W, start: Instant, commandTimeout: nat, timeout: nat, envs: seq<HttpEnv<R, N>>)
    requires forall i :: 0 <= i < |envs| ==> Clocked(envs[i])
    ensures var deadline, horizon := start + commandTimeout, start + commandTimeout + Lag(envs) + timeout;
      var (after, polled) := RunHttp(NewHttp(c, w, start, commandTimeout, timeout), envs);
      && (after.navigation.channel != [] ==>
            after.navigation.channel == [w] && after.command.channel == [c] && CommandSucceeds(envs, deadline))
      && (polled.Ready? && polled.value.Ok? ==>
            after.navigation.channel == [w] && WaitAnswered(envs, horizon, polled.value))
      && ((exists i :: 0 <= i < |envs| && horizon <= envs[i].command.now) ==> polled.Ready?)
  {
    forall i | 0 <= i < |envs| ensures envs[i].restart <= envs[i].command.now + Lag(envs) {
      LagBounds(envs, i);
    }
    RunKeepsOrder(NewHttp(c, w, start, commandTimeout, timeout), envs, Lag(envs), c, w);
  }

  /** Once the command has succeeded, the wait has resolved by the moment of its restart plus its timeout. */
  lemma ResolvesAfterSuccess<C, W, R, N>(
    h: HttpState<C, W>, env: HttpEnv<R, N>, later: seq<HttpEnv<R, N>>, c: C, w: W)
    requires InOrder(h, c, w) && Clocked(env) && !h.done
    requires forall i :: 0 <= i < |later| ==> Clocked(later[i])
    requires PollHttp(h, env).0.done && PollHttp(h, env).1.Pending?
    ensures var polled := RunHttp(PollHttp(h, env).0, later).1;
      && ((exists i :: 0 <= i < |later| && env.restart + h.timeout <= later[i].command.now) ==> polled.Ready?)
      && (polled.Ready? && polled.value.Ok? ==> WaitAnswered(later, env.restart + h.timeout, polled.value))
  {
    PollKeepsOrder(h, env, env.restart - env.command.now, c, w);
    forall i | 0 <= i < |later| ensures later[i].restart <= later[i].command.now + Lag(later) {
      LagBounds(later, i);
    }
    RunKeepsOrder(PollHttp(h, env).0, later, Lag(later), c, w);
  }

  /**
   A future must not be polled once it has resolved: after a failed command a further poll goes on to the wait, and its
   message enters the channel although the command never succeeded.
   */
  lemma PolledAgainAfterFailure<C, W, R, N>(
    h: HttpState<C, W>, env: HttpEnv<R, N>, again: HttpEnv<R, N>, c: C, w: W)
    requires InOrder(h, c, w) && !h.done
    requires var polled := PollMessage(h.command, env.command).1; polled.Ready? && polled.value.Err?
    ensures var (failed, polled) := PollHttp(h, env);
      && polled.Ready? && polled.value.Err?
      && (PollHttp(failed, again).0.navigation.channel == [w] <==>
            again.navigation.trySend.Accepted? || (again.navigation.trySend.Full? && again.navigation.send.Delivered?))
  {
    var failed := PollHttp(h, env).0;
    assert failed.done && failed.navigation == h.navigation;
    assert PollHttp(failed, again) == PollNavigation(failed, again.navigation);
  }
}
