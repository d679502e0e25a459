/** The futures as the source has them: fields that each poll takes, sets and clears. */
module Futures {
  import opened FutureModel
  import opened Wrappers

  /** `CommandFuture` and `TargetMessageFuture`, whose polls differ only in how a reply is converted. */
  class MessageFuture<M, R> {
    var message: Option<M>
    var sendFut: Option<M>
    var deadline: Instant
    const requestTimeout: nat
    /** What this future has put into the target's channel. */
    var channel: seq<M>

    ghost function State(): MessageState<M>
      reads this
    {
      MessageState(message, sendFut, deadline, channel)
    }

    constructor (message: M, now: Instant, requestTimeout: nat)
      ensures State() == NewMessage(message, now + requestTimeout) && this.requestTimeout == requestTimeout
    {
      this.message, sendFut, deadline, channel := Some(message), None, now + requestTimeout, [];
      this.requestTimeout := requestTimeout;
    }

    method ResetDeadline(now: Instant)
      modifies this`deadline
      ensures State() == old(State()).(deadline := now + requestTimeout)
    {
      deadline := now + requestTimeout;
    }

    method Poll(env: Env<R>) returns (polled: Poll<Result<R, FutureError>>)
      modifies this`message, this`sendFut, this`channel
      ensures (State(), polled) == PollMessage(old(State()), env)
    {
      if message.Some? {
        var taken := message.value;
        message := None;
        match env.trySend {
          case Accepted => channel := channel + [taken];
          case Full => sendFut := Some(taken);
          case Closed => return Ready(Err(ChannelClosed));
        }
      }
      if sendFut.Some? {
        match env.send {
          case Delivered =>
            channel := channel + [sendFut.value];
            sendFut := None;
          case Disconnected =>
            return Ready(Err(ChannelClosed));
          case Waiting =>
            return if deadline <= env.now then Ready(Err(Timeout)) else Pending;
        }
      }
      if deadline <= env.now {
        return Ready(Err(Timeout));
      }
      match env.reply {
        case NoReply => return Pending;
        case Answer(result) => return Ready(result);
        case Dropped => return Ready(Err(ReplyDropped));
      }
    }
  }

  class HttpFuture<C, R, W, N> {
    const command: MessageFuture<C, R>
    var terminated: bool
    const navigation: MessageFuture<W, N>

    ghost predicate Valid()
    {
      command as object != navigation
    }

    ghost function State(): HttpState<C, W>
      reads this, command, navigation
    {
      HttpState(command.State(), terminated, navigation.State(), navigation.requestTimeout)
    }

    constructor (command: MessageFuture<C, R>, wait: W, now: Instant, requestTimeout: nat)
      ensures Valid() && fresh(navigation) && this.command == command
      ensures State() == HttpState(command.State(), false, NewMessage(wait, now + requestTimeout), requestTimeout)
    {
      this.command, terminated := command, false;
      navigation := new MessageFuture(wait, now, requestTimeout);
    }

    method Poll(env: HttpEnv<R, N>) returns (polled: Poll<Result<N, FutureError>>)
      requires Valid()
      modifies this`terminated, command, navigation
      ensures Valid() && (State(), polled) == PollHttp(old(State()), env)
    {
      hide PollMessage;
      if terminated {
        polled := navigation.Poll(env.navigation);
      } else {
        var response := command.Poll(env.command);
        match response {
          case Pending =>
            return Pending;
          case Ready(Err(e)) =>
            terminated := true;
            return Ready(Err(e));
          case Ready(Ok(_)) =>
            terminated := true;
            navigation.ResetDeadline(env.restart);
            polled := navigation.Poll(env.navigation);
        }
      }
    }
  }
}
