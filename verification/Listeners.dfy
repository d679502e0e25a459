/** The listener registry and the event stream as the source has them, changed in place. */
module Listeners {
  import opened BudgetedPoll
  import opened ListenerModel
  import opened Wrappers

  const MAX_WRONG_TYPE_PER_POLL: nat := 32

  /** `EventListener::flush`: sends the queued events one by one, and fails at the first that nobody receives. */
  method FlushListener(l: Listener, dropped: set<ListenerId>) returns (after: Listener, ok: bool)
    ensures ok <==> !l.FlushFails(dropped)
    ensures ok ==> after == l.Flushed()
  {
    after := l;
    while after.queued != []
      invariant after.id == l.id && after.kind == l.kind && after.Dispatched() == l.Dispatched()
      invariant l.queued == [] || l.id !in dropped || after == l
      decreases |after.queued|
    {
      var event := after.queued[0];
      if after.id in dropped {
        return after.(queued := after.queued[1..]), false;
      }
      assert after.delivered + after.queued == (after.delivered + [event]) + after.queued[1..];
      after := after.(queued := after.queued[1..], delivered := after.delivered + [event]);
    }
    assert after.delivered + [] == after.delivered;
    ok := true;
  }

  class EventListeners {
    var listeners: map<MethodId, seq<Listener>>
    /** The process-wide id counter. */
    var nextListenerId: ListenerId

    ghost function State(): Registry
      reads this
    {
      Registry(listeners, nextListenerId)
    }

    ghost predicate Valid()
      reads this
    {
      NoEmptyList(State())
    }

    constructor ()
      ensures Valid() && State() == EMPTY
    {
      listeners, nextListenerId := map[], 1;
    }

    method AddListener(methodId: MethodId, kind: EventKind) returns (id: ListenerId)
      requires Valid()
      modifies this
      ensures Valid() && id == old(nextListenerId) && State() == OnAdd(old(State()), methodId, kind)
    {
      id := nextListenerId;
      nextListenerId := (nextListenerId + 1) % U64_SPAN;
      var subs := if methodId in listeners then listeners[methodId] else [];
      listeners := listeners[methodId := subs + [Listener(id, kind, [], [])]];
    }

    method RemoveListener(methodId: MethodId, id: ListenerId) returns (removed: bool)
      requires Valid()
      modifies this`listeners
      ensures Valid() && State() == OnRemove(old(State()), methodId, id)
      ensures removed <==> exists l :: l in Subscribers(old(listeners), methodId) && l.id == id
    {
      if methodId !in listeners {
        return false;
      }
      var subs := WithoutId(listeners[methodId], id);
      RemovesSomeIff(listeners[methodId], id);
      removed := |subs| != |listeners[methodId]|;
      if subs == [] {
        listeners := listeners - {methodId};
      } else {
        listeners := listeners[methodId := subs];
      }
    }

    method RemoveAllForMethod(methodId: MethodId) returns (count: nat)
      requires Valid()
      modifies this`listeners
      ensures Valid() && State() == OnRemoveAll(old(State()), methodId)
      ensures count == |Subscribers(old(listeners), methodId)|
    {
      count := if methodId in listeners then |listeners[methodId]| else 0;
      listeners := listeners - {methodId};
    }

    /** Queues an event for each subscriber, or only for those of custom events. */
    static method QueueEach(subs: seq<Listener>, event: Event, customOnly: bool) returns (queued: seq<Listener>)
      ensures queued == QueueAll(subs, event, customOnly)
    {
      queued := [];
      hide QueueAll;
      assert subs[0..] == subs;
      for i := 0 to |subs|
        invariant QueueAll(subs, event, customOnly) == queued + QueueAll(subs[i..], event, customOnly)
      {
        QueueAllFrom(subs, event, customOnly, i);
        queued := queued + [if Takes(subs[i].kind, customOnly) then subs[i].Queue(event) else subs[i]];
      }
      QueueAllFrom(subs, event, customOnly, |subs|);
    }

    method QueueFor(methodId: MethodId, event: Event, customOnly: bool)
      requires Valid() && methodId in listeners
      modifies this`listeners
      ensures Valid() && State() == Dispatch(old(State()), methodId, event, customOnly)
    {
      DispatchKeepsNoEmptyList(State(), methodId, event, customOnly);
      hide NoEmptyList, QueueAll;
      var subs := QueueEach(listeners[methodId], event, customOnly);
      listeners := listeners[methodId := subs];
    }

    method StartSend(methodId: MethodId, event: Event)
      requires Valid()
      modifies this`listeners
      ensures Valid() && State() == Dispatch(old(State()), methodId, event, false)
    {
      if methodId in listeners {
        QueueFor(methodId, event, false);
      }
    }

    /** Fails, and queues nothing, if the first custom listener's conversion fails. */
    method TrySendCustom(methodId: MethodId, value: string, convert: Converter) returns (ok: bool)
      requires Valid()
      modifies this`listeners
      ensures Valid() && State() == OnCustom(old(State()), methodId, value, convert)
      ensures ok <==> !Convert(old(State()), methodId, value, convert).Unconvertible?
    {
      if methodId in listeners {
        var typeName := FirstCustom(listeners[methodId]);
        if typeName.Some? {
          var payload := convert(typeName.value, value);
          if payload.None? {
            return false;
          }
          QueueFor(methodId, Event(typeName.value, payload.value), true);
        }
      }
      ok := true;
    }

    /** Flushes the listeners of one method and keeps those whose receivers are there. */
    static method FlushMethod(subs: seq<Listener>, dropped: set<ListenerId>)
      returns (kept: seq<Listener>, disconnected: bool)
      ensures kept == FlushAll(subs, dropped)
      ensures !disconnected ==> |kept| == |subs|
    {
      kept, disconnected := [], false;
      hide FlushAll;
      assert subs[0..] == subs;
      for i := 0 to |subs|
        invariant FlushAll(subs, dropped) == kept + FlushAll(subs[i..], dropped)
        invariant !disconnected ==> |kept| == i
      {
        FlushAllFrom(subs, dropped, i);
        var l, ok := FlushListener(subs[i], dropped);
        if ok {
          kept := kept + [l];
        } else {
          disconnected := true;
        }
      }
      FlushAllFrom(subs, dropped, |subs|);
    }

    method Flush(dropped: set<ListenerId>)
      requires Valid()
      modifies this`listeners
      ensures Valid() && State() == OnFlush(old(State()), dropped)
    {
      hide FlushAll;
      ghost var before := listeners;
      var todo, anyDisconnected := listeners.Keys, false;
      while todo != {}
        invariant todo <= before.Keys && listeners.Keys == before.Keys
        invariant forall m :: m in todo ==> listeners[m] == before[m]
        invariant forall m :: m in before && m !in todo ==> listeners[m] == FlushAll(before[m], dropped)
        invariant !anyDisconnected ==> forall m :: m in before ==> listeners[m] != []
        decreases |todo|
      {
        var m :| m in todo;
        var kept, disconnected := FlushMethod(listeners[m], dropped);
        listeners := listeners[m := kept];
        todo, anyDisconnected := todo - {m}, anyDisconnected || disconnected;
      }
      FlushedIsOnFlush(Registry(before, nextListenerId), listeners, dropped);
      if anyDisconnected {
        listeners := NonEmpty(listeners);
      }
    }
  }

  /** `retain`: the methods whose lists are not empty. */
  function NonEmpty(listeners: Subscriptions): Subscriptions {
    map m | m in listeners && listeners[m] != [] :: listeners[m]
  }

  lemma FlushedIsOnFlush(s: Registry, flushed: Subscriptions, dropped: set<ListenerId>)
    requires flushed.Keys == s.listeners.Keys
    requires forall m :: m in s.listeners ==> flushed[m] == FlushAll(s.listeners[m], dropped)
    ensures NonEmpty(flushed) == OnFlush(s, dropped).listeners && NoEmptyList(OnFlush(s, dropped))
    ensures (forall m :: m in flushed ==> flushed[m] != []) ==> NonEmpty(flushed) == flushed
  {
    hide FlushAll;
  }

  lemma {:induction false} RemovesSomeIff(subs: seq<Listener>, id: ListenerId)
    ensures |WithoutId(subs, id)| <= |subs|
    ensures |WithoutId(subs, id)| != |subs| <==> exists l :: l in subs && l.id == id
  {
    if subs != [] {
      RemovesSomeIff(subs[1..], id);
      if subs[0].id == id {
        assert subs[0] in subs;
      }
    }
  }

  // ----- The stream -----

  /** What the stream yields for one event: nothing for one of the wrong type. */
  function Downcast(event: Event, typeName: TypeName): Option<Event> {
    if event.typeName == typeName then Some(event) else None
  }

  function Downcasts(events: seq<Event>, typeName: TypeName): (r: seq<Option<Event>>)
    ensures |r| == |events|
    ensures forall i :: 0 <= i < |events| ==> r[i] == Downcast(events[i], typeName)
  {
    if events == [] then [] else [Downcast(events[0], typeName)] + Downcasts(events[1..], typeName)
  }

  class EventStream {
    const typeName: TypeName
    /** The receiving end of the channel, and whether its sender is gone. */
    var events: seq<Event>
    var closed: bool

    constructor (typeName: TypeName)
      ensures this.typeName == typeName && events == [] && !closed
    {
      this.typeName, events, closed := typeName, [], false;
    }

    /** `woken` tells that the poll gave up after 32 events of the wrong type and woke its own task. */
    method PollNext() returns (polled: Poll<Option<Event>>, woken: bool)
      modifies this`events
      ensures var (read, n) := PollOnce(Downcasts(old(events), typeName), MAX_WRONG_TYPE_PER_POLL);
        && events == old(events)[n..]
        && (woken <==> read.None? && n == MAX_WRONG_TYPE_PER_POLL)
        && polled == if read.Some? then Ready(Some(read.value)) else if !woken && closed then Ready(None) else Pending
    {
      ghost var downcasts := Downcasts(events, typeName);
      hide Downcasts, PollOnce, Unwanted;
      for i := 0 to MAX_WRONG_TYPE_PER_POLL
        invariant i <= |old(events)| && i <= Unwanted(downcasts) && events == old(events)[i..]
      {
        PollFrom(downcasts, MAX_WRONG_TYPE_PER_POLL, i);
        if events == [] {
          return if closed then Ready(None) else Pending, false;
        }
        var event := events[0];
        events := events[1..];
        if event.typeName == typeName {
          return Ready(Some(event)), false;
        }
      }
      PollFrom(downcasts, MAX_WRONG_TYPE_PER_POLL, MAX_WRONG_TYPE_PER_POLL);
      return Pending, true;
    }
  }

  /** The events of one type, in order. */
  function OfType(events: seq<Event>, typeName: TypeName): seq<Event> {
    if events == [] then []
    else (if events[0].typeName == typeName then [events[0]] else []) + OfType(events[1..], typeName)
  }

  function DowncastBatches(arrivals: seq<seq<Event>>, typeName: TypeName): (r: seq<seq<Option<Event>>>)
    ensures |r| == |arrivals|
  {
    if arrivals == [] then [] else [Downcasts(arrivals[0], typeName)] + DowncastBatches(arrivals[1..], typeName)
  }

  lemma {:induction false} ConcatOfDowncasts(arrivals: seq<seq<Event>>, typeName: TypeName)
    ensures Concat(DowncastBatches(arrivals, typeName)) == Downcasts(Concat(arrivals), typeName)
  {
    if arrivals != [] {
      ConcatOfDowncasts(arrivals[1..], typeName);
    }
  }

  lemma {:induction false} WantedAreOfType(events: seq<Event>, typeName: TypeName)
    ensures Wanted(Downcasts(events, typeName)) == OfType(events, typeName)
  {
    if events != [] {
      WantedAreOfType(events[1..], typeName);
      WantedCons(Downcast(events[0], typeName), Downcasts(events[1..], typeName));
    }
  }

  /**
   However events arrive between polls, the stream yields exactly the events of its type, in order: those yielded so
   far and those of its type still in the channel are all that ever arrived.
   */
  lemma StreamYieldsItsType(arrivals: seq<seq<Event>>, typeName: TypeName)
    ensures var (polls, rest) := Polls([], DowncastBatches(arrivals, typeName), MAX_WRONG_TYPE_PER_POLL);
      Wanted(polls) + Wanted(rest) == OfType(Concat(arrivals), typeName)
  {
    var batches := DowncastBatches(arrivals, typeName);
    PollsConserve([], batches, MAX_WRONG_TYPE_PER_POLL);
    ConcatOfDowncasts(arrivals, typeName);
    WantedAreOfType(Concat(arrivals), typeName);
    assert [] + Concat(batches) == Concat(batches);
  }

  /** An event behind `n` of the wrong type comes out of poll `n / 32`, counted from zero. */
  lemma EventArrivesOnTime(queue: seq<Event>, arrivals: seq<seq<Event>>, typeName: TypeName)
    requires var n := Unwanted(Downcasts(queue, typeName)); n < |queue| && n / MAX_WRONG_TYPE_PER_POLL < |arrivals|
    ensures var n := Unwanted(Downcasts(queue, typeName));
      var polls := Polls(Downcasts(queue, typeName), DowncastBatches(arrivals, typeName), MAX_WRONG_TYPE_PER_POLL).0;
      && n / MAX_WRONG_TYPE_PER_POLL < |polls|
      && polls[n / MAX_WRONG_TYPE_PER_POLL] == Downcast(queue[n], typeName)
      && forall i :: 0 <= i < n / MAX_WRONG_TYPE_PER_POLL ==> polls[i].None?
  {
    ArrivesOnTime(Downcasts(queue, typeName), DowncastBatches(arrivals, typeName), MAX_WRONG_TYPE_PER_POLL);
  }

  lemma {:induction false} OfTypeConcat(a: seq<Event>, b: seq<Event>, typeName: TypeName)
    ensures OfType(a + b, typeName) == OfType(a, typeName) + OfType(b, typeName)
  {
    if a == [] {
      assert a + b == b;
    } else {
      OfTypeConcat(a[1..], b, typeName);
      assert (a + b)[1..] == a[1..] + b && (a + b)[0] == a[0];
      var first, rest := if a[0].typeName == typeName then [a[0]] else [], OfType(a[1..], typeName);
      assert first + (rest + OfType(b, typeName)) == (first + rest) + OfType(b, typeName);
    }
  }

  /**
   From dispatch to stream: whatever the run, what a stream of some type can take from the channel of a registered
   listener, followed by what its queue still holds for it, is exactly what was dispatched of that type since the
   listener was registered.
   */
  lemma StreamSeesDispatched(ops: seq<Op>, convert: Converter, m: MethodId, l: Listener, typeName: TypeName)
    requires l in Subscribers(Run(ops, convert).listeners, m)
    ensures exists r: nat :: (
      && RegisteredBy(ops, convert, m, l, r)
      && OfType(l.delivered, typeName) + OfType(l.queued, typeName)
        == OfType(DispatchedSince(ops, r + 1, convert, m, l.kind), typeName))
  {
    EveryListenerHasAHistory(ops, convert);
    OfTypeConcat(l.delivered, l.queued, typeName);
  }
}
