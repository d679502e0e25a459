/**
 The registry of event listeners as a value: dispatched events are queued per listener and flushed into its channel.
 Which receivers have been dropped, and whether a custom event converts, is the environment's choice.
 */
module ListenerModel {
  import opened Wrappers

  type MethodId = string
  type ListenerId = nat
  type TypeName = string

  /** An event of some type; a stream takes only those of the type it was made for. */
  datatype Event = Event(typeName: TypeName, payload: string)

  datatype EventKind = BuiltIn | Custom(typeName: TypeName)

  /** Conversion of a JSON value to a custom event of a type. */
  type Converter = (TypeName, string) -> Option<string>

  /** `delivered` is everything that has been sent into the channel of the listener. */
  datatype Listener = Listener(id: ListenerId, kind: EventKind, queued: seq<Event>, delivered: seq<Event>) {
    function Queue(event: Event): Listener {
      this.(queued := queued + [event])
    }

    /** Everything dispatched to the listener, whether it has been sent into the channel yet or not. */
    function Dispatched(): seq<Event> {
      delivered + queued
    }

    /** A flush fails when there is something to send and nobody to receive it. */
    predicate FlushFails(dropped: set<ListenerId>) {
      queued != [] && id in dropped
    }

    function Flushed(): Listener {
      this.(queued := [], delivered := delivered + queued)
    }
  }

  type Subscriptions = map<MethodId, seq<Listener>>

  datatype Registry = Registry(listeners: Subscriptions, nextId: ListenerId)

  const EMPTY: Registry := Registry(map[], 1)

  function Subscribers(listeners: Subscriptions, methodId: MethodId): seq<Listener> {
    if methodId in listeners then listeners[methodId] else []
  }

  // ----- Operations -----

  function OnAdd(s: Registry, methodId: MethodId, kind: EventKind): Registry {
    Registry(
      s.listeners[methodId := Subscribers(s.listeners, methodId) + [Listener(s.nextId, kind, [], [])]],
      (s.nextId + 1) % U64_SPAN)
  }

  function WithoutId(subs: seq<Listener>, id: ListenerId): seq<Listener> {
    if subs == [] then []
    else (if subs[0].id == id then [] else [subs[0]]) + WithoutId(subs[1..], id)
  }

  /** The list under a method is replaced, or removed once it is empty. */
  function Replace(listeners: Subscriptions, methodId: MethodId, subs: seq<Listener>): Subscriptions {
    if subs == [] then listeners - {methodId} else listeners[methodId := subs]
  }

  function OnRemove(s: Registry, methodId: MethodId, id: ListenerId): Registry {
    if methodId !in s.listeners then s
    else s.(listeners := Replace(s.listeners, methodId, WithoutId(s.listeners[methodId], id)))
  }

  function OnRemoveAll(s: Registry, methodId: MethodId): Registry {
    s.(listeners := s.listeners - {methodId})
  }

  /** Which listeners of the method an event goes to: all of them, or only those for custom events. */
  predicate Takes(kind: EventKind, customOnly: bool) {
    !customOnly || kind.Custom?
  }

  function QueueAll(subs: seq<Listener>, event: Event, customOnly: bool): seq<Listener> {
    if subs == [] then []
    else
      [if Takes(subs[0].kind, customOnly) then subs[0].Queue(event) else subs[0]]
      + QueueAll(subs[1..], event, customOnly)
  }

  function Dispatch(s: Registry, methodId: MethodId, event: Event, customOnly: bool): Registry {
    if methodId !in s.listeners then s
    else s.(listeners := s.listeners[methodId := QueueAll(s.listeners[methodId], event, customOnly)])
  }

  /** The type of the first custom listener, which converts the event for all of them. */
  function FirstCustom(subs: seq<Listener>): Option<TypeName> {
    if subs == [] then None
    else if subs[0].kind.Custom? then Some(subs[0].kind.typeName)
    else FirstCustom(subs[1..])
  }

  datatype Conversion = Nobody | Unconvertible | Converted(event: Event)

  function Convert(s: Registry, methodId: MethodId, value: string, convert: Converter): Conversion {
    match FirstCustom(Subscribers(s.listeners, methodId))
    case None => Nobody
    case Some(typeName) =>
      match convert(typeName, value)
      case None => Unconvertible
      case Some(payload) => Converted(Event(typeName, payload))
  }

  function OnCustom(s: Registry, methodId: MethodId, value: string, convert: Converter): Registry {
    match Convert(s, methodId, value, convert)
    case Converted(event) => Dispatch(s, methodId, event, true)
    case _ => s
  }

  /** The listeners that stay, each with its queue sent; those whose flush fails go. */
  function FlushAll(subs: seq<Listener>, dropped: set<ListenerId>): seq<Listener> {
    if subs == [] then []
    else (if subs[0].FlushFails(dropped) then [] else [subs[0].Flushed()]) + FlushAll(subs[1..], dropped)
  }

  lemma QueueAllFrom(subs: seq<Listener>, event: Event, customOnly: bool, i: nat)
    requires i <= |subs|
    ensures QueueAll(subs[i..], event, customOnly) ==
      if i == |subs| then []
      else [if Takes(subs[i].kind, customOnly) then subs[i].Queue(event) else subs[i]]
           + QueueAll(subs[i + 1..], event, customOnly)
  {
    assert i < |subs| ==> subs[i..][1..] == subs[i + 1..];
  }

  lemma FlushAllFrom(subs: seq<Listener>, dropped: set<ListenerId>, i: nat)
    requires i <= |subs|
    ensures FlushAll(subs[i..], dropped) ==
      if i == |subs| then []
      else (if subs[i].FlushFails(dropped) then [] else [subs[i].Flushed()]) + FlushAll(subs[i + 1..], dropped)
  {
    assert i < |subs| ==> subs[i..][1..] == subs[i + 1..];
  }

  function OnFlush(s: Registry, dropped: set<ListenerId>): Registry {
    s.(listeners :=
         map m | m in s.listeners && FlushAll(s.listeners[m], dropped) != [] :: FlushAll(s.listeners[m], dropped))
  }

  // ----- Runs -----

  datatype Op =
    | Add(methodId: MethodId, kind: EventKind)
    | Remove(methodId: MethodId, id: ListenerId)
    | RemoveAll(methodId: MethodId)
    | StartSend(methodId: MethodId, event: Event)
    | TrySendCustom(methodId: MethodId, value: string)
    | Flush(dropped: set<ListenerId>)

  function Step(s: Registry, op: Op, convert: Converter): Registry {
    match op
    case Add(methodId, kind) => OnAdd(s, methodId, kind)
    case Remove(methodId, id) => OnRemove(s, methodId, id)
    case RemoveAll(methodId) => OnRemoveAll(s, methodId)
    case StartSend(methodId, event) => Dispatch(s, methodId, event, false)
    case TrySendCustom(methodId, value) => OnCustom(s, methodId, value, convert)
    case Flush(dropped) => OnFlush(s, dropped)
  }

  function Run(ops: seq<Op>, convert: Converter): Registry {
    if ops == [] then EMPTY else Step(Run(ops[..|ops| - 1], convert), ops[|ops| - 1], convert)
  }

  /** What an operation dispatches to a listener of that method and kind. */
  function Dispatches(s: Registry, op: Op, convert: Converter, methodId: MethodId, kind: EventKind): seq<Event> {
    match op
    case StartSend(m, event) => if m == methodId then [event] else []
    case TrySendCustom(m, value) =>
      var converted := Convert(s, m, value, convert);
      if m == methodId && kind.Custom? && converted.Converted? then [converted.event] else []
    case _ => []
  }

  /** What the operations from the `from`th on dispatch to a listener of that method and kind, in order. */
  function DispatchedSince(ops: seq<Op>, from: nat, convert: Converter, methodId: MethodId, kind: EventKind)
    : seq<Event>
  {
    if |ops| <= from then []
    else
      var before := ops[..|ops| - 1];
      DispatchedSince(before, from, convert, methodId, kind)
      + Dispatches(Run(before, convert), ops[|ops| - 1], convert, methodId, kind)
  }

  // ----- No list is empty -----

  ghost predicate NoEmptyList(s: Registry) {
    forall m :: m in s.listeners ==> s.listeners[m] != []
  }

  lemma DispatchKeepsNoEmptyList(s: Registry, methodId: MethodId, event: Event, customOnly: bool)
    requires NoEmptyList(s)
    ensures NoEmptyList(Dispatch(s, methodId, event, customOnly))
  {
  }

  lemma StepKeepsNoEmptyList(s: Registry, op: Op, convert: Converter)
    requires NoEmptyList(s)
    ensures NoEmptyList(Step(s, op, convert))
  {
    hide WithoutId, FlushAll, Convert;
  }

  // ----- What each listener has been sent -----

  /** Where `l` in the list after an operation comes from: it is new, or it was there and took what was dispatched. */
  ghost predicate Carried(s: Registry, op: Op, convert: Converter, m: MethodId, l: Listener) {
    || (op == Add(m, l.kind) && l == Listener(s.nextId, l.kind, [], []))
    || exists prior ::
         prior in Subscribers(s.listeners, m) && Continues(prior, l, Dispatches(s, op, convert, m, l.kind))
  }

  ghost predicate Continues(before: Listener, after: Listener, events: seq<Event>) {
    after.id == before.id && after.kind == before.kind && after.Dispatched() == before.Dispatched() + events
  }

  lemma {:induction false} WithoutIdKeeps(subs: seq<Listener>, id: ListenerId, l: Listener)
    ensures l in WithoutId(subs, id) <==> l in subs && l.id != id
  {
    if subs != [] {
      WithoutIdKeeps(subs[1..], id, l);
    }
  }

  lemma {:induction false} QueueAllContinues(subs: seq<Listener>, event: Event, customOnly: bool, l: Listener)
    returns (before: Listener)
    requires l in QueueAll(subs, event, customOnly)
    ensures before in subs && Continues(before, l, if Takes(l.kind, customOnly) then [event] else [])
  {
    var first := if Takes(subs[0].kind, customOnly) then subs[0].Queue(event) else subs[0];
    if l == first {
      before := subs[0];
      assert before.Dispatched() + [] == before.Dispatched();
      assert before.delivered + (before.queued + [event]) == before.Dispatched() + [event];
    } else {
      before := QueueAllContinues(subs[1..], event, customOnly, l);
    }
  }

  lemma {:induction false} FlushAllContinues(subs: seq<Listener>, dropped: set<ListenerId>, l: Listener)
    returns (before: Listener)
    requires l in FlushAll(subs, dropped)
    ensures before in subs && !before.FlushFails(dropped) && l == before.Flushed() && Continues(before, l, [])
  {
    if !subs[0].FlushFails(dropped) && l == subs[0].Flushed() {
      before := subs[0];
      assert l.Dispatched() == before.Dispatched() + [];
    } else {
      before := FlushAllContinues(subs[1..], dropped, l);
    }
  }

  lemma Unchanged(l: Listener)
    ensures Continues(l, l, [])
  {
    assert l.Dispatched() + [] == l.Dispatched();
  }

  lemma DispatchCarries(s: Registry, methodId: MethodId, event: Event, customOnly: bool, m: MethodId, l: Listener)
    returns (before: Listener)
    requires l in Subscribers(Dispatch(s, methodId, event, customOnly).listeners, m)
    ensures before in Subscribers(s.listeners, m)
    ensures Continues(before, l, if m == methodId && Takes(l.kind, customOnly) then [event] else [])
  {
    if m == methodId && m in s.listeners {
      before := QueueAllContinues(s.listeners[m], event, customOnly, l);
    } else {
      before := l;
      Unchanged(l);
    }
  }

  lemma CustomCarries(
    s: Registry, methodId: MethodId, value: string, convert: Converter, m: MethodId, l: Listener)
    returns (before: Listener)
    requires l in Subscribers(OnCustom(s, methodId, value, convert).listeners, m)
    ensures before in Subscribers(s.listeners, m)
    ensures Continues(before, l, Dispatches(s, TrySendCustom(methodId, value), convert, m, l.kind))
  {
    hide Convert, Dispatch, Continues;
    match Convert(s, methodId, value, convert) {
      case Converted(event) =>
        before := DispatchCarries(s, methodId, event, true, m, l);
      case _ =>
        before := l;
        Unchanged(l);
    }
  }

  lemma CarriedFrom(s: Registry, op: Op, convert: Converter, m: MethodId, l: Listener, prior: Listener)
    requires prior in Subscribers(s.listeners, m)
    requires Continues(prior, l, Dispatches(s, op, convert, m, l.kind))
    ensures Carried(s, op, convert, m, l)
  {
  }

  lemma StepCarries(s: Registry, op: Op, convert: Converter, m: MethodId, l: Listener)
    requires l in Subscribers(Step(s, op, convert).listeners, m)
    ensures Carried(s, op, convert, m, l)
  {
    Unchanged(l);
    match op {
      case Add(methodId, kind) =>
        if l in Subscribers(s.listeners, m) {
          CarriedFrom(s, op, convert, m, l, l);
        }
      case Remove(methodId, id) =>
        if methodId in s.listeners {
          WithoutIdKeeps(s.listeners[methodId], id, l);
        }
        CarriedFrom(s, op, convert, m, l, l);
      case RemoveAll(methodId) =>
        CarriedFrom(s, op, convert, m, l, l);
      case StartSend(methodId, event) =>
        var before := DispatchCarries(s, methodId, event, false, m, l);
        CarriedFrom(s, op, convert, m, l, before);
      case TrySendCustom(methodId, value) =>
        hide OnCustom, Carried, Continues;
        var before := CustomCarries(s, methodId, value, convert, m, l);
        CarriedFrom(s, op, convert, m, l, before);
      case Flush(dropped) =>
        var before := FlushAllContinues(s.listeners[m], dropped, l);
        CarriedFrom(s, op, convert, m, l, before);
    }
  }

  /** The listener was registered by operation `r`, and has been sent or is owed what was dispatched since then. */
  ghost predicate RegisteredBy(ops: seq<Op>, convert: Converter, m: MethodId, l: Listener, r: nat) {
    && r < |ops| && ops[r] == Add(m, l.kind) && Run(ops[..r], convert).nextId == l.id
    && l.Dispatched() == DispatchedSince(ops, r + 1, convert, m, l.kind)
  }

  /**
   After any run, for every registered listener: what went into its channel followed by its queue is exactly what was
   dispatched to its method, and for custom events to its kind, since it was registered, in order. No method has an
   empty list.
   */
  lemma {:induction false} EveryListenerHasAHistory(ops: seq<Op>, convert: Converter)
    ensures var s := Run(ops, convert);
      && NoEmptyList(s)
      && forall m, l :: m in s.listeners && l in s.listeners[m] ==> exists r: nat :: RegisteredBy(ops, convert, m, l, r)
  {
    if ops != [] {
      var before, op := ops[..|ops| - 1], ops[|ops| - 1];
      var b, s := Run(before, convert), Run(ops, convert);
      EveryListenerHasAHistory(before, convert);
      StepKeepsNoEmptyList(b, op, convert);
      forall m, l | m in s.listeners && l in s.listeners[m]
        ensures exists r: nat :: RegisteredBy(ops, convert, m, l, r)
      {
        HistoryExtends(before, op, convert, m, l);
        assert before + [op] == ops;
      }
    }
  }

  lemma HistoryExtends(before: seq<Op>, op: Op, convert: Converter, m: MethodId, l: Listener)
    requires l in Subscribers(Step(Run(before, convert), op, convert).listeners, m)
    requires var b := Run(before, convert);
      forall k :: m in b.listeners && k in b.listeners[m] ==> exists r: nat :: RegisteredBy(before, convert, m, k, r)
    ensures exists r: nat :: RegisteredBy(before + [op], convert, m, l, r)
  {
    var ops, b := before + [op], Run(before, convert);
    assert ops[..|before|] == before;
    StepCarries(b, op, convert, m, l);
    hide Run, Step, Dispatches;
    if op == Add(m, l.kind) && l == Listener(b.nextId, l.kind, [], []) {
      assert RegisteredBy(ops, convert, m, l, |before|);
    } else {
      var k :| k in Subscribers(b.listeners, m) && Continues(k, l, Dispatches(b, op, convert, m, l.kind));
      var r: nat :| RegisteredBy(before, convert, m, k, r);
      RegistrationExtends(before, op, convert, m, k, l, r);
    }
  }

  lemma RegistrationExtends(
    before: seq<Op>, op: Op, convert: Converter, m: MethodId, prior: Listener, l: Listener, r: nat)
    requires RegisteredBy(before, convert, m, prior, r)
    requires Continues(prior, l, Dispatches(Run(before, convert), op, convert, m, l.kind))
    ensures RegisteredBy(before + [op], convert, m, l, r)
  {
    hide Run, Step, Dispatches;
    var ops := before + [op];
    assert ops[..|ops| - 1] == before && ops[..r] == before[..r];
  }

  /** A flush leaves every queue empty, and drops exactly the listeners that had events for a dropped receiver. */
  lemma FlushEmptiesQueues(s: Registry, dropped: set<ListenerId>, m: MethodId, l: Listener)
    ensures var after := Subscribers(OnFlush(s, dropped).listeners, m);
      && (l in after ==> l.queued == [])
      && (l in Subscribers(s.listeners, m) && !l.FlushFails(dropped) ==> l.Flushed() in after)
      && (l in after ==> exists k :: k in Subscribers(s.listeners, m) && !k.FlushFails(dropped) && l == k.Flushed())
  {
    var subs := Subscribers(s.listeners, m);
    if l in subs {
      FlushAllKeeps(subs, dropped, l);
    }
    if l in Subscribers(OnFlush(s, dropped).listeners, m) {
      var k := FlushAllContinues(subs, dropped, l);
    }
  }

  lemma {:induction false} FlushAllKeeps(subs: seq<Listener>, dropped: set<ListenerId>, l: Listener)
    requires l in subs
    ensures !l.FlushFails(dropped) ==> l.Flushed() in FlushAll(subs, dropped)
  {
    if l != subs[0] {
      FlushAllKeeps(subs[1..], dropped, l);
    }
  }

  // ----- Who is converted for -----

  /** Whoever is custom, the first of them decides: its type converts the value, or nobody is sent anything. */
  lemma ConvertIff(s: Registry, methodId: MethodId, value: string, convert: Converter)
    ensures var subs, conversion := Subscribers(s.listeners, methodId), Convert(s, methodId, value, convert);
      && (conversion.Nobody? <==> forall i :: 0 <= i < |subs| ==> subs[i].kind.BuiltIn?)
      && (forall i :: 0 <= i < |subs| && subs[i].kind.Custom? && (forall j :: 0 <= j < i ==> subs[j].kind.BuiltIn?) ==>
            conversion == match convert(subs[i].kind.typeName, value)
                          case None => Unconvertible
                          case Some(payload) => Converted(Event(subs[i].kind.typeName, payload)))
  {
    FirstCustomIff(Subscribers(s.listeners, methodId));
  }

  lemma {:induction false} FirstCustomIff(subs: seq<Listener>)
    ensures FirstCustom(subs).None? <==> forall i :: 0 <= i < |subs| ==> subs[i].kind.BuiltIn?
    ensures forall i ::
      0 <= i < |subs| && subs[i].kind.Custom? && (forall j :: 0 <= j < i ==> subs[j].kind.BuiltIn?) ==>
        FirstCustom(subs) == Some(subs[i].kind.typeName)
  {
    if subs != [] {
      FirstCustomIff(subs[1..]);
      forall i | 0 < i < |subs| && subs[i].kind.Custom? && (forall j :: 0 <= j < i ==> subs[j].kind.BuiltIn?)
        ensures FirstCustom(subs) == Some(subs[i].kind.typeName)
      {
        assert subs[1..][i - 1] == subs[i] && subs[0].kind.BuiltIn?;
      }
    }
  }

  // ----- Who stays, and with what -----

  /** The operation ends the listener: it or its method is removed, or a flush has something to send to nobody. */
  predicate Ends(op: Op, m: MethodId, l: Listener) {
    op == Remove(m, l.id) || op == RemoveAll(m) || (op.Flush? && l.queued != [] && l.id in op.dropped)
  }

  /** The listener after an operation that does not end it. */
  function Stepped(s: Registry, op: Op, convert: Converter, m: MethodId, l: Listener): Listener {
    if op.Flush? then l.(queued := [], delivered := l.delivered + l.queued)
    else l.(queued := l.queued + Dispatches(s, op, convert, m, l.kind))
  }

  function SteppedAll(s: Registry, op: Op, convert: Converter, m: MethodId, subs: seq<Listener>): seq<Listener> {
    if subs == [] then []
    else
      (if Ends(op, m, subs[0]) then [] else [Stepped(s, op, convert, m, subs[0])])
      + SteppedAll(s, op, convert, m, subs[1..])
  }

  lemma {:induction false} SteppedAllSnoc(
    s: Registry, op: Op, convert: Converter, m: MethodId, subs: seq<Listener>, l: Listener)
    ensures SteppedAll(s, op, convert, m, subs + [l]) ==
      SteppedAll(s, op, convert, m, subs) + if Ends(op, m, l) then [] else [Stepped(s, op, convert, m, l)]
  {
    hide Ends, Stepped;
    if subs == [] {
      assert [] + [l] == [l] && [l][1..] == [];
    } else {
      assert (subs + [l])[1..] == subs[1..] + [l];
      SteppedAllSnoc(s, op, convert, m, subs[1..], l);
    }
  }

  lemma {:induction false} SteppedIsSame(s: Registry, op: Op, convert: Converter, m: MethodId, subs: seq<Listener>)
    requires !op.Flush?
    requires forall l :: l in subs ==> !Ends(op, m, l) && Dispatches(s, op, convert, m, l.kind) == []
    ensures SteppedAll(s, op, convert, m, subs) == subs
  {
    if subs != [] {
      SteppedIsSame(s, op, convert, m, subs[1..]);
      assert subs[0].queued + [] == subs[0].queued;
      hide Dispatches, Ends;
    }
  }

  lemma {:induction false} SteppedIsWithoutId(
    s: Registry, convert: Converter, m: MethodId, id: ListenerId, subs: seq<Listener>)
    ensures SteppedAll(s, Remove(m, id), convert, m, subs) == WithoutId(subs, id)
  {
    if subs != [] {
      SteppedIsWithoutId(s, convert, m, id, subs[1..]);
      assert subs[0].queued + [] == subs[0].queued;
    }
  }

  lemma {:induction false} SteppedIsNone(s: Registry, convert: Converter, m: MethodId, subs: seq<Listener>)
    ensures SteppedAll(s, RemoveAll(m), convert, m, subs) == []
  {
    if subs != [] {
      SteppedIsNone(s, convert, m, subs[1..]);
    }
  }

  lemma {:induction false} SteppedIsQueueAll(
    s: Registry, op: Op, convert: Converter, m: MethodId, event: Event, customOnly: bool, subs: seq<Listener>)
    requires op.StartSend? || op.TrySendCustom?
    requires forall l :: l in subs ==>
      Dispatches(s, op, convert, m, l.kind) == if Takes(l.kind, customOnly) then [event] else []
    ensures SteppedAll(s, op, convert, m, subs) == QueueAll(subs, event, customOnly)
  {
    if subs != [] {
      SteppedIsQueueAll(s, op, convert, m, event, customOnly, subs[1..]);
      assert subs[0].queued + [] == subs[0].queued;
      hide Dispatches;
    }
  }

  lemma {:induction false} SteppedIsFlushAll(
    s: Registry, convert: Converter, m: MethodId, dropped: set<ListenerId>, subs: seq<Listener>)
    ensures SteppedAll(s, Flush(dropped), convert, m, subs) == FlushAll(subs, dropped)
  {
    if subs != [] {
      SteppedIsFlushAll(s, convert, m, dropped, subs[1..]);
    }
  }

  /** One operation, for every method: each listener is ended or stepped, in place, and a new one comes last. */
  lemma StepIsStepped(s: Registry, op: Op, convert: Converter, m: MethodId)
    requires NoEmptyList(s)
    ensures Subscribers(Step(s, op, convert).listeners, m) ==
      SteppedAll(s, op, convert, m, Subscribers(s.listeners, m))
      + if op.Add? && op.methodId == m then [Listener(s.nextId, op.kind, [], [])] else []
  {
    var subs := Subscribers(s.listeners, m);
    match op {
      case Add(_, _) => SteppedIsSame(s, op, convert, m, subs);
      case Remove(methodId, id) =>
        if methodId == m {
          SteppedIsWithoutId(s, convert, m, id, subs);
        } else {
          SteppedIsSame(s, op, convert, m, subs);
        }
      case RemoveAll(methodId) =>
        if methodId == m {
          SteppedIsNone(s, convert, m, subs);
        } else {
          SteppedIsSame(s, op, convert, m, subs);
        }
      case StartSend(methodId, event) =>
        if methodId == m {
          SteppedIsQueueAll(s, op, convert, m, event, false, subs);
        } else {
          SteppedIsSame(s, op, convert, m, subs);
        }
      case TrySendCustom(methodId, value) =>
        CustomIsStepped(s, methodId, value, convert, m);
      case Flush(dropped) => SteppedIsFlushAll(s, convert, m, dropped, subs);
    }
  }

  lemma CustomIsStepped(s: Registry, methodId: MethodId, value: string, convert: Converter, m: MethodId)
    ensures Subscribers(OnCustom(s, methodId, value, convert).listeners, m) ==
      SteppedAll(s, TrySendCustom(methodId, value), convert, m, Subscribers(s.listeners, m))
  {
    var op, subs := TrySendCustom(methodId, value), Subscribers(s.listeners, m);
    var conversion := Convert(s, methodId, value, convert);
    if methodId == m && conversion.Converted? {
      SteppedIsQueueAll(s, op, convert, m, conversion.event, true, subs);
    } else {
      SteppedIsSame(s, op, convert, m, subs);
    }
  }

  // ----- The registry by its history -----

  function Adds(ops: seq<Op>): nat {
    if ops == [] then 0 else Adds(ops[..|ops| - 1]) + if ops[|ops| - 1].Add? then 1 else 0
  }

  /** The id that the next listener gets: it counts the registrations, modulo the width of the counter. */
  function IdAfter(ops: seq<Op>): ListenerId {
    (1 + Adds(ops)) % U64_SPAN
  }

  /** What the operations from the `from`th on have queued and no flush has sent since. */
  function QueuedSince(ops: seq<Op>, from: nat, convert: Converter, m: MethodId, kind: EventKind): seq<Event> {
    if |ops| <= from || ops[|ops| - 1].Flush? then []
    else
      var before := ops[..|ops| - 1];
      QueuedSince(before, from, convert, m, kind)
      + Dispatches(Run(before, convert), ops[|ops| - 1], convert, m, kind)
  }

  /** What the flushes among them have sent. */
  function SentSince(ops: seq<Op>, from: nat, convert: Converter, m: MethodId, kind: EventKind): seq<Event> {
    if |ops| <= from then []
    else
      var before := ops[..|ops| - 1];
      SentSince(before, from, convert, m, kind)
      + if ops[|ops| - 1].Flush? then QueuedSince(before, from, convert, m, kind) else []
  }

  /** The listener that operation `r` has registered, as it is after all operations, if it is still there. */
  function Registered(ops: seq<Op>, r: nat, convert: Converter): Listener
    requires r < |ops| && ops[r].Add?
  {
    var m, kind := ops[r].methodId, ops[r].kind;
    Listener(IdAfter(ops[..r]), kind,
             QueuedSince(ops, r + 1, convert, m, kind), SentSince(ops, r + 1, convert, m, kind))
  }

  /** Operation `r` registered a listener for the method, and no operation since has ended it. */
  predicate Survives(ops: seq<Op>, r: nat, convert: Converter, m: MethodId) {
    && r < |ops| && ops[r].Add? && ops[r].methodId == m
    && forall j :: r < j < |ops| ==> !Ends(ops[j], m, Registered(ops[..j], r, convert))
  }

  /** The listeners registered by the first `n` operations that are still there after all, in order. */
  function Survivors(ops: seq<Op>, n: nat, convert: Converter, m: MethodId): seq<Listener>
    requires n <= |ops|
  {
    if n == 0 then []
    else
      Survivors(ops, n - 1, convert, m)
      + if Survives(ops, n - 1, convert, m) then [Registered(ops, n - 1, convert)] else []
  }

  lemma {:induction false} NextIdCountsAdds(ops: seq<Op>, convert: Converter)
    ensures Run(ops, convert).nextId == IdAfter(ops)
  {
    if ops != [] {
      NextIdCountsAdds(ops[..|ops| - 1], convert);
      hide Dispatch, OnCustom, OnFlush;
      CustomKeepsNextId(Run(ops[..|ops| - 1], convert), ops[|ops| - 1], convert);
    }
  }

  lemma CustomKeepsNextId(s: Registry, op: Op, convert: Converter)
    ensures Step(s, op, convert).nextId == if op.Add? then (s.nextId + 1) % U64_SPAN else s.nextId
  {
  }

  lemma QueuesStep(before: seq<Op>, op: Op, from: nat, convert: Converter, m: MethodId, kind: EventKind)
    requires from <= |before|
    ensures var ops, queued := before + [op], QueuedSince(before, from, convert, m, kind);
      && QueuedSince(ops, from, convert, m, kind) ==
           (if op.Flush? then [] else queued + Dispatches(Run(before, convert), op, convert, m, kind))
      && SentSince(ops, from, convert, m, kind) ==
           SentSince(before, from, convert, m, kind) + if op.Flush? then queued else []
  {
    var ops := before + [op];
    assert ops[..|ops| - 1] == before;
    hide Run, Dispatches;
  }

  lemma RegisteredSteps(before: seq<Op>, op: Op, r: nat, convert: Converter)
    requires r < |before| && before[r].Add?
    ensures var ops := before + [op];
      Registered(ops, r, convert) ==
        Stepped(Run(before, convert), op, convert, before[r].methodId, Registered(before, r, convert))
  {
    var ops, m, kind := before + [op], before[r].methodId, before[r].kind;
    assert ops[..r] == before[..r] && ops[r] == before[r];
    var was := Registered(before, r, convert);
    hide *;
    QueuesStep(before, op, r + 1, convert, m, kind);
    RegisteredIs(before, r, convert);
    RegisteredIs(ops, r, convert);
    SteppedQueues(Run(before, convert), op, convert, m, was);
  }

  lemma SteppedQueues(s: Registry, op: Op, convert: Converter, m: MethodId, l: Listener)
    ensures var after := Stepped(s, op, convert, m, l);
      && after.id == l.id && after.kind == l.kind
      && after.queued == (if op.Flush? then [] else l.queued + Dispatches(s, op, convert, m, l.kind))
      && after.delivered == l.delivered + if op.Flush? then l.queued else []
  {
    assert l.delivered + [] == l.delivered;
  }

  lemma RegisteredIs(ops: seq<Op>, r: nat, convert: Converter)
    requires r < |ops| && ops[r].Add?
    ensures var l, m, kind := Registered(ops, r, convert), ops[r].methodId, ops[r].kind;
      && l.kind == kind && l.id == IdAfter(ops[..r])
      && l.queued == QueuedSince(ops, r + 1, convert, m, kind)
      && l.delivered == SentSince(ops, r + 1, convert, m, kind)
  {
    hide QueuedSince, SentSince, IdAfter;
  }

  lemma SurvivesStep(before: seq<Op>, op: Op, r: nat, convert: Converter, m: MethodId)
    requires r < |before|
    ensures Survives(before + [op], r, convert, m)
      <==> Survives(before, r, convert, m) && !Ends(op, m, Registered(before, r, convert))
  {
    var ops := before + [op];
    hide Ends, Registered;
    assert forall j :: r < j < |before| ==> ops[..j] == before[..j] && ops[j] == before[j];
    assert ops[..|before|] == before && ops[|before|] == op;
  }

  lemma {:induction false} SurvivorsStep(before: seq<Op>, op: Op, n: nat, convert: Converter, m: MethodId)
    requires n <= |before|
    ensures Survivors(before + [op], n, convert, m) ==
      SteppedAll(Run(before, convert), op, convert, m, Survivors(before, n, convert, m))
  {
    if n > 0 {
      SurvivorsStep(before, op, n - 1, convert, m);
      OneSurvivorStep(before, op, n, convert, m);
    }
  }

  lemma LastSurvivor(ops: seq<Op>, n: nat, convert: Converter, m: MethodId)
    requires 0 < n <= |ops|
    ensures var prior := Survivors(ops, n - 1, convert, m);
      if Survives(ops, n - 1, convert, m) then
        ops[n - 1].Add? && Survivors(ops, n, convert, m) == prior + [Registered(ops, n - 1, convert)]
      else Survivors(ops, n, convert, m) == prior
  {
    assert ops[n - 1].Add? || !Survives(ops, n - 1, convert, m);
    var prior := Survivors(ops, n - 1, convert, m);
    hide Registered, Ends;
    assert prior + [] == prior;
  }

  lemma SurvivorIsAdd(ops: seq<Op>, r: nat, convert: Converter, m: MethodId)
    requires Survives(ops, r, convert, m)
    ensures r < |ops| && ops[r].Add? && ops[r].methodId == m
  {
    hide Registered, Ends;
  }

  lemma OneSurvivorStep(before: seq<Op>, op: Op, n: nat, convert: Converter, m: MethodId)
    requires 0 < n <= |before|
    requires Survivors(before + [op], n - 1, convert, m) ==
      SteppedAll(Run(before, convert), op, convert, m, Survivors(before, n - 1, convert, m))
    ensures Survivors(before + [op], n, convert, m) ==
      SteppedAll(Run(before, convert), op, convert, m, Survivors(before, n, convert, m))
  {
    hide *;
    SurvivesStep(before, op, n - 1, convert, m);
    LastSurvivor(before, n, convert, m);
    LastSurvivor(before + [op], n, convert, m);
    if Survives(before, n - 1, convert, m) {
      SurvivorIsAdd(before, n - 1, convert, m);
      RegisteredSteps(before, op, n - 1, convert);
      SteppedAllSnoc(Run(before, convert), op, convert, m, Survivors(before, n - 1, convert, m),
                     Registered(before, n - 1, convert));
      var after := Survivors(before + [op], n - 1, convert, m);
      assert after + [] == after;
    }
  }

  /**
   The registry, after any run, by its history alone: under each method stand, in the order they were registered, the
   listeners that no removal, and no flush to a dropped receiver with something to send, has ended since; each with its
   id, the events dispatched since the last flush in its queue, and those before it in its channel.
   */
  lemma {:induction false} RegistryIsItsHistory(ops: seq<Op>, convert: Converter, m: MethodId)
    ensures Subscribers(Run(ops, convert).listeners, m) == Survivors(ops, |ops|, convert, m)
  {
    if ops != [] {
      var before, op := ops[..|ops| - 1], ops[|ops| - 1];
      assert before + [op] == ops;
      RegistryIsItsHistory(before, convert, m);
      EveryListenerHasAHistory(before, convert);
      StepIsStepped(Run(before, convert), op, convert, m);
      SurvivorsStep(before, op, |before|, convert, m);
      NewSurvivor(ops, convert, m);
      hide Step, Survivors, Survives, SteppedAll, Registered;
    }
  }

  lemma NewSurvivor(ops: seq<Op>, convert: Converter, m: MethodId)
    requires ops != []
    ensures var before, op := ops[..|ops| - 1], ops[|ops| - 1];
      Survivors(ops, |ops|, convert, m) == Survivors(ops, |ops| - 1, convert, m)
        + if op.Add? && op.methodId == m then [Listener(Run(before, convert).nextId, op.kind, [], [])] else []
  {
    NextIdCountsAdds(ops[..|ops| - 1], convert);
  }

  lemma {:induction false} InSurvivors(ops: seq<Op>, n: nat, convert: Converter, m: MethodId, r: nat)
    requires r < n <= |ops| && Survives(ops, r, convert, m)
    ensures Registered(ops, r, convert) in Survivors(ops, n, convert, m)
  {
    hide Registered, Ends;
    if r < n - 1 {
      InSurvivors(ops, n - 1, convert, m, r);
    }
  }

  lemma {:induction false} SurvivorIsRegistered(ops: seq<Op>, n: nat, convert: Converter, m: MethodId, l: Listener)
    returns (r: nat)
    requires n <= |ops| && l in Survivors(ops, n, convert, m)
    ensures Survives(ops, r, convert, m) && l == Registered(ops, r, convert)
  {
    r := n - 1;
    if !(Survives(ops, n - 1, convert, m) && l == Registered(ops, n - 1, convert)) {
      r := SurvivorIsRegistered(ops, n - 1, convert, m, l);
    }
  }

  /** A listener is registered if and only if some operation registered it and none since has ended it. */
  lemma IsRegisteredIff(ops: seq<Op>, convert: Converter, m: MethodId, l: Listener)
    ensures l in Subscribers(Run(ops, convert).listeners, m) <==>
      exists r: nat :: Survives(ops, r, convert, m) && l == Registered(ops, r, convert)
  {
    RegistryIsItsHistory(ops, convert, m);
    if l in Subscribers(Run(ops, convert).listeners, m) {
      var r := SurvivorIsRegistered(ops, |ops|, convert, m, l);
    }
    if r: nat :| Survives(ops, r, convert, m) && l == Registered(ops, r, convert) {
      InSurvivors(ops, |ops|, convert, m, r);
    }
  }
}
