/** The order of navigation requests and results over whole runs. */
module Navigation {
  import opened FrameForest
  import opened FrameModel
  import opened Wrappers

  datatype Tag = Requested(id: NavigationId) | Resulted(id: NavigationId)

  function ResultId(r: Result<NavigationOk, NavigationError>): NavigationId {
    match r
    case Ok(ok) => ok.id
    case Err(e) => e.id
  }

  function TagOf(e: FrameEvent): Tag {
    match e
    case NavigationRequest(id, _) => Requested(id)
    case NavigationResult(r) => Resulted(ResultId(r))
  }

  /** What one event emits: only polls do. */
  function Emitted(m: Manager, e: Event): seq<Tag> {
    if !e.Poll? then []
    else
      var out := OnPoll(m, e.now, e.clock).1;
      if out.None? then [] else [TagOf(out.value)]
  }

  /** The navigation an event asks for, if it is accepted; without a main frame `goto` drops the request. */
  function AcceptedBy(m: Manager, e: Event): seq<NavigationId> {
    match e
    case NavigateFrame(_, req) => [req.id]
    case Goto(req) => if m.mainFrame.Some? then [req.id] else []
    case _ => []
  }

  ghost function Trace(es: seq<Event>): seq<Tag> {
    if es == [] then []
    else Trace(es[..|es| - 1]) + Emitted(Run(es[..|es| - 1]), es[|es| - 1])
  }

  ghost function Accepted(es: seq<Event>): seq<NavigationId> {
    if es == [] then []
    else Accepted(es[..|es| - 1]) + AcceptedBy(Run(es[..|es| - 1]), es[|es| - 1])
  }

  /** Request, result, request, result, and so on, for the given navigations in order. */
  function Alternating(ids: seq<NavigationId>): (tags: seq<Tag>)
    ensures |tags| == 2 * |ids|
  {
    if ids == [] then [] else [Requested(ids[0]), Resulted(ids[0])] + Alternating(ids[1..])
  }

  lemma {:induction false} AlternatingAt(ids: seq<NavigationId>, i: nat)
    requires i < |ids|
    ensures Alternating(ids)[2 * i] == Requested(ids[i]) && Alternating(ids)[2 * i + 1] == Resulted(ids[i])
  {
    if i > 0 {
      AlternatingAt(ids[1..], i - 1);
    }
  }

  lemma {:induction false} AlternatingGrows(ids: seq<NavigationId>, id: NavigationId)
    ensures Alternating(ids) <= Alternating(ids + [id])
  {
    if ids != [] {
      AlternatingGrows(ids[1..], id);
      assert (ids + [id])[1..] == ids[1..] + [id];
    }
  }

  function PendingIds(pending: seq<(Request, Watcher)>): (ids: seq<NavigationId>)
    ensures |ids| == |pending| && forall i :: 0 <= i < |pending| ==> ids[i] == pending[i].0.id
  {
    seq(|pending|, i requires 0 <= i < |pending| => pending[i].0.id)
  }

  /** The first `started` accepted navigations have been requested, all but an active one have a result. */
  ghost predicate InOrder(m: Manager, accepted: seq<NavigationId>, trace: seq<Tag>, started: nat) {
    && started <= |accepted|
    && PendingIds(m.pending) == accepted[started..]
    && (forall i :: 0 <= i < |m.pending| ==> m.pending[i].1.id == m.pending[i].0.id)
    && if m.navigation.None? then trace == Alternating(accepted)[..2 * started]
       else started > 0 && m.navigation.value.0.id == accepted[started - 1]
            && trace == Alternating(accepted)[..2 * started - 1]
  }

  ghost predicate SameNavigations(m: Manager, after: Manager) {
    && after.pending == m.pending && after.navigation.Some? == m.navigation.Some?
    && (m.navigation.Some? ==>
          && after.navigation.value.0.id == m.navigation.value.0.id
          && after.navigation.value.1 == m.navigation.value.1)
  }

  lemma NavigatedKeepsNavigations(m: Manager, frame: CdpFrame, worldName: string)
    ensures SameNavigations(m, OnNavigated(m, frame, worldName))
  {
  }

  lemma {:induction false} TreeKeepsNavigations(m: Manager, tree: FrameTree, worldName: string)
    ensures SameNavigations(m, OnTree(m, tree, worldName))
    decreases tree, 0
  {
    var attached := OnAttached(m, tree.frame.id, tree.frame.parentId);
    NavigatedKeepsNavigations(attached, tree.frame, worldName);
    TreesKeepNavigations(OnNavigated(attached, tree.frame, worldName), tree.children, worldName);
  }

  lemma {:induction false} TreesKeepNavigations(m: Manager, trees: seq<FrameTree>, worldName: string)
    ensures SameNavigations(m, OnTrees(m, trees, worldName))
    decreases trees, |trees|
  {
    if trees != [] {
      TreeKeepsNavigations(m, trees[0], worldName);
      TreesKeepNavigations(OnTree(m, trees[0], worldName), trees[1..], worldName);
    }
  }

  lemma OtherStepsKeepNavigations(m: Manager, e: Event)
    requires !e.NavigateFrame? && !e.Goto? && !e.Poll?
    ensures SameNavigations(m, Step(m, e))
  {
    if e.Tree? {
      TreeKeepsNavigations(m, e.tree, e.worldName);
    }
  }

  lemma RequestStaysInOrder(
    m: Manager, accepted: seq<NavigationId>, trace: seq<Tag>, started: nat, id: FrameId, req: Request)
    requires InOrder(m, accepted, trace, started)
    ensures InOrder(OnNavigateFrame(m, id, req), accepted + [req.id], trace, started)
  {
    AlternatingGrows(accepted, req.id);
    assert PendingIds(OnNavigateFrame(m, id, req).pending) == PendingIds(m.pending) + [req.id];
  }

  lemma ResultStaysInOrder(m: Manager, after: Manager, accepted: seq<NavigationId>, trace: seq<Tag>, started: nat)
    requires InOrder(m, accepted, trace, started) && m.navigation.Some?
    requires after == m.(navigation := None)
    ensures InOrder(after, accepted, trace + [Resulted(m.navigation.value.0.id)], started)
  {
    AlternatingAt(accepted, started - 1);
  }

  lemma StartStaysInOrder(m: Manager, after: Manager, accepted: seq<NavigationId>, trace: seq<Tag>, started: nat)
    requires InOrder(m, accepted, trace, started) && m.navigation.None? && m.pending != []
    requires after.pending == m.pending[1..] && after.navigation.Some?
    requires after.navigation.value.0 == m.pending[0].1
    ensures InOrder(after, accepted, trace + [Requested(m.pending[0].0.id)], started + 1)
  {
    assert PendingIds(m.pending)[0] == accepted[started];
    AlternatingAt(accepted, started);
    assert PendingIds(after.pending) == PendingIds(m.pending)[1..];
  }

  ghost predicate Ordered(m: Manager, accepted: seq<NavigationId>, trace: seq<Tag>) {
    exists started :: InOrder(m, accepted, trace, started)
  }

  lemma PollStaysInOrder(m: Manager, accepted: seq<NavigationId>, trace: seq<Tag>, now: Instant, clock: Instant)
    requires Ordered(m, accepted, trace)
    ensures Ordered(OnPoll(m, now, clock).0, accepted, trace + Emitted(m, Poll(now, clock)))
  {
    var started :| InOrder(m, accepted, trace, started);
    var (after, out) := OnPoll(m, now, clock);
    if out.None? {
      assert trace + [] == trace;
    } else if m.navigation.Some? {
      assert Emitted(m, Poll(now, clock)) == [Resulted(m.navigation.value.0.id)];
      ResultStaysInOrder(m, after, accepted, trace, started);
    } else {
      assert Emitted(m, Poll(now, clock)) == [Requested(m.pending[0].0.id)];
      StartStaysInOrder(m, after, accepted, trace, started);
    }
  }

  lemma StepStaysInOrder(m: Manager, e: Event, accepted: seq<NavigationId>, trace: seq<Tag>)
    requires Ordered(m, accepted, trace)
    ensures Ordered(Step(m, e), accepted + AcceptedBy(m, e), trace + Emitted(m, e))
  {
    var started :| InOrder(m, accepted, trace, started);
    assert accepted + [] == accepted && trace + [] == trace;
    hide OnTree, OnNavigated, RemoveSubtree, CheckLifecycleComplete, OnAttached, OnContextCreated, OnContextDestroyed;
    hide OnContextsCleared, OnWithinDocument, OnLifecycle, OnStoppedLoading, OnStartedLoading, OnRequestFinished;
    hide InOrder;
    match e
    case NavigateFrame(id, req) =>
      RequestStaysInOrder(m, accepted, trace, started, id, req);
    case Goto(req) =>
      if m.mainFrame.Some? {
        RequestStaysInOrder(m, accepted, trace, started, m.mainFrame.value, req);
      }
    case Poll(now, clock) =>
      PollStaysInOrder(m, accepted, trace, now, clock);
    case _ =>
      OtherStepStaysInOrder(m, e, accepted, trace, started);
  }

  lemma OtherStepStaysInOrder(m: Manager, e: Event, accepted: seq<NavigationId>, trace: seq<Tag>, started: nat)
    requires !e.NavigateFrame? && !e.Goto? && !e.Poll? && InOrder(m, accepted, trace, started)
    ensures InOrder(Step(m, e), accepted, trace, started)
  {
    hide Step, Alternating, PendingIds;
    OtherStepsKeepNavigations(m, e);
  }

  lemma {:induction false} RunIsInOrder(es: seq<Event>)
    ensures Ordered(Run(es), Accepted(es), Trace(es))
  {
    if es == [] {
      assert InOrder(Run(es), Accepted(es), Trace(es), 0);
    } else {
      var before := es[..|es| - 1];
      RunIsInOrder(before);
      StepStaysInOrder(Run(before), es[|es| - 1], Accepted(before), Trace(before));
    }
  }

  /**
   Over every interleaving of requests, events and polls, what is emitted is a prefix of request, result, request,
   result, and so on, of the accepted navigations in the order they were accepted; it is missing only the result of
   the active one and everything of the pending ones.
   */
  lemma TraceAlternates(es: seq<Event>)
    ensures Trace(es) <= Alternating(Accepted(es))
    ensures |Trace(es)| ==
      2 * (|Accepted(es)| - |Run(es).pending|) - if Run(es).navigation.Some? then 1 else 0
  {
    RunIsInOrder(es);
  }
}
