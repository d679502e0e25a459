/**
 What a navigation result says about the events before it. Frame-tree events are expanded into the attach and navigate
 events they stand for, so that a history is a sequence of primitive events.
 */
module NavigationHistory {
  import opened FrameForest
  import opened FrameModel
  import opened Navigation
  import opened Wrappers

  // ----- Expanding frame trees -----

  function Flatten(tree: FrameTree, worldName: string): (es: seq<Event>)
    decreases tree, 0
  {
    [Attached(tree.frame.id, tree.frame.parentId), Navigated(tree.frame, worldName)]
    + FlattenAll(tree.children, worldName)
  }

  function FlattenAll(trees: seq<FrameTree>, worldName: string): (es: seq<Event>)
    decreases trees, |trees|
  {
    if trees == [] then [] else Flatten(trees[0], worldName) + FlattenAll(trees[1..], worldName)
  }

  function ExpandEvent(e: Event): seq<Event> {
    if e.Tree? then Flatten(e.tree, e.worldName) else [e]
  }

  function Expand(es: seq<Event>): seq<Event> {
    if es == [] then [] else Expand(es[..|es| - 1]) + ExpandEvent(es[|es| - 1])
  }

  predicate Primitive(es: seq<Event>) {
    forall i :: 0 <= i < |es| ==> !es[i].Tree?
  }

  ghost function RunFrom(m: Manager, es: seq<Event>): Manager
    decreases |es|
  {
    if es == [] then m else RunFrom(Step(m, es[0]), es[1..])
  }

  lemma {:induction false} RunFromConcat(m: Manager, a: seq<Event>, b: seq<Event>)
    ensures RunFrom(m, a + b) == RunFrom(RunFrom(m, a), b)
    decreases |a|
  {
    if a == [] {
      assert a + b == b;
    } else {
      assert (a + b)[1..] == a[1..] + b;
      RunFromConcat(Step(m, a[0]), a[1..], b);
    }
  }

  lemma {:induction false} RunOfConcat(a: seq<Event>, b: seq<Event>)
    ensures Run(a + b) == RunFrom(Run(a), b)
    decreases |b|
  {
    if b == [] {
      assert a + b == a;
    } else {
      assert a + b == (a + [b[0]]) + b[1..];
      assert (a + [b[0]])[..|a|] == a;
      RunOfConcat(a + [b[0]], b[1..]);
    }
  }

  lemma {:induction false} FlattenRuns(m: Manager, tree: FrameTree, worldName: string)
    ensures RunFrom(m, Flatten(tree, worldName)) == OnTree(m, tree, worldName)
    ensures Primitive(Flatten(tree, worldName))
    decreases tree, 0
  {
    var first := [Attached(tree.frame.id, tree.frame.parentId), Navigated(tree.frame, worldName)];
    FlattenAllRuns(OnNavigated(OnAttached(m, tree.frame.id, tree.frame.parentId), tree.frame, worldName),
                   tree.children, worldName);
    assert first[1..][1..] == [];
    RunFromConcat(m, first, FlattenAll(tree.children, worldName));
  }

  lemma {:induction false} FlattenAllRuns(m: Manager, trees: seq<FrameTree>, worldName: string)
    ensures RunFrom(m, FlattenAll(trees, worldName)) == OnTrees(m, trees, worldName)
    ensures Primitive(FlattenAll(trees, worldName))
    decreases trees, |trees|
  {
    if trees != [] {
      FlattenRuns(m, trees[0], worldName);
      FlattenAllRuns(OnTree(m, trees[0], worldName), trees[1..], worldName);
      RunFromConcat(m, Flatten(trees[0], worldName), FlattenAll(trees[1..], worldName));
    }
  }

  /** Every run is the run of its expansion. */
  lemma {:induction false} ExpandedRun(es: seq<Event>)
    ensures Run(Expand(es)) == Run(es) && Primitive(Expand(es))
  {
    if es != [] {
      var before, e := es[..|es| - 1], es[|es| - 1];
      ExpandedRun(before);
      RunOfConcat(Expand(before), ExpandEvent(e));
      if e.Tree? {
        FlattenRuns(Run(before), e.tree, e.worldName);
      } else {
        assert [e][1..] == [];
      }
    }
  }

  // ----- One frame through its renamings -----

  /** The id that the frame called `k` after the event had before it: only the main frame is ever renamed. */
  function Before(m: Manager, e: Event, k: FrameId): FrameId {
    if e.Navigated? && e.frame.parentId.None? && k == e.frame.id && m.mainFrame.Some? && m.mainFrame.value in m.frames
    then m.mainFrame.value
    else k
  }

  /** The id, after the first `i` events, of the frame called `k` at the end. */
  ghost function NameAt(es: seq<Event>, k: FrameId, i: nat): FrameId
    requires i <= |es|
  {
    if i == |es| then k
    else
      var before := es[..|es| - 1];
      NameAt(before, Before(Run(before), es[|es| - 1], k), i)
  }

  predicate Delivers(e: Event, id: FrameId, ev: string) {
    (e.Lifecycle? && e.id == id && e.name == ev)
    || (e.StoppedLoading? && e.id == id && (ev == "DOMContentLoaded" || ev == "load"))
  }

  predicate Inits(e: Event, id: FrameId) {
    e.Lifecycle? && e.id == id && e.name == "init"
  }

  predicate Clears(e: Event, id: FrameId) {
    Inits(e, id) || (e.StartedLoading? && e.id == id)
  }

  /** `f`, live after event `e`, owes its lifecycle record and loader to the frame `b` before it and to `e`. */
  ghost predicate Carries(m: Manager, e: Event, b: FrameId, f: Frame) {
    && (forall ev :: ev in f.lifecycle <==>
          b in m.frames && (Delivers(e, b, ev) || (ev in m.frames[b].lifecycle && !Clears(e, b))))
    && f.loaderId ==
         if b !in m.frames then None else if Inits(e, b) then Some(e.loaderId) else m.frames[b].loaderId
  }

  lemma MainNavigationCarries(m: Manager, e: Event, k: FrameId)
    requires WellShaped(m) && e.Navigated? && e.frame.parentId.None?
    requires k in OnMainNavigated(m, e.frame, e.worldName).frames
    ensures Carries(m, e, Before(m, e, k), OnMainNavigated(m, e.frame, e.worldName).frames[k])
  {
    MainNavigatedLeavesOnlyMain(m, e.frame, e.worldName);
  }

  lemma ChildNavigationCarries(m: Manager, e: Event, k: FrameId)
    requires e.Navigated? && e.frame.parentId.Some? && k in OnChildNavigated(m, e.frame).frames
    ensures Carries(m, e, k, OnChildNavigated(m, e.frame).frames[k])
  {
  }

  lemma AttachCarries(m: Manager, e: Event, k: FrameId)
    requires e.Attached? && k in OnAttached(m, e.id, e.parentId).frames
    ensures Carries(m, e, k, OnAttached(m, e.id, e.parentId).frames[k])
  {
  }

  lemma DetachCarries(m: Manager, e: Event, k: FrameId)
    requires e.Detached? && k in OnDetached(m, e.id).frames
    ensures Carries(m, e, k, OnDetached(m, e.id).frames[k])
  {
  }

  lemma LoadingCarries(m: Manager, e: Event, k: FrameId)
    requires e.StartedLoading? || e.StoppedLoading? || e.Lifecycle?
    requires k in Step(m, e).frames
    ensures Carries(m, e, k, Step(m, e).frames[k])
  {
  }

  lemma OtherFrameEventCarries(m: Manager, e: Event, k: FrameId)
    requires e.WithinDocument? || e.RequestFinished? || e.ContextCreated? || e.ContextDestroyed? || e.ContextsCleared?
    requires k in Step(m, e).frames
    ensures Carries(m, e, k, Step(m, e).frames[k])
  {
  }

  lemma QuietEventCarries(m: Manager, e: Event, k: FrameId)
    requires e.EvictStale? || e.SetCap? || e.NavigateFrame? || e.Goto? || e.Poll?
    requires k in Step(m, e).frames
    ensures Carries(m, e, k, Step(m, e).frames[k])
  {
    StepKeepsFrames(m, e);
  }

  /** What one event does to the lifecycle record and loader of a frame that is live after it. */
  lemma StepCarries(m: Manager, e: Event, k: FrameId)
    requires WellShaped(m) && !e.Tree? && k in Step(m, e).frames
    ensures Carries(m, e, Before(m, e, k), Step(m, e).frames[k])
  {
    if e.Navigated? {
      if e.frame.parentId.None? {
        MainNavigationCarries(m, e, k);
      } else {
        ChildNavigationCarries(m, e, k);
      }
    } else if e.Attached? {
      AttachCarries(m, e, k);
    } else if e.Detached? {
      DetachCarries(m, e, k);
    } else if e.StartedLoading? || e.StoppedLoading? || e.Lifecycle? {
      LoadingCarries(m, e, k);
    } else if e.EvictStale? || e.SetCap? || e.NavigateFrame? || e.Goto? || e.Poll? {
      QuietEventCarries(m, e, k);
    } else {
      OtherFrameEventCarries(m, e, k);
    }
  }

  // ----- Lifecycle records and loaders are justified by the history -----

  /** The frame called `k` at the end has been live since before event `j`. */
  ghost predicate LiveSince(es: seq<Event>, k: FrameId, j: nat) {
    forall i :: j <= i <= |es| ==> NameAt(es, k, i) in Run(es[..i]).frames
  }

  /** Event `j` delivered `ev` to the frame now called `k`, and nothing has cleared its record since. */
  ghost predicate DeliveredAt(es: seq<Event>, k: FrameId, ev: string, j: nat) {
    && j < |es| && LiveSince(es, k, j) && Delivers(es[j], NameAt(es, k, j), ev)
    && forall i :: j < i < |es| ==> !Clears(es[i], NameAt(es, k, i))
  }

  /** Event `j` gave the frame now called `k` its loader, and no later one did. */
  ghost predicate LoaderTakenAt(es: seq<Event>, k: FrameId, loaderId: LoaderId, j: nat) {
    && j < |es| && LiveSince(es, k, j) && Inits(es[j], NameAt(es, k, j)) && es[j].loaderId == loaderId
    && forall i :: j < i < |es| ==> !Inits(es[i], NameAt(es, k, i))
  }

  lemma NameBefore(es: seq<Event>, k: FrameId, i: nat)
    requires es != [] && i < |es|
    ensures var before := es[..|es| - 1];
      var b := Before(Run(before), es[|es| - 1], k);
      && NameAt(es, k, i) == NameAt(before, b, i) && before[..i] == es[..i] && (i < |es| - 1 ==> before[i] == es[i])
  {
  }

  lemma LiveSinceExtends(es: seq<Event>, k: FrameId, j: nat)
    requires es != [] && j < |es| && k in Run(es).frames
    requires var before := es[..|es| - 1]; LiveSince(before, Before(Run(before), es[|es| - 1], k), j)
    ensures LiveSince(es, k, j)
  {
    forall i | j <= i <= |es| ensures NameAt(es, k, i) in Run(es[..i]).frames {
      if i < |es| {
        NameBefore(es, k, i);
      } else {
        assert es[..i] == es;
      }
    }
  }

  lemma DeliveredExtends(es: seq<Event>, k: FrameId, ev: string, j: nat)
    requires es != [] && k in Run(es).frames
    requires var before := es[..|es| - 1];
      var b := Before(Run(before), es[|es| - 1], k);
      DeliveredAt(before, b, ev, j) && !Clears(es[|es| - 1], b)
    ensures DeliveredAt(es, k, ev, j)
  {
    LiveSinceExtends(es, k, j);
    NameBefore(es, k, j);
    forall i | j < i < |es| ensures !Clears(es[i], NameAt(es, k, i)) {
      NameBefore(es, k, i);
    }
  }

  lemma LoaderTakenExtends(es: seq<Event>, k: FrameId, loaderId: LoaderId, j: nat)
    requires es != [] && k in Run(es).frames
    requires var before := es[..|es| - 1];
      var b := Before(Run(before), es[|es| - 1], k);
      LoaderTakenAt(before, b, loaderId, j) && !Inits(es[|es| - 1], b)
    ensures LoaderTakenAt(es, k, loaderId, j)
  {
    LiveSinceExtends(es, k, j);
    NameBefore(es, k, j);
    forall i | j < i < |es| ensures !Inits(es[i], NameAt(es, k, i)) {
      NameBefore(es, k, i);
    }
  }

  lemma LiveSinceLast(es: seq<Event>, k: FrameId)
    requires es != [] && k in Run(es).frames
    requires var before := es[..|es| - 1]; Before(Run(before), es[|es| - 1], k) in Run(before).frames
    ensures LiveSince(es, k, |es| - 1)
  {
    assert es[..|es|] == es;
    NameBefore(es, k, |es| - 1);
  }

  lemma {:induction false} LifecycleWasDelivered(es: seq<Event>, k: FrameId, ev: string)
    requires Primitive(es) && k in Run(es).frames && ev in Run(es).frames[k].lifecycle
    ensures exists j :: DeliveredAt(es, k, ev, j)
  {
    var before, e := es[..|es| - 1], es[|es| - 1];
    var m := Run(before);
    var b := Before(m, e, k);
    EveryRunIsWellShaped(before);
    StepCarries(m, e, k);
    if Delivers(e, b, ev) {
      LiveSinceLast(es, k);
      NameBefore(es, k, |es| - 1);
      assert DeliveredAt(es, k, ev, |es| - 1);
    } else {
      LifecycleWasDelivered(before, b, ev);
      var j :| DeliveredAt(before, b, ev, j);
      DeliveredExtends(es, k, ev, j);
    }
  }

  lemma {:induction false} LoaderWasTaken(es: seq<Event>, k: FrameId)
    requires Primitive(es) && k in Run(es).frames && Run(es).frames[k].loaderId.Some?
    ensures exists j :: LoaderTakenAt(es, k, Run(es).frames[k].loaderId.value, j)
  {
    var before, e := es[..|es| - 1], es[|es| - 1];
    var m, loaderId := Run(before), Run(es).frames[k].loaderId.value;
    var b := Before(m, e, k);
    EveryRunIsWellShaped(before);
    StepCarries(m, e, k);
    if Inits(e, b) {
      LiveSinceLast(es, k);
      NameBefore(es, k, |es| - 1);
      assert LoaderTakenAt(es, k, loaderId, |es| - 1);
    } else {
      LoaderWasTaken(before, b);
      var j :| LoaderTakenAt(before, b, loaderId, j);
      LoaderTakenExtends(es, k, loaderId, j);
    }
  }

  /** Event `j` delivered `ev` to the frame now called `k` since it took its present loader, if it ever took one. */
  ghost predicate DeliveredUnderPresentLoader(es: seq<Event>, k: FrameId, ev: string, j: nat) {
    && k in Run(es).frames && DeliveredAt(es, k, ev, j)
    && (Run(es).frames[k].loaderId.Some? ==>
          exists i: nat :: i <= j && LoaderTakenAt(es, k, Run(es).frames[k].loaderId.value, i))
  }

  /** Every recorded lifecycle event was received since the frame took its present loader. */
  lemma RecordedUnderPresentLoader(es: seq<Event>, k: FrameId, ev: string)
    requires Primitive(es) && k in Run(es).frames && ev in Run(es).frames[k].lifecycle
    ensures exists j :: DeliveredUnderPresentLoader(es, k, ev, j)
  {
    LifecycleWasDelivered(es, k, ev);
    var j: nat :| DeliveredAt(es, k, ev, j);
    if Run(es).frames[k].loaderId.Some? {
      LoaderWasTaken(es, k);
      var i: nat :| LoaderTakenAt(es, k, Run(es).frames[k].loaderId.value, i);
      assert Clears(es[i], NameAt(es, k, i));
    }
    assert DeliveredUnderPresentLoader(es, k, ev, j);
  }

  lemma DeliveredGoesBack(es: seq<Event>, k: FrameId, ev: string, j: nat)
    requires DeliveredAt(es, k, ev, j) && j < |es| - 1
    ensures var before, e := es[..|es| - 1], es[|es| - 1];
      var b := Before(Run(before), e, k);
      DeliveredAt(before, b, ev, j) && !Clears(e, b)
  {
    var before, e := es[..|es| - 1], es[|es| - 1];
    var b := Before(Run(before), e, k);
    NameBefore(es, k, j);
    NameBefore(es, k, |es| - 1);
    assert NameAt(before, b, |before|) == b;
    hide Run, Before, Delivers, Clears;
    forall x | j <= x <= |before| ensures NameAt(before, b, x) in Run(before[..x]).frames {
      NameBefore(es, k, x);
    }
    forall x | j < x < |before| ensures !Clears(before[x], NameAt(before, b, x)) {
      NameBefore(es, k, x);
    }
  }

  lemma DeliveredIsLive(es: seq<Event>, k: FrameId, ev: string, j: nat)
    requires DeliveredAt(es, k, ev, j)
    ensures var before, e := es[..|es| - 1], es[|es| - 1];
      var b := Before(Run(before), e, k);
      k in Run(es).frames && b in Run(before).frames && (j == |es| - 1 ==> Delivers(e, b, ev))
  {
    assert es[..|es|] == es && NameAt(es, k, |es|) == k;
    NameBefore(es, k, |es| - 1);
  }

  /** The converse: what has been delivered to a frame that is live since, and not cleared, is recorded. */
  lemma {:induction false} DeliveredIsRecorded(es: seq<Event>, k: FrameId, ev: string, j: nat)
    requires Primitive(es) && DeliveredAt(es, k, ev, j)
    ensures k in Run(es).frames && ev in Run(es).frames[k].lifecycle
  {
    var before, e := es[..|es| - 1], es[|es| - 1];
    var b := Before(Run(before), e, k);
    EveryRunIsWellShaped(before);
    DeliveredIsLive(es, k, ev, j);
    StepCarries(Run(before), e, k);
    assert Run(es) == Step(Run(before), e);
    hide Run, Step, NameAt, Before, Delivers, Clears, WellShaped, LiveSince, DeliveredAt;
    if j < |before| {
      DeliveredGoesBack(es, k, ev, j);
      DeliveredIsRecorded(before, b, ev, j);
    }
  }

  ghost predicate Received(es: seq<Event>, k: FrameId, ev: string) {
    exists j: nat :: DeliveredUnderPresentLoader(es, k, ev, j)
  }

  /** What a live frame has on record is exactly what it has received under its present loader. */
  lemma ReceivedIff(es: seq<Event>, k: FrameId, ev: string)
    requires Primitive(es) && k in Run(es).frames
    ensures Received(es, k, ev) <==> ev in Run(es).frames[k].lifecycle
  {
    if ev in Run(es).frames[k].lifecycle {
      RecordedUnderPresentLoader(es, k, ev);
    }
    if Received(es, k, ev) {
      var j: nat :| DeliveredUnderPresentLoader(es, k, ev, j);
      DeliveredIsRecorded(es, k, ev, j);
    }
  }

  // ----- Loaders announced since some event -----

  /** Event `i` announced a loader to the frame now called `k`. */
  ghost predicate AnnouncedAt(es: seq<Event>, k: FrameId, i: nat) {
    i < |es| && LiveSince(es, k, i) && Inits(es[i], NameAt(es, k, i))
  }

  ghost predicate AnnouncedSince(es: seq<Event>, k: FrameId, r: nat) {
    exists i: nat :: r <= i && AnnouncedAt(es, k, i)
  }

  /** A frame to which a loader has been announced has one. */
  lemma {:induction false} AnnouncedHasLoader(es: seq<Event>, k: FrameId, i: nat)
    requires Primitive(es) && AnnouncedAt(es, k, i)
    ensures k in Run(es).frames && Run(es).frames[k].loaderId.Some?
  {
    var before, e := es[..|es| - 1], es[|es| - 1];
    var b := Before(Run(before), e, k);
    assert es[..|es|] == es && NameAt(es, k, |es|) == k;
    EveryRunIsWellShaped(before);
    StepCarries(Run(before), e, k);
    NameBefore(es, k, i);
    NameBefore(es, k, |es| - 1);
    if i < |before| {
      forall x | i <= x <= |before| ensures NameAt(before, b, x) in Run(before[..x]).frames {
        NameBefore(es, k, x);
      }
      AnnouncedHasLoader(before, b, i);
    }
  }

  /** A loader that was not announced since event `j` is the one the frame had then. */
  lemma {:induction false} LoaderUnchanged(es: seq<Event>, k: FrameId, j: nat)
    requires Primitive(es) && j <= |es| && k in Run(es).frames && Run(es).frames[k].loaderId.Some?
    requires forall i :: j <= i < |es| ==> !Inits(es[i], NameAt(es, k, i))
    ensures NameAt(es, k, j) in Run(es[..j]).frames
    ensures Run(es[..j]).frames[NameAt(es, k, j)].loaderId == Run(es).frames[k].loaderId
  {
    if j == |es| {
      assert es[..j] == es;
    } else {
      var before, e := es[..|es| - 1], es[|es| - 1];
      var b := Before(Run(before), e, k);
      EveryRunIsWellShaped(before);
      StepCarries(Run(before), e, k);
      NameBefore(es, k, |es| - 1);
      assert NameAt(before, b, |before|) == b && Run(es) == Step(Run(before), e);
      NameBefore(es, k, j);
      NoInitBefore(es, k, j);
      hide Run, Step, NameAt, Before, Inits;
      LoaderUnchanged(before, b, j);
    }
  }

  lemma NoInitBefore(es: seq<Event>, k: FrameId, j: nat)
    requires j < |es| && forall i :: j <= i < |es| ==> !Inits(es[i], NameAt(es, k, i))
    ensures var before := es[..|es| - 1];
      var b := Before(Run(before), es[|es| - 1], k);
      forall i :: j <= i < |before| ==> !Inits(before[i], NameAt(before, b, i))
  {
    var before := es[..|es| - 1];
    var b := Before(Run(before), es[|es| - 1], k);
    forall i | j <= i < |before| ensures !Inits(before[i], NameAt(before, b, i)) {
      NameBefore(es, k, i);
    }
  }

  /** A frame whose loader is not the one it had before event `r` was announced one since, unless it has none. */
  lemma NewLoaderWasAnnounced(es: seq<Event>, k: FrameId, r: nat)
    requires Primitive(es) && r <= |es| && k in Run(es).frames
    requires var b := NameAt(es, k, r);
      Run(es).frames[k].loaderId != if b in Run(es[..r]).frames then Run(es[..r]).frames[b].loaderId else None
    ensures AnnouncedSince(es, k, r) <==> Run(es).frames[k].loaderId.Some?
  {
    if Run(es).frames[k].loaderId.Some? {
      LoaderWasTaken(es, k);
      var i: nat :| LoaderTakenAt(es, k, Run(es).frames[k].loaderId.value, i);
      if i < r {
        LoaderUnchanged(es, k, r);
      } else {
        assert AnnouncedAt(es, k, i);
      }
    }
    forall i: nat | r <= i && AnnouncedAt(es, k, i) ensures Run(es).frames[k].loaderId.Some? {
      AnnouncedHasLoader(es, k, i);
    }
  }

  // ----- Requests, activations and same-document hits -----

  /** What a request event queues: its watcher remembers the loader the frame has at that moment. */
  function EntryOf(m: Manager, e: Event): Option<(Request, Watcher)> {
    if e.NavigateFrame? then Some(EntryFor(m, e.id, e.req))
    else if e.Goto? && m.mainFrame.Some? then Some(EntryFor(m, m.mainFrame.value, e.req))
    else None
  }

  function EntryFor(m: Manager, id: FrameId, req: Request): (Request, Watcher) {
    var loaderId := if id in m.frames then m.frames[id].loaderId else None;
    (req.(frameId := Some(req.frameId.GetOr(id))), Watcher(req.id, {"load"}, id, loaderId, false))
  }

  ghost predicate QueuedAt(es: seq<Event>, r: nat, entry: (Request, Watcher)) {
    r < |es| && EntryOf(Run(es[..r]), es[r]) == Some(entry)
  }

  /** Event `a` started the entry and it has been active ever since. */
  ghost predicate StartedAt(es: seq<Event>, a: nat, entry: (Request, Watcher), deadline: Instant) {
    && a < |es| && es[a].Poll?
    && OnPoll(Run(es[..a]), es[a].now, es[a].clock).1 == Some(NavigationRequest(entry.0.id, entry.0))
    && deadline == es[a].clock + entry.0.timeout
    && ActiveAfter(es, a)
  }

  ghost predicate ActiveAfter(es: seq<Event>, a: nat) {
    forall i :: a < i <= |es| ==> Run(es[..i]).navigation.Some?
  }

  /** Event `d` is a same-document navigation of the frame the active watcher is on. */
  ghost predicate HitsActiveAt(es: seq<Event>, d: nat) {
    && d < |es| && es[d].WithinDocument? && Run(es[..d]).navigation.Some?
    && Run(es[..d]).navigation.value.0.frameId == es[d].id
  }

  ghost predicate HitSince(es: seq<Event>, a: nat) {
    exists d: nat :: a < d && HitsActiveAt(es, d)
  }

  /** Where a watcher on `id` is after the event: it moves with the main frame. */
  function Moved(m: Manager, e: Event, id: FrameId): FrameId {
    if e.Navigated? && e.frame.parentId.None? && m.mainFrame == Some(id) then e.frame.id else id
  }

  /** Where a watcher that was on `id` after the first `from` events is at the end. */
  ghost function Followed(es: seq<Event>, id: FrameId, from: nat): FrameId
    requires from <= |es|
  {
    if from == |es| then id
    else
      var before := es[..|es| - 1];
      Moved(Run(before), es[|es| - 1], Followed(before, id, from))
  }

  ghost predicate ActiveSince(es: seq<Event>, r: nat, a: nat, entry: (Request, Watcher)) {
    var m := Run(es);
    && m.navigation.Some?
    && r < a && QueuedAt(es, r, entry) && StartedAt(es, a, entry, m.navigation.value.1)
    && var w := m.navigation.value.0;
      && w.id == entry.1.id && w.expected == entry.1.expected && w.loaderId == entry.1.loaderId
      && w.frameId == Followed(es, entry.1.frameId, a + 1)
      && (w.sameDocument <==> HitSince(es, a))
  }

  ghost predicate WasQueued(es: seq<Event>, entry: (Request, Watcher)) {
    exists r: nat :: QueuedAt(es, r, entry)
  }

  ghost predicate PendingQueued(es: seq<Event>) {
    forall i :: 0 <= i < |Run(es).pending| ==> WasQueued(es, Run(es).pending[i])
  }

  ghost predicate ActiveQueued(es: seq<Event>) {
    Run(es).navigation.Some? ==> exists r: nat, a: nat, entry :: ActiveSince(es, r, a, entry)
  }

  lemma QueuedExtends(before: seq<Event>, e: Event, r: nat, entry: (Request, Watcher))
    requires QueuedAt(before, r, entry)
    ensures QueuedAt(before + [e], r, entry)
  {
    assert (before + [e])[..r] == before[..r];
  }

  /** One more event: a watcher that is active is hit by it, or was hit before. */
  lemma HitSinceSnoc(before: seq<Event>, e: Event, a: nat)
    requires a < |before| && Run(before).navigation.Some?
    ensures HitSince(before + [e], a) <==>
      HitSince(before, a) || (e.WithinDocument? && e.id == Run(before).navigation.value.0.frameId)
  {
    var es := before + [e];
    assert es[..|before|] == before;
    hide Run;
    forall d: nat | d < |before| ensures HitsActiveAt(es, d) <==> HitsActiveAt(before, d) {
      assert es[..d] == before[..d];
    }
    if e.WithinDocument? && e.id == Run(before).navigation.value.0.frameId {
      assert HitsActiveAt(es, |before|);
    }
  }

  lemma StartedExtends(before: seq<Event>, e: Event, a: nat, entry: (Request, Watcher), deadline: Instant)
    requires StartedAt(before, a, entry, deadline) && Run(before + [e]).navigation.Some?
    ensures StartedAt(before + [e], a, entry, deadline)
  {
    var es := before + [e];
    assert es[..a] == before[..a];
    forall i | a < i <= |es| ensures Run(es[..i]).navigation.Some? {
      if i <= |before| {
        assert es[..i] == before[..i];
      } else {
        assert es[..i] == es;
      }
    }
  }

  /** How one event that is no poll changes the active navigation. */
  lemma StepKeepsActive(m: Manager, e: Event)
    requires !e.Tree? && !e.Poll? && m.navigation.Some?
    ensures var after := Step(m, e).navigation;
      && after.Some? && after.value.1 == m.navigation.value.1
      && after.value.0.id == m.navigation.value.0.id && after.value.0.expected == m.navigation.value.0.expected
      && after.value.0.loaderId == m.navigation.value.0.loaderId
      && after.value.0.frameId == Moved(m, e, m.navigation.value.0.frameId)
      && (after.value.0.sameDocument <==>
            m.navigation.value.0.sameDocument || (e.WithinDocument? && e.id == m.navigation.value.0.frameId))
  {
  }

  lemma PollKeepsActive(m: Manager, e: Event)
    requires e.Poll? && m.navigation.Some? && Step(m, e).navigation.Some?
    ensures Step(m, e) == m
  {
  }

  lemma ActiveExtends(before: seq<Event>, e: Event, r: nat, a: nat, entry: (Request, Watcher))
    requires ActiveSince(before, r, a, entry) && !e.Tree? && Run(before + [e]).navigation.Some?
    ensures ActiveSince(before + [e], r, a, entry)
  {
    hide Step;
    var es := before + [e];
    assert es[..|es| - 1] == before;
    var m := Run(before);
    QueuedExtends(before, e, r, entry);
    StartedExtends(before, e, a, entry, m.navigation.value.1);
    if e.Poll? {
      PollKeepsActive(m, e);
    } else {
      StepKeepsActive(m, e);
    }
    HitSinceSnoc(before, e, a);
    hide HitSince;
  }

  lemma PollStarts(m: Manager, e: Event)
    requires e.Poll? && m.navigation.None? && m.pending != []
    ensures Step(m, e).navigation == Some((m.pending[0].1, e.clock + m.pending[0].0.timeout))
    ensures OnPoll(m, e.now, e.clock).1 == Some(NavigationRequest(m.pending[0].0.id, m.pending[0].0))
  {
  }

  lemma RunSnoc(before: seq<Event>, e: Event)
    ensures Run(before + [e]) == Step(Run(before), e)
    ensures (before + [e])[..|before|] == before
  {
    assert (before + [e])[..|before|] == before;
  }

  lemma ActiveAfterLast(es: seq<Event>, a: nat)
    requires |es| == a + 1 && Run(es).navigation.Some?
    ensures ActiveAfter(es, a)
  {
    assert es[..|es|] == es;
  }

  lemma StartedNow(es: seq<Event>, entry: (Request, Watcher))
    requires es != [] && es[|es| - 1].Poll?
    requires var m := Run(es[..|es| - 1]); m.navigation.None? && m.pending != [] && entry == m.pending[0]
    ensures Run(es).navigation == Some((entry.1, es[|es| - 1].clock + entry.0.timeout))
    ensures StartedAt(es, |es| - 1, entry, es[|es| - 1].clock + entry.0.timeout)
  {
    PollStarts(Run(es[..|es| - 1]), es[|es| - 1]);
    ActiveAfterLast(es, |es| - 1);
  }

  lemma ActiveStarts(before: seq<Event>, e: Event, r: nat, entry: (Request, Watcher))
    requires e.Poll? && Run(before).navigation.None? && Run(before).pending != []
    requires entry == Run(before).pending[0] && QueuedAt(before, r, entry)
    ensures ActiveSince(before + [e], r, |before|, entry)
  {
    RunSnoc(before, e);
    StartedNow(before + [e], entry);
    QueuedExtends(before, e, r, entry);
    QueuedIsFresh(before, r, entry);
  }

  lemma PendingExtends(before: seq<Event>, e: Event)
    requires PendingQueued(before) && !e.Tree?
    ensures PendingQueued(before + [e])
  {
    var es, m := before + [e], Run(before);
    assert es[..|before|] == before;
    var after := Run(es);
    forall i | 0 <= i < |after.pending| ensures WasQueued(es, after.pending[i]) {
      if EntryOf(m, e).Some? && i == |m.pending| {
        QueuedEntryIsLast(m, e);
        assert QueuedAt(es, |before|, after.pending[i]);
      } else {
        var k := if e.Poll? && |after.pending| < |m.pending| then i + 1 else i;
        PendingAfterStep(m, e, i, k);
        assert WasQueued(before, m.pending[k]);
        var r: nat :| QueuedAt(before, r, m.pending[k]);
        QueuedExtends(before, e, r, m.pending[k]);
      }
    }
  }

  lemma QueuedEntryIsLast(m: Manager, e: Event)
    requires EntryOf(m, e).Some?
    ensures Step(m, e).pending == m.pending + [EntryOf(m, e).value]
  {
  }

  lemma PendingAfterStep(m: Manager, e: Event, i: nat, k: nat)
    requires !e.Tree? && i < |Step(m, e).pending| && (EntryOf(m, e).Some? ==> i != |m.pending|)
    requires k == if e.Poll? && |Step(m, e).pending| < |m.pending| then i + 1 else i
    ensures k < |m.pending| && Step(m, e).pending[i] == m.pending[k]
  {
  }

  lemma QueuedIsFresh(es: seq<Event>, r: nat, entry: (Request, Watcher))
    requires QueuedAt(es, r, entry)
    ensures !entry.1.sameDocument && entry.1.expected == {"load"} && entry.1.id == entry.0.id
  {
  }

  lemma {:induction false} NavigationsHaveAHistory(es: seq<Event>)
    requires Primitive(es)
    ensures PendingQueued(es) && ActiveQueued(es)
  {
    if es == [] {
      assert Run(es) == INITIAL;
    } else {
      var before, e := es[..|es| - 1], es[|es| - 1];
      assert es == before + [e];
      NavigationsHaveAHistory(before);
      PendingExtends(before, e);
      if Run(es).navigation.Some? {
        if Run(before).navigation.Some? {
          var r: nat, a: nat, entry :| ActiveSince(before, r, a, entry);
          ActiveExtends(before, e, r, a, entry);
        } else {
          NavigationNeedsPoll(Run(before), e);
          var entry := Run(before).pending[0];
          assert WasQueued(before, entry);
          var r: nat :| QueuedAt(before, r, entry);
          ActiveStarts(before, e, r, entry);
        }
      }
    }
  }

  lemma NavigationNeedsPoll(m: Manager, e: Event)
    requires !e.Tree? && m.navigation.None? && Step(m, e).navigation.Some?
    ensures e.Poll? && m.pending != []
  {
  }

  // ----- The navigation counter -----

  /** Parentless navigations since the last accepted request. */
  ghost function NavigationsSinceRequest(es: seq<Event>): nat {
    if es == [] then 0
    else
      var before, e := es[..|es| - 1], es[|es| - 1];
      if EntryOf(Run(before), e).Some? then 0
      else NavigationsSinceRequest(before) + if e.Navigated? && e.frame.parentId.None? then 1 else 0
  }

  lemma {:induction false} CounterCountsNavigations(es: seq<Event>)
    requires Primitive(es)
    ensures Run(es).navCount == Min(NavigationsSinceRequest(es), U32_MAX)
  {
    if es != [] {
      CounterCountsNavigations(es[..|es| - 1]);
      CounterStep(Run(es[..|es| - 1]), es[|es| - 1]);
    }
  }

  lemma CounterStep(m: Manager, e: Event)
    requires !e.Tree?
    ensures Step(m, e).navCount ==
      if EntryOf(m, e).Some? then 0
      else if e.Navigated? && e.frame.parentId.None? then Min(m.navCount + 1, U32_MAX)
      else m.navCount
  {
  }

  // ----- Whether the frame that finishes is the one asked for -----

  /** The frame now called `k` has been live since before event `from` and was called `id` then. */
  ghost predicate IsFrame(es: seq<Event>, k: FrameId, from: nat, id: FrameId)
    requires from <= |es|
  {
    NameAt(es, k, from) == id && LiveSince(es, k, from)
  }

  /** A parentless navigation gives the id of a frame to another one, the main frame. */
  predicate TakesOver(m: Manager, e: Event, id: FrameId) {
    e.Navigated? && e.frame.parentId.None? && e.frame.id == id && m.mainFrame != Some(id)
  }

  /** The id that was `id` before event `from`, followed to the end, is that of a live frame and never taken over. */
  ghost predicate Kept(es: seq<Event>, id: FrameId, from: nat)
    requires from <= |es|
  {
    && Followed(es, id, from) in Run(es).frames
    && (from < |es| ==>
          var before := es[..|es| - 1];
          Kept(before, id, from) && !TakesOver(Run(before), es[|es| - 1], Followed(before, id, from)))
  }

  /** One event: the frame before it is the one found by going back if and only if going on finds it, not taken over. */
  lemma BackIsForth(m: Manager, e: Event, id: FrameId, k: FrameId)
    requires WellShaped(m) && !e.Tree? && id in m.frames && k in Step(m, e).frames
    ensures Before(m, e, k) == id <==> Moved(m, e, id) == k && !TakesOver(m, e, id)
  {
    if e.Navigated? && e.frame.parentId.None? {
      MainNavigatedLeavesOnlyMain(m, e.frame, e.worldName);
    }
  }

  lemma IsFrameSnoc(es: seq<Event>, k: FrameId, from: nat, id: FrameId)
    requires from < |es|
    ensures var before := es[..|es| - 1];
      IsFrame(es, k, from, id) <==>
        k in Run(es).frames && IsFrame(before, Before(Run(before), es[|es| - 1], k), from, id)
  {
    var before := es[..|es| - 1];
    var b := Before(Run(before), es[|es| - 1], k);
    assert es[..|es|] == es && NameAt(es, k, |es|) == k;
    NameBefore(es, k, from);
    forall i | from <= i <= |before| ensures NameAt(es, k, i) == NameAt(before, b, i) && es[..i] == before[..i] {
      NameBefore(es, k, i);
    }
    if k in Run(es).frames && LiveSince(before, b, from) {
      LiveSinceExtends(es, k, from);
    }
  }

  lemma LiveLast(es: seq<Event>, k: FrameId, from: nat, id: FrameId)
    requires from <= |es|
    ensures IsFrame(es, k, from, id) ==> k in Run(es).frames
  {
    assert es[..|es|] == es && NameAt(es, k, |es|) == k;
  }

  /**
   Over any run, the frame now called `k` is the one that was called `id` before event `from` if and only if `id`,
   followed through the renamings of the main frame, leads to `k`, always to a live frame, and is never taken over.
   */
  lemma {:induction false} IsFrameIff(es: seq<Event>, k: FrameId, from: nat, id: FrameId)
    requires Primitive(es) && from <= |es|
    ensures IsFrame(es, k, from, id) <==> Followed(es, id, from) == k && Kept(es, id, from)
  {
    if from == |es| {
      assert es[..|es|] == es;
    } else {
      var before, e := es[..|es| - 1], es[|es| - 1];
      var m := Run(before);
      EveryRunIsWellShaped(before);
      IsFrameSnoc(es, k, from, id);
      IsFrameIff(before, Before(m, e, k), from, id);
      IsFrameIff(before, Followed(before, id, from), from, id);
      if k in Run(es).frames && Followed(before, id, from) in m.frames {
        BackIsForth(m, e, Followed(before, id, from), k);
      }
      hide Step, NameAt, Before, Moved, LiveSince;
      LiveLast(before, Before(m, e, k), from, id);
    }
  }

  /**
   The event separates a watcher from its frame: the main frame takes the watched id over, or the watcher is on a main
   frame that is gone and moves to the frame made in its place.
   */
  predicate Separates(m: Manager, e: Event, id: FrameId) {
    && e.Navigated? && e.frame.parentId.None?
    && if m.mainFrame == Some(id) then id !in m.frames && e.frame.id != id
       else e.frame.id == id && m.mainFrame.Some? && m.mainFrame.value in m.frames
  }

  /** As long as no event separates them, the followed id is that of the frame it started on, live or not. */
  lemma {:induction false} FollowedKeepsName(es: seq<Event>, id: FrameId, from: nat)
    requires from <= |es|
    requires forall i :: from <= i < |es| ==> !Separates(Run(es[..i]), es[i], Followed(es[..i], id, from))
    ensures NameAt(es, Followed(es, id, from), from) == id
  {
    if from < |es| {
      var before := es[..|es| - 1];
      forall i | from <= i < |before| ensures !Separates(Run(before[..i]), before[i], Followed(before[..i], id, from)) {
        assert before[..i] == es[..i] && before[i] == es[i];
      }
      hide Run;
      FollowedKeepsName(before, id, from);
      assert !Separates(Run(before), es[|es| - 1], Followed(before, id, from));
    }
  }

  // ----- A finished navigation is justified -----

  /** The frame now called `k` is the very one request `r` was for, and a loader has been announced to it since. */
  ghost predicate IsNewDocumentOf(es: seq<Event>, k: FrameId, r: nat, entry: (Request, Watcher))
    requires r <= |es|
  {
    IsFrame(es, k, r, entry.1.frameId) && AnnouncedSince(es, k, r)
  }

  /**
   The result was asked for by event `r` and started by event `a`; neither its deadline nor the cap has passed; its
   frame, the one asked for followed through the renamings of the main frame since `a`, is live and has received `load`
   under its present loader, or `DOMContentLoaded` if it has no url. For a same-document result an event hit the active
   watcher. For a new-document one the loader is not the one remembered, and if the frame had the id asked for at `r`,
   it has been announced a loader since if and only if it has one. It is a new document of the very frame asked for if
   and only if the frame has a loader and the id asked for, followed since `r` and not only since `a`, leads to it,
   always to a live frame, and is never taken over by the main frame.
   */
  ghost predicate Justified(es: seq<Event>, now: Instant, ok: NavigationOk, r: nat, a: nat, entry: (Request, Watcher)) {
    var m := Run(es);
    && ActiveSince(es, r, a, entry) && ok.id == entry.0.id
    && now <= m.navigation.value.1
    && (m.maxNavigations.Some? ==> Min(NavigationsSinceRequest(es), U32_MAX) <= m.maxNavigations.value)
    && var k := m.navigation.value.0.frameId;
      && k in m.frames
      && (Received(es, k, "load") || (m.frames[k].url.None? && Received(es, k, "DOMContentLoaded")))
      && if ok.SameDocumentNavigation? then HitSince(es, a)
         else
           && m.frames[k].loaderId != entry.1.loaderId
           && (NameAt(es, k, r) == entry.1.frameId ==> (AnnouncedSince(es, k, r) <==> m.frames[k].loaderId.Some?))
           && (IsNewDocumentOf(es, k, r, entry)
               <==> m.frames[k].loaderId.Some? && Followed(es, entry.1.frameId, r) == k && Kept(es, entry.1.frameId, r))
  }

  lemma FinishedIsJustified(es: seq<Event>, now: Instant, clock: Instant, ok: NavigationOk)
    requires Primitive(es) && OnPoll(Run(es), now, clock).1 == Some(NavigationResult(Ok(ok)))
    ensures exists r: nat, a: nat, entry :: Justified(es, now, ok, r, a, entry)
  {
    var m := Run(es);
    var w := m.navigation.value.0;
    NavigationsHaveAHistory(es);
    CounterCountsNavigations(es);
    var r: nat, a: nat, entry :| ActiveSince(es, r, a, entry);
    QueuedIsFresh(es, r, entry);
    var f := m.frames[w.frameId];
    assert "load" in w.expected;
    if "load" in f.lifecycle {
      RecordedUnderPresentLoader(es, w.frameId, "load");
    } else {
      RecordedUnderPresentLoader(es, w.frameId, "DOMContentLoaded");
    }
    IsFrameIff(es, w.frameId, r, entry.1.frameId);
    if f.loaderId != entry.1.loaderId && NameAt(es, w.frameId, r) == entry.1.frameId {
      NewLoaderWasAnnounced(es, w.frameId, r);
    }
    assert Justified(es, now, ok, r, a, entry);
  }

  /** The same for any run: its expansion into primitive events justifies every finished navigation. */
  lemma EveryFinishedNavigationIsJustified(es: seq<Event>, now: Instant, clock: Instant, ok: NavigationOk)
    requires OnPoll(Run(es), now, clock).1 == Some(NavigationResult(Ok(ok)))
    ensures exists r: nat, a: nat, entry :: Justified(Expand(es), now, ok, r, a, entry)
  {
    ExpandedRun(es);
    FinishedIsJustified(Expand(es), now, clock, ok);
  }

  // ----- What every poll answers -----

  /** The loader of the frame called `id`, if it is live and has one. */
  function LoaderOf(m: Manager, id: FrameId): Option<LoaderId> {
    if id in m.frames then m.frames[id].loaderId else None
  }

  /** The cap that was set last. */
  function CapOf(es: seq<Event>): Option<nat> {
    if es == [] then None
    else if es[|es| - 1].SetCap? then es[|es| - 1].cap
    else CapOf(es[..|es| - 1])
  }

  lemma OtherEventsKeepCap(m: Manager, e: Event)
    requires !e.Tree? && !e.SetCap?
    ensures Step(m, e).maxNavigations == m.maxNavigations
  {
    hide OnTree, OutsideMain, NextMain, Retargeted, RemoveSubtree, Outside, CheckLifecycleComplete, ChildFrame;
    hide Adopt, ClearAmong;
  }

  lemma {:induction false} CapIsTheLastSet(es: seq<Event>)
    requires Primitive(es)
    ensures Run(es).maxNavigations == CapOf(es)
  {
    if es != [] {
      CapIsTheLastSet(es[..|es| - 1]);
      if !es[|es| - 1].SetCap? {
        OtherEventsKeepCap(Run(es[..|es| - 1]), es[|es| - 1]);
      }
      hide OnTree, OnNavigated, OnAttached, OnDetached, OnPoll, OnWithinDocument, OnLifecycle, OnContextCreated;
      hide OnContextDestroyed, OnContextsCleared, OnStartedLoading, OnStoppedLoading, OnRequestFinished;
    }
  }

  /**
   What a poll answers to an active navigation, by the history of the run: it was asked for by event `r` and started by
   event `a`. The cap comes first, then the deadline, then a frame that is gone. A frame that has received `load` under
   its present loader, or `DOMContentLoaded` if it has no url, is done without a new document if an event has hit the
   active watcher since `a`, and otherwise with a new one if its loader is not the one that the frame asked for had at
   `r`. In every other case the navigation stays active, and the poll answers nothing.
   */
  ghost predicate Answers(
    es: seq<Event>, now: Instant, r: nat, a: nat, entry: (Request, Watcher), after: Manager, out: Option<FrameEvent>)
    requires r < a < |es| && es[a].Poll?
  {
    var m, k, id := Run(es), Followed(es, entry.1.frameId, a + 1), entry.0.id;
    var count := Min(NavigationsSinceRequest(es), U32_MAX);
    if CapOf(es).Some? && count > CapOf(es).value then
      Ended(m, after, out, Err(TooManyNavigations(id, count)))
    else if now > es[a].clock + entry.0.timeout then Ended(m, after, out, Err(Timeout(id)))
    else if k !in m.frames then Ended(m, after, out, Err(FrameNotFound(id, k)))
    else if !Received(es, k, "load") && !(m.frames[k].url.None? && Received(es, k, "DOMContentLoaded")) then
      StaysActive(m, after, out)
    else if HitSince(es, a) then Ended(m, after, out, Ok(SameDocumentNavigation(id)))
    else if LoaderOf(m, k) != LoaderOf(Run(es[..r]), entry.1.frameId) then
      Ended(m, after, out, Ok(NewDocumentNavigation(id)))
    else StaysActive(m, after, out)
  }

  predicate Ended(
    m: Manager, after: Manager, out: Option<FrameEvent>, result: Result<NavigationOk, NavigationError>)
  {
    after == m.(navigation := None) && out == Some(NavigationResult(result))
  }

  predicate StaysActive(m: Manager, after: Manager, out: Option<FrameEvent>) {
    after == m && out.None?
  }

  lemma CheckIs(w: Watcher, f: Frame)
    requires w.expected == {"load"}
    ensures var met := "load" in f.lifecycle || (f.url.None? && "DOMContentLoaded" in f.lifecycle);
      CheckLifecycleComplete(w, f) ==
        if met && w.sameDocument then Some(SameDocumentNavigation(w.id))
        else if met && f.loaderId != w.loaderId then Some(NewDocumentNavigation(w.id))
        else None
  {
    assert "load" in w.expected;
  }

  lemma PollAnswers(es: seq<Event>, now: Instant, clock: Instant, r: nat, a: nat, entry: (Request, Watcher))
    requires Primitive(es) && ActiveSince(es, r, a, entry)
    ensures Answers(es, now, r, a, entry, OnPoll(Run(es), now, clock).0, OnPoll(Run(es), now, clock).1)
  {
    var m := Run(es);
    var w := m.navigation.value.0;
    CapIsTheLastSet(es);
    CounterCountsNavigations(es);
    QueuedIsFresh(es, r, entry);
    assert w.loaderId == LoaderOf(Run(es[..r]), entry.1.frameId);
    if w.frameId in m.frames {
      ReceivedIff(es, w.frameId, "load");
      ReceivedIff(es, w.frameId, "DOMContentLoaded");
      CheckIs(w, m.frames[w.frameId]);
    }
    hide Run, Received, HitSince, NavigationsSinceRequest, Followed, CheckLifecycleComplete, QueuedAt, ActiveAfter;
    hide Primitive, LoaderOf, CapOf;
    if w.frameId in m.frames {
      LoaderOfLive(m, w.frameId);
    }
  }

  lemma LoaderOfLive(m: Manager, id: FrameId)
    requires id in m.frames
    ensures LoaderOf(m, id) == m.frames[id].loaderId
  {
  }

  /** Over every run: a poll of an active navigation answers what the history of the run says, and nothing else. */
  lemma EveryPollAnswers(es: seq<Event>, now: Instant, clock: Instant)
    requires Run(es).navigation.Some?
    ensures var (after, out) := OnPoll(Run(es), now, clock);
      exists r: nat, a: nat, entry ::
        ActiveSince(Expand(es), r, a, entry) && Answers(Expand(es), now, r, a, entry, after, out)
  {
    ExpandedRun(es);
    NavigationsHaveAHistory(Expand(es));
    var r: nat, a: nat, entry :| ActiveSince(Expand(es), r, a, entry);
    PollAnswers(Expand(es), now, clock, r, a, entry);
  }

  /** Without an active navigation a poll starts the one that has waited longest, under its timeout from now on. */
  lemma IdlePollAnswers(m: Manager, now: Instant, clock: Instant)
    requires m.navigation.None?
    ensures var (after, out) := OnPoll(m, now, clock);
      if m.pending == [] then after == m && out.None?
      else
        var (req, w) := m.pending[0];
        && out == Some(NavigationRequest(req.id, req))
        && after == m.(navigation := Some((w, clock + req.timeout)), pending := m.pending[1..])
  {
  }

  /** A poll past the deadline of an active navigation always ends it, and never as done. */
  lemma PollPastDeadlineEnds(m: Manager, now: Instant, clock: Instant)
    requires m.navigation.Some? && now > m.navigation.value.1
    ensures var (after, out) := OnPoll(m, now, clock);
      && after.navigation.None? && out.Some? && out.value.NavigationResult? && out.value.result.Err?
      && ResultId(out.value.result) == m.navigation.value.0.id
  {
  }

  // ----- The active watcher follows the main frame -----

  ghost predicate OnMain(m: Manager) {
    m.navigation.Some? && m.mainFrame == Some(m.navigation.value.0.frameId)
  }

  lemma NavigationStaysOnMain(m: Manager, frame: CdpFrame, worldName: string)
    requires OnMain(m)
    ensures OnMain(OnNavigated(m, frame, worldName))
  {
  }

  lemma {:induction false} TreeStaysOnMain(m: Manager, tree: FrameTree, worldName: string)
    requires OnMain(m)
    ensures OnMain(OnTree(m, tree, worldName))
    decreases tree, 0
  {
    var attached := OnAttached(m, tree.frame.id, tree.frame.parentId);
    NavigationStaysOnMain(attached, tree.frame, worldName);
    TreesStayOnMain(OnNavigated(attached, tree.frame, worldName), tree.children, worldName);
  }

  lemma {:induction false} TreesStayOnMain(m: Manager, trees: seq<FrameTree>, worldName: string)
    requires OnMain(m)
    ensures OnMain(OnTrees(m, trees, worldName))
    decreases trees, |trees|
  {
    if trees != [] {
      TreeStaysOnMain(m, trees[0], worldName);
      TreesStayOnMain(OnTree(m, trees[0], worldName), trees[1..], worldName);
    }
  }

  lemma StepStaysOnMain(m: Manager, e: Event)
    requires OnMain(m) && Step(m, e).navigation.Some?
    ensures OnMain(Step(m, e))
  {
    if e.Tree? {
      TreeStaysOnMain(m, e.tree, e.worldName);
    } else if e.Navigated? {
      NavigationStaysOnMain(m, e.frame, e.worldName);
    }
  }

  /**
   Once on the main frame, the active watcher stays on it until its result, through every id change, those inside a
   frame tree included.
   */
  lemma {:induction false} ActiveWatcherStaysOnMain(m: Manager, es: seq<Event>)
    requires OnMain(m)
    requires forall i :: 0 <= i <= |es| ==> RunFrom(m, es[..i]).navigation.Some?
    ensures OnMain(RunFrom(m, es))
    decreases |es|
  {
    if es != [] {
      assert RunFrom(m, es[..1]) == Step(m, es[0]) by {
        assert es[..1][1..] == [];
      }
      StepStaysOnMain(m, es[0]);
      forall i | 0 <= i <= |es| - 1 ensures RunFrom(Step(m, es[0]), es[1..][..i]).navigation.Some? {
        assert es[..i + 1][1..] == es[1..][..i];
      }
      ActiveWatcherStaysOnMain(Step(m, es[0]), es[1..]);
    }
  }

  // ----- A queued watcher does not -----

  /**
   A watcher that waits in the queue does not follow: over every run, a navigation of the main frame that is next in the
   queue is started on the main frame if and only if that has the id that it had when the navigation was asked for.
   */
  lemma QueuedWatcherIsNotRetargeted(es: seq<Event>, r: nat, entry: (Request, Watcher), now: Instant, clock: Instant)
    requires Run(es).navigation.None? && Run(es).pending != [] && entry == Run(es).pending[0]
    requires QueuedAt(es, r, entry) && Run(es[..r]).mainFrame == Some(entry.1.frameId)
    ensures var started := OnPoll(Run(es), now, clock).0;
      && started.navigation == Some((entry.1, clock + entry.0.timeout))
      && (OnMain(started) <==> Run(es).mainFrame == Run(es[..r]).mainFrame)
  {
    hide Run;
  }

  /** A poll reports a missing frame exactly if, within the cap and the deadline, the watched frame is not live. */
  lemma FrameIsMissingIff(m: Manager, now: Instant, clock: Instant)
    requires m.navigation.Some?
    ensures var (w, deadline) := m.navigation.value;
      OnPoll(m, now, clock).1 == Some(NavigationResult(Err(FrameNotFound(w.id, w.frameId)))) <==>
        && (m.maxNavigations.Some? ==> m.navCount <= m.maxNavigations.value)
        && now <= deadline && w.frameId !in m.frames
  {
    hide CheckLifecycleComplete;
  }
}
