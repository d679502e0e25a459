/**
 What one event does to each frame, frame by frame: which frames are live after it, what they are called and have on
 record, and which execution context each of their worlds holds.
 */
module FrameRecords {
  import opened FrameContexts
  import opened FrameForest
  import opened FrameModel
  import opened NavigationHistory
  import opened Wrappers

  // ----- Which frames are live -----

  /** The frames after an event: only an attach below a live parent and a parentless navigation add one. */
  ghost predicate LiveAfter(m: Manager, e: Event, k: FrameId) {
    match e
    case Attached(id, parentId) => k in m.frames || (k == id && parentId.Some? && parentId.value in m.frames)
    case Detached(id) => k in m.frames && !Below(m.frames, id, k)
    case Navigated(frame, _) =>
      if frame.parentId.None? then k == frame.id
      else k in m.frames && (k == frame.id || frame.id !in m.frames || !Below(m.frames, frame.id, k))
    case _ => k in m.frames
  }

  lemma LiveAfterIff(m: Manager, e: Event, k: FrameId)
    requires WellShaped(m) && !e.Tree?
    ensures k in Step(m, e).frames <==> LiveAfter(m, e, k)
  {
    hide Below, WellShaped;
    if e.Navigated? && e.frame.parentId.None? {
      MainNavigatedLeavesOnlyMain(m, e.frame, e.worldName);
      hide OnMainNavigated;
    } else if e.EvictStale? || e.SetCap? || e.NavigateFrame? || e.Goto? || e.Poll? {
      StepKeepsFrames(m, e);
    }
  }

  // ----- What they have on record -----

  /** The url, name and request of the frame that is called `k` after the event and was called `b` before it. */
  ghost predicate RecordsAfter(m: Manager, e: Event, b: FrameId, k: FrameId, f: Frame) {
    var navigated := e.Navigated? && e.frame.id == k;
    && f.id == k
    && f.url == (if navigated then Some(e.frame.url + e.frame.urlFragment.GetOr(""))
                 else if e.WithinDocument? && e.id == b then Some(e.url)
                 else if b in m.frames then m.frames[b].url else None)
    && f.name == (if navigated then e.frame.name else if b in m.frames then m.frames[b].name else None)
    && f.httpRequest == (if e.RequestFinished? && e.frameId == Some(b) then Some(e.request)
                         else if e.StartedLoading? && e.id == b then None
                         else if b in m.frames then m.frames[b].httpRequest else None)
    && f.worldName == (if b in m.frames then m.frames[b].worldName
                       else if e.Attached? && e.parentId.Some? && e.parentId.value in m.frames
                       then m.frames[e.parentId.value].worldName
                       else if e.Navigated? then e.worldName else "")
  }

  lemma MainNavigationRecords(m: Manager, e: Event, k: FrameId)
    requires WellShaped(m) && e.Navigated? && e.frame.parentId.None?
    requires k in OnMainNavigated(m, e.frame, e.worldName).frames
    ensures RecordsAfter(m, e, Before(m, e, k), k, OnMainNavigated(m, e.frame, e.worldName).frames[k])
  {
    MainNavigatedLeavesOnlyMain(m, e.frame, e.worldName);
    EmptyWithoutMain(m);
    hide WellShaped, OnMainNavigated;
  }

  lemma EmptyWithoutMain(m: Manager)
    requires WellShaped(m)
    ensures m.frames == map[] || (m.mainFrame.Some? && m.mainFrame.value in m.frames)
  {
  }

  lemma ChildNavigationRecords(m: Manager, e: Event, k: FrameId)
    requires WellShaped(m) && e.Navigated? && e.frame.parentId.Some? && k in OnChildNavigated(m, e.frame).frames
    ensures RecordsAfter(m, e, k, k, OnChildNavigated(m, e.frame).frames[k])
  {
    IdIsKey(m, k);
    hide WellShaped, Below;
  }

  lemma WithinDocumentRecords(m: Manager, e: Event, k: FrameId)
    requires WellShaped(m) && k in m.frames && e.WithinDocument?
    ensures RecordsAfter(m, e, k, k, OnWithinDocument(m, e.id, e.url).frames[k])
  {
    IdIsKey(m, k);
    hide WellShaped;
  }

  lemma StartedLoadingRecords(m: Manager, e: Event, k: FrameId)
    requires WellShaped(m) && k in m.frames && e.StartedLoading?
    ensures RecordsAfter(m, e, k, k, OnStartedLoading(m, e.id).frames[k])
  {
    IdIsKey(m, k);
    hide WellShaped;
  }

  lemma RequestRecords(m: Manager, e: Event, k: FrameId)
    requires WellShaped(m) && k in m.frames && e.RequestFinished?
    ensures RecordsAfter(m, e, k, k, OnRequestFinished(m, e.frameId, e.request).frames[k])
  {
    IdIsKey(m, k);
    hide WellShaped;
  }

  predicate SameRecords(f: Frame, g: Frame) {
    && f.id == g.id && f.url == g.url && f.name == g.name && f.httpRequest == g.httpRequest
    && f.worldName == g.worldName
  }

  lemma UnchangedRecords(m: Manager, e: Event, k: FrameId, f: Frame)
    requires WellShaped(m) && k in m.frames && SameRecords(m.frames[k], f)
    requires !e.Navigated? && !e.WithinDocument? && !e.StartedLoading? && !e.RequestFinished?
    ensures RecordsAfter(m, e, k, k, f)
  {
    IdIsKey(m, k);
    hide WellShaped;
  }

  lemma AttachRecords(m: Manager, e: Event, k: FrameId)
    requires WellShaped(m) && e.Attached? && k in OnAttached(m, e.id, e.parentId).frames
    ensures RecordsAfter(m, e, k, k, OnAttached(m, e.id, e.parentId).frames[k])
  {
    var f := OnAttached(m, e.id, e.parentId).frames[k];
    if k in m.frames {
      assert SameRecords(m.frames[k], f);
      UnchangedRecords(m, e, k, f);
    } else {
      assert f == ChildFrame(k, m.frames[e.parentId.value]);
    }
    hide WellShaped, OnAttached;
  }

  lemma DetachRecords(m: Manager, e: Event, k: FrameId)
    requires WellShaped(m) && e.Detached? && k in OnDetached(m, e.id).frames
    ensures RecordsAfter(m, e, k, k, OnDetached(m, e.id).frames[k])
  {
    hide WellShaped, Below, RecordsAfter;
    UnchangedRecords(m, e, k, OnDetached(m, e.id).frames[k]);
  }

  lemma LifecycleRecords(m: Manager, e: Event, k: FrameId)
    requires k in m.frames
    ensures e.StoppedLoading? ==> SameRecords(m.frames[k], OnStoppedLoading(m, e.id).frames[k])
    ensures e.Lifecycle? ==> SameRecords(m.frames[k], OnLifecycle(m, e.id, e.loaderId, e.name).frames[k])
  {
  }

  lemma ContextRecords(m: Manager, e: Event, k: FrameId)
    requires k in m.frames
    ensures e.ContextCreated? ==>
      SameRecords(m.frames[k], OnContextCreated(m, e.context, e.frameId, e.isDefault, e.name).frames[k])
    ensures e.ContextDestroyed? ==> SameRecords(m.frames[k], OnContextDestroyed(m, e.uniqueId).frames[k])
    ensures e.ContextsCleared? ==> SameRecords(m.frames[k], OnContextsCleared(m).frames[k])
  {
  }

  lemma QuietEventRecords(m: Manager, e: Event, k: FrameId)
    requires WellShaped(m) && k in Step(m, e).frames
    requires e.EvictStale? || e.SetCap? || e.NavigateFrame? || e.Goto? || e.Poll?
    ensures RecordsAfter(m, e, k, k, Step(m, e).frames[k])
  {
    StepKeepsFrames(m, e);
    IdIsKey(m, k);
    hide WellShaped, Step;
  }

  /** What one event does to the records of a frame that is live after it. */
  lemma StepRecords(m: Manager, e: Event, k: FrameId)
    requires WellShaped(m) && !e.Tree? && k in Step(m, e).frames
    ensures RecordsAfter(m, e, Before(m, e, k), k, Step(m, e).frames[k])
  {
    LiveAfterIff(m, e, k);
    hide RecordsAfter, SameRecords, WellShaped, OnMainNavigated, OnChildNavigated, OnAttached, OnDetached;
    hide OnContextCreated, OnContextDestroyed, OnContextsCleared, OnLifecycle, OnStoppedLoading, OnStartedLoading;
    hide OnRequestFinished;
    hide OnWithinDocument, Below, OnPoll, OnGoto, OnNavigateFrame;
    if e.Navigated? {
      if e.frame.parentId.None? {
        MainNavigationRecords(m, e, k);
      } else {
        ChildNavigationRecords(m, e, k);
      }
    } else if e.Attached? {
      AttachRecords(m, e, k);
    } else if e.Detached? {
      DetachRecords(m, e, k);
    } else if e.EvictStale? || e.SetCap? || e.NavigateFrame? || e.Goto? || e.Poll? {
      QuietEventRecords(m, e, k);
    } else if e.WithinDocument? {
      WithinDocumentRecords(m, e, k);
    } else if e.StartedLoading? {
      StartedLoadingRecords(m, e, k);
    } else if e.RequestFinished? {
      RequestRecords(m, e, k);
    } else {
      LifecycleRecords(m, e, k);
      ContextRecords(m, e, k);
      UnchangedRecords(m, e, k, Step(m, e).frames[k]);
    }
  }

  // ----- The index of contexts -----

  /** The frame that the index gives for a context after an event. */
  function IndexAfter(m: Manager, e: Event, uniqueId: string): Option<FrameId> {
    var was := if uniqueId in m.contextIds then Some(m.contextIds[uniqueId]) else None;
    match e
    case ContextCreated(context, frameId, _, _) =>
      if context.uniqueId == uniqueId && frameId.Some? && frameId.value in m.frames then frameId else was
    case ContextDestroyed(destroyed) => if destroyed == uniqueId then None else was
    case ContextsCleared => None
    case EvictStale => if was.Some? && was.value in m.frames then was else None
    case _ => was
  }

  lemma OtherEventsKeepIndex(m: Manager, e: Event)
    requires !e.Tree? && !e.ContextCreated? && !e.ContextDestroyed? && !e.ContextsCleared? && !e.EvictStale?
    ensures Step(m, e).contextIds == m.contextIds
  {
    hide OnTree, OutsideMain, NextMain, Retargeted, RemoveSubtree, Outside, CheckLifecycleComplete, ChildFrame;
  }

  lemma CreationIndexes(m: Manager, e: Event, uniqueId: string)
    requires WellShaped(m) && e.ContextCreated?
    ensures var after := OnContextCreated(m, e.context, e.frameId, e.isDefault, e.name).contextIds;
      (if uniqueId in after then Some(after[uniqueId]) else None) == IndexAfter(m, e, uniqueId)
  {
    if e.frameId.Some? && e.frameId.value in m.frames {
      IdIsKey(m, e.frameId.value);
    }
    hide WellShaped, Adopt;
  }

  /** A created context is indexed whether or not a world takes it; entries go with destruction, clear and eviction. */
  lemma StepIndexes(m: Manager, e: Event, uniqueId: string)
    requires WellShaped(m) && !e.Tree?
    ensures var after := Step(m, e).contextIds;
      (if uniqueId in after then Some(after[uniqueId]) else None) == IndexAfter(m, e, uniqueId)
  {
    if e.ContextCreated? {
      CreationIndexes(m, e, uniqueId);
      hide OnContextCreated, IndexAfter;
    } else if !e.ContextDestroyed? && !e.ContextsCleared? && !e.EvictStale? {
      OtherEventsKeepIndex(m, e);
      hide Step;
    }
    hide OnTree, OnNavigated, OnAttached, OnDetached, OnPoll, OnWithinDocument, OnLifecycle, OnContextCreated;
    hide WellShaped;
  }

  // ----- Which context each world holds -----

  function World(f: Frame, isMain: bool): Option<Context> {
    if isMain then f.mainWorld else f.secondaryWorld
  }

  /**
   The event gives a new context to a world of the live frame `b`: to the main world if it is the default one, otherwise
   to the isolated world, if that is empty and the context has its name.
   */
  predicate Gives(m: Manager, e: Event, b: FrameId, isMain: bool) {
    && e.ContextCreated? && e.frameId == Some(b) && b in m.frames
    && if isMain then e.isDefault
       else !e.isDefault && e.name == m.frames[b].worldName && m.frames[b].secondaryWorld.None?
  }

  predicate TakesAway(e: Event, context: Context) {
    e.ContextsCleared? || (e.ContextDestroyed? && e.uniqueId == context.uniqueId)
  }

  /** A world after the event, of a frame that was called `b` before it. */
  predicate WorldAfter(m: Manager, e: Event, b: FrameId, isMain: bool, world: Option<Context>) {
    var was := if b in m.frames then World(m.frames[b], isMain) else None;
    world == if Gives(m, e, b, isMain) then Some(e.context)
             else if was.Some? && TakesAway(e, was.value) then None
             else was
  }

  lemma CreatedWorlds(m: Manager, e: Event, k: FrameId, isMain: bool)
    requires k in m.frames && e.ContextCreated?
    ensures var after := OnContextCreated(m, e.context, e.frameId, e.isDefault, e.name);
      WorldAfter(m, e, k, isMain, World(after.frames[k], isMain))
  {
  }

  lemma DestroyedWorlds(m: Manager, e: Event, k: FrameId, isMain: bool)
    requires Tracked(m) && k in m.frames && e.ContextDestroyed?
    ensures WorldAfter(m, e, k, isMain, World(OnContextDestroyed(m, e.uniqueId).frames[k], isMain))
  {
    assert FrameTracked(m.contextIds, k, m.frames[k]);
  }

  lemma ClearedWorlds(m: Manager, e: Event, k: FrameId, isMain: bool)
    requires Tracked(m) && k in m.frames && e.ContextsCleared?
    ensures WorldAfter(m, e, k, isMain, World(OnContextsCleared(m).frames[k], isMain))
  {
    assert FrameTracked(m.contextIds, k, m.frames[k]);
    HolderIsAValue(m.contextIds, k, m.frames[k]);
  }

  lemma MainNavigationWorlds(m: Manager, e: Event, k: FrameId, isMain: bool)
    requires WellShaped(m) && e.Navigated? && e.frame.parentId.None?
    requires k in OnMainNavigated(m, e.frame, e.worldName).frames
    ensures WorldAfter(m, e, Before(m, e, k), isMain, World(OnMainNavigated(m, e.frame, e.worldName).frames[k], isMain))
  {
    MainNavigatedLeavesOnlyMain(m, e.frame, e.worldName);
    EmptyWithoutMain(m);
    hide WellShaped, OnMainNavigated;
  }

  lemma ChildNavigationWorlds(m: Manager, e: Event, k: FrameId, isMain: bool)
    requires e.Navigated? && e.frame.parentId.Some? && k in OnChildNavigated(m, e.frame).frames
    ensures WorldAfter(m, e, k, isMain, World(OnChildNavigated(m, e.frame).frames[k], isMain))
  {
    hide Below;
  }

  lemma AttachWorlds(m: Manager, e: Event, k: FrameId, isMain: bool)
    requires e.Attached? && k in OnAttached(m, e.id, e.parentId).frames
    ensures WorldAfter(m, e, k, isMain, World(OnAttached(m, e.id, e.parentId).frames[k], isMain))
  {
  }

  lemma DetachWorlds(m: Manager, e: Event, k: FrameId, isMain: bool)
    requires e.Detached? && k in OnDetached(m, e.id).frames
    ensures WorldAfter(m, e, k, isMain, World(OnDetached(m, e.id).frames[k], isMain))
  {
    hide Below;
  }

  lemma FrameEventWorlds(m: Manager, e: Event, k: FrameId, isMain: bool)
    requires k in m.frames
    requires e.WithinDocument? || e.StartedLoading? || e.StoppedLoading? || e.Lifecycle? || e.RequestFinished?
    ensures k in Step(m, e).frames && World(Step(m, e).frames[k], isMain) == World(m.frames[k], isMain)
  {
    hide OnTree, OnNavigated, OnAttached, OnDetached, OnContextCreated, OnContextDestroyed, OnContextsCleared;
    hide OnPoll, OnNavigateFrame, OnGoto;
  }

  /** What one event does to a world of a frame that is live after it, as long as the index is right. */
  lemma StepWorlds(m: Manager, e: Event, k: FrameId, isMain: bool)
    requires WellShaped(m) && Tracked(m) && !e.Tree? && k in Step(m, e).frames
    ensures WorldAfter(m, e, Before(m, e, k), isMain, World(Step(m, e).frames[k], isMain))
  {
    LiveAfterIff(m, e, k);
    hide WellShaped, Tracked, World, OnMainNavigated, OnChildNavigated, OnAttached, OnDetached, OnContextCreated;
    hide OnContextDestroyed, OnContextsCleared, OnLifecycle, OnStoppedLoading, OnStartedLoading, OnRequestFinished;
    hide OnWithinDocument, Below, OnPoll, OnGoto, OnNavigateFrame;
    if e.Navigated? {
      if e.frame.parentId.None? {
        MainNavigationWorlds(m, e, k, isMain);
      } else {
        ChildNavigationWorlds(m, e, k, isMain);
      }
    } else if e.Attached? {
      AttachWorlds(m, e, k, isMain);
    } else if e.Detached? {
      DetachWorlds(m, e, k, isMain);
    } else if e.ContextCreated? {
      CreatedWorlds(m, e, k, isMain);
    } else if e.ContextDestroyed? {
      DestroyedWorlds(m, e, k, isMain);
    } else if e.ContextsCleared? {
      ClearedWorlds(m, e, k, isMain);
    } else if e.EvictStale? || e.SetCap? || e.NavigateFrame? || e.Goto? || e.Poll? {
      StepKeepsFrames(m, e);
    } else {
      FrameEventWorlds(m, e, k, isMain);
    }
  }

  /** Event `j` gave the context to that world of the frame now called `k`, which has been live and kept it since. */
  ghost predicate GivenAt(es: seq<Event>, k: FrameId, isMain: bool, context: Context, j: nat) {
    && j < |es| && LiveSince(es, k, j)
    && Gives(Run(es[..j]), es[j], NameAt(es, k, j), isMain) && es[j].context == context
    && KeptSince(es, k, isMain, context, j)
  }

  /** No event after `j` has given another context to that world, or taken this one away. */
  ghost predicate KeptSince(es: seq<Event>, k: FrameId, isMain: bool, context: Context, j: nat) {
    forall i :: j < i < |es| ==>
      !Gives(Run(es[..i]), es[i], NameAt(es, k, i), isMain) && !TakesAway(es[i], context)
  }

  lemma NamesGoBack(es: seq<Event>, k: FrameId, j: nat)
    requires j < |es| - 1
    ensures var before := es[..|es| - 1];
      var b := Before(Run(before), es[|es| - 1], k);
      && NameAt(es, k, |before|) == b && es[..|before|] == before && es[|before|] == es[|es| - 1]
      && forall i :: j <= i < |before| ==>
           NameAt(es, k, i) == NameAt(before, b, i) && es[..i] == before[..i] && es[i] == before[i]
  {
    var before := es[..|es| - 1];
    var b := Before(Run(before), es[|es| - 1], k);
    assert NameAt(before, b, |before|) == b;
    NameBefore(es, k, |before|);
    hide Run, Before;
    forall i | j <= i < |before|
      ensures NameAt(es, k, i) == NameAt(before, b, i) && es[..i] == before[..i] && es[i] == before[i]
    {
      NameBefore(es, k, i);
    }
  }

  lemma KeptSnoc(es: seq<Event>, k: FrameId, isMain: bool, context: Context, j: nat)
    requires j < |es| - 1
    ensures var before, e := es[..|es| - 1], es[|es| - 1];
      var b := Before(Run(before), e, k);
      KeptSince(es, k, isMain, context, j) <==>
        KeptSince(before, b, isMain, context, j) && !Gives(Run(before), e, b, isMain) && !TakesAway(e, context)
  {
    NamesGoBack(es, k, j);
    hide Run, Gives, TakesAway, Before, NameAt;
  }

  lemma LiveSnoc(es: seq<Event>, k: FrameId, j: nat)
    requires j < |es| - 1
    ensures var before := es[..|es| - 1];
      LiveSince(es, k, j) <==>
        k in Run(es).frames && LiveSince(before, Before(Run(before), es[|es| - 1], k), j)
  {
    NamesGoBack(es, k, j);
    IsFrameSnoc(es, k, j, NameAt(es, k, j));
    hide Run, Before, NameAt, LiveSince;
  }

  lemma GivenSnoc(es: seq<Event>, k: FrameId, isMain: bool, context: Context, j: nat)
    requires j < |es| - 1
    ensures var before, e := es[..|es| - 1], es[|es| - 1];
      var b := Before(Run(before), e, k);
      GivenAt(es, k, isMain, context, j) <==>
        && k in Run(es).frames && GivenAt(before, b, isMain, context, j)
        && !Gives(Run(before), e, b, isMain) && !TakesAway(e, context)
  {
    var before, e := es[..|es| - 1], es[|es| - 1];
    var b := Before(Run(before), e, k);
    NamesGoBack(es, k, j);
    LiveSnoc(es, k, j);
    KeptSnoc(es, k, isMain, context, j);
    hide Run, Gives, TakesAway, Before, NameAt, LiveSince, KeptSince;
  }

  lemma GivenLast(es: seq<Event>, k: FrameId, isMain: bool, context: Context)
    requires es != []
    ensures var before, e := es[..|es| - 1], es[|es| - 1];
      var b := Before(Run(before), e, k);
      GivenAt(es, k, isMain, context, |es| - 1) <==>
        k in Run(es).frames && Gives(Run(before), e, b, isMain) && e.context == context
  {
    var before := es[..|es| - 1];
    NameBefore(es, k, |before|);
    assert es[..|es|] == es && NameAt(es, k, |es|) == k;
    if k in Run(es).frames && Before(Run(before), es[|before|], k) in Run(before).frames {
      LiveSinceLast(es, k);
    }
    hide Run, TakesAway;
  }

  ghost predicate Given(es: seq<Event>, k: FrameId, isMain: bool, context: Context) {
    exists j: nat :: GivenAt(es, k, isMain, context, j)
  }

  lemma GivenIsPast(es: seq<Event>, k: FrameId, isMain: bool, context: Context)
    ensures forall j: nat :: GivenAt(es, k, isMain, context, j) ==> j < |es|
  {
  }

  lemma GivenIff(es: seq<Event>, k: FrameId, isMain: bool, context: Context)
    requires es != [] && k in Run(es).frames
    ensures var before, e := es[..|es| - 1], es[|es| - 1];
      var b := Before(Run(before), e, k);
      Given(es, k, isMain, context) <==>
        if Gives(Run(before), e, b, isMain) then e.context == context
        else Given(before, b, isMain, context) && !TakesAway(e, context)
  {
    var before, e := es[..|es| - 1], es[|es| - 1];
    var b := Before(Run(before), e, k);
    GivenLast(es, k, isMain, context);
    hide GivenAt, Gives, TakesAway, Before, Run;
    forall j: nat | j < |before|
      ensures GivenAt(es, k, isMain, context, j) <==>
        GivenAt(before, b, isMain, context, j) && !Gives(Run(before), e, b, isMain) && !TakesAway(e, context)
    {
      GivenSnoc(es, k, isMain, context, j);
    }
    GivenIsPast(es, k, isMain, context);
    GivenIsPast(before, b, isMain, context);
  }

  lemma GivenIsLive(es: seq<Event>, k: FrameId, isMain: bool, context: Context)
    requires Given(es, k, isMain, context)
    ensures k in Run(es).frames
  {
    assert es[..|es|] == es && NameAt(es, k, |es|) == k;
  }

  /**
   Over every run in which the index is right: a world of a live frame holds exactly the context that some event gave to
   it, under the names that the frame has had, and that no event since has replaced, destroyed or cleared.
   */
  lemma {:induction false} WorldsHaveAHistory(es: seq<Event>, k: FrameId, isMain: bool, context: Context)
    requires Primitive(es) && AllAdmissible(es) && k in Run(es).frames
    ensures World(Run(es).frames[k], isMain) == Some(context) <==> Given(es, k, isMain, context)
  {
    var before, e := es[..|es| - 1], es[|es| - 1];
    var m := Run(before);
    var b := Before(m, e, k);
    EveryRunIsWellShaped(before);
    AdmissibleRunIsTracked(before);
    StepWorlds(m, e, k, isMain);
    GivenIff(es, k, isMain, context);
    if b in m.frames {
      WorldsHaveAHistory(before, b, isMain, context);
    } else if Given(before, b, isMain, context) {
      GivenIsLive(before, b, isMain, context);
    }
    hide Given, GivenAt, Gives, Before, WellShaped, Tracked, World, Step;
  }
}
