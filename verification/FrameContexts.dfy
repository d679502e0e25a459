/**
 The index from execution contexts to frames: when it is right, what keeps it right, and why evicting its stale
 entries at any time is invisible to the frames.
 */
module FrameContexts {
  import opened FrameForest
  import opened FrameModel
  import opened Wrappers

  /** Every context a live frame holds is mapped to that frame, and its two worlds hold different contexts. */
  ghost predicate Tracked(m: Manager) {
    forall k :: k in m.frames ==> FrameTracked(m.contextIds, k, m.frames[k])
  }

  predicate FrameTracked(contextIds: map<string, FrameId>, k: FrameId, f: Frame) {
    WorldTracked(contextIds, k, f.mainWorld) && WorldTracked(contextIds, k, f.secondaryWorld) && Apart(f)
  }

  predicate WorldTracked(contextIds: map<string, FrameId>, k: FrameId, world: Option<Context>) {
    world.Some? ==> world.value.uniqueId in contextIds && contextIds[world.value.uniqueId] == k
  }

  predicate Apart(f: Frame) {
    f.mainWorld.Some? && f.secondaryWorld.Some? ==> f.mainWorld.value.uniqueId != f.secondaryWorld.value.uniqueId
  }

  ghost predicate HeldByNone(m: Manager, uniqueId: string) {
    forall k :: k in m.frames ==> !m.frames[k].Holds(uniqueId)
  }

  predicate HoldsNothing(f: Frame) {
    f.mainWorld.None? && f.secondaryWorld.None?
  }

  // ----- What keeps the index right -----

  /** No other frame holds the announced context, and the frame's other world does not hold it either. */
  ghost predicate AnnouncesSafely(
    m: Manager, context: Context, frameId: Option<FrameId>, isDefault: bool, name: string)
  {
    frameId.Some? && frameId.value in m.frames ==>
      && (forall k :: k in m.frames && k != frameId.value ==> !m.frames[k].Holds(context.uniqueId))
      && Apart(Adopt(m.frames[frameId.value], context, isDefault, name))
  }

  /** A parentless navigation keeps the id of the live main frame, or that frame holds no context. */
  ghost predicate RenamesSafely(m: Manager, frame: CdpFrame) {
    frame.parentId.None? && m.mainFrame.Some? && m.mainFrame.value in m.frames ==>
      frame.id == m.mainFrame.value || HoldsNothing(m.frames[m.mainFrame.value])
  }

  lemma AnnounceToOther(
    contextIds: map<string, FrameId>, k: FrameId, f: Frame, uniqueId: string, owner: FrameId)
    requires FrameTracked(contextIds, k, f) && k != owner
    ensures FrameTracked(contextIds[uniqueId := owner], k, f) <==> !f.Holds(uniqueId)
  {
  }

  lemma AnnounceToOwner(
    contextIds: map<string, FrameId>, k: FrameId, f: Frame, context: Context, isDefault: bool, name: string)
    requires FrameTracked(contextIds, k, f)
    ensures var g := Adopt(f, context, isDefault, name);
      FrameTracked(contextIds[context.uniqueId := k], k, g) <==> Apart(g)
  {
  }

  lemma AnnounceKeepsTrackIff(m: Manager, context: Context, frameId: Option<FrameId>, isDefault: bool, name: string)
    requires WellShaped(m) && Tracked(m)
    ensures Tracked(OnContextCreated(m, context, frameId, isDefault, name))
      <==> AnnouncesSafely(m, context, frameId, isDefault, name)
  {
    if frameId.Some? && frameId.value in m.frames {
      var owner, u := frameId.value, context.uniqueId;
      var after := OnContextCreated(m, context, frameId, isDefault, name);
      var g := Adopt(m.frames[owner], context, isDefault, name);
      IdIsKey(m, owner);
      assert after.contextIds == m.contextIds[u := owner];
      AnnounceToOwner(m.contextIds, owner, m.frames[owner], context, isDefault, name);
      forall k | k in m.frames && k != owner
        ensures FrameTracked(after.contextIds, k, m.frames[k]) <==> !m.frames[k].Holds(u)
      {
        AnnounceToOther(m.contextIds, k, m.frames[k], u, owner);
      }
      TrackedWithUpdate(m.frames, after, owner, g);
    }
  }

  lemma TrackedWithUpdate(frames: map<FrameId, Frame>, after: Manager, k: FrameId, g: Frame)
    requires k in frames && after.frames == frames[k := g]
    ensures Tracked(after) <==>
      FrameTracked(after.contextIds, k, g)
      && forall x :: x in frames && x != k ==> FrameTracked(after.contextIds, x, frames[x])
  {
    if Tracked(after) {
      assert FrameTracked(after.contextIds, k, after.frames[k]);
      forall x | x in frames && x != k ensures FrameTracked(after.contextIds, x, frames[x]) {
        assert FrameTracked(after.contextIds, x, after.frames[x]);
      }
    }
  }

  lemma IdIsKey(m: Manager, k: FrameId)
    requires WellShaped(m) && k in m.frames
    ensures m.frames[k].id == k
  {
    var depth := DepthsOf(m);
    assert Linked(m.frames, depth, k);
  }

  lemma MainNavigationKeepsTrackIff(m: Manager, frame: CdpFrame, worldName: string)
    requires WellShaped(m) && Tracked(m)
    ensures frame.parentId.None? ==>
      (Tracked(OnMainNavigated(m, frame, worldName)) <==> RenamesSafely(m, frame))
  {
    MainNavigatedLeavesOnlyMain(m, frame, worldName);
    var after, next := OnMainNavigated(m, frame, worldName), NextMain(m, frame, worldName);
    assert Tracked(after) <==> FrameTracked(m.contextIds, frame.id, next) by {
      assert frame.id in after.frames && after.frames[frame.id] == next;
    }
    if m.mainFrame.Some? && m.mainFrame.value in m.frames {
      var main := m.frames[m.mainFrame.value];
      assert FrameTracked(m.contextIds, m.mainFrame.value, main) && SameWorlds(next, main);
    }
  }

  /** After the main frame takes a new id, destroying one of its contexts no longer reaches it. */
  lemma DestroyMissesRenamedMain(m: Manager, frame: CdpFrame, worldName: string, uniqueId: string)
    requires WellShaped(m) && Tracked(m) && frame.parentId.None?
    requires m.mainFrame.Some? && m.mainFrame.value in m.frames && m.frames[m.mainFrame.value].Holds(uniqueId)
    ensures var after := OnContextDestroyed(OnMainNavigated(m, frame, worldName), uniqueId);
      frame.id in after.frames && (after.frames[frame.id].Holds(uniqueId) <==> frame.id != m.mainFrame.value)
  {
    MainNavigatedLeavesOnlyMain(m, frame, worldName);
    assert FrameTracked(m.contextIds, m.mainFrame.value, m.frames[m.mainFrame.value]);
  }

  ghost predicate Admissible(m: Manager, e: Event) {
    match e
    case ContextCreated(context, frameId, isDefault, name) => AnnouncesSafely(m, context, frameId, isDefault, name)
    case Navigated(frame, _) => RenamesSafely(m, frame)
    case Tree(tree, worldName) => TreeAdmissible(m, tree, worldName)
    case _ => true
  }

  ghost predicate TreeAdmissible(m: Manager, tree: FrameTree, worldName: string)
    decreases tree, 0
  {
    var attached := OnAttached(m, tree.frame.id, tree.frame.parentId);
    RenamesSafely(attached, tree.frame)
    && TreesAdmissible(OnNavigated(attached, tree.frame, worldName), tree.children, worldName)
  }

  ghost predicate TreesAdmissible(m: Manager, trees: seq<FrameTree>, worldName: string)
    decreases trees, |trees|
  {
    trees == []
    || (TreeAdmissible(m, trees[0], worldName)
        && TreesAdmissible(OnTree(m, trees[0], worldName), trees[1..], worldName))
  }

  predicate SameWorlds(f: Frame, g: Frame) {
    f.mainWorld == g.mainWorld && f.secondaryWorld == g.secondaryWorld
  }

  /** Frames may disappear and new ones hold nothing, as long as the others keep their contexts and the index stays. */
  lemma SameContextsKeepTrack(m: Manager, after: Manager)
    requires Tracked(m) && after.contextIds == m.contextIds
    requires forall k :: k in after.frames ==>
      HoldsNothing(after.frames[k]) || (k in m.frames && SameWorlds(after.frames[k], m.frames[k]))
    ensures Tracked(after)
  {
    forall k | k in after.frames ensures FrameTracked(after.contextIds, k, after.frames[k]) {
      assert HoldsNothing(after.frames[k]) || FrameTracked(m.contextIds, k, m.frames[k]);
    }
  }

  lemma AttachKeepsTrack(m: Manager, id: FrameId, parentId: Option<FrameId>)
    requires Tracked(m)
    ensures Tracked(OnAttached(m, id, parentId))
  {
    SameContextsKeepTrack(m, OnAttached(m, id, parentId));
  }

  lemma DetachKeepsTrack(m: Manager, id: FrameId)
    requires Tracked(m)
    ensures Tracked(OnDetached(m, id))
  {
    SameContextsKeepTrack(m, OnDetached(m, id));
  }

  lemma NavigationKeepsTrack(m: Manager, frame: CdpFrame, worldName: string)
    requires WellShaped(m) && Tracked(m) && RenamesSafely(m, frame)
    ensures Tracked(OnNavigated(m, frame, worldName))
  {
    if frame.parentId.None? {
      MainNavigationKeepsTrackIff(m, frame, worldName);
    } else {
      SameContextsKeepTrack(m, OnChildNavigated(m, frame));
    }
  }

  lemma {:induction false} TreeKeepsTrack(m: Manager, tree: FrameTree, worldName: string)
    requires WellShaped(m) && Tracked(m) && TreeAdmissible(m, tree, worldName)
    ensures Tracked(OnTree(m, tree, worldName))
    decreases tree, 0
  {
    var attached := OnAttached(m, tree.frame.id, tree.frame.parentId);
    AttachKeepsTrack(m, tree.frame.id, tree.frame.parentId);
    AttachedKeepsShape(m, tree.frame.id, tree.frame.parentId);
    NavigationKeepsTrack(attached, tree.frame, worldName);
    NavigatedKeepsShape(attached, tree.frame, worldName);
    TreesKeepTrack(OnNavigated(attached, tree.frame, worldName), tree.children, worldName);
  }

  lemma {:induction false} TreesKeepTrack(m: Manager, trees: seq<FrameTree>, worldName: string)
    requires WellShaped(m) && Tracked(m) && TreesAdmissible(m, trees, worldName)
    ensures Tracked(OnTrees(m, trees, worldName))
    decreases trees, |trees|
  {
    if trees != [] {
      TreeKeepsTrack(m, trees[0], worldName);
      TreeKeepsShape(m, trees[0], worldName);
      TreesKeepTrack(OnTree(m, trees[0], worldName), trees[1..], worldName);
    }
  }

  /** A destroyed context is held by no live frame, and the rest of the index stays right. */
  lemma DestroyedIsHeldByNone(m: Manager, uniqueId: string)
    requires Tracked(m)
    ensures var after := OnContextDestroyed(m, uniqueId);
      HeldByNone(after, uniqueId) && Tracked(after)
  {
    var after := OnContextDestroyed(m, uniqueId);
    forall k | k in after.frames
      ensures FrameTracked(after.contextIds, k, after.frames[k]) && !after.frames[k].Holds(uniqueId)
    {
      assert FrameTracked(m.contextIds, k, m.frames[k]);
    }
  }

  /** A clear leaves no live frame holding any context. */
  lemma ClearedHoldsNothing(m: Manager)
    requires Tracked(m)
    ensures var after := OnContextsCleared(m);
      (forall k :: k in after.frames ==> HoldsNothing(after.frames[k])) && Tracked(after)
  {
    forall k | k in m.frames ensures HoldsNothing(m.frames[k]) || k in m.contextIds.Values {
      HolderIsAValue(m.contextIds, k, m.frames[k]);
    }
  }

  lemma HolderIsAValue(contextIds: map<string, FrameId>, k: FrameId, f: Frame)
    requires FrameTracked(contextIds, k, f)
    ensures HoldsNothing(f) || k in contextIds.Values
  {
    if f.mainWorld.Some? {
      assert contextIds[f.mainWorld.value.uniqueId] == k;
    } else if f.secondaryWorld.Some? {
      assert contextIds[f.secondaryWorld.value.uniqueId] == k;
    }
  }

  /** Evicting drops an entry if and only if its frame is gone, and changes none of the others. */
  lemma EvictDropsStaleIff(m: Manager, uniqueId: string)
    ensures var after := EvictStaleContextIds(m);
      && (uniqueId in after.contextIds <==> uniqueId in m.contextIds && m.contextIds[uniqueId] in m.frames)
      && (uniqueId in after.contextIds ==> after.contextIds[uniqueId] == m.contextIds[uniqueId])
      && after == m.(contextIds := after.contextIds)
  {
  }

  lemma EvictKeepsTrack(m: Manager)
    requires Tracked(m)
    ensures Tracked(EvictStaleContextIds(m))
  {
    forall k | k in m.frames ensures FrameTracked(EvictStaleContextIds(m).contextIds, k, m.frames[k]) {
      assert FrameTracked(m.contextIds, k, m.frames[k]);
    }
  }

  lemma FrameEventKeepsTrack(m: Manager, e: Event)
    requires Tracked(m)
    requires e.WithinDocument? || e.StartedLoading? || e.StoppedLoading? || e.Lifecycle? || e.RequestFinished?
    ensures Tracked(Step(m, e))
  {
    SameContextsKeepTrack(m, Step(m, e));
  }

  lemma StepKeepsTrack(m: Manager, e: Event)
    requires WellShaped(m) && Tracked(m) && Admissible(m, e)
    ensures Tracked(Step(m, e))
  {
    match e
    case ContextCreated(context, frameId, isDefault, name) =>
      AnnounceKeepsTrackIff(m, context, frameId, isDefault, name);
    case ContextDestroyed(uniqueId) => DestroyedIsHeldByNone(m, uniqueId);
    case ContextsCleared => ClearedHoldsNothing(m);
    case Attached(id, parentId) => AttachKeepsTrack(m, id, parentId);
    case Detached(id) => DetachKeepsTrack(m, id);
    case Navigated(frame, worldName) => NavigationKeepsTrack(m, frame, worldName);
    case Tree(tree, worldName) => TreeKeepsTrack(m, tree, worldName);
    case EvictStale => EvictKeepsTrack(m);
    case SetCap(_) =>
    case NavigateFrame(_, _) =>
    case Goto(_) =>
    case Poll(_, _) =>
    case _ => FrameEventKeepsTrack(m, e);
  }

  // ----- Runs -----

  ghost predicate AllAdmissible(es: seq<Event>) {
    es != [] ==>
      var before := es[..|es| - 1];
      AllAdmissible(before) && Admissible(Run(before), es[|es| - 1])
  }

  lemma {:induction false} AdmissibleRunIsTracked(es: seq<Event>)
    requires AllAdmissible(es)
    ensures Tracked(Run(es))
  {
    if es != [] {
      var before := es[..|es| - 1];
      AdmissibleRunIsTracked(before);
      EveryRunIsWellShaped(before);
      StepKeepsTrack(Run(before), es[|es| - 1]);
    }
  }

  /** The contexts announced so far. */
  function Announced(es: seq<Event>): set<string> {
    if es == [] then {}
    else
      Announced(es[..|es| - 1])
      + if es[|es| - 1].ContextCreated? then {es[|es| - 1].context.uniqueId} else {}
  }

  /** Every announced context is new, and main frames are renamed only while they hold no context. */
  ghost predicate FreshRun(es: seq<Event>) {
    es != [] ==>
      var before, e := es[..|es| - 1], es[|es| - 1];
      FreshRun(before)
      && if e.ContextCreated? then e.context.uniqueId !in Announced(before) else Admissible(Run(before), e)
  }

  predicate Known(seen: set<string>, f: Frame) {
    && (f.mainWorld.Some? ==> f.mainWorld.value.uniqueId in seen)
    && (f.secondaryWorld.Some? ==> f.secondaryWorld.value.uniqueId in seen)
  }

  ghost predicate AllKnown(seen: set<string>, m: Manager) {
    forall k :: k in m.frames ==> Known(seen, m.frames[k])
  }

  predicate FewerWorlds(f: Frame, g: Frame) {
    && (f.mainWorld.None? || f.mainWorld == g.mainWorld)
    && (f.secondaryWorld.None? || f.secondaryWorld == g.secondaryWorld)
  }

  lemma FewerContextsKeepKnown(seen: set<string>, m: Manager, after: Manager)
    requires AllKnown(seen, m)
    requires forall k :: k in after.frames ==>
      HoldsNothing(after.frames[k]) || (k in m.frames && FewerWorlds(after.frames[k], m.frames[k]))
    ensures AllKnown(seen, after)
  {
    forall k | k in after.frames ensures Known(seen, after.frames[k]) {
      assert HoldsNothing(after.frames[k]) || Known(seen, m.frames[k]);
    }
  }

  lemma NavigationKeepsKnown(seen: set<string>, m: Manager, frame: CdpFrame, worldName: string)
    requires WellShaped(m) && AllKnown(seen, m)
    ensures AllKnown(seen, OnNavigated(m, frame, worldName))
  {
    if frame.parentId.None? {
      MainNavigatedLeavesOnlyMain(m, frame, worldName);
    } else {
      FewerContextsKeepKnown(seen, m, OnChildNavigated(m, frame));
    }
  }

  lemma AttachKeepsKnown(seen: set<string>, m: Manager, id: FrameId, parentId: Option<FrameId>)
    requires AllKnown(seen, m)
    ensures AllKnown(seen, OnAttached(m, id, parentId))
  {
    FewerContextsKeepKnown(seen, m, OnAttached(m, id, parentId));
  }

  lemma {:induction false} TreeKeepsKnown(seen: set<string>, m: Manager, tree: FrameTree, worldName: string)
    requires WellShaped(m) && AllKnown(seen, m)
    ensures AllKnown(seen, OnTree(m, tree, worldName))
    decreases tree, 0
  {
    var attached := OnAttached(m, tree.frame.id, tree.frame.parentId);
    AttachedKeepsShape(m, tree.frame.id, tree.frame.parentId);
    AttachKeepsKnown(seen, m, tree.frame.id, tree.frame.parentId);
    NavigationKeepsKnown(seen, attached, tree.frame, worldName);
    NavigatedKeepsShape(attached, tree.frame, worldName);
    TreesKeepKnown(seen, OnNavigated(attached, tree.frame, worldName), tree.children, worldName);
  }

  lemma {:induction false} TreesKeepKnown(seen: set<string>, m: Manager, trees: seq<FrameTree>, worldName: string)
    requires WellShaped(m) && AllKnown(seen, m)
    ensures AllKnown(seen, OnTrees(m, trees, worldName))
    decreases trees, |trees|
  {
    if trees != [] {
      TreeKeepsKnown(seen, m, trees[0], worldName);
      TreeKeepsShape(m, trees[0], worldName);
      TreesKeepKnown(seen, OnTree(m, trees[0], worldName), trees[1..], worldName);
    }
  }

  lemma CreateKeepsKnown(
    seen: set<string>, m: Manager, context: Context, frameId: Option<FrameId>, isDefault: bool, name: string)
    requires AllKnown(seen, m)
    ensures AllKnown(seen + {context.uniqueId}, OnContextCreated(m, context, frameId, isDefault, name))
  {
    var after := OnContextCreated(m, context, frameId, isDefault, name);
    forall k | k in after.frames ensures Known(seen + {context.uniqueId}, after.frames[k]) {
      assert Known(seen, m.frames[k]);
    }
  }

  lemma DetachKeepsKnown(seen: set<string>, m: Manager, id: FrameId)
    requires AllKnown(seen, m)
    ensures AllKnown(seen, OnDetached(m, id))
  {
    FewerContextsKeepKnown(seen, m, OnDetached(m, id));
  }

  lemma FrameEventKeepsKnown(seen: set<string>, m: Manager, e: Event)
    requires AllKnown(seen, m)
    requires e.WithinDocument? || e.StartedLoading? || e.StoppedLoading? || e.Lifecycle? || e.RequestFinished?
      || e.ContextDestroyed? || e.ContextsCleared?
    ensures AllKnown(seen, Step(m, e))
  {
    FewerContextsKeepKnown(seen, m, Step(m, e));
  }

  lemma StepKeepsKnown(seen: set<string>, m: Manager, e: Event)
    requires WellShaped(m) && AllKnown(seen, m)
    ensures AllKnown(seen + if e.ContextCreated? then {e.context.uniqueId} else {}, Step(m, e))
  {
    assert seen + {} == seen;
    match e
    case Attached(id, parentId) => AttachKeepsKnown(seen, m, id, parentId);
    case Detached(id) => DetachKeepsKnown(seen, m, id);
    case Navigated(frame, worldName) => NavigationKeepsKnown(seen, m, frame, worldName);
    case Tree(tree, worldName) => TreeKeepsKnown(seen, m, tree, worldName);
    case ContextCreated(context, frameId, isDefault, name) =>
      CreateKeepsKnown(seen, m, context, frameId, isDefault, name);
    case EvictStale =>
    case SetCap(_) =>
    case NavigateFrame(_, _) =>
    case Goto(_) =>
    case Poll(_, _) =>
    case _ => FrameEventKeepsKnown(seen, m, e);
  }

  lemma {:induction false} HeldWasAnnounced(es: seq<Event>)
    ensures AllKnown(Announced(es), Run(es))
  {
    if es != [] {
      var before := es[..|es| - 1];
      HeldWasAnnounced(before);
      EveryRunIsWellShaped(before);
      StepKeepsKnown(Announced(before), Run(before), es[|es| - 1]);
    }
  }

  lemma FreshAnnouncesSafely(
    seen: set<string>, m: Manager, context: Context, frameId: Option<FrameId>, isDefault: bool, name: string)
    requires AllKnown(seen, m) && Tracked(m) && context.uniqueId !in seen
    ensures AnnouncesSafely(m, context, frameId, isDefault, name)
  {
    if frameId.Some? && frameId.value in m.frames {
      assert FrameTracked(m.contextIds, frameId.value, m.frames[frameId.value]);
      assert Known(seen, m.frames[frameId.value]);
    }
  }

  /** Over any fresh run the index is right, so the two lemmas above apply to every destroy and clear event. */
  lemma {:induction false} FreshRunIsAdmissible(es: seq<Event>)
    requires FreshRun(es)
    ensures AllAdmissible(es) && Tracked(Run(es))
  {
    if es != [] {
      var before, e := es[..|es| - 1], es[|es| - 1];
      FreshRunIsAdmissible(before);
      if e.ContextCreated? {
        HeldWasAnnounced(before);
        FreshAnnouncesSafely(Announced(before), Run(before), e.context, e.frameId, e.isDefault, e.name);
      }
    }
    AdmissibleRunIsTracked(es);
  }

  // ----- Eviction is invisible -----

  /** Equal but for the index, of which `t` has a part. */
  ghost predicate Evicted(s: Manager, t: Manager) {
    && t == s.(contextIds := t.contextIds)
    && forall u :: u in t.contextIds ==> u in s.contextIds && s.contextIds[u] == t.contextIds[u]
  }

  lemma TrackedBySuperset(s: Manager, t: Manager)
    requires Evicted(s, t) && Tracked(t)
    ensures Tracked(s)
  {
    forall k | k in s.frames ensures FrameTracked(s.contextIds, k, s.frames[k]) {
      assert FrameTracked(t.contextIds, k, t.frames[k]);
    }
  }

  lemma DestroySimulates(s: Manager, t: Manager, uniqueId: string)
    requires Evicted(s, t) && Tracked(s) && Tracked(t)
    ensures Evicted(OnContextDestroyed(s, uniqueId), OnContextDestroyed(t, uniqueId))
  {
    if uniqueId in s.contextIds && uniqueId !in t.contextIds && s.contextIds[uniqueId] in s.frames {
      var k := s.contextIds[uniqueId];
      assert FrameTracked(t.contextIds, k, t.frames[k]);
      assert s.frames[k := s.frames[k].DestroyContext(uniqueId)] == s.frames;
    }
  }

  lemma ClearSimulates(s: Manager, t: Manager)
    requires Evicted(s, t) && Tracked(s) && Tracked(t)
    ensures Evicted(OnContextsCleared(s), OnContextsCleared(t))
  {
    forall k | k in s.frames
      ensures OnContextsCleared(s).frames[k] == OnContextsCleared(t).frames[k]
    {
      HolderIsAValue(s.contextIds, k, s.frames[k]);
      HolderIsAValue(t.contextIds, k, t.frames[k]);
    }
  }

  lemma CreateSimulates(
    s: Manager, t: Manager, context: Context, frameId: Option<FrameId>, isDefault: bool, name: string)
    requires Evicted(s, t)
    ensures Evicted(OnContextCreated(s, context, frameId, isDefault, name),
                    OnContextCreated(t, context, frameId, isDefault, name))
  {
  }

  lemma NavigationIgnoresIndex(m: Manager, ids: map<string, FrameId>, frame: CdpFrame, worldName: string)
    ensures OnNavigated(m.(contextIds := ids), frame, worldName) == OnNavigated(m, frame, worldName).(contextIds := ids)
    ensures OnNavigated(m, frame, worldName).contextIds == m.contextIds
  {
  }

  lemma {:induction false} TreeIgnoresIndex(m: Manager, ids: map<string, FrameId>, tree: FrameTree, worldName: string)
    ensures OnTree(m.(contextIds := ids), tree, worldName) == OnTree(m, tree, worldName).(contextIds := ids)
    ensures OnTree(m, tree, worldName).contextIds == m.contextIds
    decreases tree, 0
  {
    var attached := OnAttached(m, tree.frame.id, tree.frame.parentId);
    assert OnAttached(m.(contextIds := ids), tree.frame.id, tree.frame.parentId) == attached.(contextIds := ids);
    NavigationIgnoresIndex(attached, ids, tree.frame, worldName);
    TreesIgnoreIndex(OnNavigated(attached, tree.frame, worldName), ids, tree.children, worldName);
  }

  lemma {:induction false} TreesIgnoreIndex(
    m: Manager, ids: map<string, FrameId>, trees: seq<FrameTree>, worldName: string)
    ensures OnTrees(m.(contextIds := ids), trees, worldName) == OnTrees(m, trees, worldName).(contextIds := ids)
    ensures OnTrees(m, trees, worldName).contextIds == m.contextIds
    decreases trees, |trees|
  {
    if trees != [] {
      TreeIgnoresIndex(m, ids, trees[0], worldName);
      TreesIgnoreIndex(OnTree(m, trees[0], worldName), ids, trees[1..], worldName);
    }
  }

  predicate TouchesIndex(e: Event) {
    e.ContextCreated? || e.ContextDestroyed? || e.ContextsCleared? || e.EvictStale?
  }

  lemma FrameEventIgnoresIndex(m: Manager, ids: map<string, FrameId>, e: Event)
    requires e.WithinDocument? || e.StartedLoading? || e.StoppedLoading? || e.Lifecycle? || e.RequestFinished?
    ensures Step(m.(contextIds := ids), e) == Step(m, e).(contextIds := ids) && Step(m, e).contextIds == m.contextIds
  {
    hide OnTree, OnNavigated, OnAttached, RemoveSubtree, OnContextCreated, OnContextDestroyed, OnContextsCleared;
    hide OnPoll;
  }

  lemma RequestIgnoresIndex(m: Manager, ids: map<string, FrameId>, e: Event)
    requires e.SetCap? || e.NavigateFrame? || e.Goto? || e.Poll?
    ensures Step(m.(contextIds := ids), e) == Step(m, e).(contextIds := ids) && Step(m, e).contextIds == m.contextIds
  {
    hide OnTree, OnNavigated, OnAttached, RemoveSubtree, OnContextCreated, OnContextDestroyed, OnContextsCleared;
    hide UpdateFrame, CheckLifecycleComplete;
  }

  lemma StepIgnoresIndex(m: Manager, ids: map<string, FrameId>, e: Event)
    requires !TouchesIndex(e)
    ensures Step(m.(contextIds := ids), e) == Step(m, e).(contextIds := ids) && Step(m, e).contextIds == m.contextIds
  {
    match e
    case Attached(_, _) => hide OnTree, OnNavigated, RemoveSubtree, UpdateFrame, OnPoll;
    case Detached(_) => hide OnTree, OnNavigated, RemoveSubtree, UpdateFrame, OnPoll;
    case Navigated(frame, worldName) => hide OnNavigated; NavigationIgnoresIndex(m, ids, frame, worldName);
    case Tree(tree, worldName) => hide OnTree; TreeIgnoresIndex(m, ids, tree, worldName);
    case SetCap(_) => RequestIgnoresIndex(m, ids, e);
    case NavigateFrame(_, _) => hide Step; RequestIgnoresIndex(m, ids, e);
    case Goto(_) => hide Step; RequestIgnoresIndex(m, ids, e);
    case Poll(_, _) => hide Step; RequestIgnoresIndex(m, ids, e);
    case _ => hide Step; FrameEventIgnoresIndex(m, ids, e);
  }

  lemma StepSimulates(s: Manager, t: Manager, e: Event)
    requires Evicted(s, t) && Tracked(s) && Tracked(t) && !e.EvictStale?
    ensures Evicted(Step(s, e), Step(t, e))
  {
    match e
    case ContextCreated(context, frameId, isDefault, name) =>
      CreateSimulates(s, t, context, frameId, isDefault, name);
    case ContextDestroyed(uniqueId) => DestroySimulates(s, t, uniqueId);
    case ContextsCleared => ClearSimulates(s, t);
    case _ => StepIgnoresIndex(s, t.contextIds, e);
  }

  function WithoutEvictions(es: seq<Event>): seq<Event> {
    if es == [] then []
    else
      var before, e := WithoutEvictions(es[..|es| - 1]), es[|es| - 1];
      if e.EvictStale? then before else before + [e]
  }

  /**
   Evictions inserted anywhere in a run, however often, change nothing but the index: frames, main frame and
   navigations are the same at every point as in the run without them.
   */
  lemma {:induction false} EvictionIsInvisible(es: seq<Event>)
    requires AllAdmissible(es)
    ensures Evicted(Run(WithoutEvictions(es)), Run(es))
  {
    if es != [] {
      var before, e := es[..|es| - 1], es[|es| - 1];
      EvictionIsInvisible(before);
      AdmissibleRunIsTracked(before);
      TrackedBySuperset(Run(WithoutEvictions(before)), Run(before));
      if !e.EvictStale? {
        StepSimulates(Run(WithoutEvictions(before)), Run(before), e);
        assert WithoutEvictions(es)[..|WithoutEvictions(es)| - 1] == WithoutEvictions(before);
      }
    }
  }
}
