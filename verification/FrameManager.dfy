/** The frame manager as the source has it: fields changed in place by one method per event. */
module FrameManagers {
  import opened FrameForest
  import opened FrameModel
  import opened Wrappers

  class FrameManager {
    var mainFrame: Option<FrameId>
    var frames: map<FrameId, Frame>
    var contextIds: map<string, FrameId>
    var navigation: Option<(Watcher, Instant)>
    var pending: seq<(Request, Watcher)>
    var maxNavigations: Option<nat>
    var navCount: nat

    ghost function Model(): Manager
      reads this
    {
      Manager(mainFrame, frames, contextIds, navigation, pending, maxNavigations, navCount)
    }

    ghost predicate Valid()
      reads this
    {
      WellShaped(Model())
    }

    constructor ()
      ensures Valid() && Model() == INITIAL
    {
      mainFrame, frames, contextIds, navigation, pending, maxNavigations, navCount :=
        None, map[], map[], None, [], None, 0;
    }

    /** The loop over the children of a frame that has just been taken out of the map. */
    method RemoveChildren(id: FrameId, children: set<FrameId>, ghost before: map<FrameId, Frame>, ghost depth: Depths)
      requires Forest(before, depth) && id in before && children == before[id].children
      requires frames == Remaining(before, id, {})
      modifies this`frames
      ensures frames == Remaining(before, id, children)
      decreases |before|, 0
    {
      var todo := children;
      ghost var done: set<FrameId> := {};
      while todo != {}
        invariant todo !! done && todo + done == children
        invariant frames == Remaining(before, id, done)
        decreases |todo|
      {
        var child :| child in todo;
        RemainingIsSmaller(before, id, done);
        RemoveNextChild(before, depth, id, done, child);
        var _ := RemoveFramesRecursively(child, depth);
        todo, done := todo - {child}, done + {child};
      }
    }

    /** Takes the frame out, then each child's subtree, then the link from its parent. */
    method RemoveFramesRecursively(id: FrameId, ghost depth: Depths) returns (removed: Option<Frame>)
      requires Forest(frames, depth)
      modifies this`frames
      ensures frames == RemoveSubtree(old(frames), id)
      ensures removed == if id in old(frames) then Some(old(frames)[id].(parent := None)) else None
      decreases |frames|, 1
    {
      if id !in frames {
        RemoveAbsent(frames, id);
        return None;
      }
      ghost var before := frames;
      var frame := frames[id];
      frames := frames - {id};
      RemoveNoChild(before, id);
      RemoveChildren(id, frame.children, before, depth);
      RemoveLastChild(before, depth, id);
      assert Linked(before, depth, id);
      if frame.parent.Some? && frame.parent.value in frames {
        var parent := frames[frame.parent.value];
        frames := frames[frame.parent.value := parent.(children := parent.children - {frame.id})];
      }
      removed := Some(frame.(parent := None));
    }

    method OnFrameDetached(id: FrameId)
      requires Valid()
      modifies this`frames
      ensures Valid() && Model() == OnDetached(old(Model()), id)
    {
      DetachedKeepsShape(Model(), id);
      ghost var depth := DepthsOf(Model());
      var _ := RemoveFramesRecursively(id, depth);
    }

    method OnFrameAttached(id: FrameId, parentId: Option<FrameId>)
      requires Valid()
      modifies this`frames
      ensures Valid() && Model() == OnAttached(old(Model()), id, parentId)
    {
      AttachedKeepsShape(Model(), id, parentId);
      if id in frames {
        return;
      }
      if parentId.Some? && parentId.value in frames {
        var parent := frames[parentId.value];
        frames := frames[parentId.value := parent.(children := parent.children + {id})];
        frames := frames[id := ChildFrame(id, parent)];
      }
    }

    method OnFrameNavigated(frame: CdpFrame, worldName: string)
      requires Valid()
      modifies this`frames, this`mainFrame, this`navCount, this`navigation
      ensures Valid() && Model() == OnNavigated(old(Model()), frame, worldName)
    {
      NavigatedKeepsShape(Model(), frame, worldName);
      if frame.parentId.Some? {
        ChildFrameNavigated(frame);
      } else {
        MainFrameNavigated(frame, worldName);
      }
    }

    method ChildFrameNavigated(frame: CdpFrame)
      requires Valid()
      modifies this`frames
      ensures Model() == OnChildNavigated(old(Model()), frame)
    {
      hide Forest, Linked, Shaped, Remaining, Outside, Below;
      if frame.id in frames {
        ghost var before, depth := frames, DepthsOf(Model());
        var f := frames[frame.id];
        frames := frames - {frame.id};
        RemoveNoChild(before, frame.id);
        RemoveChildren(frame.id, f.children, before, depth);
        RemainingIsOutside(before, depth, frame.id);
        frames := frames[frame.id := f.(children := {}).Navigated(frame)];
      }
    }

    /** The frame that becomes the main frame: the old one without its subtree, or a new one. */
    method TakeMainFrame(id: FrameId, worldName: string) returns (f: Frame)
      requires Valid()
      modifies this`frames
      ensures frames == OutsideMain(old(Model()))
      ensures f ==
        if mainFrame.Some? && mainFrame.value in old(frames)
        then old(frames)[mainFrame.value].(children := {}, id := id)
        else NewFrame(id, worldName)
    {
      if mainFrame.Some? && mainFrame.value in frames {
        ghost var before, depth := frames, DepthsOf(Model());
        var main := frames[mainFrame.value];
        frames := frames - {mainFrame.value};
        RemoveNoChild(before, mainFrame.value);
        RemoveChildren(mainFrame.value, main.children, before, depth);
        RemainingIsOutside(before, depth, mainFrame.value);
        f := main.(children := {}, id := id);
      } else {
        if mainFrame.Some? {
          AbsentHasNothingBelow(frames, mainFrame.value);
        }
        f := NewFrame(id, worldName);
      }
    }

    method MainFrameNavigated(frame: CdpFrame, worldName: string)
      requires Valid()
      modifies this`frames, this`mainFrame, this`navCount, this`navigation
      ensures Model() == OnMainNavigated(old(Model()), frame, worldName)
    {
      navCount := Min(navCount + 1, U32_MAX);
      var previous := mainFrame;
      var f := TakeMainFrame(frame.id, worldName);
      f := f.Navigated(frame);
      mainFrame := Some(f.id);
      frames := frames[f.id := f];
      if previous != Some(f.id) && navigation.Some? {
        var (watcher, deadline) := navigation.value;
        if previous == Some(watcher.frameId) {
          navigation := Some((watcher.(frameId := f.id), deadline));
        }
      }
    }

    method OnFrameTree(tree: FrameTree, worldName: string)
      requires Valid()
      modifies this`frames, this`mainFrame, this`navCount, this`navigation
      ensures Valid() && Model() == OnTree(old(Model()), tree, worldName)
      decreases tree
    {
      OnFrameAttached(tree.frame.id, tree.frame.parentId);
      OnFrameNavigated(tree.frame, worldName);
      for i := 0 to |tree.children|
        invariant Valid()
        invariant OnTree(old(Model()), tree, worldName) == OnTrees(Model(), tree.children[i..], worldName)
      {
        OnFrameTree(tree.children[i], worldName);
        assert tree.children[i..][1..] == tree.children[i + 1..];
      }
    }

    /** Writes back a frame whose links have not changed. */
    method PutFrame(id: FrameId, frame: Frame)
      requires Valid() && id in frames
      requires frame.id == frames[id].id && frame.parent == frames[id].parent && frame.children == frames[id].children
      modifies this`frames
      ensures Valid() && frames == old(frames)[id := frame]
    {
      ghost var start := Model();
      frames := frames[id := frame];
      SameLinksKeepShape(start, Model());
    }

    method OnNavigatedWithinDocument(id: FrameId, url: string)
      requires Valid()
      modifies this`frames, this`navigation
      ensures Valid() && Model() == OnWithinDocument(old(Model()), id, url)
    {
      if id in frames {
        PutFrame(id, frames[id].(url := Some(url)));
      }
      if navigation.Some? {
        var (watcher, deadline) := navigation.value;
        if watcher.frameId == id {
          navigation := Some((watcher.(sameDocument := true), deadline));
        }
      }
    }

    method OnFrameStartedLoading(id: FrameId)
      requires Valid()
      modifies this`frames
      ensures Valid() && Model() == OnStartedLoading(old(Model()), id)
    {
      if id in frames {
        PutFrame(id, frames[id].(lifecycle := {}, httpRequest := None));
      }
    }

    method OnFrameStoppedLoading(id: FrameId)
      requires Valid()
      modifies this`frames
      ensures Valid() && Model() == OnStoppedLoading(old(Model()), id)
    {
      if id in frames {
        var frame := frames[id];
        frame := frame.(lifecycle := frame.lifecycle + {"DOMContentLoaded"});
        frame := frame.(lifecycle := frame.lifecycle + {"load"});
        assert frame.lifecycle == frames[id].lifecycle + {"DOMContentLoaded", "load"};
        PutFrame(id, frame);
      }
    }

    method OnPageLifecycleEvent(id: FrameId, loaderId: LoaderId, name: string)
      requires Valid()
      modifies this`frames
      ensures Valid() && Model() == OnLifecycle(old(Model()), id, loaderId, name)
    {
      if id in frames {
        var frame := frames[id];
        if name == "init" {
          frame := frame.(loaderId := Some(loaderId), lifecycle := {});
        }
        frame := frame.(lifecycle := frame.lifecycle + {name});
        assert frame == frames[id].Receive(loaderId, name);
        PutFrame(id, frame);
      }
    }

    method OnHttpRequestFinished(frameId: Option<FrameId>, request: nat)
      requires Valid()
      modifies this`frames
      ensures Valid() && Model() == OnRequestFinished(old(Model()), frameId, request)
    {
      if frameId.Some? && frameId.value in frames {
        PutFrame(frameId.value, frames[frameId.value].(httpRequest := Some(request)));
      }
    }

    method OnFrameExecutionContextCreated(context: Context, frameId: Option<FrameId>, isDefault: bool, name: string)
      requires Valid()
      modifies this`frames, this`contextIds
      ensures Valid() && Model() == OnContextCreated(old(Model()), context, frameId, isDefault, name)
    {
      if frameId.Some? && frameId.value in frames {
        var frame := frames[frameId.value];
        if isDefault {
          frame := frame.(mainWorld := Some(context));
        } else if name == frame.worldName && frame.secondaryWorld.None? {
          frame := frame.(secondaryWorld := Some(context));
        }
        PutFrame(frameId.value, frame);
        contextIds := contextIds[context.uniqueId := frame.id];
      }
    }

    method OnFrameExecutionContextDestroyed(uniqueId: string)
      requires Valid()
      modifies this`frames, this`contextIds
      ensures Valid() && Model() == OnContextDestroyed(old(Model()), uniqueId)
    {
      if uniqueId in contextIds {
        var id := contextIds[uniqueId];
        contextIds := contextIds - {uniqueId};
        if id in frames {
          PutFrame(id, frames[id].DestroyContext(uniqueId));
        }
      }
    }

    method ClearFrames(ids: set<FrameId>)
      requires Valid()
      modifies this`frames
      ensures Valid() && frames == ClearAmong(old(frames), ids)
    {
      var todo := ids;
      ghost var before, done: set<FrameId> := frames, {};
      assert ClearAmong(frames, {}) == frames;
      while todo != {}
        invariant Valid()
        invariant todo + done == ids
        invariant frames == ClearAmong(before, done)
        decreases |todo|
      {
        var id :| id in todo;
        ClearOneMore(before, done, id);
        if id in frames {
          PutFrame(id, frames[id].ClearContexts());
        }
        todo, done := todo - {id}, done + {id};
      }
      assert done == ids;
    }

    method OnExecutionContextsCleared()
      requires Valid()
      modifies this`frames, this`contextIds
      ensures Valid() && Model() == OnContextsCleared(old(Model()))
    {
      ClearFrames(contextIds.Values);
      contextIds := map[];
    }

    method EvictStaleContexts()
      requires Valid()
      modifies this`contextIds
      ensures Valid() && Model() == EvictStaleContextIds(old(Model()))
    {
      if contextIds != map[] {
        contextIds := map u | u in contextIds && contextIds[u] in frames :: contextIds[u];
      }
    }

    method SetMaxMainFrameNavigations(cap: Option<nat>)
      requires Valid()
      modifies this`maxNavigations
      ensures Valid() && Model() == Step(old(Model()), SetCap(cap))
    {
      maxNavigations := cap;
    }

    method NavigateFrame(id: FrameId, req: Request)
      requires Valid()
      modifies this`pending, this`navCount
      ensures Valid() && Model() == OnNavigateFrame(old(Model()), id, req)
    {
      var loaderId := if id in frames then frames[id].loaderId else None;
      var watcher := Watcher(req.id, {"load"}, id, loaderId, false);
      var sent := if req.frameId.None? then req.(frameId := Some(id)) else req;
      navCount := 0;
      pending := pending + [(sent, watcher)];
    }

    method Goto(req: Request)
      requires Valid()
      modifies this`pending, this`navCount
      ensures Valid() && Model() == OnGoto(old(Model()), req)
    {
      if mainFrame.Some? {
        NavigateFrame(mainFrame.value, req);
      }
    }

    method Poll(now: Instant, clock: Instant) returns (event: Option<FrameEvent>)
      requires Valid()
      modifies this`navigation, this`pending
      ensures Valid() && (Model(), event) == OnPoll(old(Model()), now, clock)
    {
      if navigation.Some? {
        var (watcher, deadline) := navigation.value;
        navigation := None;
        if maxNavigations.Some? && navCount > maxNavigations.value {
          return Some(NavigationResult(Err(TooManyNavigations(watcher.id, navCount))));
        }
        if now > deadline {
          return Some(NavigationResult(Err(Timeout(watcher.id))));
        }
        if watcher.frameId !in frames {
          return Some(NavigationResult(Err(FrameNotFound(watcher.id, watcher.frameId))));
        }
        var complete := CheckLifecycleComplete(watcher, frames[watcher.frameId]);
        if complete.Some? {
          return Some(NavigationResult(Ok(complete.value)));
        }
        navigation := Some((watcher, deadline));
      } else if pending != [] {
        var (req, watcher) := pending[0];
        pending := pending[1..];
        navigation := Some((watcher, clock + req.timeout));
        return Some(NavigationRequest(req.id, req));
      }
      return None;
    }
  }

  lemma RemainingIsOutside(frames: map<FrameId, Frame>, depth: Depths, id: FrameId)
    requires Forest(frames, depth) && id in frames
    ensures Remaining(frames, id, frames[id].children) == Outside(frames, id)
  {
    BelowItself(frames, id);
    forall k | k in frames ensures k in Remaining(frames, id, frames[id].children) <==> !Below(frames, id, k) {
      if k != id {
        BelowChild(frames, depth, id, k);
      }
    }
  }

  lemma ClearOneMore(frames: map<FrameId, Frame>, ids: set<FrameId>, id: FrameId)
    ensures var cleared := ClearAmong(frames, ids);
      ClearAmong(frames, ids + {id}) == if id in frames then cleared[id := cleared[id].ClearContexts()] else cleared
  {
  }

  lemma RemainingIsSmaller(frames: map<FrameId, Frame>, id: FrameId, done: set<FrameId>)
    requires id in frames
    ensures |Remaining(frames, id, done)| < |frames|
  {
    var rest := Remaining(frames, id, done);
    SubsetSize(rest.Keys, frames.Keys - {id});
    assert |rest.Keys| == |rest| && |frames.Keys| == |frames|;
  }

  lemma SubsetSize<T>(a: set<T>, b: set<T>)
    requires a <= b
    ensures |a| <= |b|
  {
    if a != {} {
      var x :| x in a;
      SubsetSize(a - {x}, b - {x});
    }
  }
}
