/**
 The shape of the frame map: keys are ids, parent and child links agree, and every frame descends from the main one.
 Every event keeps that shape.
 */
module FrameForest {
  import opened FrameModel
  import opened Wrappers

  type Depths = map<FrameId, nat>

  /** The links of `k` agree with those at the other end, wherever that is live; a child is one level down. */
  ghost predicate Linked(frames: map<FrameId, Frame>, depth: Depths, k: FrameId)
    requires k in frames
  {
    && k in depth && frames[k].id == k
    && (forall c :: c in frames[k].children && c in frames ==> frames[c].parent == Some(k))
    && (frames[k].parent.Some? && frames[k].parent.value in frames ==>
          var p := frames[k].parent.value;
          k in frames[p].children && p in depth && depth[k] == depth[p] + 1)
  }

  /** Dangling links are allowed, because frames are taken out of the map while their subtrees are removed. */
  ghost predicate Forest(frames: map<FrameId, Frame>, depth: Depths) {
    forall k :: k in frames ==> Linked(frames, depth, k)
  }

  /** No link of `k` dangles, and only the root lacks a parent. */
  ghost predicate Closed(frames: map<FrameId, Frame>, main: FrameId, k: FrameId)
    requires k in frames
  {
    && frames[k].children <= frames.Keys
    && if k == main then frames[k].parent.None? else frames[k].parent.Some? && frames[k].parent.value in frames
  }

  ghost predicate Rooted(frames: map<FrameId, Frame>, main: FrameId, depth: Depths) {
    main in frames && forall k :: k in frames ==> Linked(frames, depth, k) && Closed(frames, main, k)
  }

  /** No frames yet, or a tree rooted at the main frame. */
  ghost predicate Shaped(frames: map<FrameId, Frame>, mainFrame: Option<FrameId>) {
    frames == map[] || (mainFrame.Some? && exists depth :: Rooted(frames, mainFrame.value, depth))
  }

  ghost predicate WellShaped(m: Manager) {
    Shaped(m.frames, m.mainFrame)
  }

  /** Levels that witness the shape. */
  ghost function DepthsOf(m: Manager): (depth: Depths)
    requires WellShaped(m)
    ensures Forest(m.frames, depth)
  {
    if m.frames == map[] then map[]
    else
      var depth :| Rooted(m.frames, m.mainFrame.value, depth);
      depth
  }

  // ----- Descent -----

  lemma {:induction false} ReachesDepth(frames: map<FrameId, Frame>, depth: Depths, k: FrameId, a: FrameId, n: nat)
    requires Forest(frames, depth) && Reaches(frames, k, a, n)
    ensures a in frames && depth[k] == depth[a] + n
    decreases n
  {
    if n > 0 {
      ReachesDepth(frames, depth, frames[k].parent.value, a, n - 1);
    }
  }

  lemma {:induction false} ReachesTrans(
    frames: map<FrameId, Frame>, k: FrameId, b: FrameId, i: nat, a: FrameId, j: nat)
    requires Reaches(frames, k, b, i) && Reaches(frames, b, a, j)
    ensures Reaches(frames, k, a, i + j)
    decreases i
  {
    if i > 0 {
      ReachesTrans(frames, frames[k].parent.value, b, i - 1, a, j);
    }
  }

  /** The last step of a climb comes from a child. */
  lemma {:induction false} ReachesThroughChild(
    frames: map<FrameId, Frame>, depth: Depths, k: FrameId, a: FrameId, n: nat)
    returns (c: FrameId)
    requires Forest(frames, depth) && Reaches(frames, k, a, n) && n > 0
    ensures a in frames && c in frames && c in frames[a].children && frames[c].parent == Some(a)
    ensures Reaches(frames, k, c, n - 1)
    decreases n
  {
    if n == 1 {
      c := k;
    } else {
      c := ReachesThroughChild(frames, depth, frames[k].parent.value, a, n - 1);
    }
  }

  lemma BelowItself(frames: map<FrameId, Frame>, k: FrameId)
    ensures Below(frames, k, k) <==> k in frames
  {
    if k in frames {
      assert Reaches(frames, k, k, 0);
    }
  }

  lemma BelowParent(frames: map<FrameId, Frame>, a: FrameId, k: FrameId)
    requires k in frames && frames[k].parent.Some? && k != a
    ensures Below(frames, a, k) <==> Below(frames, a, frames[k].parent.value)
  {
    if Below(frames, a, k) {
      var n: nat :| Reaches(frames, k, a, n);
      assert Reaches(frames, frames[k].parent.value, a, n - 1);
    }
    if Below(frames, a, frames[k].parent.value) {
      var n: nat :| Reaches(frames, frames[k].parent.value, a, n);
      assert Reaches(frames, k, a, n + 1);
    }
  }

  lemma BelowChild(frames: map<FrameId, Frame>, depth: Depths, a: FrameId, k: FrameId)
    requires Forest(frames, depth) && a in frames && k != a
    ensures Below(frames, a, k) <==> exists c :: c in frames[a].children && Below(frames, c, k)
  {
    if Below(frames, a, k) {
      var n: nat :| Reaches(frames, k, a, n);
      var c := ReachesThroughChild(frames, depth, k, a, n);
      assert Below(frames, c, k);
    }
    if c :| c in frames[a].children && Below(frames, c, k) {
      var n: nat :| Reaches(frames, k, c, n);
      ReachesDepth(frames, depth, k, c, n);
      assert Reaches(frames, a, a, 0);
      assert Reaches(frames, c, a, 1);
      ReachesTrans(frames, k, c, n, a, 1);
    }
  }

  /** A frame lies no deeper than its descendants, and at the same depth only as itself. */
  lemma BelowDepth(frames: map<FrameId, Frame>, depth: Depths, a: FrameId, k: FrameId)
    requires Forest(frames, depth) && Below(frames, a, k)
    ensures a in frames && k in frames && depth[a] <= depth[k] && (depth[a] == depth[k] ==> a == k)
  {
    var n: nat :| Reaches(frames, k, a, n);
    ReachesDepth(frames, depth, k, a, n);
  }

  /** In a rooted tree every frame descends from the root. */
  lemma {:induction false} EveryFrameBelowRoot(frames: map<FrameId, Frame>, main: FrameId, depth: Depths, k: FrameId)
    requires Rooted(frames, main, depth) && k in frames
    ensures Below(frames, main, k)
    decreases depth[k]
  {
    if k == main {
      BelowItself(frames, main);
    } else {
      EveryFrameBelowRoot(frames, main, depth, frames[k].parent.value);
      BelowParent(frames, main, k);
    }
  }

  // ----- Removing a subtree child by child -----

  ghost predicate BelowAny(frames: map<FrameId, Frame>, ids: set<FrameId>, k: FrameId) {
    exists d :: d in ids && Below(frames, d, k)
  }

  /** The frames left when `id` itself and the subtrees of its children in `done` are gone. */
  ghost function Remaining(frames: map<FrameId, Frame>, id: FrameId, done: set<FrameId>): map<FrameId, Frame> {
    map k | k in frames && k != id && !BelowAny(frames, done, k) :: frames[k]
  }

  lemma {:induction false} ReachesInPart(
    frames: map<FrameId, Frame>, part: map<FrameId, Frame>, k: FrameId, a: FrameId, n: nat)
    requires forall x :: x in part ==> x in frames && frames[x] == part[x]
    requires Reaches(part, k, a, n)
    ensures Reaches(frames, k, a, n)
    decreases n
  {
    if n > 0 {
      ReachesInPart(frames, part, part[k].parent.value, a, n - 1);
    }
  }

  /** Climbing to an unremoved child meets no removed frame. */
  lemma {:induction false} ReachesInRemaining(
    frames: map<FrameId, Frame>, depth: Depths, id: FrameId, done: set<FrameId>, c: FrameId, k: FrameId, n: nat)
    requires Forest(frames, depth) && id in frames && id in depth && c in depth && depth[c] == depth[id] + 1
    requires k in Remaining(frames, id, done) && Reaches(frames, k, c, n)
    ensures Reaches(Remaining(frames, id, done), k, c, n)
    decreases n
  {
    if n > 0 {
      var p := frames[k].parent.value;
      ReachesDepth(frames, depth, p, c, n - 1);
      forall d | d in done ensures !Below(frames, d, p) {
        if k == d {
          BelowItself(frames, k);
        } else {
          BelowParent(frames, d, k);
        }
      }
      ReachesInRemaining(frames, depth, id, done, c, p, n - 1);
    }
  }

  lemma RemainingIsForest(frames: map<FrameId, Frame>, depth: Depths, id: FrameId, done: set<FrameId>)
    requires Forest(frames, depth)
    ensures Forest(Remaining(frames, id, done), depth)
  {
    var rest := Remaining(frames, id, done);
    hide BelowAny;
    forall k | k in rest ensures Linked(rest, depth, k) {
      assert Linked(frames, depth, k);
    }
  }

  /** What remains of the subtree of a child that is not removed yet is all of it. */
  lemma BelowInRemaining(
    frames: map<FrameId, Frame>, depth: Depths, id: FrameId, done: set<FrameId>, c: FrameId, k: FrameId)
    requires Forest(frames, depth) && id in frames && c in frames[id].children
    requires k in Remaining(frames, id, done)
    ensures Below(Remaining(frames, id, done), c, k) <==> Below(frames, c, k)
  {
    var rest := Remaining(frames, id, done);
    assert Linked(frames, depth, id);
    if Below(rest, c, k) {
      var n: nat :| Reaches(rest, k, c, n);
      ReachesInPart(frames, rest, k, c, n);
    }
    if Below(frames, c, k) {
      var n: nat :| Reaches(frames, k, c, n);
      ReachesDepth(frames, depth, k, c, n);
      assert Linked(frames, depth, c);
      ReachesInRemaining(frames, depth, id, done, c, k, n);
    }
  }

  lemma BelowOneMore(frames: map<FrameId, Frame>, done: set<FrameId>, c: FrameId, k: FrameId)
    ensures BelowAny(frames, done + {c}, k) <==> BelowAny(frames, done, k) || Below(frames, c, k)
  {
    hide Below;
    if Below(frames, c, k) {
      assert c in done + {c};
    }
  }

  lemma RemoveOneMore(frames: map<FrameId, Frame>, id: FrameId, done: set<FrameId>, c: FrameId)
    requires var rest := Remaining(frames, id, done);
      forall k :: k in rest ==> (Below(rest, c, k) <==> Below(frames, c, k))
    requires c in frames ==> frames[c].parent == Some(id)
    ensures RemoveSubtree(Remaining(frames, id, done), c) == Remaining(frames, id, done + {c})
  {
    hide Below, BelowAny;
    forall k | k in frames
      ensures BelowAny(frames, done + {c}, k) <==> BelowAny(frames, done, k) || Below(frames, c, k)
    {
      BelowOneMore(frames, done, c, k);
    }
    assert RemoveSubtree(Remaining(frames, id, done), c).Keys == Remaining(frames, id, done + {c}).Keys;
  }

  /** Removing the subtree of one more child from what remains. */
  lemma RemoveNextChild(frames: map<FrameId, Frame>, depth: Depths, id: FrameId, done: set<FrameId>, c: FrameId)
    requires Forest(frames, depth) && id in frames
    requires done <= frames[id].children && c in frames[id].children && c !in done
    ensures var rest := Remaining(frames, id, done);
      Forest(rest, depth) && RemoveSubtree(rest, c) == Remaining(frames, id, done + {c})
  {
    var rest := Remaining(frames, id, done);
    RemainingIsForest(frames, depth, id, done);
    assert Linked(frames, depth, id);
    hide Forest, Linked, Below, BelowAny;
    forall k | k in rest ensures Below(rest, c, k) <==> Below(frames, c, k) {
      BelowInRemaining(frames, depth, id, done, c, k);
    }
    RemoveOneMore(frames, id, done, c);
  }

  lemma {:induction false} ReachesLive(frames: map<FrameId, Frame>, k: FrameId, a: FrameId, n: nat)
    requires Reaches(frames, k, a, n)
    ensures a in frames
    decreases n
  {
    if n > 0 {
      ReachesLive(frames, frames[k].parent.value, a, n - 1);
    }
  }

  lemma AbsentHasNothingBelow(frames: map<FrameId, Frame>, id: FrameId)
    requires id !in frames
    ensures forall k :: !Below(frames, id, k)
  {
    forall k | Below(frames, id, k) ensures false {
      var n: nat :| Reaches(frames, k, id, n);
      ReachesLive(frames, k, id, n);
    }
  }

  lemma RemoveAbsent(frames: map<FrameId, Frame>, id: FrameId)
    requires id !in frames
    ensures RemoveSubtree(frames, id) == frames
  {
    AbsentHasNothingBelow(frames, id);
  }

  lemma RemoveNoChild(frames: map<FrameId, Frame>, id: FrameId)
    ensures Remaining(frames, id, {}) == frames - {id}
  {
  }

  lemma RemoveLastChild(frames: map<FrameId, Frame>, depth: Depths, id: FrameId)
    requires Forest(frames, depth) && id in frames
    ensures var rest := Remaining(frames, id, frames[id].children);
      RemoveSubtree(frames, id) ==
      match frames[id].parent
      case None => rest
      case Some(p) => if p in rest then rest[p := rest[p].(children := rest[p].children - {id})] else rest
  {
    var rest := Remaining(frames, id, frames[id].children);
    BelowItself(frames, id);
    forall k | k in frames ensures k in rest <==> !Below(frames, id, k) {
      if k != id {
        BelowChild(frames, depth, id, k);
      }
    }
  }

  // ----- Every event keeps the shape -----

  function WithChild(frames: map<FrameId, Frame>, id: FrameId, p: FrameId): map<FrameId, Frame>
    requires p in frames
  {
    frames[p := frames[p].(children := frames[p].children + {id})][id := ChildFrame(id, frames[p])]
  }

  lemma WithChildKeepsLinks(
    frames: map<FrameId, Frame>, main: FrameId, depth: Depths, id: FrameId, p: FrameId, k: FrameId)
    requires Rooted(frames, main, depth) && id !in frames && p in frames && k in frames
    ensures Linked(frames, depth, p)
    ensures var after := WithChild(frames, id, p);
      Linked(after, depth[id := depth[p] + 1], k) && Closed(after, main, k)
  {
    assert Linked(frames, depth, k) && Closed(frames, main, k);
    assert Linked(frames, depth, p) && Closed(frames, main, p);
    var after := WithChild(frames, id, p);
    assert after[k].parent == frames[k].parent;
    assert after[k].children == if k == p then frames[k].children + {id} else frames[k].children;
    assert after[id].parent == Some(p);
    assert id !in frames[k].children;
  }

  lemma WithChildKeepsRoot(frames: map<FrameId, Frame>, main: FrameId, depth: Depths, id: FrameId, p: FrameId)
    requires Rooted(frames, main, depth) && id !in frames && p in frames
    ensures Linked(frames, depth, p)
    ensures Rooted(WithChild(frames, id, p), main, depth[id := depth[p] + 1])
  {
    assert Linked(frames, depth, p);
    var after, depth' := WithChild(frames, id, p), depth[id := depth[p] + 1];
    forall k | k in frames ensures Linked(after, depth', k) && Closed(after, main, k) {
      WithChildKeepsLinks(frames, main, depth, id, p, k);
    }
    assert Linked(after, depth', id) && Closed(after, main, id);
    hide Linked, Closed;
    assert after.Keys == frames.Keys + {id};
  }

  lemma AttachedKeepsShape(m: Manager, id: FrameId, parentId: Option<FrameId>)
    requires WellShaped(m)
    ensures WellShaped(OnAttached(m, id, parentId))
  {
    if id !in m.frames && parentId.Some? && parentId.value in m.frames {
      var depth :| Rooted(m.frames, m.mainFrame.value, depth);
      WithChildKeepsRoot(m.frames, m.mainFrame.value, depth, id, parentId.value);
    }
  }

  lemma RemoveMainLeavesNothing(frames: map<FrameId, Frame>, main: FrameId, depth: Depths)
    requires Rooted(frames, main, depth)
    ensures RemoveSubtree(frames, main) == map[]
  {
    forall k | k in frames ensures Below(frames, main, k) {
      EveryFrameBelowRoot(frames, main, depth, k);
    }
  }

  lemma RootIsBelowNoOther(frames: map<FrameId, Frame>, main: FrameId, depth: Depths, id: FrameId)
    requires Rooted(frames, main, depth) && id != main
    ensures !Below(frames, id, main)
  {
    assert Closed(frames, main, main);
    forall n: nat ensures !Reaches(frames, main, id, n) {
    }
  }

  /** A frame outside a subtree keeps its parent, and all its children but the root of that subtree. */
  lemma OutsideSubtree(frames: map<FrameId, Frame>, main: FrameId, depth: Depths, id: FrameId, k: FrameId)
    requires Rooted(frames, main, depth) && k in frames && !Below(frames, id, k)
    ensures k != id || id !in frames
    ensures forall c :: c in frames[k].children ==> c in frames && (Below(frames, id, c) <==> c == id)
    ensures k != main ==> frames[k].parent.value in frames && !Below(frames, id, frames[k].parent.value)
  {
    assert Linked(frames, depth, k) && Closed(frames, main, k);
    BelowItself(frames, id);
    forall c | c in frames[k].children ensures c in frames && (Below(frames, id, c) <==> c == id) {
      if c != id {
        BelowParent(frames, id, c);
      }
    }
    if k != main && k != id {
      BelowParent(frames, id, k);
    }
  }

  lemma RemoveSubtreeKeepsRoot(frames: map<FrameId, Frame>, main: FrameId, depth: Depths, id: FrameId)
    requires Rooted(frames, main, depth) && id != main
    ensures Rooted(RemoveSubtree(frames, id), main, depth)
  {
    var after := RemoveSubtree(frames, id);
    RootIsBelowNoOther(frames, main, depth, id);
    forall k | k in after ensures Linked(after, depth, k) && Closed(after, main, k) {
      OutsideSubtree(frames, main, depth, id, k);
      assert Linked(frames, depth, k) && Closed(frames, main, k);
      if id in frames {
        assert Linked(frames, depth, id) && Closed(frames, main, id);
      }
    }
  }

  lemma DetachedKeepsShape(m: Manager, id: FrameId)
    requires WellShaped(m)
    ensures WellShaped(OnDetached(m, id))
  {
    if m.frames != map[] {
      var depth :| Rooted(m.frames, m.mainFrame.value, depth);
      if id == m.mainFrame.value {
        RemoveMainLeavesNothing(m.frames, id, depth);
      } else {
        RemoveSubtreeKeepsRoot(m.frames, m.mainFrame.value, depth, id);
      }
    }
  }

  lemma ParentIsNotBelow(frames: map<FrameId, Frame>, depth: Depths, id: FrameId)
    requires Forest(frames, depth) && id in frames && frames[id].parent.Some? && frames[id].parent.value in frames
    ensures !Below(frames, id, frames[id].parent.value)
  {
    assert Linked(frames, depth, id);
    if Below(frames, id, frames[id].parent.value) {
      BelowDepth(frames, depth, id, frames[id].parent.value);
    }
  }

  lemma ChildNavigatedKeepsLinks(m: Manager, frame: CdpFrame, main: FrameId, depth: Depths, k: FrameId)
    requires Rooted(m.frames, main, depth) && frame.id in m.frames
    requires k in m.frames && (k == frame.id || !Below(m.frames, frame.id, k))
    ensures var after := OnChildNavigated(m, frame).frames;
      k in after && Linked(after, depth, k) && Closed(after, main, k)
  {
    var frames, id := m.frames, frame.id;
    assert Linked(frames, depth, k) && Closed(frames, main, k);
    BelowItself(frames, id);
    if k != id {
      OutsideSubtree(frames, main, depth, id, k);
    } else if id != main {
      ParentIsNotBelow(frames, depth, id);
    }
  }

  lemma ChildNavigatedKeepsRoot(m: Manager, frame: CdpFrame, main: FrameId, depth: Depths)
    requires Rooted(m.frames, main, depth) && frame.id in m.frames
    ensures Rooted(OnChildNavigated(m, frame).frames, main, depth)
  {
    var frames, id := m.frames, frame.id;
    var after := OnChildNavigated(m, frame).frames;
    assert forall k :: k in after <==> k in frames && (k == id || !Below(frames, id, k));
    if id != main {
      RootIsBelowNoOther(frames, main, depth, id);
    }
    hide Below, Linked, Closed;
    forall k | k in after ensures Linked(after, depth, k) && Closed(after, main, k) {
      ChildNavigatedKeepsLinks(m, frame, main, depth, k);
    }
  }

  lemma ChildNavigatedKeepsShape(m: Manager, frame: CdpFrame)
    requires WellShaped(m)
    ensures WellShaped(OnChildNavigated(m, frame))
  {
    if frame.id in m.frames {
      var depth :| Rooted(m.frames, m.mainFrame.value, depth);
      ChildNavigatedKeepsRoot(m, frame, m.mainFrame.value, depth);
    }
  }

  /** A parentless navigation leaves exactly one frame, the new main frame, whatever its id was before. */
  lemma MainNavigatedLeavesOnlyMain(m: Manager, frame: CdpFrame, worldName: string)
    requires WellShaped(m)
    ensures var after := OnMainNavigated(m, frame, worldName);
      && after.frames == map[frame.id := NextMain(m, frame, worldName)]
      && after.mainFrame == Some(frame.id) && WellShaped(after)
  {
    var after := OnMainNavigated(m, frame, worldName);
    if m.frames != map[] {
      var main := m.mainFrame.value;
      var depth :| Rooted(m.frames, main, depth);
      forall k | k in m.frames ensures Below(m.frames, main, k) {
        EveryFrameBelowRoot(m.frames, main, depth, k);
      }
      assert Closed(m.frames, main, main);
    }
    assert OutsideMain(m) == map[];
    assert after.frames == map[frame.id := NextMain(m, frame, worldName)];
    assert Rooted(after.frames, frame.id, map[frame.id := 0]);
  }

  lemma NavigatedKeepsShape(m: Manager, frame: CdpFrame, worldName: string)
    requires WellShaped(m)
    ensures WellShaped(OnNavigated(m, frame, worldName))
  {
    if frame.parentId.Some? {
      ChildNavigatedKeepsShape(m, frame);
    } else {
      MainNavigatedLeavesOnlyMain(m, frame, worldName);
    }
  }

  lemma {:induction false} TreeKeepsShape(m: Manager, tree: FrameTree, worldName: string)
    requires WellShaped(m)
    ensures WellShaped(OnTree(m, tree, worldName))
    decreases tree, 0
  {
    var attached := OnAttached(m, tree.frame.id, tree.frame.parentId);
    AttachedKeepsShape(m, tree.frame.id, tree.frame.parentId);
    NavigatedKeepsShape(attached, tree.frame, worldName);
    TreesKeepShape(OnNavigated(attached, tree.frame, worldName), tree.children, worldName);
  }

  lemma {:induction false} TreesKeepShape(m: Manager, trees: seq<FrameTree>, worldName: string)
    requires WellShaped(m)
    ensures WellShaped(OnTrees(m, trees, worldName))
    decreases trees, |trees|
  {
    if trees != [] {
      TreeKeepsShape(m, trees[0], worldName);
      TreesKeepShape(OnTree(m, trees[0], worldName), trees[1..], worldName);
    }
  }

  ghost predicate SameLinks(m: Manager, after: Manager) {
    && after.mainFrame == m.mainFrame && after.frames.Keys == m.frames.Keys
    && forall k :: k in m.frames ==>
         && after.frames[k].id == m.frames[k].id && after.frames[k].parent == m.frames[k].parent
         && after.frames[k].children == m.frames[k].children
  }

  /** Replacing frames without touching their links keeps the shape. */
  lemma SameLinksKeepShape(m: Manager, after: Manager)
    requires WellShaped(m) && SameLinks(m, after)
    ensures WellShaped(after)
  {
    if m.frames != map[] {
      var main := m.mainFrame.value;
      var depth :| Rooted(m.frames, main, depth);
      forall k | k in after.frames ensures Linked(after.frames, depth, k) && Closed(after.frames, main, k) {
        assert Linked(m.frames, depth, k) && Closed(m.frames, main, k);
      }
      assert Rooted(after.frames, main, depth);
    }
  }

  /** Requests, polls, eviction and configuration do not touch the frames at all. */
  lemma StepKeepsFrames(m: Manager, e: Event)
    requires e.EvictStale? || e.SetCap? || e.NavigateFrame? || e.Goto? || e.Poll?
    ensures Step(m, e).frames == m.frames && Step(m, e).mainFrame == m.mainFrame
  {
  }

  lemma FrameEventsKeepLinks(m: Manager, e: Event)
    requires e.WithinDocument? || e.StartedLoading? || e.StoppedLoading? || e.Lifecycle? || e.RequestFinished?
    ensures SameLinks(m, Step(m, e))
  {
    hide OnTree, OnNavigated, OnAttached, RemoveSubtree, OnContextCreated, OnContextDestroyed, OnContextsCleared;
    hide OnPoll;
  }

  lemma ContextEventsKeepLinks(m: Manager, e: Event)
    requires e.ContextCreated? || e.ContextDestroyed? || e.ContextsCleared?
    ensures SameLinks(m, Step(m, e))
  {
  }

  lemma StepKeepsLinks(m: Manager, e: Event)
    requires !e.Attached? && !e.Detached? && !e.Navigated? && !e.Tree?
    ensures SameLinks(m, Step(m, e))
  {
    if e.EvictStale? || e.SetCap? || e.NavigateFrame? || e.Goto? || e.Poll? {
      StepKeepsFrames(m, e);
    } else if e.ContextCreated? || e.ContextDestroyed? || e.ContextsCleared? {
      ContextEventsKeepLinks(m, e);
    } else {
      FrameEventsKeepLinks(m, e);
    }
  }

  lemma StepKeepsShape(m: Manager, e: Event)
    requires WellShaped(m)
    ensures WellShaped(Step(m, e))
  {
    match e
    case Attached(id, parentId) => AttachedKeepsShape(m, id, parentId);
    case Detached(id) => DetachedKeepsShape(m, id);
    case Navigated(frame, worldName) => NavigatedKeepsShape(m, frame, worldName);
    case Tree(tree, worldName) => TreeKeepsShape(m, tree, worldName);
    case _ =>
      StepKeepsLinks(m, e);
      SameLinksKeepShape(m, Step(m, e));
  }

  /**
   After any sequence of events the frame map is empty or a tree rooted at the main frame: keys are ids, links agree
   both ways, none dangles, and every frame descends from the main frame.
   */
  lemma {:induction false} EveryRunIsWellShaped(es: seq<Event>)
    ensures var m := Run(es);
      && WellShaped(m)
      && forall k :: k in m.frames ==> m.mainFrame.Some? && Below(m.frames, m.mainFrame.value, k)
  {
    if es != [] {
      EveryRunIsWellShaped(es[..|es| - 1]);
      StepKeepsShape(Run(es[..|es| - 1]), es[|es| - 1]);
    }
    var m := Run(es);
    forall k | k in m.frames ensures m.mainFrame.Some? && Below(m.frames, m.mainFrame.value, k) {
      var depth :| Rooted(m.frames, m.mainFrame.value, depth);
      EveryFrameBelowRoot(m.frames, m.mainFrame.value, depth, k);
    }
  }
}
