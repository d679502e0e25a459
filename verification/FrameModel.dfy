/**
 The frame manager's state as a value, and what each event does to it. Removal of a subtree is stated by set: it keeps
 the frames that do not descend from the removed one. The class `FrameManager` is proved against these functions.
 */
module FrameModel {
  import opened Wrappers

  type FrameId = string
  type LoaderId = string
  type NavigationId = nat
  type Instant = int

  // ----- State -----

  datatype Context = Context(id: int, uniqueId: string)

  datatype Frame = Frame(
    id: FrameId,
    parent: Option<FrameId>,
    children: set<FrameId>,
    mainWorld: Option<Context>,
    secondaryWorld: Option<Context>,
    loaderId: Option<LoaderId>,
    url: Option<string>,
    name: Option<string>,
    httpRequest: Option<nat>,
    lifecycle: set<string>,
    worldName: string)
  {
    function Navigated(frame: CdpFrame): Frame {
      this.(name := frame.name, url := Some(frame.url + frame.urlFragment.GetOr("")))
    }

    /** A lifecycle event; `init` announces a new loader and starts the received events afresh. */
    function Receive(loader: LoaderId, event: string): Frame {
      if event == "init" then this.(loaderId := Some(loader), lifecycle := {event})
      else this.(lifecycle := lifecycle + {event})
    }

    function Holds(uniqueId: string): bool {
      (mainWorld.Some? && mainWorld.value.uniqueId == uniqueId)
      || (secondaryWorld.Some? && secondaryWorld.value.uniqueId == uniqueId)
    }

    function ClearContexts(): Frame {
      this.(mainWorld := None, secondaryWorld := None)
    }

    function DestroyContext(uniqueId: string): Frame {
      if mainWorld.Some? && mainWorld.value.uniqueId == uniqueId then this.(mainWorld := None)
      else if secondaryWorld.Some? && secondaryWorld.value.uniqueId == uniqueId then this.(secondaryWorld := None)
      else this
    }
  }

  function NewFrame(id: FrameId, worldName: string): Frame {
    Frame(id, None, {}, None, None, None, None, None, None, {}, worldName)
  }

  function ChildFrame(id: FrameId, parent: Frame): Frame {
    NewFrame(id, parent.worldName).(parent := Some(parent.id))
  }

  datatype Watcher = Watcher(
    id: NavigationId, expected: set<string>, frameId: FrameId, loaderId: Option<LoaderId>, sameDocument: bool)

  /** A requested navigation; of the parameters of its command only the frame id matters here. */
  datatype Request = Request(id: NavigationId, frameId: Option<FrameId>, timeout: nat)

  datatype Manager = Manager(
    mainFrame: Option<FrameId>,
    frames: map<FrameId, Frame>,
    contextIds: map<string, FrameId>,
    navigation: Option<(Watcher, Instant)>,
    pending: seq<(Request, Watcher)>,
    maxNavigations: Option<nat>,
    navCount: nat)

  const INITIAL: Manager := Manager(None, map[], map[], None, [], None, 0)

  // ----- Events -----

  datatype CdpFrame = CdpFrame(
    id: FrameId, parentId: Option<FrameId>, name: Option<string>, url: string, urlFragment: Option<string>)

  datatype FrameTree = FrameTree(frame: CdpFrame, children: seq<FrameTree>)

  /** `worldName` stands for the random isolated-world name a brand-new main frame draws. */
  datatype Event =
    | Attached(id: FrameId, parentId: Option<FrameId>)
    | Detached(id: FrameId)
    | Navigated(frame: CdpFrame, worldName: string)
    | Tree(tree: FrameTree, worldName: string)
    | WithinDocument(id: FrameId, url: string)
    | StartedLoading(id: FrameId)
    | StoppedLoading(id: FrameId)
    | Lifecycle(id: FrameId, loaderId: LoaderId, name: string)
    | RequestFinished(frameId: Option<FrameId>, request: nat)
    | ContextCreated(context: Context, frameId: Option<FrameId>, isDefault: bool, name: string)
    | ContextDestroyed(uniqueId: string)
    | ContextsCleared
    | EvictStale
    | SetCap(cap: Option<nat>)
    | NavigateFrame(id: FrameId, req: Request)
    | Goto(req: Request)
    | Poll(now: Instant, clock: Instant)

  datatype NavigationOk = SameDocumentNavigation(id: NavigationId) | NewDocumentNavigation(id: NavigationId)

  datatype NavigationError =
    | Timeout(id: NavigationId)
    | FrameNotFound(id: NavigationId, frameId: FrameId)
    | TooManyNavigations(id: NavigationId, count: nat)

  datatype FrameEvent =
    | NavigationResult(result: Result<NavigationOk, NavigationError>)
    | NavigationRequest(id: NavigationId, req: Request)

  // ----- Descent -----

  /** Climbing `n` parent links from the live frame `k`, through live frames only, arrives at `a`. */
  ghost predicate Reaches(frames: map<FrameId, Frame>, k: FrameId, a: FrameId, n: nat)
    decreases n
  {
    && k in frames
    && if n == 0 then k == a else frames[k].parent.Some? && Reaches(frames, frames[k].parent.value, a, n - 1)
  }

  /** `k` is `a` or descends from it. */
  ghost predicate Below(frames: map<FrameId, Frame>, a: FrameId, k: FrameId) {
    exists n: nat :: Reaches(frames, k, a, n)
  }

  // ----- What each event does -----

  function OnAttached(m: Manager, id: FrameId, parentId: Option<FrameId>): Manager {
    if id in m.frames || parentId.None? || parentId.value !in m.frames then m
    else
      var parent := m.frames[parentId.value];
      var linked := m.frames[parentId.value := parent.(children := parent.children + {id})];
      m.(frames := linked[id := ChildFrame(id, parent)])
  }

  /** The frames without the subtree of `id`, and `id` no longer among its parent's children. */
  ghost function RemoveSubtree(frames: map<FrameId, Frame>, id: FrameId): map<FrameId, Frame> {
    map k | k in frames && !Below(frames, id, k) ::
      if id in frames && frames[id].parent == Some(k) then frames[k].(children := frames[k].children - {id})
      else frames[k]
  }

  ghost function OnDetached(m: Manager, id: FrameId): Manager {
    m.(frames := RemoveSubtree(m.frames, id))
  }

  /** The frames that are not in the subtree of `id`. */
  ghost function Outside(frames: map<FrameId, Frame>, id: FrameId): map<FrameId, Frame> {
    map k | k in frames && !Below(frames, id, k) :: frames[k]
  }

  ghost function OnChildNavigated(m: Manager, frame: CdpFrame): Manager {
    if frame.id !in m.frames then m
    else
      m.(frames := Outside(m.frames, frame.id)[frame.id := m.frames[frame.id].(children := {}).Navigated(frame)])
  }

  /** The frames that survive a navigation of the main frame, which itself is set aside. */
  ghost function OutsideMain(m: Manager): map<FrameId, Frame> {
    if m.mainFrame.None? then m.frames else Outside(m.frames, m.mainFrame.value)
  }

  /** The next main frame: the live old one under its new id and without children, or a new one. */
  function NextMain(m: Manager, frame: CdpFrame, worldName: string): Frame {
    var main :=
      if m.mainFrame.Some? && m.mainFrame.value in m.frames
      then m.frames[m.mainFrame.value].(children := {}, id := frame.id)
      else NewFrame(frame.id, worldName);
    main.Navigated(frame)
  }

  ghost function OnMainNavigated(m: Manager, frame: CdpFrame, worldName: string): Manager {
    m.(mainFrame := Some(frame.id),
       frames := OutsideMain(m)[frame.id := NextMain(m, frame, worldName)],
       navCount := Min(m.navCount + 1, U32_MAX),
       navigation := Retargeted(m.navigation, m.mainFrame, frame.id))
  }

  /** An active watcher on the old main frame moves with it. */
  function Retargeted(
    navigation: Option<(Watcher, Instant)>, previous: Option<FrameId>, id: FrameId): Option<(Watcher, Instant)>
  {
    if navigation.Some? && previous == Some(navigation.value.0.frameId)
    then Some((navigation.value.0.(frameId := id), navigation.value.1))
    else navigation
  }

  ghost function OnNavigated(m: Manager, frame: CdpFrame, worldName: string): Manager {
    if frame.parentId.Some? then OnChildNavigated(m, frame) else OnMainNavigated(m, frame, worldName)
  }

  /** Attach and navigate every node of the tree, parents before children, in order. */
  ghost function OnTree(m: Manager, tree: FrameTree, worldName: string): Manager
    decreases tree, 0
  {
    var attached := OnAttached(m, tree.frame.id, tree.frame.parentId);
    OnTrees(OnNavigated(attached, tree.frame, worldName), tree.children, worldName)
  }

  ghost function OnTrees(m: Manager, trees: seq<FrameTree>, worldName: string): Manager
    decreases trees, |trees|
  {
    if trees == [] then m else OnTrees(OnTree(m, trees[0], worldName), trees[1..], worldName)
  }

  function UpdateFrame(m: Manager, id: FrameId, f: Frame -> Frame): Manager {
    if id in m.frames then m.(frames := m.frames[id := f(m.frames[id])]) else m
  }

  function OnWithinDocument(m: Manager, id: FrameId, url: string): Manager {
    UpdateFrame(m, id, (f: Frame) => f.(url := Some(url)))
    .(navigation :=
        if m.navigation.Some? && m.navigation.value.0.frameId == id
        then Some((m.navigation.value.0.(sameDocument := true), m.navigation.value.1))
        else m.navigation)
  }

  function OnStartedLoading(m: Manager, id: FrameId): Manager {
    UpdateFrame(m, id, (f: Frame) => f.(lifecycle := {}, httpRequest := None))
  }

  function OnStoppedLoading(m: Manager, id: FrameId): Manager {
    UpdateFrame(m, id, (f: Frame) => f.(lifecycle := f.lifecycle + {"DOMContentLoaded", "load"}))
  }

  function OnLifecycle(m: Manager, id: FrameId, loaderId: LoaderId, name: string): Manager {
    UpdateFrame(m, id, (f: Frame) => f.Receive(loaderId, name))
  }

  function OnRequestFinished(m: Manager, frameId: Option<FrameId>, request: nat): Manager {
    if frameId.None? then m else UpdateFrame(m, frameId.value, (f: Frame) => f.(httpRequest := Some(request)))
  }

  /** Which world of a frame takes a new context: the main one, the still empty isolated one, or neither. */
  function Adopt(f: Frame, context: Context, isDefault: bool, name: string): Frame {
    if isDefault then f.(mainWorld := Some(context))
    else if name == f.worldName && f.secondaryWorld.None? then f.(secondaryWorld := Some(context))
    else f
  }

  function OnContextCreated(
    m: Manager, context: Context, frameId: Option<FrameId>, isDefault: bool, name: string): Manager
  {
    if frameId.None? || frameId.value !in m.frames then m
    else
      var f := m.frames[frameId.value];
      m.(frames := m.frames[frameId.value := Adopt(f, context, isDefault, name)],
         contextIds := m.contextIds[context.uniqueId := f.id])
  }

  function OnContextDestroyed(m: Manager, uniqueId: string): Manager {
    if uniqueId !in m.contextIds then m
    else
      UpdateFrame(m, m.contextIds[uniqueId], (f: Frame) => f.DestroyContext(uniqueId))
      .(contextIds := m.contextIds - {uniqueId})
  }

  function ClearAmong(frames: map<FrameId, Frame>, ids: set<FrameId>): map<FrameId, Frame> {
    map k | k in frames :: if k in ids then frames[k].ClearContexts() else frames[k]
  }

  function OnContextsCleared(m: Manager): Manager {
    m.(frames := ClearAmong(m.frames, m.contextIds.Values), contextIds := map[])
  }

  function EvictStaleContextIds(m: Manager): Manager {
    m.(contextIds := map u | u in m.contextIds && m.contextIds[u] in m.frames :: m.contextIds[u])
  }

  function OnNavigateFrame(m: Manager, id: FrameId, req: Request): Manager {
    var loaderId := if id in m.frames then m.frames[id].loaderId else None;
    m.(navCount := 0,
       pending := m.pending
         + [(req.(frameId := Some(req.frameId.GetOr(id))), Watcher(req.id, {"load"}, id, loaderId, false))])
  }

  function OnGoto(m: Manager, req: Request): Manager {
    if m.mainFrame.None? then m else OnNavigateFrame(m, m.mainFrame.value, req)
  }

  predicate LifecycleMet(w: Watcher, f: Frame) {
    forall ev :: ev in w.expected ==> ev in f.lifecycle || (f.url.None? && "DOMContentLoaded" in f.lifecycle)
  }

  function CheckLifecycleComplete(w: Watcher, f: Frame): Option<NavigationOk> {
    if !LifecycleMet(w, f) then None
    else if f.loaderId == w.loaderId && !w.sameDocument then None
    else if w.sameDocument then Some(SameDocumentNavigation(w.id))
    else Some(NewDocumentNavigation(w.id))
  }

  /** `poll`: `now` is its argument, `clock` the time it reads itself when it starts the next navigation. */
  function OnPoll(m: Manager, now: Instant, clock: Instant): (Manager, Option<FrameEvent>) {
    match m.navigation
    case Some((w, deadline)) =>
      var done := m.(navigation := None);
      if m.maxNavigations.Some? && m.navCount > m.maxNavigations.value then
        (done, Some(NavigationResult(Err(TooManyNavigations(w.id, m.navCount)))))
      else if now > deadline then (done, Some(NavigationResult(Err(Timeout(w.id)))))
      else if w.frameId !in m.frames then (done, Some(NavigationResult(Err(FrameNotFound(w.id, w.frameId)))))
      else (
        match CheckLifecycleComplete(w, m.frames[w.frameId])
        case Some(ok) => (done, Some(NavigationResult(Ok(ok))))
        case None => (m, None)
      )
    case None =>
      if m.pending == [] then (m, None)
      else
        var (req, w) := m.pending[0];
        (m.(navigation := Some((w, clock + req.timeout)), pending := m.pending[1..]),
         Some(NavigationRequest(req.id, req)))
  }

  // ----- Runs -----

  ghost function Step(m: Manager, e: Event): Manager {
    match e
    case Attached(id, parentId) => OnAttached(m, id, parentId)
    case Detached(id) => OnDetached(m, id)
    case Navigated(frame, worldName) => OnNavigated(m, frame, worldName)
    case Tree(tree, worldName) => OnTree(m, tree, worldName)
    case WithinDocument(id, url) => OnWithinDocument(m, id, url)
    case StartedLoading(id) => OnStartedLoading(m, id)
    case StoppedLoading(id) => OnStoppedLoading(m, id)
    case Lifecycle(id, loaderId, name) => OnLifecycle(m, id, loaderId, name)
    case RequestFinished(frameId, request) => OnRequestFinished(m, frameId, request)
    case ContextCreated(context, frameId, isDefault, name) => OnContextCreated(m, context, frameId, isDefault, name)
    case ContextDestroyed(uniqueId) => OnContextDestroyed(m, uniqueId)
    case ContextsCleared => OnContextsCleared(m)
    case EvictStale => EvictStaleContextIds(m)
    case SetCap(cap) => m.(maxNavigations := cap)
    case NavigateFrame(id, req) => OnNavigateFrame(m, id, req)
    case Goto(req) => OnGoto(m, req)
    case Poll(now, clock) => OnPoll(m, now, clock).0
  }

  /** The state after a sequence of events, in any order, from the start. */
  ghost function Run(es: seq<Event>): Manager {
    if es == [] then INITIAL else Step(Run(es[..|es| - 1]), es[|es| - 1])
  }
}
