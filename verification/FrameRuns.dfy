/** Runs from the start in which the frame manager does not do what is promised, event by event. */
module FrameRuns {
  import opened FrameContexts
  import opened FrameForest
  import opened FrameModel
  import opened NavigationHistory
  import opened Wrappers

  lemma RunFromCons(m: Manager, e: Event, es: seq<Event>)
    ensures RunFrom(m, [e] + es) == RunFrom(Step(m, e), es)
  {
    assert ([e] + es)[1..] == es;
  }

  lemma ThreeSteps(m: Manager, a: Event, b: Event, c: Event)
    ensures RunFrom(m, [a, b, c]) == Step(Step(Step(m, a), b), c)
  {
    hide Step;
    RunFromCons(m, a, [b, c]);
    RunFromCons(Step(m, a), b, [c]);
    RunFromCons(Step(Step(m, a), b), c, []);
    assert [a] + [b, c] == [a, b, c] && [b] + [c] == [b, c] && [c] + [] == [c];
  }

  lemma FourSteps(m: Manager, a: Event, b: Event, c: Event, d: Event)
    ensures RunFrom(m, [a, b, c, d]) == Step(Step(Step(Step(m, a), b), c), d)
  {
    hide Step, RunFrom;
    RunFromCons(m, a, [b, c, d]);
    assert [a] + [b, c, d] == [a, b, c, d];
    ThreeSteps(Step(m, a), b, c, d);
  }

  lemma RunsFromStart(es: seq<Event>)
    ensures Run(es) == RunFrom(INITIAL, es)
  {
    RunOfConcat([], es);
    assert [] + es == es;
  }

  function MainNavigated(id: FrameId): Event {
    Navigated(CdpFrame(id, None, None, "u", None), "w")
  }

  /** A main frame that has been navigated and has received nothing yet. */
  function MainFrame(id: FrameId): Frame {
    Frame(id, None, {}, None, None, None, Some("u"), None, None, {}, "w")
  }

  function OnlyMain(f: Frame): Manager {
    Manager(Some(f.id), map[f.id := f], map[], None, [], None, 1)
  }

  lemma FirstNavigation(id: FrameId)
    ensures Step(INITIAL, MainNavigated(id)) == OnlyMain(MainFrame(id)) && WellShaped(OnlyMain(MainFrame(id)))
  {
    MainNavigatedLeavesOnlyMain(INITIAL, MainNavigated(id).frame, "w");
    assert "u" + "" == "u";
  }

  /** A parentless navigation to another id. */
  function Renamed(m: Manager, id: FrameId): Manager
    requires m.mainFrame.Some? && m.mainFrame.value in m.frames
  {
    var main := m.frames[m.mainFrame.value].(children := {}, id := id, name := None, url := Some("u"));
    m.(mainFrame := Some(id), frames := map[id := main], navCount := Min(m.navCount + 1, U32_MAX),
       navigation := Retargeted(m.navigation, m.mainFrame, id))
  }

  lemma Rename(m: Manager, id: FrameId)
    requires WellShaped(m) && m.mainFrame.Some? && m.mainFrame.value in m.frames
    ensures Step(m, MainNavigated(id)) == Renamed(m, id)
  {
    MainNavigatedLeavesOnlyMain(m, MainNavigated(id).frame, "w");
    assert "u" + "" == "u";
  }

  // ----- A destroyed context that stays -----

  const CONTEXT_CREATED: Event := ContextCreated(Context(1, "c"), Some("M"), true, "")

  const HOLDING: Manager :=
    OnlyMain(MainFrame("M").(mainWorld := Some(Context(1, "c")))).(contextIds := map["c" := "M"])

  lemma HoldingStep()
    ensures Step(OnlyMain(MainFrame("M")), CONTEXT_CREATED) == HOLDING
  {
  }

  lemma DestroyStep()
    ensures Step(Renamed(HOLDING, "N"), ContextDestroyed("c")) == Renamed(HOLDING, "N").(contextIds := map[])
  {
  }

  /** The main frame changes its id, its context is destroyed, and the frame still holds it. */
  lemma DestroyedContextStays()
    ensures var m := Run([MainNavigated("M"), CONTEXT_CREATED, MainNavigated("N"), ContextDestroyed("c")]);
      "N" in m.frames && m.frames["N"].Holds("c") && "c" !in m.contextIds
  {
    hide Step, WellShaped, MainNavigated;
    RunsFromStart([MainNavigated("M"), CONTEXT_CREATED, MainNavigated("N"), ContextDestroyed("c")]);
    FourSteps(INITIAL, MainNavigated("M"), CONTEXT_CREATED, MainNavigated("N"), ContextDestroyed("c"));
    FirstNavigation("M");
    HoldingStep();
    StepKeepsShape(OnlyMain(MainFrame("M")), CONTEXT_CREATED);
    Rename(HOLDING, "N");
    DestroyStep();
  }

  // ----- A queued navigation whose main frame is renamed -----

  const ASKED: Event := Goto(Request(1, None, 10))

  const QUEUED: Manager :=
    OnlyMain(MainFrame("M"))
    .(navCount := 0, pending := [(Request(1, Some("M"), 10), Watcher(1, {"load"}, "M", None, false))])

  lemma QueuedStep()
    ensures Step(OnlyMain(MainFrame("M")), ASKED) == QUEUED
  {
  }

  lemma StartStep()
    ensures var started := Renamed(QUEUED, "N").(navigation := Some((QUEUED.pending[0].1, 10)), pending := []);
      && Step(Renamed(QUEUED, "N"), Poll(0, 0)) == started
      && OnPoll(started, 1, 1).1 == Some(NavigationResult(Err(FrameNotFound(1, "M"))))
  {
  }

  /** The navigation is asked for, queued and started, and the next poll reports its frame as missing. */
  lemma QueuedNavigationFails()
    ensures OnPoll(Run([MainNavigated("M"), ASKED, MainNavigated("N"), Poll(0, 0)]), 1, 1).1
      == Some(NavigationResult(Err(FrameNotFound(1, "M"))))
  {
    hide Step, WellShaped, OnPoll, MainNavigated;
    RunsFromStart([MainNavigated("M"), ASKED, MainNavigated("N"), Poll(0, 0)]);
    FourSteps(INITIAL, MainNavigated("M"), ASKED, MainNavigated("N"), Poll(0, 0));
    FirstNavigation("M");
    QueuedStep();
    StepKeepsShape(OnlyMain(MainFrame("M")), ASKED);
    Rename(QUEUED, "N");
    StartStep();
  }

  // ----- A navigation that is done without a new document -----

  const MAIN_LOADS: seq<Event> := [MainNavigated("M"), Lifecycle("M", "L0", "init"), StoppedLoading("M")]

  const CHILD_IS_ASKED_FOR: seq<Event> :=
    [Attached("C", Some("M")), Lifecycle("C", "L1", "init"), NavigateFrame("C", Request(1, None, 10)), Poll(0, 0)]

  const LOADED_MAIN: Frame :=
    MainFrame("M").(loaderId := Some("L0"), lifecycle := {"init", "DOMContentLoaded", "load"})

  const CHILD: Frame := NewFrame("C", "w").(parent := Some("M"), loaderId := Some("L1"), lifecycle := {"init"})

  const WITH_CHILD: Manager :=
    OnlyMain(LOADED_MAIN).(frames := map["M" := LOADED_MAIN.(children := {"C"}), "C" := CHILD])

  /** The manager once the navigation of the child has been started. */
  const STARTED: Manager :=
    WITH_CHILD.(navCount := 0, navigation := Some((Watcher(1, {"load"}, "C", Some("L1"), false), 10)))

  /** The main frame with its loader, still loading. */
  const ANNOUNCED_MAIN: Frame := MainFrame("M").(loaderId := Some("L0"), lifecycle := {"init"})

  lemma MainTakesLoader()
    ensures Step(OnlyMain(MainFrame("M")), Lifecycle("M", "L0", "init")) == OnlyMain(ANNOUNCED_MAIN)
  {
  }

  lemma MainStopsLoading()
    ensures Step(OnlyMain(ANNOUNCED_MAIN), StoppedLoading("M")) == OnlyMain(LOADED_MAIN)
  {
    assert {"init"} + {"DOMContentLoaded", "load"} == LOADED_MAIN.lifecycle;
  }

  lemma MainLoads()
    ensures Run(MAIN_LOADS) == OnlyMain(LOADED_MAIN)
  {
    hide Step;
    RunsFromStart(MAIN_LOADS);
    ThreeSteps(INITIAL, MainNavigated("M"), Lifecycle("M", "L0", "init"), StoppedLoading("M"));
    FirstNavigation("M");
    MainTakesLoader();
    MainStopsLoading();
  }

  lemma ChildAttaches()
    ensures Step(Step(OnlyMain(LOADED_MAIN), Attached("C", Some("M"))), Lifecycle("C", "L1", "init")) == WITH_CHILD
  {
    var attached := WITH_CHILD.(frames := WITH_CHILD.frames["C" := ChildFrame("C", LOADED_MAIN)]);
    assert LOADED_MAIN.children + {"C"} == {"C"};
    assert Step(OnlyMain(LOADED_MAIN), Attached("C", Some("M"))) == attached;
    assert Step(attached, Lifecycle("C", "L1", "init")) == WITH_CHILD;
  }

  lemma ChildStarts()
    ensures Step(Step(WITH_CHILD, NavigateFrame("C", Request(1, None, 10))), Poll(0, 0)) == STARTED
  {
    var entry := (Request(1, Some("C"), 10), Watcher(1, {"load"}, "C", Some("L1"), false));
    assert Step(WITH_CHILD, NavigateFrame("C", Request(1, None, 10))) == WITH_CHILD.(navCount := 0, pending := [entry]);
  }

  lemma StartedOnChild()
    ensures Run(MAIN_LOADS + CHILD_IS_ASKED_FOR) == STARTED && WellShaped(STARTED)
  {
    hide Step, Run, WellShaped;
    MainLoads();
    RunOfConcat(MAIN_LOADS, CHILD_IS_ASKED_FOR);
    FourSteps(OnlyMain(LOADED_MAIN), Attached("C", Some("M")), Lifecycle("C", "L1", "init"),
              NavigateFrame("C", Request(1, None, 10)), Poll(0, 0));
    ChildAttaches();
    ChildStarts();
    EveryRunIsWellShaped(MAIN_LOADS + CHILD_IS_ASKED_FOR);
  }

  /** The main frame, loaded before the request, takes the id of the child that was asked for. */
  const TAKEN_OVER: seq<Event> := MAIN_LOADS + CHILD_IS_ASKED_FOR + [MainNavigated("C")]

  lemma TakenOverRun()
    ensures Run(TAKEN_OVER) == Renamed(STARTED, "C")
  {
    hide Step;
    StartedOnChild();
    Rename(STARTED, "C");
    RunSnoc(MAIN_LOADS + CHILD_IS_ASKED_FOR, MainNavigated("C"));
  }

  lemma TakenOverName()
    ensures NameAt(TAKEN_OVER, "C", 5) == "M"
  {
    hide Step, WellShaped;
    StartedOnChild();
    var before := MAIN_LOADS + CHILD_IS_ASKED_FOR;
    assert TAKEN_OVER[..|TAKEN_OVER| - 1] == before;
    hide Run;
    assert before[6] == Poll(0, 0) && before[5] == NavigateFrame("C", Request(1, None, 10));
    assert before[..6][5] == before[5];
    assert NameAt(before[..5], "M", 5) == "M";
    assert before[..6][..5] == before[..5] && NameAt(before[..6], "M", 5) == "M";
    assert before[..7] == before && before[..7][..6] == before[..6];
  }

  /** The navigation of the child is done on another frame, and no loader was announced since it was asked for. */
  lemma OtherFrameFinishes()
    ensures OnPoll(Run(TAKEN_OVER), 1, 1).1 == Some(NavigationResult(Ok(NewDocumentNavigation(1))))
    ensures TAKEN_OVER[5] == NavigateFrame("C", Request(1, None, 10)) && NameAt(TAKEN_OVER, "C", 5) == "M"
    ensures !AnnouncedSince(TAKEN_OVER, "C", 5)
  {
    TakenOverRun();
    TakenOverName();
    hide Run, NameAt;
    assert forall i :: 5 <= i < |TAKEN_OVER| ==> !TAKEN_OVER[i].Lifecycle?;
  }

  /** The child is detached, attached again under the same id, and stops loading. */
  const CHILD_IS_REPLACED: seq<Event> := [Detached("C"), Attached("C", Some("M")), StoppedLoading("C")]

  const REPLACED: seq<Event> := MAIN_LOADS + CHILD_IS_ASKED_FOR + CHILD_IS_REPLACED

  const NEW_CHILD: Frame := NewFrame("C", "w").(parent := Some("M"), lifecycle := {"DOMContentLoaded", "load"})

  lemma ChildDetaches()
    requires WellShaped(STARTED)
    ensures Step(STARTED, Detached("C")) == STARTED.(frames := map["M" := LOADED_MAIN])
  {
    var frames := STARTED.frames;
    var depth :| Rooted(frames, "M", depth);
    RootIsBelowNoOther(frames, "M", depth, "C");
    BelowItself(frames, "C");
    hide Below, Rooted;
    assert RemoveSubtree(frames, "C").Keys == {"M"};
    assert RemoveSubtree(frames, "C")["M"] == LOADED_MAIN.(children := {"C"} - {"C"});
    assert {"C"} - {"C"} == {};
  }

  lemma ChildComesBack()
    ensures var alone := STARTED.(frames := map["M" := LOADED_MAIN]);
      Step(Step(alone, Attached("C", Some("M"))), StoppedLoading("C"))
        == STARTED.(frames := STARTED.frames["C" := NEW_CHILD])
  {
    var alone := STARTED.(frames := map["M" := LOADED_MAIN]);
    var attached := STARTED.(frames := STARTED.frames["C" := ChildFrame("C", LOADED_MAIN)]);
    assert LOADED_MAIN.children + {"C"} == {"C"} && {} + {"DOMContentLoaded", "load"} == NEW_CHILD.lifecycle;
    assert Step(alone, Attached("C", Some("M"))) == attached;
    assert Step(attached, StoppedLoading("C")) == STARTED.(frames := STARTED.frames["C" := NEW_CHILD]);
  }

  lemma ReplacedRun()
    ensures Run(REPLACED) == STARTED.(frames := STARTED.frames["C" := NEW_CHILD])
  {
    hide Step, Run, WellShaped;
    StartedOnChild();
    ChildDetaches();
    ChildComesBack();
    RunOfConcat(MAIN_LOADS + CHILD_IS_ASKED_FOR, CHILD_IS_REPLACED);
    ThreeSteps(STARTED, Detached("C"), Attached("C", Some("M")), StoppedLoading("C"));
  }

  /** The navigation is done on a frame that has no loader at all. */
  lemma FrameWithoutLoaderFinishes()
    ensures OnPoll(Run(REPLACED), 1, 1).1 == Some(NavigationResult(Ok(NewDocumentNavigation(1))))
    ensures REPLACED[5] == NavigateFrame("C", Request(1, None, 10)) && !AnnouncedSince(REPLACED, "C", 5)
  {
    ReplacedRun();
    hide Run, NameAt;
    assert forall i :: 5 <= i < |REPLACED| ==> !REPLACED[i].Lifecycle?;
  }
}
