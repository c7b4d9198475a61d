/**
 The page that hosts the wake-up overlay and the two-tab content area.

 `App` owns `activeSection` (a string, initially "HOME") and `showWakeUp`
 (initially true). The overlay is mounted while `showWakeUp` holds, and the
 `onWake` callback it is given sets `showWakeUp` to false, which unmounts
 it. The navigation bar renders one button per entry of `NavItems`; a click
 stores that entry as the active section, and the content area renders one
 block per section whose name equals the active section.
 */
module App {
  import WakeUpScreen

  const NavItems: seq<string> := ["HOME", "FAVOURITES"]

  /** The two buttons of the navigation bar, in rendering order. */
  datatype NavButton = HomeButton | FavouritesButton

  /** The content blocks guarded by the active section. */
  datatype Block = HomeContent | FavouritesContent

  datatype AppState = AppState(
    activeSection: string,
    showWakeUp: bool,
    screen: WakeUpScreen.WakeState
  )

  /** Inputs to the page: an event aimed at the overlay (a tap or one of its
      timeouts firing), or a click on a navigation button. */
  datatype AppEvent = Overlay(e: WakeUpScreen.Event) | Nav(b: NavButton)

  const InitApp := AppState("HOME", true, WakeUpScreen.Init)

  /** The label a button carries: its entry of `NavItems`. */
  function Label(b: NavButton): (l: string)
    ensures l in NavItems
    ensures b == HomeButton <==> l == "HOME"
  {
    match b
    case HomeButton => NavItems[0]
    case FavouritesButton => NavItems[1]
  }

  /** The blocks the content area renders for an active section. */
  function Content(activeSection: string): (r: seq<Block>)
    ensures |r| <= 1
    ensures |r| == 1 <==> activeSection in NavItems
    ensures HomeContent in r <==> activeSection == "HOME"
    ensures FavouritesContent in r <==> activeSection == "FAVOURITES"
  {
    (if activeSection == "HOME" then [HomeContent] else [])
    + (if activeSection == "FAVOURITES" then [FavouritesContent] else [])
  }

  /** A navigation click stores the clicked label and touches nothing else. */
  function SelectSection(a: AppState, b: NavButton): (r: AppState)
    ensures r.activeSection == Label(b)
    ensures |Content(r.activeSection)| == 1
    ensures r.showWakeUp == a.showWakeUp && r.screen == a.screen
  {
    a.(activeSection := Label(b))
  }

  /** An overlay event. When it makes the overlay call `onWake`, the host
      hides the overlay, which unmounts it. The host never unmounts the
      overlay for any other reason, so an `Unmount` input is ignored. */
  function OnOverlayEvent(a: AppState, e: WakeUpScreen.Event): (r: AppState)
    ensures r.activeSection == a.activeSection
    ensures !a.showWakeUp ==> !r.showWakeUp
    ensures a.showWakeUp && !r.showWakeUp <==> a.showWakeUp && r.screen.wakeCalls > a.screen.wakeCalls
    ensures !r.showWakeUp && a.showWakeUp ==> !r.screen.mounted
  {
    if e == WakeUpScreen.Unmount then
      a
    else
      var s := WakeUpScreen.Step(a.screen, e);
      if s.wakeCalls > a.screen.wakeCalls then
        a.(showWakeUp := false, screen := WakeUpScreen.Step(s, WakeUpScreen.Unmount))
      else
        a.(screen := s)
  }

  function AppStep(a: AppState, ev: AppEvent): (r: AppState)
  {
    match ev
    case Overlay(e) => OnOverlayEvent(a, e)
    case Nav(b) => SelectSection(a, b)
  }

  function AppRun(a: AppState, evs: seq<AppEvent>): (r: AppState)
    ensures !a.showWakeUp ==> !r.showWakeUp
    decreases |evs|
  {
    if |evs| == 0 then a else AppRun(AppStep(a, evs[0]), evs[1..])
  }

  /** What holds of every page state reachable from `InitApp`. */
  predicate AppInv(a: AppState)
  {
    && WakeUpScreen.Inv(a.screen)
    && a.activeSection in NavItems
    && (a.showWakeUp <==> a.screen.mounted)
    && (a.showWakeUp <==> a.screen.wakeCalls == 0)
  }

  lemma AppStepPreservesInv(a: AppState, ev: AppEvent)
    requires AppInv(a)
    ensures AppInv(AppStep(a, ev))
  {
    match ev
    case Nav(b) =>
    case Overlay(e) =>
      if e != WakeUpScreen.Unmount {
        var s := WakeUpScreen.Step(a.screen, e);
        WakeUpScreen.StepPreservesInv(a.screen, e);
        if s.wakeCalls > a.screen.wakeCalls {
          var u := WakeUpScreen.Step(s, WakeUpScreen.Unmount);
          WakeUpScreen.StepPreservesInv(s, WakeUpScreen.Unmount);
          assert !u.mounted && u.wakeCalls == s.wakeCalls;
        } else {
          assert s.mounted == a.screen.mounted && s.wakeCalls == a.screen.wakeCalls;
        }
      }
  }

  lemma {:induction false} AppRunPreservesInv(a: AppState, evs: seq<AppEvent>)
    requires AppInv(a)
    ensures AppInv(AppRun(a, evs))
    decreases |evs|
  {
    if |evs| > 0 {
      AppStepPreservesInv(a, evs[0]);
      AppRunPreservesInv(AppStep(a, evs[0]), evs[1..]);
    }
  }

  lemma InitAppInv()
    ensures AppInv(InitApp)
  {
    WakeUpScreen.InitInv();
  }

  lemma ReachableGuarantees(a: AppState, evs: seq<AppEvent>)
    requires AppInv(a)
    ensures |Content(AppRun(a, evs).activeSection)| == 1
    ensures AppRun(a, evs).screen.wakeCalls <= 1
    ensures AppRun(a, evs).showWakeUp <==> AppRun(a, evs).screen.wakeCalls == 0
  {
    AppRunPreservesInv(a, evs);
  }

  /** Over any sequence of inputs, exactly one content block is rendered,
      `onWake` runs at most once, and the overlay is shown exactly until it
      has run. */
  lemma PageGuarantees(evs: seq<AppEvent>)
    ensures |Content(AppRun(InitApp, evs).activeSection)| == 1
    ensures AppRun(InitApp, evs).screen.wakeCalls <= 1
    ensures AppRun(InitApp, evs).showWakeUp <==> AppRun(InitApp, evs).screen.wakeCalls == 0
  {
    InitAppInv();
    ReachableGuarantees(InitApp, evs);
  }
}
