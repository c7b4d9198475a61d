# Wake-up overlay, flip cards and section selector of a portfolio page

This project models the interactive state of a single-page portfolio site
written in React. The site has no data processing. Its logic is made of
three small state machines:

- **WakeUpScreen** (`WakeUpScreen.dfy`). A full-screen overlay that says
  "TAP TWICE TO WAKE UP". It has two pieces of state, `tapCount` and
  `isWaking`, plus an effect that runs after each change of either one:
  - The effect first runs the previous cleanup, which clears the pending
    500 ms reset timeout.
  - With one tap it arms a new reset timeout.
  - With two or more taps, when not yet waking, it sets `isWaking`, tries
    the boot sound once, and arms a 1500 ms timeout that calls `onWake`.

  Timeouts are flags or counters that explicit events fire; no clock is
  modelled. `onWake` invocations are counted. This turns "at most once"
  and "taps are frozen while waking" into lemmas over arbitrary event
  sequences.
- **ProjectCard** (`ProjectCard.dfy`). A card that flips on click, but only
  when its optional `listItems` prop is present. The test is JavaScript
  truthiness, so an empty list still enables flipping.
- **App** (`App.dfy`). The host page. It holds `activeSection` (a string,
  initially `"HOME"`) and `showWakeUp`. A navigation click stores the
  button's label. The content area renders one block per section whose
  name equals the active one. The `onWake` callback hides the overlay,
  which unmounts it.

Modelling choices that follow the code:

- The effect re-runs only when `tapCount` or `isWaking` actually changed,
  as React skips an update to an equal value. The re-run caused by
  `setIsWaking(true)` inside the effect is not modelled separately.
  `EffectIdempotent` proves that such a re-run changes nothing.
- A browser double-click raises click, click, dblclick. The second click
  commits a render with `tapCount == 2`, and its effect queues
  `setIsWaking(true)` (src/App.tsx:40-45). The dblclick handler reads
  `isWaking` from the render the second click produced, where it is still
  false, so it adds a third tap (src/App.tsx:51-52, 60-61). The model
  takes the queued `setIsWaking(true)` to be rendered no later than that
  third tap. The event `ClickAndDoubleClick` stands for the second click
  and the dblclick together: the count rises by two, and one effect run
  sees the result. This is how `tapCount` reaches 3.
- The cleanup clears only the timeout stored in `timer` (src/App.tsx:47).
  The wake timeout set at src/App.tsx:43 is never stored there, so
  unmounting does not cancel it. The model follows the code: `OnUnmount`
  keeps `wakePending`, and `UnmountKeepsWakeTimer` shows that `onWake`
  still runs afterwards.

## Model

| member | source | states |
|---|---|---|
| WakeUpScreen.Effect | src/App.tsx:36-48 | after the cleanup a reset timeout is pending exactly when `tapCount` is 1; the component is waking exactly when it already was or has at least two taps; a wake timeout and a boot sound are added exactly when waking starts; the effect never changes `tapCount` |
| WakeUpScreen.OnTap | src/App.tsx:50-54 | a tap while waking (or after unmount) changes nothing; otherwise `tapCount` rises by exactly one; the first tap arms the reset; a later tap cancels the reset, starts waking and arms exactly one wake timeout |
| WakeUpScreen.OnClickAndDoubleClick | src/App.tsx:50-61 | click and dblclick handled together raise the count by two, which can reach 3, yet arm exactly one wake timeout and one boot sound; ignored while waking |
| WakeUpScreen.OnResetFires | src/App.tsx:38-39 | a pending reset sets `tapCount` to 0 and leaves `isWaking` and the wake timers alone; a cancelled reset does nothing |
| WakeUpScreen.OnWakeFires | src/App.tsx:43-45 | a pending wake timeout calls `onWake` once and consumes itself, whether or not the overlay is mounted; it changes no React state |
| WakeUpScreen.OnUnmount | src/App.tsx:43-47 | the final cleanup clears the reset timeout only; pending wake timeouts survive |
| WakeUpScreen.Step | src/App.tsx:36-61 | `isWaking` never goes back to false; `onWake` is called at most once per event and only by `WakeFires`; no event cancels a wake timeout; only `Unmount` unmounts |
| WakeUpScreen.Run | src/App.tsx:36-61 | over an event sequence `isWaking` stays set once set and `onWake` calls never decrease |
| WakeUpScreen.EffectIdempotent | src/App.tsx:40-41 | running the effect again on its own result changes nothing, so the re-run provoked by `setIsWaking(true)` is a no-op |
| WakeUpScreen.StepPreservesInv | src/App.tsx:36-54 | every event keeps the invariant: waking exactly when `tapCount` >= 2, `tapCount` <= 3, reset pending exactly when mounted with one tap, one wake timeout or call and one boot sound exactly when waking |
| WakeUpScreen.InitInv | src/App.tsx:5-6 | the mount state satisfies the invariant |
| WakeUpScreen.RunPreservesInv | src/App.tsx:36-54 | the invariant holds after any event sequence |
| WakeUpScreen.ReachableWakesAtMostOnce | src/App.tsx:40-45 | from any state satisfying the invariant, no event sequence calls `onWake` or the boot sound more than once in total |
| WakeUpScreen.WakeAtMostOnce | src/App.tsx:40-45 | over any event sequence after mount, `onWake` is called at most once and the boot sound tried at most once |
| WakeUpScreen.FrozenWhileWaking | src/App.tsx:50-54 | once waking, no event sequence changes `tapCount`, clears `isWaking`, replays the sound or arms another wake timeout |
| WakeUpScreen.TapWhileWaking | src/App.tsx:50-54 | a tap or click pair while waking leaves the whole state unchanged |
| WakeUpScreen.WakeFiresExactlyOnce | src/App.tsx:43-45 | after waking starts exactly one wake timeout is pending; firing it calls `onWake`, and nothing afterwards calls it again |
| WakeUpScreen.SecondTapCancelsReset | src/App.tsx:37-47 | a second tap clears the pending reset, so a later `ResetFires` is a no-op |
| WakeUpScreen.ResetUndoesSingleTap | src/App.tsx:38-39 | a single tap followed by its reset returns the overlay to its previous state |
| WakeUpScreen.UnmountKeepsWakeTimer | src/App.tsx:43-47 | unmounting keeps a pending wake timeout, which still calls `onWake` afterwards |
| WakeUpScreen.QuickDoubleTapWakes | src/App.tsx:36-54 | two taps inside the reset window start waking with one wake timeout, and firing it calls `onWake` once |
| WakeUpScreen.DoubleClickArmsOneTimer | src/App.tsx:36-61 | a click followed by the second click and its dblclick yields `tapCount` 3 with exactly one wake timeout and one boot sound |
| WakeUpScreen.SlowTapsDoNotWake | src/App.tsx:38-39 | a tap, its reset, and another tap give the same state as one tap: no waking |
| WakeUpScreen.ProcessEvents | src/App.tsx:50-61 | the event loop computes the same state as `Run` from mount, satisfying the invariant, with at most one `onWake` call |
| ProjectCard.HandleFlip | src/App.tsx:207-211 | the face changes exactly when `listItems` is present (even if empty); the list is untouched |
| ProjectCard.Clicks | src/App.tsx:207-216 | clicking any number of times never changes the list |
| ProjectCard.FlipTwice | src/App.tsx:207-211 | two flips restore the card |
| ProjectCard.FlipWithoutListIsNoOp | src/App.tsx:208 | without `listItems` a flip changes nothing |
| ProjectCard.ClicksParity | src/App.tsx:207-216 | after n clicks the card is flipped exactly when it has a list and n is odd relative to the starting face |
| ProjectCard.NewCardClicks | src/App.tsx:201-216 | a fresh card (`useState(false)`) shows its back after n clicks exactly when it has a list and n is odd |
| App.Label | src/App.tsx:518-521 | each navigation button carries its entry of the nav list; only the first is "HOME" |
| App.Content | src/App.tsx:543-597 | at most one block is rendered; exactly one for each nav label; the home block exactly for "HOME" and the favourites block exactly for "FAVOURITES" |
| App.SelectSection | src/App.tsx:518-521 | a click sets `activeSection` to exactly the clicked label, leaves the overlay alone, and exactly one block is then rendered |
| App.OnOverlayEvent | src/App.tsx:494-496 | the overlay is hidden exactly when the event makes it call `onWake`; once hidden it stays hidden, and it is unmounted; the section is untouched |
| App.AppRun | src/App.tsx:431-433 | once the overlay is dismissed it never comes back |
| App.AppStepPreservesInv | src/App.tsx:431-433 | every input keeps the page invariant: overlay invariant, active section a nav label, overlay shown exactly while mounted and exactly while `onWake` has not run |
| App.AppRunPreservesInv | src/App.tsx:431-433 | the page invariant holds after any input sequence |
| App.InitAppInv | src/App.tsx:432-433 | the page starts in a state satisfying the invariant |
| App.ReachableGuarantees | src/App.tsx:494-571 | from any state satisfying the invariant, exactly one block is rendered, `onWake` runs at most once, and the overlay shows exactly until it has run |
| App.PageGuarantees | src/App.tsx:494-571 | the same three guarantees over any input sequence from page load |

## Left out

- `playBootSound` (src/App.tsx:8-34) uses the Web Audio API with floating-point frequency and gain ramps, and it swallows its own errors. It is modelled only as a call counter (`bootSounds`). No field of the state depends on its outcome, so an audio failure cannot affect waking or `onWake`.
- `MatrixRain`, the SVG logos, the HUD and corner decorations, and the CSS class strings: these are presentation only, and `MatrixRain` depends on `Math.random`. The eyelid and fade classes derive from `isWaking` alone.
- The hard-coded project lists: a card is modelled with an arbitrary optional list.
- React render-cycle details are abstracted away: a new `onWake` closure identity on each parent render, StrictMode double effects, batching and update priorities. The click-and-dblclick pair is modelled as one event, `ClickAndDoubleClick`, under the ordering assumption stated for `WakeAtMostOnce` below.
- The 500 ms and 1500 ms delays are not modelled as time. They are pending timers fired by explicit events, so any interleaving of taps and timer firings is covered.
- The overlay covers the navigation bar while it is shown. The model still accepts navigation clicks then. This is a superset of the page's behaviour, and none of the proved properties depends on it.
- An `Unmount` input aimed at the overlay is ignored by `OnOverlayEvent`, because the page unmounts the overlay only through `onWake`.
- WakeAtMostOnce: this result, and every result about `ClickAndDoubleClick`, assumes that the `setIsWaking(true)` the effect queues is rendered no later than the next tap's update. A scheduler could instead render the dblclick's update first. The guard at src/App.tsx:40 would then see `tapCount == 3` with `isWaking` still false, arm a second wake timeout and play the boot sound again. That ordering depends on the React version and root mode, neither of which is part of this model.
