/**
 The "tap twice to wake up" overlay.

 The component keeps two pieces of React state, `tapCount` and `isWaking`,
 and an effect that runs after every change of either of them. Timers are
 not modelled with a clock: each pending `setTimeout` is a flag (or a count)
 that an explicit event fires.

 - `resetPending` is the 500 ms timeout held in the effect's local `timer`;
   the effect's cleanup clears it.
 - `wakePending` counts armed 1500 ms timeouts that will call `onWake`. They
   are never held in `timer`, so neither the cleanup nor unmounting clears
   them.
 - `wakeCalls` counts the invocations of `onWake`, and `bootSounds` the
   invocations of the best-effort boot sound, whose outcome never reaches
   the state.
 */
module WakeUpScreen {

  datatype WakeState = WakeState(
    tapCount: nat,
    isWaking: bool,
    resetPending: bool,
    wakePending: nat,
    wakeCalls: nat,
    bootSounds: nat,
    mounted: bool
  )

  /** The inputs the overlay reacts to. */
  datatype Event =
    | Tap                  // one click (or one double-click) handled on its own
    | ClickAndDoubleClick  // the second click of a double-click followed by the dblclick it raises
    | ResetFires           // the 500 ms reset timeout runs
    | WakeFires            // the 1500 ms wake timeout runs
    | Unmount              // the overlay is removed from the page

  /** The state at mount: no taps, not waking, no timers; the mount-time
      effect run finds `tapCount == 0` and does nothing. */
  const Init := WakeState(0, false, false, 0, 0, 0, true)

  /** The values the effect depends on (its `onWake` dependency is taken as
      stable). React re-runs the effect only when one of them changed. */
  predicate DepsChanged(before: WakeState, after: WakeState)
  {
    before.tapCount != after.tapCount || before.isWaking != after.isWaking
  }

  /** One run of the effect: first the previous run's cleanup clears the
      reset timeout, then a single tap arms a new one, and two or more taps
      while not yet waking start waking, play the boot sound and arm the
      wake timeout. */
  function Effect(s: WakeState): (r: WakeState)
    ensures r.tapCount == s.tapCount && r.mounted == s.mounted && r.wakeCalls == s.wakeCalls
    ensures r.resetPending <==> s.tapCount == 1
    ensures r.isWaking <==> s.isWaking || s.tapCount >= 2
    ensures r.wakePending == s.wakePending + (if r.isWaking != s.isWaking then 1 else 0)
    ensures r.bootSounds == s.bootSounds + (if r.isWaking != s.isWaking then 1 else 0)
  {
    var cleaned := s.(resetPending := false);
    if cleaned.tapCount == 1 then
      cleaned.(resetPending := true)
    else if cleaned.tapCount >= 2 && !cleaned.isWaking then
      cleaned.(isWaking := true,
               bootSounds := cleaned.bootSounds + 1,
               wakePending := cleaned.wakePending + 1)
    else
      cleaned
  }

  /** Commit a state update: the effect runs when the component is still
      mounted and a dependency changed; otherwise React bails out. */
  function Commit(before: WakeState, after: WakeState): (r: WakeState)
  {
    if after.mounted && DepsChanged(before, after) then Effect(after) else after
  }

  /** `handleTap`: counts a tap only when not waking, then commits. */
  function OnTap(s: WakeState): (r: WakeState)
    ensures s.isWaking || !s.mounted ==> r == s
    ensures s.mounted && !s.isWaking ==> r.tapCount == s.tapCount + 1
    ensures s.mounted && !s.isWaking && s.tapCount == 0 ==> r.resetPending && !r.isWaking
    ensures s.mounted && !s.isWaking && s.tapCount >= 1 ==>
              !r.resetPending && r.isWaking && r.wakePending == s.wakePending + 1
              && r.bootSounds == s.bootSounds + 1
    ensures r.wakeCalls == s.wakeCalls
  {
    if s.mounted && !s.isWaking then
      Commit(s, s.(tapCount := s.tapCount + 1))
    else
      s
  }

  /** `onClick` and `onDoubleClick` both call `handleTap`. The dblclick
      handler reads `isWaking` from the render the second click produced,
      where it is still false, so it adds a third tap. The model takes the
      effect's `setIsWaking(true)` to be rendered together with that third
      tap: the count rises by two and one effect run sees the result. */
  function OnClickAndDoubleClick(s: WakeState): (r: WakeState)
    ensures s.isWaking || !s.mounted ==> r == s
    ensures s.mounted && !s.isWaking ==>
              r.tapCount == s.tapCount + 2 && r.isWaking && !r.resetPending
              && r.wakePending == s.wakePending + 1 && r.bootSounds == s.bootSounds + 1
    ensures r.wakeCalls == s.wakeCalls
  {
    if s.mounted && !s.isWaking then
      Commit(s, s.(tapCount := s.tapCount + 2))
    else
      s
  }

  /** The 500 ms timeout, if still pending, sets `tapCount` to zero. */
  function OnResetFires(s: WakeState): (r: WakeState)
    ensures !s.resetPending ==> r == s
    ensures s.resetPending ==> r.tapCount == 0 && !r.resetPending && r.isWaking == s.isWaking
    ensures r.wakePending == s.wakePending && r.wakeCalls == s.wakeCalls && r.bootSounds == s.bootSounds
  {
    if s.resetPending then
      var fired := s.(resetPending := false);
      Commit(fired, fired.(tapCount := 0))
    else
      s
  }

  /** A pending 1500 ms timeout calls `onWake`; it runs whether or not the
      overlay is still mounted, and it changes no React state. */
  function OnWakeFires(s: WakeState): (r: WakeState)
    ensures s.wakePending == 0 ==> r == s
    ensures s.wakePending > 0 ==> r.wakeCalls == s.wakeCalls + 1 && r.wakePending + 1 == s.wakePending
    ensures r.tapCount == s.tapCount && r.isWaking == s.isWaking && r.resetPending == s.resetPending
  {
    if s.wakePending > 0 then
      s.(wakePending := s.wakePending - 1, wakeCalls := s.wakeCalls + 1)
    else
      s
  }

  /** Unmounting runs the last cleanup, which clears only the reset timeout. */
  function OnUnmount(s: WakeState): (r: WakeState)
    ensures !r.mounted && !r.resetPending
    ensures r.wakePending == s.wakePending && r.wakeCalls == s.wakeCalls
    ensures r.tapCount == s.tapCount && r.isWaking == s.isWaking
  {
    s.(mounted := false, resetPending := false)
  }

  /** The invariant of every state reachable from `Init`. Before waking at
      most one tap is counted, nothing has been armed for waking, and a
      reset is pending exactly while one tap waits for its partner. Once
      waking, two or three taps are counted, no reset is pending, and the
      one wake timeout is either pending or has called `onWake`. */
  predicate Inv(s: WakeState)
  {
    if s.isWaking then
      && 2 <= s.tapCount <= 3
      && !s.resetPending
      && s.wakePending + s.wakeCalls == 1
      && s.bootSounds == 1
    else
      && s.tapCount <= 1
      && (s.resetPending <==> s.mounted && s.tapCount == 1)
      && s.wakePending == 0 && s.wakeCalls == 0
      && s.bootSounds == 0
  }

  function Step(s: WakeState, e: Event): (r: WakeState)
    ensures s.isWaking ==> r.isWaking
    ensures s.wakeCalls <= r.wakeCalls <= s.wakeCalls + 1
    ensures r.wakeCalls != s.wakeCalls ==> e == WakeFires
    ensures r.mounted == (s.mounted && e != Unmount)
    ensures r.wakePending + r.wakeCalls >= s.wakePending + s.wakeCalls
  {
    match e
    case Tap => OnTap(s)
    case ClickAndDoubleClick => OnClickAndDoubleClick(s)
    case ResetFires => OnResetFires(s)
    case WakeFires => OnWakeFires(s)
    case Unmount => OnUnmount(s)
  }

  /** Apply the events in order. */
  function Run(s: WakeState, es: seq<Event>): (r: WakeState)
    ensures s.isWaking ==> r.isWaking
    ensures r.wakeCalls >= s.wakeCalls
    decreases |es|
  {
    if |es| == 0 then s else Run(Step(s, es[0]), es[1..])
  }

  /** Running the effect a second time on its own result changes nothing, so
      the re-run that `setIsWaking(true)` provokes is a no-op and one effect
      run per committed update is enough. */
  lemma EffectIdempotent(s: WakeState)
    ensures Effect(Effect(s)) == Effect(s)
  {
  }

  /** Every event keeps the invariant. */
  lemma StepPreservesInv(s: WakeState, e: Event)
    requires Inv(s)
    ensures Inv(Step(s, e))
  {
  }

  lemma InitInv()
    ensures Inv(Init)
  {
  }

  lemma {:induction false} RunPreservesInv(s: WakeState, es: seq<Event>)
    requires Inv(s)
    ensures Inv(Run(s, es))
    decreases |es|
  {
    if |es| > 0 {
      StepPreservesInv(s, es[0]);
      RunPreservesInv(Step(s, es[0]), es[1..]);
    }
  }

  lemma ReachableWakesAtMostOnce(s: WakeState, es: seq<Event>)
    requires Inv(s)
    ensures Run(s, es).wakeCalls <= 1
    ensures Run(s, es).bootSounds <= 1
  {
    RunPreservesInv(s, es);
  }

  /** `onWake` runs at most once, and the boot sound plays at most once,
      over any sequence of events after mount. */
  lemma WakeAtMostOnce(es: seq<Event>)
    ensures Run(Init, es).wakeCalls <= 1
    ensures Run(Init, es).bootSounds <= 1
  {
    InitInv();
    ReachableWakesAtMostOnce(Init, es);
  }

  /** Once waking, no event changes `tapCount`, clears `isWaking`, plays the
      sound again or arms another wake timeout. */
  lemma {:induction false} FrozenWhileWaking(s: WakeState, es: seq<Event>)
    requires Inv(s) && s.isWaking
    ensures Run(s, es).tapCount == s.tapCount
    ensures Run(s, es).isWaking
    ensures Run(s, es).bootSounds == s.bootSounds
    ensures Run(s, es).wakeCalls + Run(s, es).wakePending == 1
    decreases |es|
  {
    if |es| > 0 {
      StepPreservesInv(s, es[0]);
      FrozenWhileWaking(Step(s, es[0]), es[1..]);
    }
  }

  /** A tap while waking is ignored outright. */
  lemma TapWhileWaking(s: WakeState)
    requires s.isWaking
    ensures Step(s, Tap) == s && Step(s, ClickAndDoubleClick) == s
  {
  }

  /** Once waking has started and `onWake` has not run yet, exactly one
      wake timeout is pending and firing it calls `onWake`; nothing after
      that calls it again. */
  lemma {:induction false} WakeFiresExactlyOnce(s: WakeState, es: seq<Event>)
    requires Inv(s) && s.isWaking && s.wakeCalls == 0
    ensures s.wakePending == 1
    ensures Step(s, WakeFires).wakeCalls == 1
    ensures Run(Step(s, WakeFires), es).wakeCalls == 1
  {
    FrozenWhileWaking(Step(s, WakeFires), es);
  }

  /** A second tap before the reset timeout fires cancels it: the later
      `ResetFires` finds nothing to run. */
  lemma SecondTapCancelsReset(s: WakeState)
    requires Inv(s) && s.mounted && s.tapCount == 1
    ensures !Step(s, Tap).resetPending
    ensures Step(Step(s, Tap), ResetFires) == Step(s, Tap)
  {
  }

  /** A single tap whose reset timeout then fires returns the overlay to the
      state it was in before the tap. */
  lemma ResetUndoesSingleTap(s: WakeState)
    requires Inv(s) && s.mounted && s.tapCount == 0
    ensures Step(s, Tap).resetPending
    ensures Step(Step(s, Tap), ResetFires) == s
  {
  }

  /** Unmounting leaves a pending wake timeout in place, so it still calls
      `onWake` afterwards. */
  lemma UnmountKeepsWakeTimer(s: WakeState)
    requires s.wakePending > 0
    ensures Step(s, Unmount).wakePending == s.wakePending
    ensures Step(Step(s, Unmount), WakeFires).wakeCalls == s.wakeCalls + 1
  {
  }

  /** Two taps inside the reset window wake the overlay, and the wake
      timeout then calls `onWake` once. */
  lemma QuickDoubleTapWakes()
    ensures Run(Init, [Tap, Tap]).isWaking
    ensures Run(Init, [Tap, Tap]).wakePending == 1
    ensures Run(Init, [Tap, Tap, WakeFires]).wakeCalls == 1
  {
  }

  /** A browser double-click (click, click, dblclick) pushes the count to
      three and still arms one wake timeout. */
  lemma DoubleClickArmsOneTimer()
    ensures Run(Init, [Tap, ClickAndDoubleClick]).tapCount == 3
    ensures Run(Init, [Tap, ClickAndDoubleClick]).wakePending == 1
    ensures Run(Init, [Tap, ClickAndDoubleClick]).bootSounds == 1
  {
  }

  /** Two taps separated by the reset are two independent single taps. */
  lemma SlowTapsDoNotWake()
    ensures Run(Init, [Tap, ResetFires, Tap]) == Run(Init, [Tap])
    ensures !Run(Init, [Tap, ResetFires, Tap]).isWaking
  {
  }

  /** The overlay's event loop: applies the events one after another. */
  method ProcessEvents(es: seq<Event>) returns (s: WakeState)
    ensures s == Run(Init, es)
    ensures Inv(s)
    ensures s.wakeCalls <= 1
  {
    s := Init;
    assert es[0..] == es;
    var i := 0;
    while i < |es|
      invariant 0 <= i <= |es|
      invariant Run(s, es[i..]) == Run(Init, es)
      invariant Inv(s)
    {
      assert es[i..][1..] == es[i + 1..];
      StepPreservesInv(s, es[i]);
      s := Step(s, es[i]);
      i := i + 1;
    }
    assert es[i..] == [];
    assert s.wakePending + s.wakeCalls <= 1;
  }
}
