/**
 * The tour view-state (`tourStateProps`) and the state each handler of src/App.tsx
 * computes from it, as pure functions. JavaScript's out-of-range array read is kept:
 * a handler whose index falls outside the steps yields None (an `undefined` step).
 */
module Navigation {
  import opened Wrappers
  import opened TourData

  datatype TourState = TourState(fullscreenMode: bool, currentTour: ProgramTour, currentStep: Step)

  /**
   * The view-state invariant: a well-formed tour, a current step that is one of its steps,
   * and a current step number within 1..stepCount.
   */
  predicate Valid(s: TourState) {
    && WellFormed(s.currentTour)
    && s.currentStep in s.currentTour.steps
    && 1 <= s.currentStep.stepNumber <= s.currentTour.stepCount
  }

  /** Under the invariant the current step sits at position stepNumber - 1 of the tour. */
  lemma ValidBounds(s: TourState)
    requires Valid(s)
    ensures s.currentTour.steps[s.currentStep.stepNumber - 1] == s.currentStep
  {
    StepAtItsNumber(s.currentTour, s.currentStep);
  }

  /** The state the component starts in. */
  function Initial(tour: ProgramTour): (r: TourState)
    requires WellFormed(tour)
    ensures Valid(r) && !r.fullscreenMode && r.currentTour == tour
    ensures r.currentStep.stepNumber == 1
  {
    TourState(false, tour, tour.steps[0])
  }

  /** Render guard of the Back buttons: under the invariant, exactly when index stepNumber - 2 lies in the steps. */
  predicate ShowBack(s: TourState)
    ensures Valid(s) ==> (ShowBack(s) <==> 0 <= s.currentStep.stepNumber - 2 < |s.currentTour.steps|)
  {
    s.currentStep.stepNumber > 1
  }

  /** Render guard of the Next buttons: under the invariant, exactly when index stepNumber lies in the steps. */
  predicate ShowNext(s: TourState)
    ensures Valid(s) ==> (ShowNext(s) <==> 0 <= s.currentStep.stepNumber < |s.currentTour.steps|)
  {
    s.currentStep.stepNumber < s.currentTour.stepCount
  }

  /**
   * `incrementStep`: the step at 0-based index stepNumber. It is defined exactly when the
   * Next guard holds, and then it is the following step.
   */
  function AfterIncrement(s: TourState): (r: Option<TourState>)
    ensures r.Some? ==> r.value.fullscreenMode == s.fullscreenMode && r.value.currentTour == s.currentTour
    ensures Valid(s) ==> (r.Some? <==> ShowNext(s))
    ensures Valid(s) && r.Some? ==>
              Valid(r.value) && r.value.currentStep.stepNumber == s.currentStep.stepNumber + 1
  {
    match Lookup(s.currentTour.steps, s.currentStep.stepNumber)
    case None => None
    case Some(next) => Some(s.(currentStep := next))
  }

  /**
   * `decrementStep`: the step at 0-based index stepNumber - 2. It is defined exactly when the
   * Back guard holds, and then it is the preceding step.
   */
  function AfterDecrement(s: TourState): (r: Option<TourState>)
    ensures r.Some? ==> r.value.fullscreenMode == s.fullscreenMode && r.value.currentTour == s.currentTour
    ensures Valid(s) ==> (r.Some? <==> ShowBack(s))
    ensures Valid(s) && r.Some? ==>
              Valid(r.value) && r.value.currentStep.stepNumber == s.currentStep.stepNumber - 1
  {
    match Lookup(s.currentTour.steps, s.currentStep.stepNumber - 2)
    case None => None
    case Some(prev) => Some(s.(currentStep := prev))
  }

  /** Next then Back returns to the step the user started on. */
  lemma IncrementThenDecrement(s: TourState)
    requires Valid(s) && ShowNext(s)
    ensures AfterIncrement(s).Some?
    ensures AfterDecrement(AfterIncrement(s).value) == Some(s)
  {
    ValidBounds(s);
  }

  /** Back then Next returns to the step the user started on. */
  lemma DecrementThenIncrement(s: TourState)
    requires Valid(s) && ShowBack(s)
    ensures AfterDecrement(s).Some?
    ensures AfterIncrement(AfterDecrement(s).value) == Some(s)
  {
    ValidBounds(s);
  }

  /** The display-mode button: flips fullscreenMode and touches nothing else. */
  function AfterToggle(s: TourState): (r: TourState)
    ensures r.fullscreenMode != s.fullscreenMode
    ensures r.currentStep == s.currentStep && r.currentTour == s.currentTour
    ensures Valid(r) <==> Valid(s)
  {
    s.(fullscreenMode := !s.fullscreenMode)
  }

  /** Pressing the display-mode button twice restores the state. */
  lemma ToggleTwice(s: TourState)
    ensures AfterToggle(AfterToggle(s)) == s
  {
  }

  /** `key ? key : 1` for the number the dropdown hands over; None stands for `undefined`. */
  function DropdownIndex(key: Option<int>): (i: int)
    ensures i != 0
    ensures key.None? || key == Some(0) ==> i == 1
    ensures key.Some? && key.value != 0 ==> i == key.value
  {
    if key.None? || key.value == 0 then 1 else key.value
  }

  /**
   * The dropdown's `onChanged`: the step at 0-based index `key ? key : 1`, defined exactly when
   * that index lies in the steps; it then is the step numbered one more than the index.
   */
  function AfterDropdown(s: TourState, key: Option<int>): (r: Option<TourState>)
    ensures r.Some? ==> r.value.fullscreenMode == s.fullscreenMode && r.value.currentTour == s.currentTour
    ensures r.Some? <==> 0 <= DropdownIndex(key) < |s.currentTour.steps|
    ensures Valid(s) && r.Some? ==>
              Valid(r.value) && r.value.currentStep.stepNumber == DropdownIndex(key) + 1
  {
    match Lookup(s.currentTour.steps, DropdownIndex(key))
    case None => None
    case Some(st) => Some(s.(currentStep := st))
  }

  /**
   * The option the dropdown shows as selected (`selectedKey`): under the invariant a key in
   * 1..stepCount whose 1-based position in the steps holds the current step.
   */
  function SelectedKey(s: TourState): (k: int)
    ensures Valid(s) ==> 1 <= k <= s.currentTour.stepCount && s.currentTour.steps[k - 1] == s.currentStep
  {
    s.currentStep.stepNumber
  }

  /** Whatever number the dropdown hands over, the handler never lands on step 1. */
  lemma DropdownNeverStepOne(s: TourState, key: Option<int>)
    requires Valid(s)
    ensures AfterDropdown(s, key).Some? ==> SelectedKey(AfterDropdown(s, key).value) != 1
  {
  }

  /** A missing or zero key lands on the step numbered 2, never on step 1. */
  lemma DropdownFalsyKey(s: TourState, key: Option<int>)
    requires Valid(s) && 2 <= s.currentTour.stepCount
    requires key.None? || key == Some(0)
    ensures AfterDropdown(s, key).Some?
    ensures AfterDropdown(s, key).value.currentStep.stepNumber == 2
  {
  }

  /** A key k with 1 <= k < stepCount lands on the step numbered k + 1: the selection is off by one. */
  lemma DropdownKeyOffByOne(s: TourState, k: int)
    requires Valid(s) && 1 <= k < s.currentTour.stepCount
    ensures AfterDropdown(s, Some(k)).Some?
    ensures SelectedKey(AfterDropdown(s, Some(k)).value) == k + 1
  {
  }

  /** A key of stepCount or more reads past the end of the steps: the new step is `undefined`. */
  lemma DropdownKeyPastEnd(s: TourState, k: int)
    requires Valid(s) && k >= s.currentTour.stepCount
    ensures AfterDropdown(s, Some(k)) == None
  {
  }

  /**
   * The first option, "Welcome" (key 1, position 0), never shows step 1: whichever of the two
   * numbers the dropdown hands over, the tour moves to step 2.
   */
  lemma FirstOptionMissesStepOne(s: TourState, key: Option<int>)
    requires Valid(s) && 2 <= s.currentTour.stepCount
    requires key == Some(0) || key == Some(1)
    ensures AfterDropdown(s, key).Some?
    ensures SelectedKey(AfterDropdown(s, key).value) == 2
  {
  }

  datatype NavError = OutOfRange

  /**
   * Jump to the option with 1-based key k, as the dropdown's `selectedKey = stepNumber`
   * binding intends: the step numbered k, or OutOfRange outside 1..stepCount.
   */
  function AfterJump(s: TourState, k: int): (r: Result<TourState, NavError>)
    ensures r.Success? <==> 1 <= k <= |s.currentTour.steps|
    ensures r.Success? ==> r.value.fullscreenMode == s.fullscreenMode && r.value.currentTour == s.currentTour
    ensures Valid(s) && r.Success? ==> Valid(r.value) && SelectedKey(r.value) == k
  {
    if 1 <= k <= |s.currentTour.steps| then Success(s.(currentStep := s.currentTour.steps[k - 1]))
    else Failure(OutOfRange)
  }

  /** Jumping to the option the dropdown already shows leaves the state as it is. */
  lemma JumpToSelectedIsIdentity(s: TourState)
    requires Valid(s)
    ensures AfterJump(s, SelectedKey(s)) == Success(s)
  {
    ValidBounds(s);
  }

  /** The user's actions; Jump carries the chosen option's key. */
  datatype Action = Next | Back | ToggleMode | Jump(key: int)

  /**
   * Whether the control for an action is rendered: Back and Next behind their guards, the
   * display-mode button always, the dropdown only outside fullscreen mode.
   */
  predicate Enabled(s: TourState, a: Action)
    ensures Valid(s) && a.Next? ==> (Enabled(s, a) <==> AfterIncrement(s).Some?)
    ensures Valid(s) && a.Back? ==> (Enabled(s, a) <==> AfterDecrement(s).Some?)
    ensures a.Jump? ==> (Enabled(s, a) <==> !s.fullscreenMode)
  {
    match a
    case Next => ShowNext(s)
    case Back => ShowBack(s)
    case ToggleMode => true
    case Jump(_) => !s.fullscreenMode
  }

  /** One user action: an action whose control is not rendered cannot happen and changes nothing. */
  function Dispatch(s: TourState, a: Action): (r: TourState)
    requires Valid(s)
    ensures Valid(r)
    ensures r.currentTour == s.currentTour
    ensures !Enabled(s, a) ==> r == s
  {
    if !Enabled(s, a) then s
    else match a
      case Next => AfterIncrement(s).value
      case Back => AfterDecrement(s).value
      case ToggleMode => AfterToggle(s)
      case Jump(k) =>
        match AfterJump(s, k)
        case Success(t) => t
        case Failure(_) => s
  }

  /** A session: the actions applied one after another. */
  function Run(s: TourState, actions: seq<Action>): (r: TourState)
    requires Valid(s)
    ensures Valid(r)
    ensures r.currentTour == s.currentTour
    ensures 1 <= r.currentStep.stepNumber <= r.currentTour.stepCount
    decreases |actions|
  {
    if actions == [] then s
    else Run(Dispatch(s, actions[0]), actions[1..])
  }

  /** Every state reachable from the initial one keeps the current step within the tour. */
  lemma ReachableStatesValid(tour: ProgramTour, actions: seq<Action>)
    requires WellFormed(tour)
    ensures var r := Run(Initial(tour), actions);
              Valid(r) && r.currentTour == tour && r.currentStep in tour.steps
              && 1 <= r.currentStep.stepNumber <= tour.stepCount
  {
  }

  /** Next at the last step and Back at the first are no-ops. */
  lemma BoundaryNoOps(s: TourState)
    requires Valid(s)
    ensures s.currentStep.stepNumber == s.currentTour.stepCount ==> Dispatch(s, Next) == s
    ensures s.currentStep.stepNumber == 1 ==> Dispatch(s, Back) == s
  {
  }

  /** The keys of the dropdown's options, in the order they are listed. */
  const OptionKeys: seq<int> := [1, 2, 3, 4, 5, 6]

  /**
   * The user's actions against the handlers as written: the dropdown hands `onChanged` a
   * number (None for `undefined`), which the handler uses as `key ? key : 1`.
   */
  datatype Event = NextPressed | BackPressed | ModePressed | OptionChosen(number: Option<int>)

  /** Whether the control for an event is rendered: as for Action, the dropdown only outside fullscreen. */
  predicate EventEnabled(s: TourState, e: Event)
    ensures e.OptionChosen? ==> (EventEnabled(s, e) <==> !s.fullscreenMode)
    ensures e.ModePressed? ==> EventEnabled(s, e)
  {
    match e
    case NextPressed => ShowNext(s)
    case BackPressed => ShowBack(s)
    case ModePressed => true
    case OptionChosen(_) => !s.fullscreenMode
  }

  /**
   * One event handled as written. None is the `undefined` step the dropdown handler can store,
   * after which the next render fails; this happens exactly when the index falls outside the steps.
   */
  function Handle(s: TourState, e: Event): (r: Option<TourState>)
    requires Valid(s)
    ensures r.Some? ==> Valid(r.value) && r.value.currentTour == s.currentTour
    ensures !EventEnabled(s, e) ==> r == Some(s)
    ensures r.None? <==>
              EventEnabled(s, e) && e.OptionChosen? && !(0 <= DropdownIndex(e.number) < |s.currentTour.steps|)
  {
    if !EventEnabled(s, e) then Some(s)
    else match e
      case NextPressed => AfterIncrement(s)
      case BackPressed => AfterDecrement(s)
      case ModePressed => Some(AfterToggle(s))
      case OptionChosen(n) => AfterDropdown(s, n)
  }

  /** A session of the program as written; None once an undefined step has been stored. */
  function Session(s: TourState, events: seq<Event>): (r: Option<TourState>)
    requires Valid(s)
    ensures r.Some? ==> Valid(r.value) && r.value.currentTour == s.currentTour
    decreases |events|
  {
    if events == [] then Some(s)
    else match Handle(s, events[0])
      case None => None
      case Some(t) => Session(t, events[1..])
  }

  /** The number handed over is the option's position (or undefined). */
  predicate ChoosesPosition(e: Event) {
    e.OptionChosen? ==> e.number.None? || 0 <= e.number.value < |OptionKeys|
  }

  /**
   * When the dropdown hands over option positions and the tour has at least as many steps as
   * there are options, every session of the program as written stays defined and valid.
   */
  lemma {:induction false} PositionSessionsDefined(s: TourState, events: seq<Event>)
    requires Valid(s) && |OptionKeys| <= s.currentTour.stepCount
    requires forall i :: 0 <= i < |events| ==> ChoosesPosition(events[i])
    ensures Session(s, events).Some?
    ensures Valid(Session(s, events).value)
    decreases |events|
  {
    if events != [] {
      var e := events[0];
      assert ChoosesPosition(e);
      var t := Handle(s, e);
      assert t.Some?;
      assert forall i :: 0 <= i < |events[1..]| ==> ChoosesPosition(events[1..][i]) by {
        forall i | 0 <= i < |events[1..]| ensures ChoosesPosition(events[1..][i]) {
          assert events[1..][i] == events[i + 1];
        }
      }
      PositionSessionsDefined(t.value, events[1..]);
    }
  }

  /**
   * When the dropdown hands over option keys instead, choosing the last option ("Summary", key 6)
   * on a six-step tour stores an undefined step.
   */
  lemma LastOptionKeyBreaksSession(s: TourState)
    requires Valid(s) && !s.fullscreenMode && s.currentTour.stepCount == |OptionKeys|
    ensures Session(s, [OptionChosen(Some(OptionKeys[|OptionKeys| - 1]))]) == None
  {
  }
}
