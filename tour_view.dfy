/**
 * The component's single mutable view-state and the handlers that replace it
 * (`setState({...state, ...})`), each proved against the pure transition in Navigation.
 */
module TourViewModel {
  import opened Wrappers
  import opened TourData
  import opened Navigation

  class TourView {
    var fullscreenMode: bool
    var currentTour: ProgramTour
    var currentStep: Step

    /** The record the component holds in `state`. */
    function State(): TourState
      reads this
    {
      TourState(fullscreenMode, currentTour, currentStep)
    }

    ghost predicate Invariant()
      reads this
    {
      Navigation.Valid(State())
    }

    /** `useState` with the bundled tour: standard mode, first step. */
    constructor (tour: ProgramTour)
      requires WellFormed(tour)
      ensures Invariant() && State() == Initial(tour)
      ensures !fullscreenMode && currentTour == tour && currentStep == tour.steps[0]
      ensures currentStep.stepNumber == 1
    {
      fullscreenMode := false;
      currentTour := tour;
      currentStep := tour.steps[0];
    }

    /** `incrementStep`, reachable only through a Next button, hence under its guard. */
    method IncrementStep()
      requires Invariant() && ShowNext(State())
      modifies this
      ensures Invariant()
      ensures AfterIncrement(old(State())) == Some(State())
      ensures currentStep == old(currentTour.steps[currentStep.stepNumber])
      ensures currentStep.stepNumber == old(currentStep.stepNumber) + 1
      ensures fullscreenMode == old(fullscreenMode) && currentTour == old(currentTour)
    {
      var currentStepNumber := currentStep.stepNumber;
      var nextStep := currentTour.steps[currentStepNumber];
      currentStep := nextStep;
    }

    /** `decrementStep`, reachable only through a Back button, hence under its guard. */
    method DecrementStep()
      requires Invariant() && ShowBack(State())
      modifies this
      ensures Invariant()
      ensures AfterDecrement(old(State())) == Some(State())
      ensures currentStep == old(currentTour.steps[currentStep.stepNumber - 2])
      ensures currentStep.stepNumber == old(currentStep.stepNumber) - 1
      ensures fullscreenMode == old(fullscreenMode) && currentTour == old(currentTour)
    {
      var currentStepNumber := currentStep.stepNumber;
      var nextStep := currentTour.steps[currentStepNumber - 2];
      currentStep := nextStep;
    }

    /** The display-mode button. */
    method ToggleFullscreen()
      modifies this
      ensures State() == AfterToggle(old(State()))
      ensures fullscreenMode == !old(fullscreenMode)
      ensures currentStep == old(currentStep) && currentTour == old(currentTour)
      ensures Invariant() <==> old(Invariant())
    {
      fullscreenMode := !fullscreenMode;
    }

    /**
     * The dropdown's `onChanged` as written: the step at index `key ? key : 1`. `defined` is
     * false when that index lies outside the steps, where the source stores `undefined`; the
     * fields then keep their old values, since a Step cannot hold `undefined`.
     */
    method SelectFromDropdown(key: Option<int>) returns (defined: bool)
      requires Invariant()
      modifies this
      ensures Invariant()
      ensures defined <==> AfterDropdown(old(State()), key).Some?
      ensures defined <==> 0 <= DropdownIndex(key) < currentTour.stepCount
      ensures defined ==> AfterDropdown(old(State()), key) == Some(State())
      ensures defined ==> currentStep.stepNumber == DropdownIndex(key) + 1
      ensures !defined ==> State() == old(State())
      ensures fullscreenMode == old(fullscreenMode) && currentTour == old(currentTour)
    {
      var index := if key.None? || key.value == 0 then 1 else key.value;
      defined := 0 <= index < |currentTour.steps|;
      if defined {
        currentStep := currentTour.steps[index];
      }
    }

    /** The jump the dropdown is meant to perform: to the step numbered k, or nothing and false. */
    method JumpTo(k: int) returns (ok: bool)
      requires Invariant()
      modifies this
      ensures Invariant()
      ensures ok <==> 1 <= k <= currentTour.stepCount
      ensures ok ==> AfterJump(old(State()), k) == Success(State()) && currentStep.stepNumber == k
      ensures !ok ==> AfterJump(old(State()), k) == Failure(OutOfRange) && State() == old(State())
      ensures fullscreenMode == old(fullscreenMode) && currentTour == old(currentTour)
    {
      ok := 1 <= k <= |currentTour.steps|;
      if ok {
        currentStep := currentTour.steps[k - 1];
      }
    }
  }
}
