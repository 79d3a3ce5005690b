/**
 * The static tour definition: the `IProgramStep` and `IProgramTour` records of
 * src/App.tsx and the shape the bundled tour data is assumed to have.
 */
module TourData {
  import opened Wrappers

  /** One page of the tour. `stepInstructions` is the optional field; `None` is a missing one. */
  datatype Step = Step(
    stepNumber: int,
    stepName: string,
    stepDetails: string,
    stepImageUrl: string,
    coachMarkCoordinates: seq<real>,
    stepInstructions: Option<string>)

  datatype ProgramTour = ProgramTour(title: string, stepCount: int, steps: seq<Step>)

  /**
   * What the bundled tour data must satisfy for the navigation to be sound: at least one
   * step, `stepCount` steps in all, and the step at position i numbered i + 1.
   */
  predicate WellFormed(t: ProgramTour) {
    && 1 <= t.stepCount == |t.steps|
    && forall i :: 0 <= i < |t.steps| ==> t.steps[i].stepNumber == i + 1
  }

  /** JavaScript's `steps[i]` on an array: the element, or `undefined` (None) outside the array. */
  function Lookup(steps: seq<Step>, i: int): (r: Option<Step>)
    ensures r.Some? <==> 0 <= i < |steps|
    ensures r.Some? ==> r.value == steps[i]
  {
    if 0 <= i < |steps| then Some(steps[i]) else None
  }

  /** In a well-formed tour a step's number tells where it stands: 1 <= n <= stepCount and steps[n - 1] is that step. */
  lemma StepAtItsNumber(t: ProgramTour, st: Step)
    requires WellFormed(t) && st in t.steps
    ensures 1 <= st.stepNumber <= t.stepCount
    ensures t.steps[st.stepNumber - 1] == st
  {
    var i :| 0 <= i < |t.steps| && t.steps[i] == st;
    assert st.stepNumber == i + 1;
  }
}
