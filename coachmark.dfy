/**
 * The coachmark overlay: `steps.map` renders a teaching bubble for the step whose number
 * equals the current one, and nothing for every other step.
 */
module Coachmark {
  import opened Wrappers
  import opened TourData
  import opened Navigation

  /** What the teaching bubble shows and which of its buttons it offers. */
  datatype Bubble = Bubble(
    headline: string,
    stepNumber: int,
    stepCount: int,
    details: string,
    instructions: Option<string>,
    hasPrev: bool,
    hasNext: bool,
    hasCloseIcon: bool)

  /** The bubble rendered for `step`: Prev and Next behind the same guards as the side pane, a close icon outside fullscreen. */
  function BubbleFor(s: TourState, step: Step): (r: Bubble)
    ensures r.headline == step.stepName && r.stepNumber == step.stepNumber
    ensures step == s.currentStep ==> (r.hasPrev <==> ShowBack(s)) && (r.hasNext <==> ShowNext(s))
    ensures r.hasCloseIcon <==> !s.fullscreenMode
  {
    Bubble(step.stepName, step.stepNumber, s.currentTour.stepCount, step.stepDetails,
           step.stepInstructions, step.stepNumber > 1, step.stepNumber < s.currentTour.stepCount,
           !s.fullscreenMode)
  }

  /** The `steps.map`: one slot per step, a bubble where the step numbers match. */
  function CoachmarkSlots(s: TourState): (r: seq<Option<Bubble>>)
    ensures |r| == |s.currentTour.steps|
  {
    seq(|s.currentTour.steps|, i requires 0 <= i < |s.currentTour.steps| =>
      var step := s.currentTour.steps[i];
      if s.currentStep.stepNumber == step.stepNumber then Some(BubbleFor(s, step)) else None)
  }

  /** The bubbles actually drawn: the slots that hold one, in order. */
  function Rendered(slots: seq<Option<Bubble>>): (r: seq<Bubble>)
    ensures |r| <= |slots|
  {
    if slots == [] then []
    else (if slots[0].Some? then [slots[0].value] else []) + Rendered(slots[1..])
  }

  /** A row of slots with exactly one bubble renders exactly that bubble. */
  lemma {:induction false} RenderedSingle(slots: seq<Option<Bubble>>, j: int)
    requires 0 <= j < |slots| && slots[j].Some?
    requires forall i :: 0 <= i < |slots| && i != j ==> slots[i].None?
    ensures Rendered(slots) == [slots[j].value]
  {
    if j == 0 {
      RenderedNone(slots[1..]);
    } else {
      RenderedSingle(slots[1..], j - 1);
    }
  }

  /** A row of empty slots renders nothing. */
  lemma {:induction false} RenderedNone(slots: seq<Option<Bubble>>)
    requires forall i :: 0 <= i < |slots| ==> slots[i].None?
    ensures Rendered(slots) == []
  {
    if slots != [] {
      RenderedNone(slots[1..]);
    }
  }

  /**
   * In a valid state exactly one coachmark is drawn, for the current step, and its Prev and
   * Next buttons and close icon agree with the side pane's Back and Next guards and the mode.
   */
  lemma {:induction false} ExactlyOneCoachmark(s: TourState)
    requires Valid(s)
    ensures Rendered(CoachmarkSlots(s)) == [BubbleFor(s, s.currentStep)]
    ensures BubbleFor(s, s.currentStep).headline == s.currentStep.stepName
    ensures BubbleFor(s, s.currentStep).hasPrev == ShowBack(s)
    ensures BubbleFor(s, s.currentStep).hasNext == ShowNext(s)
    ensures BubbleFor(s, s.currentStep).hasCloseIcon == !s.fullscreenMode
  {
    ValidBounds(s);
    var slots := CoachmarkSlots(s);
    var j := s.currentStep.stepNumber - 1;
    assert slots[j] == Some(BubbleFor(s, s.currentStep));
    RenderedSingle(slots, j);
  }
}
