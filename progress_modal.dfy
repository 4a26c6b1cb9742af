// The step classifier and the "View Timeline" condition of
// web/src/components/home/analysis-progress-modal.tsx.
module ProgressModal {
  import opened Common

  /** The three step keys in display order. */
  const StepOrder: seq<string> := ["preparing", "analyzing", "ready"]

  datatype StepStatus = Done | Active | Pending

  /** `order.indexOf(key)`: the position of the key, or -1. A current step
      that is `undefined` (None) is found nowhere. */
  function IndexOf(key: Option<string>): (i: int)
    ensures -1 <= i < |StepOrder|
    ensures i >= 0 ==> key == Some(StepOrder[i])
    ensures i == -1 <==> key.None? || key.value !in StepOrder
  {
    if key == Some("preparing") then 0
    else if key == Some("analyzing") then 1
    else if key == Some("ready") then 2
    else -1
  }

  /** getStepStatus: done before the current step, active at it, pending
      after it. */
  function GetStepStatus(stepKey: string, currentStep: Option<string>): (r: StepStatus)
    ensures r == Done <==> IndexOf(Some(stepKey)) < IndexOf(currentStep)
    ensures r == Active <==> IndexOf(Some(stepKey)) == IndexOf(currentStep)
    ensures r == Pending <==> IndexOf(Some(stepKey)) > IndexOf(currentStep)
  {
    var currentIdx := IndexOf(currentStep);
    var stepIdx := IndexOf(Some(stepKey));
    if stepIdx < currentIdx then Done
    else if stepIdx == currentIdx then Active
    else Pending
  }

  /** When the current step is one of the three keys, exactly that step is
      active among the rendered steps. */
  lemma ExactlyOneActive(current: string)
    requires current in StepOrder
    ensures forall k :: k in StepOrder ==> (GetStepStatus(k, Some(current)) == Active <==> k == current)
  {
  }

  /** When the current step is not one of the keys (index -1), every
      rendered step is pending. */
  lemma AllPendingOutsideOrder(current: Option<string>)
    requires current.None? || current.value !in StepOrder
    ensures forall k :: k in StepOrder ==> GetStepStatus(k, current) == Pending
  {
  }

  /** Moving the current step forward never turns a done step back. */
  lemma DoneStaysDone(stepKey: string, before: Option<string>, after: Option<string>)
    requires IndexOf(before) <= IndexOf(after)
    requires GetStepStatus(stepKey, before) == Done
    ensures GetStepStatus(stepKey, after) == Done
  {
  }

  /** JavaScript truthiness of `error` (null and "" are falsy) and of
      `repoId` (null and 0 are falsy). */
  predicate ErrorShown(error: Option<string>)
  {
    error.Some? && error.value != ""
  }

  /** The "View Timeline" button: rendered only in the no-error branch, when
      the step is "ready" and `repoId` is truthy. */
  function OffersViewTimeline(error: Option<string>, step: Option<string>, repoId: Option<int>): (r: bool)
    ensures r <==> !ErrorShown(error) && step == Some("ready") && repoId.Some? && repoId.value != 0
    ensures r ==> GetStepStatus("ready", step) == Active
  {
    !ErrorShown(error) && step == Some("ready") && repoId.Some? && repoId.value != 0
  }
}
