/** The list-a-property wizard (src/pages/ListProperty.tsx): a step counter from 1 to 4 moved by the
    Previous and Next buttons, and the progress indicator drawn from it. */
module ListingWizard {

  /** The last step; on it the Next button is replaced by Publish. */
  const LastStep: int := 4

  /** The step counter's range. */
  predicate InRange(step: int)
  {
    1 <= step <= LastStep
  }

  /** `Math.max(1, step - 1)`: one step back, never below the first. */
  function PreviousStep(step: int): (r: int)
    requires InRange(step)
    ensures InRange(r)
    ensures step == 1 ==> r == step
    ensures step > 1 ==> r + 1 == step
  {
    if step - 1 > 1 then step - 1 else 1
  }

  /** The Next button is rendered only before the last step. */
  predicate NextShown(step: int)
  {
    step < LastStep
  }

  /** `step + 1`, reachable only through the Next button. */
  function NextStep(step: int): (r: int)
    requires InRange(step) && NextShown(step)
    ensures InRange(r) && r == step + 1
  {
    step + 1
  }

  /** The Previous button is disabled on the first step, exactly where clicking it would not move
      the wizard. */
  predicate PreviousDisabled(step: int): (r: bool)
    requires InRange(step)
    ensures r <==> PreviousStep(step) == step
  {
    step == 1
  }

  /** Progress circle `n` is filled when the wizard has reached it. */
  predicate CircleFilled(step: int, n: int)
  {
    step >= n
  }

  /** The connector after circle `n` (there is one for n = 1, 2, 3) is filled once the wizard is
      past circle `n`. */
  predicate ConnectorFilled(step: int, n: int)
    requires 1 <= n < LastStep
  {
    step > n
  }

  /** Previous undoes Next, and Next undoes Previous from any step but the first. */
  lemma BackAndForth(step: int)
    requires InRange(step)
    ensures step > 1 ==> NextShown(PreviousStep(step)) && NextStep(PreviousStep(step)) == step
    ensures NextShown(step) ==> PreviousStep(NextStep(step)) == step
  {
  }

  /** The filled circles are exactly the first `step` ones, and connector n is filled exactly when
      circle n + 1 is. */
  lemma ProgressIndicator(step: int)
    requires InRange(step)
    ensures forall n :: 1 <= n <= LastStep ==> (CircleFilled(step, n) <==> n <= step)
    ensures forall n :: 1 <= n < LastStep ==> (ConnectorFilled(step, n) <==> CircleFilled(step, n + 1))
    ensures |set n | 1 <= n <= LastStep && CircleFilled(step, n)| == step
  {
    var filled := set n | 1 <= n <= LastStep && CircleFilled(step, n);
    if step == 1 {
      assert filled == {1};
    } else if step == 2 {
      assert filled == {1, 2};
    } else if step == 3 {
      assert filled == {1, 2, 3};
    } else {
      assert filled == {1, 2, 3, 4};
    }
  }

  /** The page's `step` state. */
  class Wizard {
    var step: int

    ghost predicate Valid()
      reads this
    {
      InRange(step)
    }

    /** `useState(1)`. */
    constructor ()
      ensures Valid() && step == 1
    {
      step := 1;
    }

    /** The Previous button. Clicking it on the first step (where it is disabled) changes nothing. */
    method Previous()
      requires Valid()
      modifies this
      ensures Valid()
      ensures step == PreviousStep(old(step))
      ensures old(step) == 1 ==> step == old(step)
    {
      var back := step - 1;
      if back < 1 {
        back := 1;
      }
      step := back;
    }

    /** The Next button, which exists only while `step < 4`. */
    method Next()
      requires Valid() && NextShown(step)
      modifies this
      ensures Valid()
      ensures step == NextStep(old(step)) && step == old(step) + 1
    {
      step := step + 1;
    }

    /** Whether the Publish button stands where Next would. */
    function PublishShown(): (r: bool)
      reads this
      requires Valid()
      ensures r <==> step == LastStep
    {
      !NextShown(step)
    }
  }

  /** The step after a sequence of clicks: `true` is the right-hand button (Next, or on the last
      step Publish, which has no handler and leaves the step alone), `false` is Previous. Whatever
      the clicks, the counter stays in range and moves by at most one per click. */
  function Run(step: int, clicks: seq<bool>): (r: int)
    requires InRange(step)
    ensures InRange(r)
    ensures r <= step + |clicks|
    ensures r >= step - |clicks|
    decreases |clicks|
  {
    if clicks == [] then step
    else if clicks[0] then
      (if NextShown(step) then Run(NextStep(step), clicks[1..]) else Run(step, clicks[1..]))
    else Run(PreviousStep(step), clicks[1..])
  }
}
