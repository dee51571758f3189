/** The five-step wizard: which step is shown, the gate on the Next button, the slide
    direction and the jump forward when the wizard opens on a bill that is already partly
    entered. */
module BillWizard {
  import opened Bill
  import PeopleStep
  import ItemsStep
  import AssignmentStep

  /** `WizardStep`; `AssignItems` is the `assignment` step. */
  datatype Step = People | Items | AssignItems | TaxTip | Results

  /** `STEPS`, in order. */
  const Steps: seq<Step> := [People, Items, AssignItems, TaxTip, Results]

  /** `STEPS.indexOf(step)`. */
  function StepIndex(step: Step): (i: nat)
    ensures i < |Steps| && Steps[i] == step
    ensures forall j :: 0 <= j < |Steps| && Steps[j] == step ==> j == i
  {
    match step
    case People => 0
    case Items => 1
    case AssignItems => 2
    case TaxTip => 3
    case Results => 4
  }

  /** `canProceed[step]`: the table of gates on the Next button. */
  predicate CanProceed(step: Step, people: seq<Person>, items: seq<Item>, assignments: map<string, Assignment>)
  {
    match step
    case People => PeopleStep.CanProceedFromPeople(people)
    case Items => ItemsStep.CanProceedFromItems(items)
    case AssignItems => AssignmentStep.SomeoneAssigned(assignments)
    case TaxTip => true
    case Results => true
  }

  /** Computes the gate of the step shown, the assignment gate by its own walk. */
  method Gate(step: Step, people: seq<Person>, items: seq<Item>, assignments: map<string, Assignment>)
    returns (b: bool)
    ensures b <==> CanProceed(step, people, items, assignments)
  {
    match step
    case People =>
      b := |people| >= 2;
    case Items =>
      b := |items| >= 1;
    case AssignItems =>
      b := AssignmentStep.CanProceedFromAssignment(items, assignments);
    case TaxTip =>
      b := true;
    case Results =>
      b := true;
  }

  /** The step after `step`; the last step has none and stays. */
  function Next(step: Step): (r: Step)
    ensures step != Results ==> StepIndex(r) == StepIndex(step) + 1
    ensures step == Results ==> r == Results
  {
    if StepIndex(step) < |Steps| - 1 then Steps[StepIndex(step) + 1] else step
  }

  /** The step before `step`; the first step has none and stays. */
  function Back(step: Step): (r: Step)
    ensures step != People ==> StepIndex(r) + 1 == StepIndex(step)
    ensures step == People ==> r == People
  {
    if StepIndex(step) > 0 then Steps[StepIndex(step) - 1] else step
  }

  /** Back undoes Next and Next undoes Back, away from the ends. */
  lemma BackUndoesNext(step: Step)
    ensures step != Results ==> Back(Next(step)) == step
    ensures step != People ==> Next(Back(step)) == step
  {
  }

  /** Going forward from the first step reaches every step in order: after `k` steps forward
      the wizard is at index `k`, and then stays at the last. */
  function Forward(step: Step, k: nat): Step
  {
    if k == 0 then step else Next(Forward(step, k - 1))
  }

  lemma {:induction false} ForwardFromStart(k: nat)
    ensures StepIndex(Forward(People, k)) == if k < |Steps| then k else |Steps| - 1
  {
    if k > 0 {
      ForwardFromStart(k - 1);
    }
  }

  /** `hasAssignments` of the opening effect: some listed item has an assignment with people. */
  predicate HasAssignments(items: seq<Item>, assignments: map<string, Assignment>)
  {
    exists i :: 0 <= i < |items| && items[i].id in assignments && |assignments[items[i].id].personIds| > 0
  }

  /** The step the opening effect jumps to from `People`. */
  function OpeningStep(people: seq<Person>, items: seq<Item>, assignments: map<string, Assignment>): (r: Step)
    ensures r != Results
  {
    if |people| >= 2 && |items| >= 1 && HasAssignments(items, assignments) then TaxTip
    else if |people| >= 2 && |items| >= 1 then AssignItems
    else if |people| >= 2 then Items
    else People
  }

  /** The jump never passes a closed gate: every step before the one it lands on could have
      been left by Next. */
  lemma OpeningStepPassesGates(people: seq<Person>, items: seq<Item>, assignments: map<string, Assignment>, j: nat)
    requires j < StepIndex(OpeningStep(people, items, assignments))
    ensures CanProceed(Steps[j], people, items, assignments)
  {
    var r := OpeningStep(people, items, assignments);
    if r == TaxTip && j == 2 {
      var i :| 0 <= i < |items| && items[i].id in assignments && |assignments[items[i].id].personIds| > 0;
      assert items[i].id in assignments;
    }
  }

  /** The jump goes as far as the gates allow, short of the tax and tip step: the step it
      lands on has a closed gate, except when the only assignments with people are for items
      not on the list. */
  lemma OpeningStepStopsAtClosedGate(people: seq<Person>, items: seq<Item>, assignments: map<string, Assignment>)
    requires OpeningStep(people, items, assignments) != TaxTip
    requires forall k :: k in assignments ==> k in ItemIds(items)
    ensures !CanProceed(OpeningStep(people, items, assignments), people, items, assignments)
  {
  }

  /** The wizard's own state. */
  class Wizard {
    var currentStep: Step
    /** 1 for a forward slide, -1 for a backward one. */
    var direction: int

    constructor ()
      ensures currentStep == People && direction == 1
    {
      currentStep := People;
      direction := 1;
    }

    /** The effect run once when the wizard opens. */
    method Open(people: seq<Person>, items: seq<Item>, assignments: map<string, Assignment>)
      modifies this
      requires currentStep == People
      ensures currentStep == OpeningStep(people, items, assignments) && direction == old(direction)
    {
      var hasAssignments := false;
      for i := 0 to |items|
        invariant hasAssignments <==> HasAssignments(items[..i], assignments)
      {
        var item := items[i];
        if item.id in assignments && |assignments[item.id].personIds| > 0 {
          hasAssignments := true;
        }
        assert items[..i + 1][i] == item;
        assert forall j :: 0 <= j < i ==> items[..i + 1][j] == items[..i][j];
      }
      assert items[..|items|] == items;
      if |people| >= 2 && |items| >= 1 && hasAssignments {
        currentStep := TaxTip;
      } else if |people| >= 2 && |items| >= 1 {
        currentStep := AssignItems;
      } else if |people| >= 2 {
        currentStep := Items;
      }
    }

    /** `handleNext`: nothing while the gate is closed; otherwise forward, unless already on
        the last step. */
    method HandleNext(people: seq<Person>, items: seq<Item>, assignments: map<string, Assignment>)
      modifies this
      ensures !CanProceed(old(currentStep), people, items, assignments) || old(currentStep) == Results ==>
        currentStep == old(currentStep) && direction == old(direction)
      ensures CanProceed(old(currentStep), people, items, assignments) && old(currentStep) != Results ==>
        currentStep == Next(old(currentStep)) && direction == 1
    {
      var open := Gate(currentStep, people, items, assignments);
      if !open {
        return;
      }
      var currentIndex := StepIndex(currentStep);
      if currentIndex < |Steps| - 1 {
        direction := 1;
        currentStep := Steps[currentIndex + 1];
      }
    }

    /** `handleBack`: back one step, unless already on the first. */
    method HandleBack()
      modifies this
      ensures old(currentStep) == People ==> currentStep == People && direction == old(direction)
      ensures old(currentStep) != People ==> currentStep == Back(old(currentStep)) && direction == -1
    {
      var currentIndex := StepIndex(currentStep);
      if currentIndex > 0 {
        direction := -1;
        currentStep := Steps[currentIndex - 1];
      }
    }
  }
}
