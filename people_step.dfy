/** The people step: the name form, the status line under the list and the gate that lets
    the wizard go on. */
module PeopleStep {
  import opened Text
  import opened Bill
  import Money
  import BillStore

  /** `canProceedFromPeople(people)`: at least two people. */
  predicate CanProceedFromPeople(people: seq<Person>)
  {
    |people| >= 2
  }

  lemma CanProceedFromPeopleExamples(a: Person, b: Person, c: Person)
    ensures !CanProceedFromPeople([]) && !CanProceedFromPeople([a])
    ensures CanProceedFromPeople([a, b]) && CanProceedFromPeople([a, b, c])
  {
  }

  /** The status line: what is still missing, or how many people there are. */
  function StatusMessage(count: nat): (s: string)
    ensures count == 0 ==> s == "Add at least 2 people to continue"
    ensures count == 1 ==> s == "Add 1 more person to continue"
    ensures count >= 2 ==> s == Money.Decimal(count) + " people added"
  {
    if count == 0 then "Add at least 2 people to continue"
    else if count == 1 then "Add 1 more person to continue"
    else Money.Decimal(count) + " people added"
  }

  /** The line reports a count exactly when the gate is open, and the count it reports is
      the number of people. */
  lemma StatusMessageMatchesGate(people: seq<Person>)
    ensures CanProceedFromPeople(people) <==> StatusMessage(|people|)[0] != 'A'
    ensures CanProceedFromPeople(people) ==>
      var s := StatusMessage(|people|);
      var k := |s| - |" people added"|;
      0 < k && (forall i :: 0 <= i < k ==> Money.IsDigit(s[i])) && Money.DecimalValue(s[..k]) == |people|
  {
    var n := |people|;
    if n >= 2 {
      var digits := Money.Decimal(n);
      var s := StatusMessage(n);
      assert s[..|digits|] == digits;
      Money.DecimalRoundTrip(n);
      assert Money.IsDigit(s[0]);
    }
  }

  /** The name form. */
  class PeopleForm {
    var name: string

    constructor ()
      ensures name == []
    {
      name := [];
    }

    method SetName(value: string)
      modifies this
      ensures name == value
    {
      name := value;
    }

    /** `handleSubmit`: a blank name does nothing; otherwise `addPerson` gets the trimmed
        name (with the id the store would draw) and the input is cleared. */
    method HandleSubmit(store: BillStore.Store, id: string)
      modifies this, store
      ensures Trim(old(name)) == [] ==> name == old(name) && store.Data() == old(store.Data())
      ensures Trim(old(name)) != [] ==>
        name == [] && store.Data() == BillStore.AddPersonTo(old(store.Data()), Trim(old(name)), id)
    {
      var trimmedName := Trim(name);
      if trimmedName == [] {
        return;
      }
      store.AddPerson(trimmedName, id);
      name := [];
    }
  }

  /** The form trims before the store trims again; trimming twice changes nothing, so the
      person added is the one `addPerson` would add for the raw input, and a submit that
      gets past the guard always adds someone. */
  lemma SubmitAddsTrimmedPerson(d: BillData, name: string, id: string)
    requires Trim(name) != []
    ensures BillStore.AddPersonTo(d, Trim(name), id) == BillStore.AddPersonTo(d, name, id)
    ensures BillStore.AddPersonTo(d, Trim(name), id).people == d.people + [Person(id, Trim(name))]
  {
    TrimIdempotent(name);
  }
}
