/**
 The splitter page's state and its handlers. The component keeps the before- and
 after-discount totals, the participant rows, the name in the name box and the signed
 amount in the amount box; each handler below changes them as one user action does.
 */
module Page {
  import opened People
  import opened Shares
  import opened Storage

  class Home {
    var totalBefore: real
    var totalAfter: real
    var people: seq<Person>
    var selected: string
    var amountChange: real

    /** The component's first render: everything empty or zero. */
    constructor ()
      ensures totalBefore == 0.0 && totalAfter == 0.0
      ensures people == [] && selected == "" && amountChange == 0.0
    {
      totalBefore, totalAfter := 0.0, 0.0;
      people := [];
      selected, amountChange := "", 0.0;
    }

    /** The mount effect: when something was saved, restore the totals and the rows,
        with every row's `paid` turned into a boolean; otherwise keep the defaults. */
    method Load(saved: Option<SavedState>)
      modifies this
      ensures saved.None? ==> unchanged(this)
      ensures saved.Some? ==>
        totalBefore == saved.value.totalBefore && totalAfter == saved.value.totalAfter &&
        people == Normalize(saved.value.people)
      ensures selected == old(selected) && amountChange == old(amountChange)
    {
      if saved.Some? {
        totalBefore := saved.value.totalBefore;
        totalAfter := saved.value.totalAfter;
        people := Normalize(saved.value.people);
      }
    }

    /** The before-total box; an empty box means zero. */
    method SetTotalBefore(input: Option<real>)
      modifies this
      ensures totalBefore == (if input.None? then 0.0 else input.value)
      ensures totalAfter == old(totalAfter) && people == old(people)
      ensures selected == old(selected) && amountChange == old(amountChange)
    {
      totalBefore := if input.None? then 0.0 else input.value;
    }

    /** The after-total box; an empty box means zero. */
    method SetTotalAfter(input: Option<real>)
      modifies this
      ensures totalAfter == (if input.None? then 0.0 else input.value)
      ensures totalBefore == old(totalBefore) && people == old(people)
      ensures selected == old(selected) && amountChange == old(amountChange)
    {
      totalAfter := if input.None? then 0.0 else input.value;
    }

    /** The name box. */
    method SetSelected(name: string)
      modifies this
      ensures selected == name
      ensures totalBefore == old(totalBefore) && totalAfter == old(totalAfter)
      ensures people == old(people) && amountChange == old(amountChange)
    {
      selected := name;
    }

    /** The signed amount box; an empty box means zero. */
    method SetAmountChange(input: Option<real>)
      modifies this
      ensures amountChange == (if input.None? then 0.0 else input.value)
      ensures totalBefore == old(totalBefore) && totalAfter == old(totalAfter)
      ensures people == old(people) && selected == old(selected)
    {
      amountChange := if input.None? then 0.0 else input.value;
    }

    /** The confirm button. With no name or a zero amount nothing happens. Otherwise
        the rows with the name get the amount added (never going below zero), or a
        new unpaid row is appended, and the amount box is cleared. */
    method HandleAddOrUpdate()
      modifies this
      ensures old(selected) == "" || old(amountChange) == 0.0 ==>
        people == old(people) && amountChange == old(amountChange)
      ensures old(selected) != "" && old(amountChange) != 0.0 ==>
        people == AddOrUpdate(old(people), old(selected), old(amountChange)) &&
        amountChange == 0.0 &&
        forall i :: 0 <= i < |people| && people[i].name == selected ==> people[i].amount >= 0.0
      ensures old(selected) != "" && old(amountChange) != 0.0 && !HasName(old(people), old(selected)) ==>
        people == old(people) + [Person(old(selected), ClampAtZero(old(amountChange)), false)]
      ensures DistinctNames(old(people)) ==> DistinctNames(people)
      ensures totalBefore == old(totalBefore) && totalAfter == old(totalAfter)
      ensures selected == old(selected)
    {
      if selected == "" || amountChange == 0.0 {
        return;
      }
      if DistinctNames(people) {
        AddOrUpdateKeepsDistinct(people, selected, amountChange);
      }
      people := AddOrUpdate(people, selected, amountChange);
      amountChange := 0.0;
    }

    /** The remove button: with a name, every row carrying it is dropped and the rest
        keep their order; with no name nothing happens. */
    method HandleRemoveAllOfPerson()
      modifies this
      ensures old(selected) == "" ==> people == old(people)
      ensures old(selected) != "" ==>
        people == RemoveAll(old(people), old(selected)) && !HasName(people, selected)
      ensures DistinctNames(old(people)) ==> DistinctNames(people)
      ensures totalBefore == old(totalBefore) && totalAfter == old(totalAfter)
      ensures selected == old(selected) && amountChange == old(amountChange)
    {
      if selected == "" {
        return;
      }
      RemoveAllCount(people, selected, selected);
      if DistinctNames(people) {
        RemoveAllKeepsDistinct(people, selected);
      }
      people := RemoveAll(people, selected);
    }

    /** The paid switch of a row: flips `paid` on every row with that name. */
    method TogglePaidOf(name: string)
      modifies this
      ensures people == TogglePaid(old(people), name)
      ensures SumAmounts(people) == SumAmounts(old(people))
      ensures DistinctNames(old(people)) ==> DistinctNames(people)
      ensures totalBefore == old(totalBefore) && totalAfter == old(totalAfter)
      ensures selected == old(selected) && amountChange == old(amountChange)
    {
      SameNamesKeepDistinct(people, TogglePaid(people, name));
      TogglePaidKeepsTotals(people, name, totalBefore, totalAfter);
      people := TogglePaid(people, name);
    }

    /** The amount cell of row `index`: that row's amount becomes the typed value. */
    method SetRowAmount(index: nat, newAmount: real)
      modifies this
      ensures people == SetAmountAt(old(people), index, newAmount)
      ensures index < |old(people)| ==>
        SumAmounts(people) == SumAmounts(old(people)) - old(people)[index].amount + newAmount
      ensures index >= |old(people)| ==> people == old(people)
      ensures DistinctNames(old(people)) ==> DistinctNames(people)
      ensures totalBefore == old(totalBefore) && totalAfter == old(totalAfter)
      ensures selected == old(selected) && amountChange == old(amountChange)
    {
      SameNamesKeepDistinct(people, SetAmountAt(people, index, newAmount));
      if index < |people| {
        SumAmountsSetAt(people, index, newAmount);
      }
      people := SetAmountAt(people, index, newAmount);
    }

    /** The clear button, once confirmed: both totals go to zero and the rows are
        dropped; the two input boxes keep what they hold. */
    method ResetAll()
      modifies this
      ensures totalBefore == 0.0 && totalAfter == 0.0 && people == []
      ensures selected == old(selected) && amountChange == old(amountChange)
    {
      totalBefore := 0.0;
      totalAfter := 0.0;
      people := [];
    }

    /** The summary panel: the bill's discount, the purchase total and the payable
        total (the sum of the shares as displayed). When the rows add up to the
        before total, the payable total is the after total to within half a cent
        per row. */
    method Totals() returns (discount: real, purchased: real, payable: real)
      ensures discount + totalAfter == totalBefore
      ensures purchased == SumAmounts(people)
      ensures payable == SumDisplayedShares(people, totalBefore, totalAfter)
      ensures totalBefore == 0.0 ==> payable == 0.0
      ensures totalBefore != 0.0 && purchased == totalBefore ==>
        -(|people| as real) / 200.0 <= payable - totalAfter <= (|people| as real) / 200.0
    {
      discount := TotalDiscount(totalBefore, totalAfter);
      purchased := SumAmounts(people);
      payable := SumDisplayedShares(people, totalBefore, totalAfter);
      DisplayedTotalNearAfter(people, totalBefore, totalAfter);
    }
  }
}
