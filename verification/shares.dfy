/**
 The proportional discount rule of the splitter: a row that bought `amount` out of a
 bill of `totalBefore` pays `amount / totalBefore * totalAfter`, shown rounded to
 cents; the summary panel adds up the amounts and the rounded shares.
 */
module Shares {
  import opened People

  /** `totalDiscount`: what the discount took off the bill. */
  function TotalDiscount(totalBefore: real, totalAfter: real): (d: real)
    ensures totalAfter + d == totalBefore
    ensures d >= 0.0 <==> totalAfter <= totalBefore
  {
    totalBefore - totalAfter
  }

  /** The exact share of `amount`: the bill's after-discount total scaled by the row's
      part of the before-discount total, and nothing when the bill is empty. */
  function Share(amount: real, totalBefore: real, totalAfter: real): (r: real)
    ensures totalBefore == 0.0 ==> r == 0.0
    ensures totalBefore != 0.0 ==> r * totalBefore == amount * totalAfter
  {
    if totalBefore == 0.0 then 0.0 else amount / totalBefore * totalAfter
  }

  /** `x.toFixed(2)` read back as a number: the magnitude goes to the nearest cent,
      a tie to the larger magnitude, and the sign is put back. */
  function RoundCents(x: real): (r: real)
    ensures IsWholeCents(r)
    ensures -1.0 / 200.0 <= r - x <= 1.0 / 200.0
    ensures x >= 0.0 ==> -1.0 / 200.0 < r - x && r >= 0.0
    ensures x < 0.0 ==> r - x < 1.0 / 200.0
  {
    if x < 0.0 then
      var m := RoundMagnitude(-x);
      WholeCentsNegate(m);
      -m
    else RoundMagnitude(x)
  }

  /** A whole number of cents stays whole when negated. */
  lemma WholeCentsNegate(x: real)
    requires IsWholeCents(x)
    ensures IsWholeCents(-x)
  {
    var k := (x * 100.0).Floor;
    assert -x * 100.0 == (-k) as real;
  }

  /** A whole number of cents. */
  predicate IsWholeCents(x: real)
  {
    (x * 100.0).Floor as real == x * 100.0
  }

  /** Rounds a non-negative value to the nearest cent, ties upward. */
  function RoundMagnitude(x: real): (r: real)
    requires x >= 0.0
    ensures IsWholeCents(r) && r >= 0.0
    ensures -1.0 / 200.0 < r - x <= 1.0 / 200.0
  {
    var cents := (x * 100.0 + 0.5).Floor;
    assert cents as real <= x * 100.0 + 0.5 < cents as real + 1.0;
    assert (cents as real / 100.0) * 100.0 == cents as real;
    cents as real / 100.0
  }

  /** `getShare(amount)` as the page shows it and as line 211 reads it back. */
  function DisplayedShare(amount: real, totalBefore: real, totalAfter: real): (r: real)
    ensures totalBefore == 0.0 ==> r == 0.0
    ensures IsWholeCents(r)
    ensures -1.0 / 200.0 <= r - Share(amount, totalBefore, totalAfter) <= 1.0 / 200.0
    ensures Share(amount, totalBefore, totalAfter) >= 0.0 ==> -1.0 / 200.0 < r - Share(amount, totalBefore, totalAfter)
    ensures Share(amount, totalBefore, totalAfter) < 0.0 ==> r - Share(amount, totalBefore, totalAfter) < 1.0 / 200.0
  {
    if totalBefore == 0.0 then 0.0 else RoundCents(Share(amount, totalBefore, totalAfter))
  }

  /** Purchase total: the sum of every row's amount. */
  function SumAmounts(people: seq<Person>): (r: real)
    ensures people == [] ==> r == 0.0
  {
    if people == [] then 0.0 else people[0].amount + SumAmounts(people[1..])
  }

  /** The exact sum of every row's share. */
  function SumShares(people: seq<Person>, totalBefore: real, totalAfter: real): (r: real)
    ensures people == [] || totalBefore == 0.0 ==> r == 0.0
  {
    if people == [] then 0.0
    else Share(people[0].amount, totalBefore, totalAfter) + SumShares(people[1..], totalBefore, totalAfter)
  }

  /** Payable total as the summary panel computes it: the sum of the rounded shares. */
  function SumDisplayedShares(people: seq<Person>, totalBefore: real, totalAfter: real): (r: real)
    ensures people == [] || totalBefore == 0.0 ==> r == 0.0
  {
    if people == [] then 0.0
    else DisplayedShare(people[0].amount, totalBefore, totalAfter) + SumDisplayedShares(people[1..], totalBefore, totalAfter)
  }

  // ---------------------------------------------------------------------------
  // Lemmas
  // ---------------------------------------------------------------------------

  /** With no negative amount, the purchase total is not negative. */
  lemma {:induction false} SumAmountsNonNegative(people: seq<Person>)
    requires forall i :: 0 <= i < |people| ==> people[i].amount >= 0.0
    ensures SumAmounts(people) >= 0.0
  {
    if people != [] {
      assert forall i :: 0 <= i < |people[1..]| ==> people[1..][i] == people[i + 1];
      SumAmountsNonNegative(people[1..]);
    }
  }

  /** The share is linear in the amount. */
  lemma ShareLinear(x: real, y: real, k: real, totalBefore: real, totalAfter: real)
    ensures Share(x + y, totalBefore, totalAfter) == Share(x, totalBefore, totalAfter) + Share(y, totalBefore, totalAfter)
    ensures Share(k * x, totalBefore, totalAfter) == k * Share(x, totalBefore, totalAfter)
  {
    if totalBefore != 0.0 {
      var q := totalAfter / totalBefore;
      assert Share(x + y, totalBefore, totalAfter) == (x + y) * q;
      assert Share(x, totalBefore, totalAfter) == x * q;
      assert Share(y, totalBefore, totalAfter) == y * q;
      assert Share(k * x, totalBefore, totalAfter) == (k * x) * q;
    }
  }

  /** A discount never makes a row pay a negative amount or more than it bought. */
  lemma ShareBounds(amount: real, totalBefore: real, totalAfter: real)
    requires 0.0 <= amount && 0.0 < totalBefore && 0.0 <= totalAfter <= totalBefore
    ensures 0.0 <= Share(amount, totalBefore, totalAfter) <= amount
  {
    var q := totalAfter / totalBefore;
    assert 0.0 <= q <= 1.0;
    assert Share(amount, totalBefore, totalAfter) == amount * q;
    assert amount * q <= amount * 1.0;
  }

  /** The shares add up to the purchase total scaled by after/before, and to nothing
      when the bill's before total is zero. */
  lemma {:induction false} SumSharesScales(people: seq<Person>, totalBefore: real, totalAfter: real)
    ensures totalBefore == 0.0 ==> SumShares(people, totalBefore, totalAfter) == 0.0
    ensures totalBefore != 0.0 ==>
      SumShares(people, totalBefore, totalAfter) * totalBefore == SumAmounts(people) * totalAfter
  {
    if people != [] {
      SumSharesScales(people[1..], totalBefore, totalAfter);
      if totalBefore != 0.0 {
        var share, rest := Share(people[0].amount, totalBefore, totalAfter), SumShares(people[1..], totalBefore, totalAfter);
        var amount, restAmounts := people[0].amount, SumAmounts(people[1..]);
        calc {
          SumShares(people, totalBefore, totalAfter) * totalBefore;
          (share + rest) * totalBefore;
          share * totalBefore + rest * totalBefore;
          amount * totalAfter + restAmounts * totalAfter;
          (amount + restAmounts) * totalAfter;
          SumAmounts(people) * totalAfter;
        }
      }
    }
  }

  /** The shares add up to `totalAfter * (sum of amounts) / totalBefore`. */
  lemma SumSharesRatio(people: seq<Person>, totalBefore: real, totalAfter: real)
    requires totalBefore != 0.0
    ensures SumShares(people, totalBefore, totalAfter) == totalAfter * SumAmounts(people) / totalBefore
  {
    SumSharesScales(people, totalBefore, totalAfter);
    var s := SumShares(people, totalBefore, totalAfter);
    assert s == (s * totalBefore) / totalBefore;
  }

  /** When the rows' amounts add up to the before total, the shares add up to the after
      total exactly, and the per-row discounts add up to the bill's discount. The
      converse holds for a non-zero after total (`SharesSplitOnlyIfWhole`) and fails for
      an after total of zero (`ConverseFailsWithZeroAfter`). */
  lemma SharesSplitTheBill(people: seq<Person>, totalBefore: real, totalAfter: real)
    requires totalBefore != 0.0 && SumAmounts(people) == totalBefore
    ensures SumShares(people, totalBefore, totalAfter) == totalAfter
    ensures SumAmounts(people) - SumShares(people, totalBefore, totalAfter) == TotalDiscount(totalBefore, totalAfter)
  {
    SumSharesScales(people, totalBefore, totalAfter);
    var shares, amounts := SumShares(people, totalBefore, totalAfter), SumAmounts(people);
    CancelFactor(shares, totalAfter, amounts);
  }

  /** The converse of `SharesSplitTheBill` for a non-zero after total: shares that add up
      to the after total come from amounts that add up to the before total. With an after
      total of zero every share is zero, so the converse fails there
      (`ConverseFailsWithZeroAfter`). */
  lemma SharesSplitOnlyIfWhole(people: seq<Person>, totalBefore: real, totalAfter: real)
    requires totalBefore != 0.0 && totalAfter != 0.0
    requires SumShares(people, totalBefore, totalAfter) == totalAfter
    ensures SumAmounts(people) == totalBefore
  {
    SumSharesScales(people, totalBefore, totalAfter);
    CancelFactor(totalBefore, SumAmounts(people), totalAfter);
  }

  /** A bill with an after total of zero: one row of 1 out of a before total of 5 has
      shares summing to the after total, yet the amounts do not sum to the before total. */
  lemma ConverseFailsWithZeroAfter()
    ensures var people := [Person("a", 1.0, false)];
      SumShares(people, 5.0, 0.0) == 0.0 && SumAmounts(people) != 5.0
  {
    var people := [Person("a", 1.0, false)];
    assert people[1..] == [];
  }

  /** A non-zero factor cancels from both sides of an equation. */
  lemma CancelFactor(x: real, y: real, k: real)
    requires k != 0.0 && x * k == k * y
    ensures x == y
  {
    assert x == (x * k) / k;
    assert y == (k * y) / k;
  }

  /** Appending a row adds its amount to the purchase total. */
  lemma {:induction false} SumAmountsAppend(people: seq<Person>, p: Person)
    ensures SumAmounts(people + [p]) == SumAmounts(people) + p.amount
  {
    if people == [] {
      assert people + [p] == [p];
    } else {
      assert (people + [p])[1..] == people[1..] + [p];
      SumAmountsAppend(people[1..], p);
    }
  }

  /** Rows with the same amounts, in the same order, have the same purchase total. */
  lemma {:induction false} SumAmountsSameAmounts(a: seq<Person>, b: seq<Person>)
    requires |a| == |b| && forall i :: 0 <= i < |a| ==> a[i].amount == b[i].amount
    ensures SumAmounts(a) == SumAmounts(b)
  {
    if a != [] {
      SumAmountsSameAmounts(a[1..], b[1..]);
    }
  }

  /** Overwriting row `index` replaces its amount in the purchase total. */
  lemma {:induction false} SumAmountsSetAt(prev: seq<Person>, index: nat, amount: real)
    requires index < |prev|
    ensures SumAmounts(SetAmountAt(prev, index, amount)) == SumAmounts(prev) - prev[index].amount + amount
  {
    var r := SetAmountAt(prev, index, amount);
    if index == 0 {
      SumAmountsSameAmounts(r[1..], prev[1..]);
    } else {
      assert r[1..] == SetAmountAt(prev[1..], index - 1, amount);
      SumAmountsSetAt(prev[1..], index - 1, amount);
    }
  }

  /** How add-or-update moves the purchase total: a new name adds `max(delta, 0)`; with
      distinct names, the row of a present name trades its old amount for
      `max(old + delta, 0)`. */
  lemma AddOrUpdatePurchaseTotal(prev: seq<Person>, name: string, delta: real, k: nat)
    ensures !HasName(prev, name) ==>
      SumAmounts(AddOrUpdate(prev, name, delta)) == SumAmounts(prev) + ClampAtZero(delta)
    ensures DistinctNames(prev) && k < |prev| && prev[k].name == name ==>
      SumAmounts(AddOrUpdate(prev, name, delta))
        == SumAmounts(prev) - prev[k].amount + ClampAtZero(prev[k].amount + delta)
  {
    if !HasName(prev, name) {
      SumAmountsAppend(prev, Person(name, ClampAtZero(delta), false));
    }
    if DistinctNames(prev) && k < |prev| && prev[k].name == name {
      AddOrUpdateTouchesOneRow(prev, name, delta, k);
      var r := AddOrUpdate(prev, name, delta);
      var edited := SetAmountAt(prev, k, ClampAtZero(prev[k].amount + delta));
      assert r == edited by {
        assert forall i :: 0 <= i < |prev| ==> r[i] == edited[i];
      }
      SumAmountsSetAt(prev, k, ClampAtZero(prev[k].amount + delta));
    }
  }

  /** Toggling paid flags leaves the purchase total and the payable total alone. */
  lemma TogglePaidKeepsTotals(prev: seq<Person>, name: string, totalBefore: real, totalAfter: real)
    ensures SumAmounts(TogglePaid(prev, name)) == SumAmounts(prev)
    ensures SumDisplayedShares(TogglePaid(prev, name), totalBefore, totalAfter) == SumDisplayedShares(prev, totalBefore, totalAfter)
  {
    var r := TogglePaid(prev, name);
    SumAmountsSameAmounts(r, prev);
    SumDisplayedSameAmounts(r, prev, totalBefore, totalAfter);
  }

  /** Rows with the same amounts, in the same order, have the same payable total. */
  lemma {:induction false} SumDisplayedSameAmounts(a: seq<Person>, b: seq<Person>, totalBefore: real, totalAfter: real)
    requires |a| == |b| && forall i :: 0 <= i < |a| ==> a[i].amount == b[i].amount
    ensures SumDisplayedShares(a, totalBefore, totalAfter) == SumDisplayedShares(b, totalBefore, totalAfter)
  {
    if a != [] {
      SumDisplayedSameAmounts(a[1..], b[1..], totalBefore, totalAfter);
    }
  }

  /** The panel's payable total differs from the exact sum of shares by at most half a
      cent per row. */
  lemma {:induction false} DisplayedTotalClose(people: seq<Person>, totalBefore: real, totalAfter: real)
    ensures -(|people| as real) / 200.0 <= SumDisplayedShares(people, totalBefore, totalAfter) - SumShares(people, totalBefore, totalAfter) <= (|people| as real) / 200.0
  {
    if people != [] {
      DisplayedTotalClose(people[1..], totalBefore, totalAfter);
      var a := people[0].amount;
      assert -1.0 / 200.0 <= DisplayedShare(a, totalBefore, totalAfter) - Share(a, totalBefore, totalAfter) <= 1.0 / 200.0;
      assert |people[1..]| as real + 1.0 == |people| as real;
    }
  }

  /** When the amounts add up to the before total, the payable total shown is the after
      total to within half a cent per row; with an empty bill it is zero. */
  lemma DisplayedTotalNearAfter(people: seq<Person>, totalBefore: real, totalAfter: real)
    ensures totalBefore == 0.0 ==> SumDisplayedShares(people, totalBefore, totalAfter) == 0.0
    ensures totalBefore != 0.0 && SumAmounts(people) == totalBefore ==>
      -(|people| as real) / 200.0 <= SumDisplayedShares(people, totalBefore, totalAfter) - totalAfter <= (|people| as real) / 200.0
  {
    DisplayedTotalClose(people, totalBefore, totalAfter);
    SumSharesScales(people, totalBefore, totalAfter);
    if totalBefore != 0.0 && SumAmounts(people) == totalBefore {
      SharesSplitTheBill(people, totalBefore, totalAfter);
    }
  }
}
