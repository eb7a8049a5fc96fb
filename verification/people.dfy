/**
 The participant list of the discount splitter and the pure list rebuilds that the
 page's handlers hand to `setPeople`: add-or-update by name, remove by name,
 toggle the paid flag, overwrite one row's amount, and count the rows of a name.
 */
module People {

  /** One row of the bill: who ordered, what they bought before the discount, and
      whether they have paid their share. */
  datatype Person = Person(name: string, amount: real, paid: bool)

  /** `Math.max(x, 0)`: amounts written by add-or-update are never negative. */
  function ClampAtZero(x: real): (r: real)
    ensures r >= 0.0 && r >= x
    ensures r == x || r == 0.0
  {
    if x > 0.0 then x else 0.0
  }

  /** The rows' names, in order. */
  function Names(people: seq<Person>): (r: seq<string>)
    ensures |r| == |people| && forall i :: 0 <= i < |people| ==> r[i] == people[i].name
  {
    if people == [] then [] else [people[0].name] + Names(people[1..])
  }

  /** True when some row carries the name (what `prev.find` reports). */
  predicate HasName(people: seq<Person>, name: string)
  {
    exists i :: 0 <= i < |people| && people[i].name == name
  }

  /** No two rows share a name. */
  predicate DistinctNames(people: seq<Person>)
  {
    forall i, j :: 0 <= i < j < |people| ==> people[i].name != people[j].name
  }

  /** `getPersonCount` never exceeds one. */
  ghost predicate NoNameTwice(people: seq<Person>)
  {
    forall n :: PersonCount(people, n) <= 1
  }

  /** Two lists of the same length whose rows carry the same names, in the same order. */
  predicate SameNames(a: seq<Person>, b: seq<Person>)
  {
    |a| == |b| && forall i :: 0 <= i < |a| ==> a[i].name == b[i].name
  }

  /** `getPersonCount`: the number of rows carrying the name. */
  function PersonCount(people: seq<Person>, name: string): (c: nat)
    ensures c <= |people|
    ensures c == 0 <==> !HasName(people, name)
  {
    if people == [] then 0
    else
      var rest := PersonCount(people[1..], name);
      assert forall i :: 1 <= i < |people| ==> people[i] == people[1..][i - 1];
      (if people[0].name == name then 1 else 0) + rest
  }

  /** The rebuild used when the name is already present: every row with that name
      gets `max(amount + delta, 0)`, every other row is kept. */
  function AdjustAmounts(prev: seq<Person>, name: string, delta: real): (r: seq<Person>)
    ensures SameNames(prev, r)
    ensures forall i :: 0 <= i < |prev| ==>
      r[i].paid == prev[i].paid &&
      r[i].amount == (if prev[i].name == name then ClampAtZero(prev[i].amount + delta) else prev[i].amount)
  {
    if prev == [] then []
    else
      var p := prev[0];
      [if p.name == name then p.(amount := ClampAtZero(p.amount + delta)) else p]
        + AdjustAmounts(prev[1..], name, delta)
  }

  /** The list the add-or-update handler produces from the previous one. */
  function AddOrUpdate(prev: seq<Person>, name: string, delta: real): (r: seq<Person>)
    ensures HasName(prev, name) ==>
      SameNames(prev, r) &&
      forall i :: 0 <= i < |prev| ==>
        r[i].paid == prev[i].paid &&
        r[i].amount == (if prev[i].name == name then ClampAtZero(prev[i].amount + delta) else prev[i].amount)
    ensures !HasName(prev, name) ==> r == prev + [Person(name, ClampAtZero(delta), false)]
    ensures forall i :: 0 <= i < |r| && r[i].name == name ==> r[i].amount >= 0.0
  {
    if HasName(prev, name) then AdjustAmounts(prev, name, delta)
    else prev + [Person(name, ClampAtZero(delta), false)]
  }

  /** The list the remove handler produces: every row with the name is dropped. */
  function RemoveAll(prev: seq<Person>, name: string): (r: seq<Person>)
    ensures forall p :: p in r <==> p in prev && p.name != name
    ensures |r| == |prev| - PersonCount(prev, name)
  {
    if prev == [] then []
    else
      assert forall p :: p in prev <==> p == prev[0] || p in prev[1..];
      (if prev[0].name == name then [] else [prev[0]]) + RemoveAll(prev[1..], name)
  }

  /** The list `togglePaid(name)` produces: the paid flag of every row with the name
      is flipped. */
  function TogglePaid(prev: seq<Person>, name: string): (r: seq<Person>)
    ensures SameNames(prev, r)
    ensures forall i :: 0 <= i < |prev| ==>
      r[i].amount == prev[i].amount &&
      r[i].paid == (if prev[i].name == name then !prev[i].paid else prev[i].paid)
  {
    if prev == [] then []
    else
      var p := prev[0];
      [if p.name == name then p.(paid := !p.paid) else p] + TogglePaid(prev[1..], name)
  }

  /** The list the amount cell of row `index` produces: that row gets the typed
      amount; an index past the end matches no row. */
  function SetAmountAt(prev: seq<Person>, index: nat, amount: real): (r: seq<Person>)
    ensures SameNames(prev, r)
    ensures forall i :: 0 <= i < |prev| ==>
      r[i].paid == prev[i].paid &&
      r[i].amount == (if i == index then amount else prev[i].amount)
  {
    if index < |prev| then prev[index := prev[index].(amount := amount)] else prev
  }

  // ---------------------------------------------------------------------------
  // Lemmas
  // ---------------------------------------------------------------------------

  /** `prev.find(p => p.name === name)` finds a row exactly when the name is among the
      rows' names. */
  lemma HasNameIffListed(people: seq<Person>, name: string)
    ensures HasName(people, name) <==> name in Names(people)
  {
    if name in Names(people) {
      var i :| 0 <= i < |people| && Names(people)[i] == name;
      assert people[i].name == name;
    }
  }

  /** `getPersonCount(name)` is the number of rows carrying the name: its multiplicity
      among the rows' names. */
  lemma {:induction false} PersonCountIsMultiplicity(people: seq<Person>, name: string)
    ensures PersonCount(people, name) == multiset(Names(people))[name]
  {
    if people != [] {
      PersonCountIsMultiplicity(people[1..], name);
      assert Names(people) == [people[0].name] + Names(people[1..]);
    }
  }

  /** Names are pairwise distinct exactly when no name is counted more than once. */
  lemma {:induction false} DistinctIffCountAtMostOne(people: seq<Person>)
    ensures DistinctNames(people) <==> NoNameTwice(people)
  {
    if DistinctNames(people) {
      forall n ensures PersonCount(people, n) <= 1 {
        DistinctCountsAtMostOne(people, n);
      }
    }
    if forall n :: PersonCount(people, n) <= 1 {
      CountsAtMostOneDistinct(people);
    }
  }

  /** Unfolding the list's first row: distinctness is distinctness of the rest plus a
      first name that does not recur. */
  lemma DistinctCons(people: seq<Person>)
    requires people != []
    ensures DistinctNames(people) <==> DistinctNames(people[1..]) && !HasName(people[1..], people[0].name)
  {
    var first, rest := people[0], people[1..];
    if DistinctNames(people) {
      forall i, j | 0 <= i < j < |rest| ensures rest[i].name != rest[j].name {
        assert rest[i] == people[i + 1] && rest[j] == people[j + 1];
      }
      forall j | 0 <= j < |rest| ensures rest[j].name != first.name {
        assert rest[j] == people[j + 1];
      }
    }
    if DistinctNames(rest) && !HasName(rest, first.name) {
      forall i, j | 0 <= i < j < |people| ensures people[i].name != people[j].name {
        assert people[j] == rest[j - 1];
        if i > 0 {
          assert people[i] == rest[i - 1];
        }
      }
    }
  }

  lemma {:induction false} DistinctCountsAtMostOne(people: seq<Person>, n: string)
    requires DistinctNames(people)
    ensures PersonCount(people, n) <= 1
  {
    if people != [] {
      DistinctCons(people);
      DistinctCountsAtMostOne(people[1..], n);
      assert PersonCount(people[1..], people[0].name) == 0;
    }
  }

  lemma {:induction false} CountsAtMostOneDistinct(people: seq<Person>)
    requires forall n :: PersonCount(people, n) <= 1
    ensures DistinctNames(people)
  {
    if people != [] {
      var first, rest := people[0], people[1..];
      forall n ensures PersonCount(rest, n) <= 1 {
        assert PersonCount(people, n) <= 1;
      }
      CountsAtMostOneDistinct(rest);
      assert PersonCount(people, first.name) <= 1;
      DistinctCons(people);
    }
  }

  /** Keeping every name in place keeps the names distinct. */
  lemma SameNamesKeepDistinct(a: seq<Person>, b: seq<Person>)
    requires SameNames(a, b)
    ensures DistinctNames(a) <==> DistinctNames(b)
  {
  }

  /** Add-or-update keeps names distinct: an existing name is updated in place, a new
      one is appended once. */
  lemma AddOrUpdateKeepsDistinct(prev: seq<Person>, name: string, delta: real)
    requires DistinctNames(prev)
    ensures DistinctNames(AddOrUpdate(prev, name, delta))
  {
    var r := AddOrUpdate(prev, name, delta);
    if HasName(prev, name) {
      SameNamesKeepDistinct(prev, r);
    } else {
      forall i, j | 0 <= i < j < |r| ensures r[i].name != r[j].name {
        if j == |prev| {
          assert r[i] == prev[i];
        } else {
          assert r[i] == prev[i] && r[j] == prev[j];
        }
      }
    }
  }

  /** With distinct names, add-or-update on a present name touches exactly one row. */
  lemma {:induction false} AddOrUpdateTouchesOneRow(prev: seq<Person>, name: string, delta: real, k: nat)
    requires DistinctNames(prev) && k < |prev| && prev[k].name == name
    ensures var r := AddOrUpdate(prev, name, delta);
      |r| == |prev| &&
      r[k] == prev[k].(amount := ClampAtZero(prev[k].amount + delta)) &&
      forall i :: 0 <= i < |prev| && i != k ==> r[i] == prev[i]
  {
    assert HasName(prev, name);
    var r := AddOrUpdate(prev, name, delta);
    forall i | 0 <= i < |prev| && i != k ensures r[i] == prev[i] {
      if i < k {
        assert prev[i].name != prev[k].name;
      } else {
        assert prev[k].name != prev[i].name;
      }
    }
  }

  /** How removal changes the count of every name. */
  lemma {:induction false} RemoveAllCount(prev: seq<Person>, name: string, n: string)
    ensures PersonCount(RemoveAll(prev, name), n) == if n == name then 0 else PersonCount(prev, n)
  {
    if prev != [] {
      RemoveAllCount(prev[1..], name, n);
      var head := if prev[0].name == name then [] else [prev[0]];
      var tail := RemoveAll(prev[1..], name);
      assert RemoveAll(prev, name) == head + tail;
      if head != [] {
        assert (head + tail)[1..] == tail;
      } else {
        assert head + tail == tail;
      }
    }
  }

  /** Removal keeps the rest of the list in its original order: it distributes over
      concatenation, and leaves a list without the name alone. */
  lemma {:induction false} RemoveAllConcat(a: seq<Person>, b: seq<Person>, name: string)
    ensures RemoveAll(a + b, name) == RemoveAll(a, name) + RemoveAll(b, name)
  {
    if a != [] {
      assert (a + b)[0] == a[0];
      assert (a + b)[1..] == a[1..] + b;
      RemoveAllConcat(a[1..], b, name);
    } else {
      assert a + b == b;
    }
  }

  /** Removing a name that is not present changes nothing. */
  lemma {:induction false} RemoveAllAbsent(prev: seq<Person>, name: string)
    requires !HasName(prev, name)
    ensures RemoveAll(prev, name) == prev
  {
    if prev != [] {
      assert prev[0].name != name;
      assert !HasName(prev[1..], name) by {
        forall i | 0 <= i < |prev[1..]| ensures prev[1..][i].name != name {
          assert prev[1..][i] == prev[i + 1];
        }
      }
      RemoveAllAbsent(prev[1..], name);
      assert [prev[0]] + prev[1..] == prev;
    }
  }

  /** Removing twice is the same as removing once. */
  lemma RemoveAllIdempotent(prev: seq<Person>, name: string)
    ensures RemoveAll(RemoveAll(prev, name), name) == RemoveAll(prev, name)
  {
    var r := RemoveAll(prev, name);
    RemoveAllCount(prev, name, name);
    RemoveAllAbsent(r, name);
  }

  /** Removal keeps names distinct. */
  lemma RemoveAllKeepsDistinct(prev: seq<Person>, name: string)
    requires DistinctNames(prev)
    ensures DistinctNames(RemoveAll(prev, name))
  {
    var r := RemoveAll(prev, name);
    DistinctIffCountAtMostOne(prev);
    forall n ensures PersonCount(r, n) <= 1 {
      RemoveAllCount(prev, name, n);
    }
    DistinctIffCountAtMostOne(r);
  }

  /** Toggling the same name twice restores the list. */
  lemma TogglePaidTwice(prev: seq<Person>, name: string)
    ensures TogglePaid(TogglePaid(prev, name), name) == prev
  {
    var r := TogglePaid(TogglePaid(prev, name), name);
    assert forall i :: 0 <= i < |prev| ==> r[i] == prev[i];
  }

  /** Typing the old amount back into a row undoes the edit. */
  lemma SetAmountAtRestores(prev: seq<Person>, index: nat, amount: real)
    requires index < |prev|
    ensures SetAmountAt(SetAmountAt(prev, index, amount), index, prev[index].amount) == prev
  {
    var r := SetAmountAt(SetAmountAt(prev, index, amount), index, prev[index].amount);
    assert forall i :: 0 <= i < |prev| ==> r[i] == prev[i];
  }

  /** Toggling, overwriting a row's amount and removing all keep names distinct;
      together with `AddOrUpdateKeepsDistinct` every list handler keeps them distinct. */
  lemma EditsKeepDistinct(prev: seq<Person>, name: string, index: nat, amount: real)
    requires DistinctNames(prev)
    ensures DistinctNames(TogglePaid(prev, name))
    ensures DistinctNames(SetAmountAt(prev, index, amount))
    ensures DistinctNames(RemoveAll(prev, name))
  {
    SameNamesKeepDistinct(prev, TogglePaid(prev, name));
    SameNamesKeepDistinct(prev, SetAmountAt(prev, index, amount));
    RemoveAllKeepsDistinct(prev, name);
  }
}
