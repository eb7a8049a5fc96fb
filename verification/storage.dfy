/**
 The shape of the splitter's saved state and the normalisation applied to it when the
 page loads: every saved row keeps its name and amount, and its `paid` field becomes a
 boolean by JavaScript truthiness, so a row saved without one counts as unpaid.
 */
module Storage {
  import opened People

  /** What a saved row's `paid` field may hold once parsed. */
  datatype PaidField =
    | Missing
    | Null
    | Boolean(b: bool)
    | Number(n: real)
    | Text(s: string)
    | Composite  // an object or an array

  /** The saved state, as read back from storage. */
  datatype SavedRow = SavedRow(name: string, amount: real, paid: PaidField)
  datatype SavedState = SavedState(totalBefore: real, totalAfter: real, people: seq<SavedRow>)

  datatype Option<T> = None | Some(value: T)

  /** `!!v`: false for a missing field, null, false, zero and the empty string. */
  predicate Truthy(v: PaidField)
    ensures !Truthy(v) <==> v in {Missing, Null, Boolean(false), Number(0.0), Text("")}
  {
    match v
    case Missing => false
    case Null => false
    case Boolean(b) => b
    case Number(n) => n != 0.0
    case Text(s) => s != ""
    case Composite => true
  }

  /** The rows the page keeps after loading: `paid` turned into a boolean, everything
      else kept. */
  function Normalize(saved: seq<SavedRow>): (r: seq<Person>)
    ensures |r| == |saved|
    ensures forall i :: 0 <= i < |saved| ==>
      r[i].name == saved[i].name && r[i].amount == saved[i].amount &&
      (r[i].paid <==> Truthy(saved[i].paid))
  {
    if saved == [] then []
    else
      var row := saved[0];
      [Person(row.name, row.amount, Truthy(row.paid))] + Normalize(saved[1..])
  }

  /** The rows as the page writes them to storage. */
  function Save(people: seq<Person>): (r: seq<SavedRow>)
    ensures |r| == |people|
    ensures forall i :: 0 <= i < |people| ==>
      r[i] == SavedRow(people[i].name, people[i].amount, Boolean(people[i].paid))
  {
    if people == [] then []
    else
      var p := people[0];
      [SavedRow(p.name, p.amount, Boolean(p.paid))] + Save(people[1..])
  }

  /** Loading what was saved gives the same rows back. */
  lemma LoadAfterSave(people: seq<Person>)
    ensures Normalize(Save(people)) == people
  {
    var r := Normalize(Save(people));
    assert forall i :: 0 <= i < |people| ==> r[i] == people[i];
  }

  /** Normalising twice (load, save, load) is the same as normalising once. */
  lemma NormalizeIdempotent(saved: seq<SavedRow>)
    ensures Normalize(Save(Normalize(saved))) == Normalize(saved)
  {
    LoadAfterSave(Normalize(saved));
  }
}
