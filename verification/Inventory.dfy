/** The comparison a restore ends with: what was found against what the manifest recorded. */
module Inventory {
  datatype Entry = Entry(documents: int, indexes: int)

  datatype Defect =
    | Missing(name: string)
    | Documents(name: string, found: int, recorded: int)
    | Indexes(name: string, found: int, recorded: int)
    | NotRecorded(name: string)

  /** An inventory: its namespaces in the order they are kept, and their entries. An absent inventory
      is the empty one. */
  datatype Namespaces = Namespaces(order: seq<string>, entries: map<string, Entry>) {
    ghost predicate Valid() {
      (forall n :: n in order <==> n in entries) && forall i, j :: 0 <= i < j < |order| ==> order[i] != order[j]
    }
  }

  /** What each defect says of the two inventories. */
  predicate Says(expected: Namespaces, found: Namespaces, d: Defect) {
    var inExpected, inFound := d.name in expected.entries, d.name in found.entries;
    match d
    case Missing(_) => inExpected && !inFound
    case NotRecorded(_) => inFound && !inExpected
    case Documents(n, f, e) =>
      inExpected && inFound && f == found.entries[n].documents && e == expected.entries[n].documents && f != e
    case Indexes(n, f, e) =>
      inExpected && inFound && found.entries[n].documents == expected.entries[n].documents
      && f == found.entries[n].indexes && e == expected.entries[n].indexes && f != e
  }

  ghost predicate DistinctNames(defects: seq<Defect>) {
    forall i, j :: 0 <= i < j < |defects| ==> defects[i].name != defects[j].name
  }

  /** Exactly the defects that are true of the two, one for each namespace they disagree on; so there is
      none exactly when the two are equal. */
  method InventoryDefects(expected: Namespaces, found: Namespaces) returns (defects: seq<Defect>)
    requires expected.Valid() && found.Valid()
    ensures forall d :: d in defects <==> Says(expected, found, d)
    ensures DistinctNames(defects)
    ensures defects == [] <==> expected.entries == found.entries
  {
    defects := [];
    for i := 0 to |expected.order|
      invariant forall d :: d in defects <==> d.name in expected.order[..i] && Says(expected, found, d)
      invariant DistinctNames(defects)
    {
      var n := expected.order[i];
      assert expected.order[..i + 1] == expected.order[..i] + [n];
      assert n !in expected.order[..i];
      var entry := expected.entries[n];
      OneOf(expected, found, n);
      if n !in found.entries {
        defects := defects + [Missing(n)];
      } else if found.entries[n].documents != entry.documents {
        defects := defects + [Documents(n, found.entries[n].documents, entry.documents)];
      } else if found.entries[n].indexes != entry.indexes {
        defects := defects + [Indexes(n, found.entries[n].indexes, entry.indexes)];
      }
    }
    assert expected.order[..|expected.order|] == expected.order;
    for i := 0 to |found.order|
      invariant forall d :: d in defects <==> (d.name in expected.order || d.name in found.order[..i]) && Says(expected, found, d)
      invariant DistinctNames(defects)
    {
      var n := found.order[i];
      assert found.order[..i + 1] == found.order[..i] + [n];
      assert n !in found.order[..i];
      OneOf(expected, found, n);
      if n !in expected.entries {
        defects := defects + [NotRecorded(n)];
      }
    }
    assert found.order[..|found.order|] == found.order;
    NoneExactlyEqual(expected, found, defects);
  }

  /** Of a namespace only one thing can be said. */
  lemma {:induction false} OneOf(expected: Namespaces, found: Namespaces, n: string)
    ensures forall d :: Says(expected, found, d) && d.name == n <==>
      if n in expected.entries && n in found.entries then
        var e, f := expected.entries[n], found.entries[n];
        if e.documents != f.documents then d == Documents(n, f.documents, e.documents)
        else e.indexes != f.indexes && d == Indexes(n, f.indexes, e.indexes)
      else if n in expected.entries then d == Missing(n)
      else n in found.entries && d == NotRecorded(n)
  {
  }

  lemma {:induction false} NoneExactlyEqual(expected: Namespaces, found: Namespaces, defects: seq<Defect>)
    requires forall d :: d in defects <==> Says(expected, found, d)
    ensures defects == [] <==> expected.entries == found.entries
  {
    if defects != [] {
      assert defects[0] in defects;
    } else {
      forall n
        ensures n in expected.entries <==> n in found.entries
        ensures n in expected.entries && n in found.entries ==> expected.entries[n] == found.entries[n]
      {
        assert !Says(expected, found, Missing(n)) && !Says(expected, found, NotRecorded(n));
        if n in expected.entries && n in found.entries {
          var e, f := expected.entries[n], found.entries[n];
          assert !Says(expected, found, Documents(n, f.documents, e.documents));
          assert !Says(expected, found, Indexes(n, f.indexes, e.indexes));
        }
      }
      assert expected.entries.Keys == found.entries.Keys;
    }
  }
}
