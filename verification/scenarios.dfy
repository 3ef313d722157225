/** Concrete runs of the registry and item-store operations. */
module Scenarios {
  import opened Wrappers
  import opened Text
  import Sequences
  import Home
  import ChecklistApp

  /** A task merged into an empty registry, then toggled twice, ends up explicitly not completed. */
  lemma ErrandsTask()
    ensures var e := Home.ListEntry("Errands", Home.Task, None);
      var once := Home.Toggle(Home.Merge([], Some(e)), 0);
      && Home.Merge([], Some(e)) == [e]
      && once == [e.(completed := Some(true))]
      && Home.Toggle(once, 0) == [e.(completed := Some(false))]
  {
  }

  /** Merging an entry whose name and kind are already present leaves the registry as it was. */
  lemma GroceriesDuplicate()
    ensures var g := Home.ListEntry("Groceries", Home.Checklist, None);
      Home.Merge([g], Some(g)) == [g]
  {
  }

  /** Adding "Milk" to an empty list appends one open item; adding "" changes nothing. */
  lemma AddMilk(t: nat)
    ensures var items := ChecklistApp.Add([], "Milk", t);
      && items == [ChecklistApp.ChecklistItem("Milk", false, t, None)]
      && ChecklistApp.Add(items, "", t) == items
  {
    assert !IsWhitespace('M');
  }

  /** Deleting position 0 of a two-element list leaves the second element alone at position 0. */
  lemma RemoveFirstOfTwo<T>(a: T, b: T)
    ensures Sequences.RemoveAt([a, b], 0) == [b]
  {
  }
}
