/**
 * The items of one checklist, kept under a key derived from the list's name
 * and edited by adding, toggling and deleting by position.
 */
module ChecklistApp {
  import opened Wrappers
  import opened Storage
  import opened Text
  import Sequences
  import Home

  /** One item; times are milliseconds since the epoch. */
  datatype ChecklistItem = ChecklistItem(text: string, completed: bool, createdAt: int, completedAt: Option<int>)

  const KeyPrefix: string := "CHECKLIST_ITEMS_"

  /** The key a list's items live under: the fixed prefix followed by the list's name. */
  function StorageKey(listName: string): (k: string)
    ensures |k| == |KeyPrefix| + |listName|
    ensures k[..|KeyPrefix|] == KeyPrefix && k[|KeyPrefix|..] == listName
  {
    KeyPrefix + listName
  }

  /** Distinct list names never share a key. */
  lemma StorageKeyInjective(a: string, b: string)
    requires StorageKey(a) == StorageKey(b)
    ensures a == b
  {
    assert a == StorageKey(a)[|KeyPrefix|..];
    assert b == StorageKey(b)[|KeyPrefix|..];
  }

  /** No list's key is the registry's key. */
  lemma StorageKeyNotRegistry(listName: string)
    ensures StorageKey(listName) != Home.StorageKey
  {
  }

  // ---------- stored form: {text, completed, createdAt, completedAt?} ----------

  /** `JSON.stringify` of one item: `completedAt` is written only when present (`undefined` is dropped). */
  function EncodeItem(it: ChecklistItem): (j: Json)
    ensures j.JObj? && "text" in j.fields && "completed" in j.fields && "createdAt" in j.fields
    ensures j.fields["text"] == JStr(it.text) && j.fields["completed"] == JBool(it.completed)
    ensures j.fields["createdAt"] == JNum(it.createdAt)
    ensures "completedAt" in j.fields <==> it.completedAt.Some?
    ensures it.completedAt.Some? ==> j.fields["completedAt"] == JNum(it.completedAt.value)
    ensures forall key :: key in j.fields ==> key in {"text", "completed", "createdAt", "completedAt"}
  {
    JObj(map["text" := JStr(it.text), "completed" := JBool(it.completed), "createdAt" := JNum(it.createdAt)]
      + if it.completedAt.Some? then map["completedAt" := JNum(it.completedAt.value)] else map[])
  }

  /**
   * One parsed record read as an item: an object with a string `text`, a
   * boolean `completed`, a numeric `createdAt` and, if present, a numeric
   * `completedAt`. The item carries exactly those field values.
   */
  function DecodeItem(j: Json): (r: Option<ChecklistItem>)
    ensures r.Some? <==>
      && j.JObj?
      && "text" in j.fields && j.fields["text"].JStr?
      && "completed" in j.fields && j.fields["completed"].JBool?
      && "createdAt" in j.fields && j.fields["createdAt"].JNum?
      && ("completedAt" in j.fields ==> j.fields["completedAt"].JNum?)
    ensures r.Some? ==> j.fields["text"] == JStr(r.value.text) && j.fields["completed"] == JBool(r.value.completed)
    ensures r.Some? ==> j.fields["createdAt"] == JNum(r.value.createdAt)
    ensures r.Some? ==> (r.value.completedAt.Some? <==> "completedAt" in j.fields)
    ensures r.Some? && r.value.completedAt.Some? ==> j.fields["completedAt"] == JNum(r.value.completedAt.value)
  {
    match j
    case JObj(f) =>
      if "text" in f && f["text"].JStr? && "completed" in f && f["completed"].JBool?
         && "createdAt" in f && f["createdAt"].JNum? && ("completedAt" in f ==> f["completedAt"].JNum?)
      then
        var completedAt := if "completedAt" in f then Some(f["completedAt"].n) else None;
        Some(ChecklistItem(f["text"].s, f["completed"].b, f["createdAt"].n, completedAt))
      else None
    case _ => None
  }

  /** Every item survives a write and a read of its stored form unchanged. */
  lemma DecodeEncodeItem(it: ChecklistItem)
    ensures DecodeItem(EncodeItem(it)) == Some(it)
  {
  }

  /** A list of items written under its key loads back as the same list. */
  lemma ItemsRoundTrip(items: seq<ChecklistItem>)
    ensures LoadArray(Ok(Some(Document(EncodeArray(items, EncodeItem)))), DecodeItem) == Ok(items)
  {
    forall it ensures DecodeItem(EncodeItem(it)) == Some(it) {
      DecodeEncodeItem(it);
    }
    LoadAfterSave(items, EncodeItem, DecodeItem);
  }

  /** `loadItemsFromStorage`: an absent key, a failed read and a failed parse all give the empty list. */
  function LoadItems(read: Result<Option<Stored>, Failure>): (items: seq<ChecklistItem>)
    ensures read.Err? || read == Ok(None) || read == Ok(Some(Malformed)) ==> items == []
    ensures forall xs :: read == Ok(Some(Document(EncodeArray(xs, EncodeItem)))) ==> items == xs
  {
    forall xs ensures read == Ok(Some(Document(EncodeArray(xs, EncodeItem)))) ==> LoadArray(read, DecodeItem) == Ok(xs) {
      ItemsRoundTrip(xs);
    }
    match LoadArray(read, DecodeItem)
    case Ok(xs) => xs
    case Err(_) => []
  }

  /** The value a list of items is written as. */
  function Saved(items: seq<ChecklistItem>): Stored {
    Document(EncodeArray(items, EncodeItem))
  }

  // ---------- the list transformations ----------

  /** `completed` holds exactly when a completion time is recorded. */
  predicate WellFormed(it: ChecklistItem) {
    it.completed <==> it.completedAt.Some?
  }

  predicate AllWellFormed(items: seq<ChecklistItem>) {
    forall i :: 0 <= i < |items| ==> WellFormed(items[i])
  }

  /**
   * `handleAddItem`'s new list: blank text adds nothing; otherwise one open
   * item with the text exactly as given (not trimmed), created `now`, is
   * appended after the untouched earlier items.
   */
  function Add(items: seq<ChecklistItem>, text: string, now: int): (r: seq<ChecklistItem>)
    ensures IsBlank(text) ==> r == items
    ensures !IsBlank(text) ==> |r| == |items| + 1 && r[..|items|] == items
    ensures !IsBlank(text) ==> var it := r[|items|];
      it.text == text && !it.completed && it.createdAt == now && it.completedAt.None?
  {
    if IsBlank(text) then items
    else items + [ChecklistItem(text, false, now, None)]
  }

  /** `!item.completed`, with the completion time set to `now` or cleared to match. */
  function Flip(it: ChecklistItem, now: int): (r: ChecklistItem)
    ensures r.completed == !it.completed && WellFormed(r)
    ensures r.text == it.text && r.createdAt == it.createdAt
    ensures r.completed ==> r.completedAt == Some(now)
  {
    var isNowCompleted := !it.completed;
    it.(completed := isNowCompleted, completedAt := if isNowCompleted then Some(now) else None)
  }

  /**
   * `handleComplete`'s new list: the item at `index` flips, every other item
   * is kept; an index outside the list matches nothing.
   */
  function ToggleAt(items: seq<ChecklistItem>, index: int, now: int): (r: seq<ChecklistItem>)
    ensures |r| == |items|
    ensures forall j :: 0 <= j < |items| && j != index ==> r[j] == items[j]
    ensures 0 <= index < |items| ==> r[index] == Flip(items[index], now)
  {
    seq(|items|, i requires 0 <= i < |items| => if i == index then Flip(items[i], now) else items[i])
  }

  /** Adding establishes the completion invariant for the new item and keeps it for the rest. */
  lemma AddKeepsWellFormed(items: seq<ChecklistItem>, text: string, now: int)
    requires AllWellFormed(items)
    ensures AllWellFormed(Add(items, text, now))
  {
  }

  /** Toggling keeps the completion invariant. */
  lemma ToggleKeepsWellFormed(items: seq<ChecklistItem>, index: int, now: int)
    requires AllWellFormed(items)
    ensures AllWellFormed(ToggleAt(items, index, now))
  {
  }

  /** Deleting keeps the completion invariant. */
  lemma RemoveKeepsWellFormed(items: seq<ChecklistItem>, index: int)
    requires AllWellFormed(items)
    ensures AllWellFormed(Sequences.RemoveAt(items, index))
  {
  }

  /** Toggling an open, well-formed item twice gives back the list it started from, whatever the times. */
  lemma ToggleTwiceFromOpen(items: seq<ChecklistItem>, index: nat, t1: int, t2: int)
    requires index < |items| && !items[index].completed && WellFormed(items[index])
    ensures ToggleAt(ToggleAt(items, index, t1), index, t2) == items
  {
  }

  // ---------- the screen ----------

  /** The item screen of one list: its name, the displayed items and the shared store. */
  class ChecklistScreen {
    const listName: string
    const store: Store
    var items: seq<ChecklistItem>

    /** Mounting the screen loads the list's items (the effect that runs once on mount). */
    constructor (store: Store, listName: string, readFails: bool)
      ensures this.store == store && this.listName == listName
      ensures items == LoadItems(Read(store.data, StorageKey(listName), readFails))
    {
      var stored := store.GetItem(StorageKey(listName), readFails);
      this.store := store;
      this.listName := listName;
      this.items := LoadItems(stored);
    }

    /** `saveItemsToStorage`: writes the whole list under the list's key; a failure is only logged. */
    method Save(items: seq<ChecklistItem>, writeFails: bool)
      modifies store
      ensures store.data == if writeFails then old(store.data) else old(store.data)[StorageKey(listName) := Saved(items)]
    {
      var _ := store.SetItem(StorageKey(listName), Saved(items), writeFails);
    }

    /** `handleAddItem`: blank text changes nothing and writes nothing. */
    method AddItem(text: string, now: nat, writeFails: bool)
      modifies this, store
      ensures items == Add(old(items), text, now)
      ensures store.data == if IsBlank(text) || writeFails then old(store.data)
                            else old(store.data)[StorageKey(listName) := Saved(items)]
      ensures AllWellFormed(old(items)) ==> AllWellFormed(items)
    {
      if IsBlank(text) {
        return;
      }
      items := Add(items, text, now);
      Save(items, writeFails);
      if AllWellFormed(old(items)) {
        AddKeepsWellFormed(old(items), text, now);
      }
    }

    /** `handleDelete`: displays the list without position `index`, then writes it. */
    method Delete(index: int, writeFails: bool)
      modifies this, store
      ensures items == Sequences.RemoveAt(old(items), index)
      ensures store.data == if writeFails then old(store.data) else old(store.data)[StorageKey(listName) := Saved(items)]
      ensures AllWellFormed(old(items)) ==> AllWellFormed(items)
    {
      items := Sequences.RemoveAt(items, index);
      Save(items, writeFails);
      if AllWellFormed(old(items)) {
        RemoveKeepsWellFormed(old(items), index);
      }
    }

    /** `handleComplete`: displays the toggled list, then writes it (also when `index` matched nothing). */
    method Complete(index: int, now: nat, writeFails: bool)
      modifies this, store
      ensures items == ToggleAt(old(items), index, now)
      ensures store.data == if writeFails then old(store.data) else old(store.data)[StorageKey(listName) := Saved(items)]
      ensures AllWellFormed(old(items)) ==> AllWellFormed(items)
    {
      items := ToggleAt(items, index, now);
      Save(items, writeFails);
    }
  }
}
