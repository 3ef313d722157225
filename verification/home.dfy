/**
 * The list registry shown on the home screen: one ordered list of named
 * tasks and checklists, kept under the key `ALL_ITEMS`.
 */
module Home {
  import opened Wrappers
  import opened Storage
  import Sequences

  datatype Kind = Task | Checklist

  /** A registry entry; `completed` is absent until a task is first toggled. */
  datatype ListEntry = ListEntry(name: string, kind: Kind, completed: Option<bool>)

  const StorageKey: string := "ALL_ITEMS"

  // ---------- stored form: {name, type, completed?} ----------

  function KindName(k: Kind): string {
    match k
    case Task => "task"
    case Checklist => "checklist"
  }

  /** `JSON.stringify` of one entry: `name` and `type` always, `completed` only when present. */
  function EncodeEntry(e: ListEntry): (j: Json)
    ensures j.JObj? && "name" in j.fields && "type" in j.fields
    ensures j.fields["name"] == JStr(e.name) && j.fields["type"] == JStr(KindName(e.kind))
    ensures "completed" in j.fields <==> e.completed.Some?
    ensures e.completed.Some? ==> j.fields["completed"] == JBool(e.completed.value)
    ensures forall key :: key in j.fields ==> key in {"name", "type", "completed"}
  {
    JObj(map["name" := JStr(e.name), "type" := JStr(KindName(e.kind))]
      + if e.completed.Some? then map["completed" := JBool(e.completed.value)] else map[])
  }

  /**
   * One parsed record read as an entry: an object with a string `name`, a
   * `type` of "task" or "checklist" and, if present, a boolean `completed`.
   * The entry carries exactly those field values.
   */
  function DecodeEntry(j: Json): (r: Option<ListEntry>)
    ensures r.Some? <==>
      && j.JObj?
      && "name" in j.fields && j.fields["name"].JStr?
      && "type" in j.fields && (j.fields["type"] == JStr("task") || j.fields["type"] == JStr("checklist"))
      && ("completed" in j.fields ==> j.fields["completed"].JBool?)
    ensures r.Some? ==> j.fields["name"] == JStr(r.value.name) && j.fields["type"] == JStr(KindName(r.value.kind))
    ensures r.Some? ==> (r.value.completed.Some? <==> "completed" in j.fields)
    ensures r.Some? && r.value.completed.Some? ==> j.fields["completed"] == JBool(r.value.completed.value)
  {
    match j
    case JObj(f) =>
      if "name" in f && f["name"].JStr? && "type" in f && f["type"] in {JStr("task"), JStr("checklist")}
         && ("completed" in f ==> f["completed"].JBool?)
      then
        var kind := if f["type"] == JStr("task") then Task else Checklist;
        var completed := if "completed" in f then Some(f["completed"].b) else None;
        Some(ListEntry(f["name"].s, kind, completed))
      else None
    case _ => None
  }

  /** Every entry survives a write and a read of its stored form unchanged. */
  lemma DecodeEncodeEntry(e: ListEntry)
    ensures DecodeEntry(EncodeEntry(e)) == Some(e)
  {
  }

  /** The registry list written under `ALL_ITEMS` loads back as the same list. */
  lemma RegistryRoundTrip(es: seq<ListEntry>)
    ensures LoadArray(Ok(Some(Document(EncodeArray(es, EncodeEntry)))), DecodeEntry) == Ok(es)
  {
    forall e ensures DecodeEntry(EncodeEntry(e)) == Some(e) {
      DecodeEncodeEntry(e);
    }
    LoadAfterSave(es, EncodeEntry, DecodeEntry);
  }

  // ---------- the list transformations ----------

  /**
   * `items.some(item => item.name === e.name && item.type === e.type)`, scanning
   * from the front: true exactly when some entry matches on both name and kind.
   */
  predicate IsDuplicate(es: seq<ListEntry>, e: ListEntry): (b: bool)
    ensures b <==> exists i :: 0 <= i < |es| && es[i].name == e.name && es[i].kind == e.kind
  {
    if es == [] then false
    else if es[0].name == e.name && es[0].kind == e.kind then true
    else
      var b := IsDuplicate(es[1..], e);
      assert forall i :: 1 <= i < |es| ==> es[i] == es[1..][i - 1];
      b
  }

  /** No two entries share both name and kind. */
  predicate Unique(es: seq<ListEntry>) {
    forall i, j :: 0 <= i < j < |es| ==> !(es[i].name == es[j].name && es[i].kind == es[j].kind)
  }

  /**
   * The merge step of a refresh: the incoming entry is appended only when no
   * loaded entry has its name and kind.
   */
  function Merge(es: seq<ListEntry>, incoming: Option<ListEntry>): (r: seq<ListEntry>)
    ensures r == es || (incoming.Some? && r == es + [incoming.value])
    ensures |r| == |es| + 1 <==> incoming.Some? && !IsDuplicate(es, incoming.value)
    ensures incoming.Some? ==> IsDuplicate(r, incoming.value)
  {
    if incoming.Some? && !IsDuplicate(es, incoming.value) then
      var r := es + [incoming.value];
      assert r[|es|] == incoming.value;
      r
    else es
  }

  /** Merging the same entry into the result again changes nothing. */
  lemma MergeIdempotent(es: seq<ListEntry>, incoming: Option<ListEntry>)
    ensures Merge(Merge(es, incoming), incoming) == Merge(es, incoming)
  {
  }

  /** Merging keeps the registry free of (name, kind) duplicates. */
  lemma MergeKeepsUnique(es: seq<ListEntry>, incoming: Option<ListEntry>)
    requires Unique(es)
    ensures Unique(Merge(es, incoming))
  {
  }

  /** `!item.completed`: an absent flag reads as false, so its negation is true. */
  function Flipped(completed: Option<bool>): (b: bool)
    ensures b <==> completed != Some(true)
  {
    match completed
    case Some(c) => !c
    case None => true
  }

  /**
   * The completion toggle: a task's flag is negated (absent counting as false);
   * a checklist entry is left as it is. No other entry or field changes.
   */
  function Toggle(es: seq<ListEntry>, index: nat): (r: seq<ListEntry>)
    requires index < |es|
    ensures |r| == |es|
    ensures forall j :: 0 <= j < |es| && j != index ==> r[j] == es[j]
    ensures r[index].name == es[index].name && r[index].kind == es[index].kind
    ensures es[index].kind == Task ==> r[index].completed == Some(es[index].completed != Some(true))
    ensures es[index].kind == Checklist ==> r == es
  {
    var e := es[index];
    if e.kind == Task then es[index := e.(completed := Some(Flipped(e.completed)))] else es
  }

  /** Toggling a task twice restores a present flag and turns an absent one into `false`. */
  lemma ToggleTwice(es: seq<ListEntry>, index: nat)
    requires index < |es| && es[index].kind == Task
    ensures var r := Toggle(Toggle(es, index), index);
      r == es[index := es[index].(completed := Some(es[index].completed == Some(true)))]
    ensures es[index].completed.Some? ==> Toggle(Toggle(es, index), index) == es
  {
  }

  /** Toggling never changes a name or a kind, so it keeps the registry free of duplicates. */
  lemma ToggleKeepsUnique(es: seq<ListEntry>, index: nat)
    requires index < |es| && Unique(es)
    ensures Unique(Toggle(es, index))
  {
  }

  /** Deleting a position keeps the registry free of duplicates. */
  lemma RemoveKeepsUnique(es: seq<ListEntry>, index: int)
    requires Unique(es)
    ensures Unique(Sequences.RemoveAt(es, index))
  {
  }

  /** What selecting an entry does: open the list's own screen, or show a task notice. */
  datatype Action = OpenChecklist(listName: string) | ShowTask(name: string)

  /** A checklist opens its item screen under its own name; a task never navigates. */
  function Select(e: ListEntry): (a: Action)
    ensures a.OpenChecklist? <==> e.kind == Checklist
    ensures a.OpenChecklist? ==> a.listName == e.name
    ensures a.ShowTask? ==> a.name == e.name
  {
    if e.kind == Checklist then OpenChecklist(e.name) else ShowTask(e.name)
  }

  // ---------- the screen ----------

  /** The registry as read from `data`: the list under `ALL_ITEMS`, or why it could not be read. */
  function Loaded(data: map<string, Stored>, readFails: bool): (r: Result<seq<ListEntry>, Failure>)
    ensures readFails ==> r == Err(ReadFailed)
    ensures !readFails && StorageKey !in data ==> r == Ok([])
    ensures !readFails && StorageKey in data && data[StorageKey] == Malformed ==> r == Err(ParseFailed)
    ensures forall es :: !readFails && StorageKey in data && data[StorageKey] == Saved(es) ==> r == Ok(es)
  {
    forall es ensures LoadArray(Ok(Some(Saved(es))), DecodeEntry) == Ok(es) {
      RegistryRoundTrip(es);
    }
    LoadArray(Read(data, StorageKey, readFails), DecodeEntry)
  }

  /** The value a registry list is written as. */
  function Saved(es: seq<ListEntry>): Stored {
    Document(EncodeArray(es, EncodeEntry))
  }

  /** The home screen: the displayed registry, the pending `newItem` route parameter and the shared store. */
  class HomeScreen {
    var items: seq<ListEntry>
    var newItem: Option<ListEntry>
    const store: Store

    /** A freshly mounted screen shows nothing until its first refresh. */
    constructor (store: Store, newItem: Option<ListEntry>)
      ensures this.store == store && items == [] && this.newItem == newItem
    {
      this.store := store;
      this.items := [];
      this.newItem := newItem;
    }

    /**
     * `handleRefresh`, run whenever the screen gains focus. A failed read or
     * parse is caught before the parameter is consumed and leaves everything
     * as it was. Otherwise the parameter is cleared, the merged list is
     * written only when the entry was appended, and it is displayed unless
     * that write failed (the failure skips the display update).
     */
    method Refresh(readFails: bool, writeFails: bool)
      modifies this, store
      ensures var loaded := Loaded(old(store.data), readFails);
        var appends := loaded.Ok? && old(newItem).Some? && !IsDuplicate(loaded.value, old(newItem).value);
        && newItem == (if loaded.Ok? then None else old(newItem))
        && store.data == (if appends && !writeFails
                          then old(store.data)[StorageKey := Saved(Merge(loaded.value, old(newItem)))]
                          else old(store.data))
        && items == (if loaded.Ok? && !(appends && writeFails) then Merge(loaded.value, old(newItem)) else old(items))
    {
      var stored := store.GetItem(StorageKey, readFails);
      var loaded := LoadArray(stored, DecodeEntry);
      if loaded.Err? {
        return;
      }
      var parsed := loaded.value;
      if newItem.Some? {
        var e := newItem.value;
        newItem := None;
        if !IsDuplicate(parsed, e) {
          parsed := parsed + [e];
          var ok := store.SetItem(StorageKey, Saved(parsed), writeFails);
          if !ok {
            return;
          }
        }
      }
      items := parsed;
    }

    /** `handleDelete`: displays the list without position `index`, then writes it. */
    method Delete(index: int, writeFails: bool)
      modifies this, store
      ensures newItem == old(newItem)
      ensures items == Sequences.RemoveAt(old(items), index)
      ensures store.data == if writeFails then old(store.data) else old(store.data)[StorageKey := Saved(items)]
    {
      var updated := Sequences.RemoveAt(items, index);
      items := updated;
      var _ := store.SetItem(StorageKey, Saved(updated), writeFails);
    }

    /** `handleComplete`: toggles and writes a task; a checklist entry is neither changed nor written. */
    method Complete(index: nat, writeFails: bool)
      requires index < |items|
      modifies this, store
      ensures newItem == old(newItem)
      ensures items == Toggle(old(items), index)
      ensures store.data == if old(items)[index].kind == Checklist || writeFails then old(store.data)
                            else old(store.data)[StorageKey := Saved(items)]
    {
      if items[index].kind == Task {
        items := Toggle(items, index);
        var _ := store.SetItem(StorageKey, Saved(items), writeFails);
      }
    }
  }
}
