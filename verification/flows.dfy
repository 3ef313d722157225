/** How the screens hand data to each other through navigation and callbacks. */
module Flows {
  import opened Wrappers
  import opened Storage
  import opened Text
  import Home
  import AddForm
  import ItemInput
  import ChecklistApp

  /**
   * Submitting the creation form replaces it with a fresh home screen whose
   * `newItem` parameter holds the entry; that screen's focus refresh then
   * merges the entry into the registry. A rejected submit navigates nowhere.
   */
  method SubmitNewList(form: AddForm.AddScreen, store: Store, readFails: bool, writeFails: bool)
    returns (home: Home.HomeScreen?)
    modifies form, store
    ensures home == null <==> AddForm.Accept(old(form.inputText), old(form.selectedType)).None?
    ensures home == null ==>
      && store.data == old(store.data)
      && form.inputText == old(form.inputText) && form.selectedType == old(form.selectedType)
    ensures home != null ==>
      && fresh(home) && home.store == store
      && form.inputText == [] && form.selectedType == None
    ensures home != null ==>
      var e := AddForm.Accept(old(form.inputText), old(form.selectedType)).value;
      var loaded := Home.Loaded(old(store.data), readFails);
      var appends := loaded.Ok? && !Home.IsDuplicate(loaded.value, e);
      && home.newItem == (if loaded.Ok? then None else Some(e))
      && store.data == (if appends && !writeFails
                        then old(store.data)[Home.StorageKey := Home.Saved(Home.Merge(loaded.value, Some(e)))]
                        else old(store.data))
      && home.items == (if loaded.Ok? && !(appends && writeFails) then Home.Merge(loaded.value, Some(e)) else [])
    ensures home != null && Home.Loaded(old(store.data), readFails).Ok? && !writeFails ==>
      Home.IsDuplicate(home.items, AddForm.Accept(old(form.inputText), old(form.selectedType)).value)
  {
    var newItem := form.Submit();
    if newItem.None? {
      return null;
    }
    home := new Home.HomeScreen(store, newItem);
    home.Refresh(readFails, writeFails);
  }

  /**
   * Selecting an entry on the home screen: a checklist opens its item screen,
   * loaded from the key derived from the entry's name; a task opens nothing.
   */
  method SelectEntry(home: Home.HomeScreen, index: nat, readFails: bool) returns (screen: ChecklistApp.ChecklistScreen?)
    requires index < |home.items|
    ensures screen == null <==> home.items[index].kind == Home.Task
    ensures screen != null ==>
      && fresh(screen)
      && screen.listName == home.items[index].name
      && screen.store == home.store
      && screen.items == ChecklistApp.LoadItems(Read(home.store.data, ChecklistApp.StorageKey(screen.listName), readFails))
  {
    match Home.Select(home.items[index])
    case OpenChecklist(listName) =>
      screen := new ChecklistApp.ChecklistScreen(home.store, listName, readFails);
    case ShowTask(_) =>
      screen := null;
  }

  /**
   * The input's submit calls the screen's add handler with the untrimmed
   * text. Whatever the input forwards is never blank, so the handler's own
   * blank check never rejects it and exactly one item is appended.
   */
  method SubmitItem(input: ItemInput.InputHandler, screen: ChecklistApp.ChecklistScreen, now: nat, writeFails: bool)
    modifies input, screen, screen.store
    ensures IsBlank(old(input.text)) ==>
      && screen.items == old(screen.items)
      && screen.store.data == old(screen.store.data)
      && input.text == old(input.text)
    ensures !IsBlank(old(input.text)) ==>
      && screen.items == old(screen.items) + [ChecklistApp.ChecklistItem(old(input.text), false, now, None)]
      && input.text == []
      && screen.store.data == if writeFails then old(screen.store.data)
                              else old(screen.store.data)[ChecklistApp.StorageKey(screen.listName) := ChecklistApp.Saved(screen.items)]
  {
    var forwarded := input.Submit();
    if forwarded.Some? {
      screen.AddItem(forwarded.value, now, writeFails);
    }
  }
}
