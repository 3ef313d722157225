# Checklist app: registry and item store

A model of the state logic of a React Native checklist app. The home screen
keeps a registry of named tasks and checklists under the storage key
`ALL_ITEMS`. New entries come back from a creation form as a transient
navigation parameter and are merged into the registry on every focus, with
duplicates dropped. Tasks can be toggled complete and entries deleted by
position. Each checklist keeps its items under `CHECKLIST_ITEMS_<listName>`.
Items are added from a one-field input, toggled (which records or clears a
completion time) and deleted by position. Every change replaces the displayed
list and then writes the whole list back to the key-value store.

Modules:

- `Text`: JavaScript's `trim`, with ECMAScript's whitespace and line-terminator code points.
- `Sequences`: removal by position, the `filter((_, i) => i !== index)` both screens use.
- `Storage`: the key-value store as a class over `map<string, Stored>`. It also holds JSON documents as value trees, generic array encoding and decoding, and the load rule "absent key gives `[]`".
- `Home`: the registry entry, its stored form, merge, toggle, delete, selection, and the `HomeScreen` class.
- `ChecklistApp`: the checklist item, the per-list key, add, toggle, delete, load and save, and the `ChecklistScreen` class.
- `AddForm`: the creation form's `AddScreen` class and its acceptance rule.
- `ItemInput`: the item input's `InputHandler` class and its forwarding rule.
- `Flows`: how the screens call each other: form to home screen, home screen to item screen, input to item screen.
- `Scenarios`: concrete runs of merge, toggle, add and delete.

Failures of the store (a rejected `getItem` or `setItem`) are boolean
parameters of the operations. The clock (`Date.now()`) is a `now` parameter.

Two details of the item store follow the code as written:

- Adding an item stores the text exactly as typed, not trimmed.
- Blank item text is dropped silently; nothing is logged.

## Model

| member | source | states |
|---|---|---|
| Text.Trim | src/screens/AddScreen.tsx:21 | the trimmed string is no longer than the input and neither starts nor ends with whitespace |
| Text.TrimIsInfix | src/screens/AddScreen.tsx:21 | the trimmed string is the infix of the input that starts right after its leading whitespace |
| Text.TrimCharacterized | src/screens/AddScreen.tsx:21 | the input is the trimmed string with whitespace-only text before and after it |
| Text.TrimEmptyIff | src/Components/ChecklistInputHandler.tsx:14 | trimming yields the empty string exactly when every character is whitespace |
| Text.IsBlank | src/Components/ChecklistInputHandler.tsx:14 | the `trim() === ''` test holds exactly for strings made only of whitespace |
| Text.BlankIff | src/screens/CheckListAppScreen.tsx:64 | a string counts as blank exactly when it has no character other than whitespace |
| Text.TrimIdempotent | src/screens/AddScreen.tsx:25 | trimming a trimmed string changes nothing |
| Sequences.RemoveAt | src/screens/HomeScreen.tsx:66 | deleting an in-range position gives the list without exactly that element; an out-of-range index leaves the list unchanged |
| Sequences.RemoveAtShifts | src/screens/CheckListAppScreen.tsx:77 | after a delete the list is one shorter, earlier elements keep their positions, later ones move one place forward in the same order |
| Sequences.RemoveAtSubset | src/screens/CheckListAppScreen.tsx:77 | a delete introduces no element that was not already in the list |
| Storage.Read | src/screens/HomeScreen.tsx:42 | a read succeeds unless the store fails, and yields the key's value exactly when the key is present |
| Storage.LoadArray | src/screens/HomeScreen.tsx:43 | an absent key loads as the empty list; a failed read or unparsable text yields an error |
| Storage.DecodeEncodeAll | src/screens/HomeScreen.tsx:43 | decoding the encoded elements of an array gives back the elements in order, when element decoding undoes element encoding |
| Storage.LoadAfterSave | src/screens/CheckListAppScreen.tsx:40 | a list written through an encoding that its decoding undoes reads back as the same list |
| Storage.Store.GetItem | src/screens/CheckListAppScreen.tsx:48 | returns the value stored under the key, absent, or a read failure |
| Storage.Store.SetItem | src/screens/CheckListAppScreen.tsx:40 | a successful write replaces the key's whole value and touches no other key; a failed one changes nothing |
| Storage.Store.constructor | src/screens/CheckListAppScreen.tsx:13 | the store starts holding exactly the given key-value contents |
| Home.DecodeEncodeEntry | src/screens/HomeScreen.tsx:21-25 | each registry entry, with or without its completion flag, reads back from its stored form unchanged |
| Home.EncodeEntry | src/screens/HomeScreen.tsx:55 | an entry is stored as an object with its `name` and its `type` ("task" or "checklist"), plus `completed` exactly when the flag is present, and no other field |
| Home.DecodeEntry | src/screens/HomeScreen.tsx:43 | a parsed record is read as an entry exactly when it is an object with a string name, a type of "task" or "checklist" and a boolean or absent `completed`; the entry carries those field values |
| Home.RegistryRoundTrip | src/screens/HomeScreen.tsx:55 | the registry list written under `ALL_ITEMS` loads back as the same list, field for field |
| Home.Loaded | src/screens/HomeScreen.tsx:42-43 | reading the registry key `ALL_ITEMS`: a failed read is an error, an absent key loads as `[]`, unparsable text is a parse error, and a saved registry loads as itself |
| Home.IsDuplicate | src/screens/HomeScreen.tsx:50-52 | the front-to-back scan finds a duplicate exactly when some loaded entry has both the same name and the same kind |
| Home.Merge | src/screens/HomeScreen.tsx:47-56 | the result is the loaded list or that list plus the incoming entry at the end; it grows exactly when an entry is present and no loaded entry has its name and kind; afterwards the entry is always present |
| Home.MergeIdempotent | src/screens/HomeScreen.tsx:50-55 | merging the same entry into the merged list again changes nothing |
| Home.MergeKeepsUnique | src/screens/HomeScreen.tsx:50-54 | if no two loaded entries share name and kind, the merged list has no such pair either |
| Home.Flipped | src/screens/HomeScreen.tsx:75 | the negated flag is true exactly when the flag was not `true`, so an absent flag becomes true |
| Home.Toggle | src/screens/HomeScreen.tsx:71-79 | on a task, the flag at the index is negated (absent counts as false) and no other field or entry changes; on a checklist entry the list is unchanged |
| Home.ToggleTwice | src/screens/HomeScreen.tsx:75 | toggling a task twice restores a present flag and turns an absent flag into `false` |
| Home.ToggleKeepsUnique | src/screens/HomeScreen.tsx:72-76 | toggling keeps the registry free of name-and-kind duplicates |
| Home.RemoveKeepsUnique | src/screens/HomeScreen.tsx:66 | deleting keeps the registry free of name-and-kind duplicates |
| Home.Select | src/screens/HomeScreen.tsx:81-87 | selecting a checklist opens the list under the entry's name; selecting a task never navigates |
| Home.HomeScreen.constructor | src/screens/HomeScreen.tsx:30-32 | a mounted home screen shows an empty list and holds the route's pending entry |
| Home.HomeScreen.Refresh | src/screens/HomeScreen.tsx:40-63 | a failed read or parse leaves list, parameter and store as they were. Otherwise the pending entry is cleared before the duplicate check. The registry key is rewritten only when the entry was appended. The displayed list becomes the merged list unless that write failed |
| Home.HomeScreen.Delete | src/screens/HomeScreen.tsx:65-69 | the displayed list loses exactly position `index` and the new list is written under `ALL_ITEMS` unless the write fails |
| Home.HomeScreen.Complete | src/screens/HomeScreen.tsx:71-79 | the displayed list becomes the toggled list; it is written only for a task entry and only if the write succeeds |
| ChecklistApp.StorageKeyInjective | src/screens/CheckListAppScreen.tsx:36 | two list names with the same storage key are the same name |
| ChecklistApp.StorageKey | src/screens/CheckListAppScreen.tsx:36 | a list's key is `CHECKLIST_ITEMS_` followed by the list's name, and nothing else |
| ChecklistApp.StorageKeyNotRegistry | src/screens/HomeScreen.tsx:27 | no list's storage key equals `ALL_ITEMS` |
| ChecklistApp.DecodeEncodeItem | src/screens/CheckListAppScreen.tsx:25-29 | each item, with or without a completion time, reads back from its stored form unchanged |
| ChecklistApp.EncodeItem | src/screens/CheckListAppScreen.tsx:40 | an item is stored as an object with its `text`, `completed` and `createdAt`, plus `completedAt` exactly when a completion time is present, and no other field |
| ChecklistApp.DecodeItem | src/screens/CheckListAppScreen.tsx:49 | a parsed record is read as an item exactly when it is an object with a string text, a boolean `completed`, a numeric `createdAt` and a numeric or absent `completedAt`; the item carries those field values |
| ChecklistApp.ItemsRoundTrip | src/screens/CheckListAppScreen.tsx:38-54 | the item list written under a list's key loads back as the same list |
| ChecklistApp.LoadItems | src/screens/CheckListAppScreen.tsx:46-54 | an absent key, a failed read and unparsable text all load as the empty list; a saved list loads as itself |
| ChecklistApp.Add | src/screens/CheckListAppScreen.tsx:63-71 | blank text leaves the list unchanged; otherwise exactly one item is appended with the untrimmed text, not completed, no completion time and created at `now`, and earlier items are untouched |
| ChecklistApp.Flip | src/screens/CheckListAppScreen.tsx:85-89 | the flipped item has the negated flag, keeps text and creation time, and has completion time `now` if it is now complete and none otherwise |
| ChecklistApp.ToggleAt | src/screens/CheckListAppScreen.tsx:82-93 | the length is kept, the item at `index` is flipped and every other item is unchanged; an out-of-range index changes nothing |
| ChecklistApp.AddKeepsWellFormed | src/screens/CheckListAppScreen.tsx:65-71 | add establishes "completed iff a completion time is present" for the new item and keeps it for the others |
| ChecklistApp.ToggleKeepsWellFormed | src/screens/CheckListAppScreen.tsx:83-93 | toggle preserves "completed iff a completion time is present" |
| ChecklistApp.RemoveKeepsWellFormed | src/screens/CheckListAppScreen.tsx:77 | delete preserves "completed iff a completion time is present" |
| ChecklistApp.ToggleTwiceFromOpen | src/screens/CheckListAppScreen.tsx:85-89 | toggling an open item twice gives back the original list, whatever the two times |
| ChecklistApp.ChecklistScreen.constructor | src/screens/CheckListAppScreen.tsx:56-61 | mounting loads the list's items from its own key |
| ChecklistApp.ChecklistScreen.Save | src/screens/CheckListAppScreen.tsx:38-44 | writes the whole list under the list's key; a failed write changes nothing and is not reported |
| ChecklistApp.ChecklistScreen.AddItem | src/screens/CheckListAppScreen.tsx:63-74 | blank text changes neither the list nor the store; otherwise the list becomes the added list and is written; the completion invariant is kept |
| ChecklistApp.ChecklistScreen.Delete | src/screens/CheckListAppScreen.tsx:76-80 | the list loses exactly position `index` and is written; a failed write does not roll back the list; the completion invariant is kept |
| ChecklistApp.ChecklistScreen.Complete | src/screens/CheckListAppScreen.tsx:82-96 | the list becomes the toggled list and is written, also when `index` matched nothing; the completion invariant is kept |
| AddForm.Accept | src/screens/AddScreen.tsx:20-26 | a submit yields an entry exactly when the trimmed text is non-empty and a kind is selected; the entry has the trimmed text as name, the selected kind and no flag; the name is non-empty with no whitespace at either end |
| AddForm.AcceptedNameIsTrimmed | src/screens/AddScreen.tsx:21-25 | an emitted name is its own trim |
| AddForm.AddScreen.constructor | src/screens/AddScreen.tsx:17-18 | the form starts with empty text and no kind |
| AddForm.AddScreen.ChangeText | src/screens/AddScreen.tsx:103-104 | typing sets the text and keeps the kind |
| AddForm.AddScreen.SelectType | src/screens/AddScreen.tsx:53-74 | pressing a kind button selects that kind and keeps the text |
| AddForm.AddScreen.Submit | src/screens/AddScreen.tsx:20-30 | emits the accepted entry; an accepted submit resets the text to empty and the kind to none, a rejected one leaves both as they were |
| ItemInput.Forward | src/Components/ChecklistInputHandler.tsx:13-17 | text is forwarded exactly when it holds a non-whitespace character, and then unchanged |
| ItemInput.InputHandler.constructor | src/Components/ChecklistInputHandler.tsx:10 | the field starts empty |
| ItemInput.InputHandler.ChangeText | src/Components/ChecklistInputHandler.tsx:75 | typing sets the text |
| ItemInput.InputHandler.Submit | src/Components/ChecklistInputHandler.tsx:13-17 | non-blank text is forwarded once, untrimmed, and the field is cleared; blank text is not forwarded and the field is kept |
| Flows.SubmitNewList | src/screens/AddScreen.tsx:24-29 | a rejected submit opens no home screen and changes neither the form nor the store. An accepted one resets the form and opens a fresh home screen whose refresh consumes the entry: on a successful read it shows the merged registry (or `[]` if the append's write failed), and `ALL_ITEMS` is rewritten only when the entry was appended and the write succeeded |
| Flows.SelectEntry | src/screens/HomeScreen.tsx:83 | selecting a checklist entry opens an item screen for that name, loaded from the name's own key; a task opens none |
| Scenarios.ErrandsTask | src/screens/HomeScreen.tsx:47-56 | merging a task into an empty registry gives that one entry; toggling it gives `completed: true`, and toggling again gives `completed: false` |
| Scenarios.GroceriesDuplicate | src/screens/HomeScreen.tsx:50-53 | merging an entry already present by name and kind leaves the registry unchanged |
| Scenarios.AddMilk | src/screens/CheckListAppScreen.tsx:63-71 | adding "Milk" to an empty list gives one open item created at the given time; adding "" changes nothing |
| Scenarios.RemoveFirstOfTwo | src/screens/CheckListAppScreen.tsx:77 | deleting position 0 of a two-item list leaves only the second item, now at position 0 |
| Flows.SubmitItem | src/screens/CheckListAppScreen.tsx:107 | blank input changes neither the list, the store nor the input field. Non-blank input clears the field and appends exactly one item with the untrimmed text, then writes the whole list under the list's key unless the write fails; the screen's own blank check never rejects forwarded text |

## Left out

- Rendering: JSX, styles, gradients, the check box, the task alert and the timestamp labels (`src/Components/Checklist.tsx`). `Home.Select` returns `ShowTask` where the source shows an alert.
- `src/screens/WelcomeScreen.tsx` (animation timing) and `src/App.tsx` (navigator wiring) are not part of this model.
- JSON text: stored values are JSON value trees, not strings. `Malformed` stands for any text that `JSON.parse` rejects. An empty stored string, which the `stored ?` test treats like an absent key, is not modelled, since the app never writes one.
- Storage.LoadArray: valid JSON that is not an array of records of the expected shape is treated as a failed parse. The source would carry such a value on as whatever `JSON.parse` returned.
- Home.HomeScreen.Complete: requires an in-range index. The source throws a `TypeError` on an out-of-range index, and nothing catches it.
- Asynchrony: each handler is atomic. Interleavings of the awaited and fire-and-forget writes are not modelled. Neither is the window between mounting a checklist screen and its load completing.
- Store failures are boolean parameters; the error values and `console.error` logging are not modelled.
- `Date.now()` is the `now` parameter. Numbers are unbounded integers, not JavaScript doubles.
- Strings are sequences of Unicode scalar values, where JavaScript strings are UTF-16 code units. For well-formed text nothing observable changes, since every whitespace character `trim` strips lies in the Basic Multilingual Plane. Lone surrogates cannot be represented.
- The commented-out voice-recognition code and the unused `subItems` field are dead code.
