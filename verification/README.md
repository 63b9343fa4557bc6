# To-do list state machine

A Dafny model of the state logic of a small React to-do app (`src/App.tsx`).
The component's state is a pair: an insertion-ordered list of `Todo` records
`{id, title, completed}`, and the form's edit session `{isEditing,
updateItemId, title, isCompleted}`. Every user action is a pure function from
state to state:

- `Submit` (the form's submit handler): a blank draft does nothing; otherwise
  the draft is appended as a new record or, while editing, overwrites every
  record with the target id; the session then resets.
- `CancelEdit`, `StartEdit`, `Toggle`, `Delete`: the cancel, edit, toggle and
  delete handlers.
- `TypeTitle`, `CheckDraft`: the form inputs' change handlers, which fill the
  draft.
- `Hydrate` / `Load`: start-up hydration from a previously saved list, which
  replaces the empty initial list only when the saved list is non-empty.
- Persistence: the effect that stores the list after every change is modelled
  by reloading from `Some(todos)` (`App.ReloadRoundTrip`).

Files: `Wrappers.dfy` (an `Option` for values that may be `undefined`),
`Text.dfy` (JavaScript's `String.prototype.trim` and "all white space"),
`TodoList.dfy` (the record and the three per-id list operations),
`App.dfy` (session, handlers, hydration, an action runner and the reachability
invariants).

Ids are modelled as `int`. Ids are not unique in the source, so every
operation and property covers all records that carry an id. The fresh id of
an add is a parameter, in place of `Math.random()`.

Clearing the list writes `[]` to storage (`src/App.tsx:36-42`). A reload then
keeps the empty initial list, so it gives back exactly what was saved
(`App.ReloadRoundTrip`). Cancelling an edit keeps `updateItemId`
(`src/App.tsx:78-82`; `App.CancelEdit`, `App.CancelThenSubmitAdds`).

## Model

| member | source | states |
|---|---|---|
| Text.TrimStart | src/App.tsx:47 | the result is a suffix of the input; every dropped character is white space; the result is empty or starts with a non-white character |
| Text.TrimEnd | src/App.tsx:47 | the result is a prefix of the input; every dropped character is white space; the result is empty or ends with a non-white character |
| Text.Trim | src/App.tsx:47 | `title.trim()` is the empty string if and only if every character of `title` is white space |
| Text.TrimIsTrimmed | src/App.tsx:47 | a trimmed string has no white space at either end |
| TodoList.Flipped | src/App.tsx:88 | the spread copy keeps id and title and negates `completed` |
| TodoList.ReplaceById | src/App.tsx:66-68 | the map keeps the length; each position whose record has the id holds the replacement; every other position keeps its record |
| TodoList.ToggleById | src/App.tsx:85-93 | the map keeps the length; each record with the id is flipped in place; every other position keeps its record |
| TodoList.RemoveById | src/App.tsx:107 | a record is in the result iff it was in the list and has a different id; the length drops by the number of records with the id; the result is a subsequence of the list (order kept) |
| TodoList.ToggleTwice | src/App.tsx:84-94 | toggling the same id twice gives back the original list |
| TodoList.AbsentIdUntouched | src/App.tsx:66-93 | replacing or toggling an id that no record has leaves the list unchanged |
| TodoList.RemoveAbsent | src/App.tsx:106-108 | deleting an id that no record has leaves the list unchanged |
| TodoList.RemoveTwice | src/App.tsx:106-108 | deleting the same id twice is the same as deleting it once |
| TodoList.RemoveConcat | src/App.tsx:107 | filtering a concatenation is the concatenation of the filtered parts, so the kept records keep their relative order |
| App.Submit | src/App.tsx:44-76 | a blank draft leaves list and session unchanged; otherwise the session becomes idle and, when not editing, exactly one record `{freshId, title, isCompleted}` is appended after the unchanged old list; when editing a defined target, the length is kept, records with the target id become `{target, title, isCompleted}` and all others stay; when editing with no target the list is unchanged |
| App.CancelEdit | src/App.tsx:78-82 | leaves editing and clears the draft title and flag, keeps `updateItemId`, and does not touch the list |
| App.Toggle | src/App.tsx:84-94 | records with the id keep id and title and have `completed` negated; other records, the length and the session are unchanged |
| App.StartEdit | src/App.tsx:96-104 | enters editing with the draft loaded from the item and the item's id as target; the list is unchanged |
| App.Delete | src/App.tsx:106-108 | no record with the id remains and every other record does; the length drops by their number; order is kept; the session is unchanged |
| App.TypeTitle | src/App.tsx:129 | only the draft title changes |
| App.CheckDraft | src/App.tsx:121 | only the draft completed flag changes |
| App.Hydrate | src/App.tsx:21-34 | a stored non-empty list replaces the current list; a missing, unparseable or empty stored list keeps the current one |
| App.Load | src/App.tsx:13-34 | a freshly loaded page has an idle session and the stored list when it is non-empty, else the empty list |
| App.ReloadRoundTrip | src/App.tsx:21-42 | loading the page from a saved list gives back exactly that list, the empty list included (the empty case keeps the empty initial list) |
| App.StepConsistent | src/App.tsx:44-108 | no handler can leave the form editing without a target id |
| App.RunConsistent | src/App.tsx:44-108 | after any sequence of user actions, editing still implies a defined target id |
| App.ReachableConsistent | src/App.tsx:16-19 | every state reachable from a loaded page has a target whenever it is editing |
| App.StepKeepsTitles | src/App.tsx:44-108 | no handler brings a record with an all-white-space title into a list that has none |
| App.RunKeepsTitles | src/App.tsx:44-108 | after any sequence of user actions the list still has no record with an all-white-space title |
| App.ReachableTitlesNonBlank | src/App.tsx:47 | on a page loaded from a stored list without blank titles, every reachable list has only non-blank titles: the submit guard keeps blank drafts out |
| App.EditingSubmitUpdates | src/App.tsx:58-69 | on a `Consistent` state (every reachable one, `App.ReachableConsistent`) a non-blank submit while editing always overwrites the target, so the branch with an undefined target is dead |
| App.EditUnchangedIsIdentity | src/App.tsx:96-104 | editing a record and submitting it unchanged keeps the list, for any title (a blank one submits nothing), when every record with that id equals it |
| App.CancelThenSubmitAdds | src/App.tsx:78-82 | after cancelling an edit the target id is still set, yet the next non-blank submit appends a new record |
| App.BuyMilk | src/App.tsx:44-108 | adding "Buy milk" yields a one-record list; toggling its id completes it; deleting its id empties the list |

## Left out

- Local storage and JSON: reading, `JSON.parse` and `JSON.stringify` are browser and library calls. Hydration takes an already-parsed optional list, where `None` covers a missing key, an empty string and text that does not parse (the caught exception). A parsed value that is not an array of todos is not modelled.
- App.ReloadRoundTrip: the write is modelled as storing the list itself: `JSON.stringify` followed by `JSON.parse` is taken as the identity on `{id, title, completed}`, so the stored value is `Some(todos)` by definition. A failed write (quota exceeded, caught and logged) leaves the previous contents in storage; the model's write always succeeds, so the round trip is stated only for writes that succeed.
- Stored records with extra fields: the toggle's spread copy keeps them and the submit's overwrite drops them; `Todo` has exactly three fields.
- `Math.random()` id generation: floating point and nondeterministic, so the fresh id is a parameter; ids are integers compared by equality.
- React scheduling: rendering, batching of state updates, stale closures, effect ordering and double-run effects are not modelled; each handler is one atomic transition over the current state.
- DOM wiring: the cancel button has no `type="button"`, so a browser may also submit the form after the cancel handler, depending on whether the button is still mounted when its default action runs; the title input's `required` attribute; `preventDefault`. The model treats cancel and submit as separate actions.
- `src/components/Item.component.tsx` is presentation: its local checkbox mirror and its buttons only forward to the toggle, edit and delete handlers.
- UTF-16 strings: a JavaScript title is a sequence of UTF-16 code units and may hold a lone surrogate, which a Dafny `string` of Unicode scalar values cannot represent. Every trimmable code point lies in the Basic Multilingual Plane and none is a surrogate, so `IsBlank` is unaffected.
- `console.log` / `console.error` output and styling.
