# To-do dashboard: client-side reconciliation, modelled in Dafny

This project models the client logic of a small authenticated to-do web
application whose rows live in a hosted table store. Three parts are modelled:

- **The synchronisation hook** (`useTodos`). It holds the session's list of
  todos and a `loading` flag. It has four operations: fetch, create, update
  and delete. Fetch and create do nothing at all when no user is signed in.
  Otherwise, and for update and delete always, each operation sends one
  request to the remote store. The local list changes only after that request
  has succeeded:
  - fetch replaces the list;
  - create puts the returned row at the front;
  - update replaces every entry with the id by the returned row;
  - delete filters out every entry with the id.

  On an error the list is kept and an error toast is raised.
- **The list component** (`TodoList`). It chooses between the loading card,
  the empty-state card, and two sections. The active section comes first and
  the completed section second. Each section is shown only when it is
  non-empty, with its count in the heading.
- **The item component** (`TodoItem`). It holds the per-item edit state
  (`isEditing`, `editTitle`, `editDescription`) and the handlers for save,
  cancel, toggle and delete. Only save, toggle and delete report to the
  parent, through the `onUpdate` and `onDelete` callbacks. A refused save
  changes nothing; cancel and the edit button change only the local edit
  state.

The remote store is not modelled. Each hook operation takes the outcome of its
one remote call as a parameter, `Ok(payload)` or `Err`. The signed-in user is
also a parameter: `Some(userId)` or `None`. The requests the hook sends and
the toasts it raises are recorded in ghost logs. The callbacks the item calls
are recorded the same way.

Files and modules:

| file | module | models |
|---|---|---|
| `seqs.dfy` | `Seqs` | JavaScript's `filter` and `map` on arrays, with subsequence, partition and idempotence lemmas |
| `todo.dfy` | `TodoModel` | the `Todo` row, the partial update, the remote outcome, and the update and delete list updaters |
| `todo_sync.dfy` | `TodoSync` | the hook, as class `TodoStore` |
| `todo_list.dfy` | `TodoListView` | the completed/active filters and the choice of view |
| `trim.dfy` | `TextTrim` | `String.prototype.trim` over a simplified whitespace set |
| `todo_item.dfy` | `TodoItemEditor` | the item's edit controller, as class `TodoItemController`, and the save payload |
| `scenario.dfy` | `Scenario` | a client that wires the item's callbacks to the hook, as the page does |

Where the intended behaviour and the code differ, the model follows the code:

- The intended behaviour is that delete removes exactly one entry. The code
  filters out *every* entry with the id. `RemoveById` models the filter.
  `RemovePresentUnique` proves the "exactly one" reading, but only under the
  extra assumption that ids are unique. The client never enforces that.
- The intended list keeps titles non-empty and ids unique. The hook checks
  neither: `createTodo` sends whatever title it is given, and the
  list holds whatever rows the store returns. Neither is stated as an
  invariant of `TodoStore`.
- `updateTodo` and `deleteTodo` have no user guard. `fetchTodos` and
  `createTodo` do. So `UpdateTodo` and `DeleteTodo` take no user parameter.
  They always send their request, and on success they change the list.

## Model

| member | source | states |
|---|---|---|
| `Seqs.Filter` | src/components/TodoList.tsx:34-35 | the result is no longer than the input; every element kept is in the input and passes the test; every input element that passes is kept |
| `Seqs.Map` | src/hooks/useTodos.ts:90 | the length is kept, and position `i` of the result is `f` applied to position `i` of the input |
| `Seqs.FilterIsSubsequence` | src/hooks/useTodos.ts:114 | filtering keeps the survivors in their original relative order |
| `Seqs.FilterKeepsAll` | src/hooks/useTodos.ts:114 | when every element passes, filtering returns the input unchanged |
| `Seqs.FilterIdempotent` | src/hooks/useTodos.ts:114 | filtering twice with one test equals filtering once |
| `Seqs.FilterPartition` | src/components/TodoList.tsx:34-35 | filtering by a test and by its negation splits the multiset of elements exactly, so the two lengths add up to the input length |
| `Seqs.Reversed` | src/hooks/useTodos.ts:64 | position `i` of the result is position `n-1-i` of the input |
| `TodoModel.ReplaceById` | src/hooks/useTodos.ts:90 | update reconciliation: the length is kept; every entry with the id becomes the returned row; every other entry is unchanged in place |
| `TodoModel.RemoveById` | src/hooks/useTodos.ts:114 | delete reconciliation: no survivor has the id; every survivor comes from the old list; every old entry without the id survives |
| `TodoModel.ReplaceAbsentId` | src/hooks/useTodos.ts:90 | updating an id that no entry has leaves the list identical |
| `TodoModel.ReplaceKeepsIds` | src/hooks/useTodos.ts:90 | if the returned row keeps its id, the set of ids is unchanged, and every entry with that id is the returned row |
| `TodoModel.RemoveKeepsOrder` | src/hooks/useTodos.ts:114 | after a delete the list is a subsequence of the old list |
| `TodoModel.RemoveCounts` | src/hooks/useTodos.ts:114 | the survivors of a delete and the entries carrying the id together make up exactly the old list as a multiset, so every surviving entry keeps its number of occurrences |
| `TodoModel.RemoveIds` | src/hooks/useTodos.ts:114 | after a delete the ids are exactly the old ids minus the deleted id |
| `TodoModel.RemoveAbsentId` | src/hooks/useTodos.ts:114 | deleting an id that no entry has leaves the list identical |
| `TodoModel.RemoveIdempotent` | src/hooks/useTodos.ts:114 | deleting the same id twice equals deleting it once |
| `TodoModel.RemovePresentUnique` | src/hooks/useTodos.ts:114 | with unique ids and the id present, delete cuts out exactly the one entry with that id and shortens the list by one |
| `TodoSync.TodoStore.constructor` | src/hooks/useTodos.ts:17-18 | initially the list is empty and `loading` is true; no request or toast has happened yet |
| `TodoSync.TodoStore.FetchTodos` | src/hooks/useTodos.ts:22-44 | without a user nothing changes, `loading` included; otherwise one select is sent and `loading` ends false; on success the list becomes the payload, or empty when the payload is null, with no toast; on error the list is kept and one error toast is raised |
| `TodoSync.TodoStore.CreateTodo` | src/hooks/useTodos.ts:46-77 | without a user nothing changes; otherwise one insert of title, description and owner is sent; on success the list is `[row] + old` and one success toast is raised; on error the list is kept and one error toast is raised |
| `TodoSync.TodoStore.UpdateTodo` | src/hooks/useTodos.ts:79-103 | with or without a user, one update request for the id is sent; on success the list is `ReplaceById(old, id, row)` and one success toast is raised; on error the list is kept and one error toast is raised |
| `TodoSync.TodoStore.DeleteTodo` | src/hooks/useTodos.ts:105-127 | with or without a user, one delete request for the id is sent; on success the list is `RemoveById(old, id)` and one success toast is raised; on error the list is kept and one error toast is raised |
| `TodoSync.CreatesNewestFirst` | src/hooks/useTodos.ts:64 | `AfterCreates`, the list after a series of successful prepends, has the created rows first, newest first (in reverse call order), followed by the starting list |
| `TodoSync.CreateInTurn` | src/hooks/useTodos.ts:46-77 | a signed-in user calls `TodoStore.CreateTodo` for each row in turn, and every insert succeeds. Exactly one insert per row is sent, in call order, with the row's title and description and the user as owner. Afterwards the store holds the rows newest first ahead of the starting list, which equals `AfterCreates` of that list. One success toast is raised per row, and `loading` is unchanged |
| `TodoListView.CompletedTodos` | src/components/TodoList.tsx:34 | holds exactly the entries that are completed |
| `TodoListView.ActiveTodos` | src/components/TodoList.tsx:35 | holds exactly the entries that are not completed |
| `TodoListView.SectionOf` | src/components/TodoList.tsx:39-57 | a section is shown if and only if it has items; its heading count is its number of items |
| `TodoListView.Render` | src/components/TodoList.tsx:13-71 | while loading, the loading view whatever the list holds; loaded and empty, the empty-state view; otherwise the active section then the completed section |
| `TodoListView.PartitionCovers` | src/components/TodoList.tsx:34-35 | the two sections split the list's multiset exactly; their lengths add up to the list length; no entry is in both |
| `TodoListView.PartitionKeepsOrder` | src/components/TodoList.tsx:34-35 | each section is a subsequence of the list |
| `TodoListView.NonEmptyListShowsSections` | src/components/TodoList.tsx:37-70 | a loaded non-empty list shows at least one section, and the two heading counts add up to the number of todos |
| `TodoListView.CompletedUpdateLandsInCompleted` | src/components/TodoList.tsx:34-35 | after a successful update that returns a completed row with the same id, that row is in the completed section and no entry carrying the id is left in the active section |
| `TextTrim.LeadingWhitespace` | src/components/TodoItem.tsx:22 | the count covers exactly the whitespace run at the start: every counted character is whitespace, and the next one, if any, is not |
| `TextTrim.TrailingWhitespace` | src/components/TodoItem.tsx:22 | the count covers exactly the whitespace run at the end: every counted character is whitespace, and the one before them, if any, is not |
| `TextTrim.TrimStart` | src/components/TodoItem.tsx:22 | the first half of `Trim`: it drops the leading whitespace run that `LeadingWhitespace` counts, so a non-empty result does not start with whitespace |
| `TextTrim.TrimEnd` | src/components/TodoItem.tsx:22 | the second half of `Trim`: it drops the trailing whitespace run that `TrailingWhitespace` counts, so a non-empty result does not end with whitespace |
| `TextTrim.Trim` | src/components/TodoItem.tsx:22 | the result neither starts nor ends with whitespace, and is no longer than the input |
| `TextTrim.TrimIsSlice` | src/components/TodoItem.tsx:25-26 | the trimmed text is a contiguous slice of the input, with only whitespace on either side |
| `TextTrim.TrimEmpty` | src/components/TodoItem.tsx:22 | trimming gives the empty string if and only if the input is all whitespace |
| `TextTrim.TrimTrimmed` | src/components/TodoItem.tsx:25-26 | text that already has no surrounding whitespace is unchanged by trimming |
| `TextTrim.TrimIdempotent` | src/components/TodoItem.tsx:25-26 | trimming twice equals trimming once |
| `TodoItemEditor.SavePayload` | src/components/TodoItem.tsx:22-27 | nothing is sent if and only if the title is all whitespace; otherwise the title is the non-empty trimmed title; the description is absent if and only if it is all whitespace, and otherwise is the non-empty trimmed description; `completed` is never set |
| `TodoItemEditor.SavePayloadStable` | src/components/TodoItem.tsx:24-27 | saving a payload's own fields again gives the same payload |
| `TodoItemEditor.TodoItemController.constructor` | src/components/TodoItem.tsx:17-19 | not editing; the edit title is the todo's title; the edit description is the todo's description, or empty when it has none; no callback has been called |
| `TodoItemEditor.TodoItemController.StartEditing` | src/components/TodoItem.tsx:96 | the edit button turns editing on and changes nothing else |
| `TodoItemEditor.TodoItemController.SetEditTitle` | src/components/TodoItem.tsx:56 | typing sets the edit title to an arbitrary string |
| `TodoItemEditor.TodoItemController.SetEditDescription` | src/components/TodoItem.tsx:61 | typing sets the edit description to an arbitrary string |
| `TodoItemEditor.TodoItemController.Save` | src/components/TodoItem.tsx:21-29 | saves if and only if the title is not all whitespace; a refused save changes nothing and stays in edit mode; a save emits exactly one update for the todo's id with the normalised payload, then ends editing |
| `TodoItemEditor.TodoItemController.Cancel` | src/components/TodoItem.tsx:31-35 | the edit fields go back to the todo's values, editing ends, and nothing is emitted |
| `TodoItemEditor.TodoItemController.ToggleComplete` | src/components/TodoItem.tsx:37-39 | emits exactly one update for the todo's id that sets only `completed`, to the negation of the todo's flag; the edit state is untouched |
| `TodoItemEditor.TodoItemController.Delete` | src/components/TodoItem.tsx:102 | emits exactly one delete for the todo's id and nothing else |
| `Scenario.BuyMilk` | src/pages/Index.tsx:63-71 | with a store that answers every call successfully, three views follow in turn: after the create, one active "Buy milk"; after the checkbox toggle, one completed "Buy milk" under a count of 1 and no active section; after the delete, the empty state |

## Left out

- The hosted store client (src/hooks/useTodos.ts:27-30, 50-60, 81-86, 107-110) is a network client. Each call is replaced by its outcome, given as a parameter. The ordering by `created_at`, the row ownership filtering, and the row-count rule of `.single()` are all enforced by the remote store, so the model takes no position on them.
- What the remote store does with an update payload is not modelled. The hook puts the returned row into the list, not the patch. A save with a blank description sends the `description` key with the value `undefined` (src/components/TodoItem.tsx:26). Serialised as JSON, such a key is dropped, so the request does not mention the description at all and a description blanked in the editor is never cleared in the store. `Patch.description == None` models exactly this: the field is not mentioned. The JSON serialisation itself belongs to the store client library, which is not part of this model.
- Toast texts and `console.error` are I/O. Only the kind of toast is kept: `Succeeded` or `Failed`, per operation.
- The `useEffect` re-fetch when the user changes (src/hooks/useTodos.ts:129-133) is framework lifecycle and is not modelled. The caller invokes `FetchTodos` with the user.
- TodoSync.TodoStore.FetchTodos: the `await` is collapsed into one step. The model sets `loading` to true and then to false within the one call, so the in-flight state that the list component shows as "Loading todos..." is not observable.
- Overlapping asynchronous calls, such as a double submit, are not modelled. The code does not handle them, and each model operation runs to completion.
- Id uniqueness is never enforced by the client. It appears only as a precondition of `RemovePresentUnique`.
- TextTrim.IsWhitespace: this is a simplified set of eight characters, not the full ECMAScript whitespace and line-terminator set.
- TodoItemEditor.TodoItemController: the `todo` prop is a constant of the controller. A new prop value arriving for a mounted item, and the remount that happens when an item moves between sections, are React behaviour and are not modelled.
- JSX markup, CSS classes and the locale-dependent creation date (src/components/TodoItem.tsx:80) are not modelled.
- TodoItemEditor.TodoItemController: the component offers save and cancel only while editing, and the edit and delete buttons only while not editing (src/components/TodoItem.tsx:85-107). The controller's handlers can be called in either mode, so this gating is not modelled. No handler's contract depends on the mode.
- The page (src/pages/Index.tsx) handles auth redirects and page layout. It is not part of this model. `Scenario.BuyMilk` only reproduces how the page wires the item callbacks to the hook.
