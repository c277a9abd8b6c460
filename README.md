# To-do list controller: a Dafny model

This project models the state logic of a single-page to-do list manager. The root
controller (`src/App.tsx`) owns the list of todos, the filter selection, a single error
slot, the pending new todo, the id of a pending single delete, the "bulk delete
running" flag and the text of the new-todo input. It loads the list, adds a todo,
deletes one todo and clears all completed todos. Each of these calls a REST API and
reconciles the outcome into its state. The new-todo form (`src/commponents/Header.tsx`)
validates and trims the input before it asks the controller to add a draft.

Modules, one concept each:

- `TodoTypes` (types.dfy): the todo record, the filter selector, the error slot, and
  `Settled<T>`, the outcome of one network call (resolved with a value, or rejected).
- `Filtering` (filtering.dfy): `Array.prototype.filter` on sequences. It covers
  membership, order (filtering distributes over concatenation), splitting by a predicate
  and its negation, and composing two filters.
- `TodoList` (todo_list.dfy): the derived views (filtered list, "items left" count) and
  the filters deletion uses: drop one id, drop a set of ids. It also defines what it means
  for a list to have unique ids.
- `BulkDelete` (bulk_delete.dfy): "clear completed". The settled results are paired with
  the completed todos in `Promise.allSettled` order. `Reconcile` processes them first to
  last. Lemmas show the result depends only on which deletes succeeded and whether any
  failed.
- `EcmaTrim` (ecma_trim.dfy): `String.prototype.trim` over the full WhiteSpace
  (section 12.2 of ECMA-262, with the Unicode Zs category as of Unicode 15) and
  LineTerminator (section 12.3) code points.
- `Header` (header.dfy): the submit rule and the input's refocus and disabled conditions.
- `App` (app.dfy): the controller as a class `TodoApp`, with one field per piece of
  state. Adding, deleting one todo and clearing the completed ones are each split where
  the source awaits:
  - a `Begin` method for what runs before the request;
  - a `Finish` method for the continuation, given the settled outcome;
  - one method that runs both.

  The initial load is one method, `FetchTodos`: the only thing that runs before its
  await is the 3-second timer, which is not modelled.

  The module also holds the footer's "Clear completed" enabling rule and the row loader
  condition. `ClearCompletedScenario` is a client: two completed todos and one active
  one, where the second completed todo's delete fails. It proves that the list ends as
  the failed todo followed by the active one, the error is UnableToDelete, and the bulk
  flag is off.

The sentinels of the source become explicit options:
- the pending-delete id (`NaN` when none) is `Option<int>`;
- the pending new todo (`null` when none) is `Option<Todo>`;
- the empty error string is `ErrorType.NoError`.

The load's 3-second timer (src/App.tsx:25) fires 3 seconds after the load starts and
empties the error slot, unless the load has already failed and cancelled it
(src/App.tsx:33). A load-failure banner then stays until dismissed or overwritten.

## Model

| member | source | states |
|---|---|---|
| `TodoList.TodoFilter` | src/App.tsx:44-54 | a todo is in the view exactly when it is in the list and the filter shows it (Active: not completed, Completed: completed, All: every todo) |
| `TodoList.ViewsPartition` | src/App.tsx:44-54 | the All view is the whole list; the Active and Completed views are disjoint and together hold every todo exactly as often as the list does |
| `TodoList.ViewsKeepOrder` | src/App.tsx:44-54 | every view keeps list order: the view of a concatenation is the concatenation of the views |
| `TodoList.CountTodo` | src/App.tsx:42 | the items-left count is the length of the Active view, and equals the list length minus the number of completed todos |
| `TodoList.WithoutId` | src/App.tsx:76 | after filtering out an id, a todo remains exactly when it was in the list with another id; the id no longer occurs |
| `TodoList.WithoutAbsentId` | src/App.tsx:76 | filtering out an id that does not occur leaves the list unchanged |
| `TodoList.WithoutIdRemovesOne` | src/App.tsx:76 | with unique ids, filtering out a present id removes exactly the one position holding it and keeps every other todo in order |
| `TodoList.RemoveIds` | src/App.tsx:96-100 | after removing a set of ids, a todo remains exactly when it was in the list and its id is not in the set |
| `TodoList.RemoveNoIds` | src/App.tsx:92-102 | removing no ids leaves the list unchanged (a bulk clear where every delete failed) |
| `TodoList.RemoveOneMoreId` | src/App.tsx:96-100 | one more successful delete after earlier ones equals removing the enlarged set of ids at once |
| `BulkDelete.Settle` | src/App.tsx:86-90 | by definition the i-th settled result is the i-th completed todo's outcome; the contract states there is one result per completed todo, some result is rejected exactly when some delete failed, and the resolved ids are the ids of the completed todos whose delete succeeded |
| `BulkDelete.Step` | src/App.tsx:93-100 | one settled result: a rejection sets the error slot to UnableToDelete, a resolution filters that todo's id out of the list; a step never grows the list and sets no other error |
| `BulkDelete.Reconcile` | src/App.tsx:92-102 | the results are processed in `forEach` order, first to last; the list never grows and the error slot is untouched or UnableToDelete |
| `BulkDelete.ReconcileBySets` | src/App.tsx:91-103 | processing the results one at a time removes exactly the ids of the resolved deletes; the error becomes UnableToDelete if some result was rejected, and is untouched otherwise |
| `BulkDelete.ReconcileOrderIndependent` | src/App.tsx:88-103 | any reordering of the settled results gives the same list and error slot |
| `BulkDelete.ClearCompletedExact` | src/App.tsx:84-104 | with unique ids, clearing keeps every active todo, removes a completed todo exactly when its delete succeeded, and adds nothing |
| `EcmaTrim.TrimStart` | src/commponents/Header.tsx:44 | the result is a suffix of the input; only trimmable code points were cut, and it does not start with one |
| `EcmaTrim.TrimEnd` | src/commponents/Header.tsx:44 | the result is a prefix of the input; only trimmable code points were cut, and it does not end with one |
| `EcmaTrim.Trim` | src/commponents/Header.tsx:44 | the trimmed text neither starts nor ends with white space or a line terminator, and is empty exactly when the input is made of those only |
| `EcmaTrim.TrimIsSlice` | src/commponents/Header.tsx:53 | the trimmed text is a contiguous slice of the input, with only trimmable code points on either side |
| `EcmaTrim.TrimIdempotent` | src/commponents/Header.tsx:44-53 | trimming the trimmed text changes nothing |
| `Header.OnSubmit` | src/commponents/Header.tsx:41-58 | a blank input yields the "Title should not be empty" error and no add; any other input yields exactly one draft, with id 0, the user id, not completed, and the trimmed, non-empty title that trimming again leaves unchanged |
| `Header.ShouldRefocus` | src/commponents/Header.tsx:30-39 | the input is refocused only when mounted, with no pending new todo, no pending single delete and no bulk delete |
| `Header.InputDisabled` | src/commponents/Header.tsx:78 | the input is disabled exactly while a new todo is pending |
| `App.RowLoaderActive` | src/commponents/TodoCard.tsx:47-50 | a row shows its loader while a new todo is pending, while a bulk delete runs and the row is completed, or while its id is the pending single delete |
| `App.ClearCompletedEnabled` | src/commponents/Footer.tsx:69 | the clear button is enabled exactly when no bulk delete runs and fewer items are left than there are todos (some todo is completed, Footer.tsx line 25) |
| `App.TodoApp.constructor` | src/App.tsx:15-21 | the initial state: empty list, All filter, no error, nothing pending, empty input |
| `App.TodoApp.FooterShown` | src/App.tsx:148 | the footer is rendered exactly when the list is not empty |
| `App.TodoApp.InputRefocused` | src/commponents/Header.tsx:30-38 | the refocus rule applied to the controller's current state, with the input mounted |
| `App.TodoApp.FetchTodos` | src/App.tsx:23-40 | a successful load replaces the list with the fetched one; a failed load keeps the list and sets UnableToLoad; loading an empty list hides the footer (line 148) |
| `App.TodoApp.BeginAdd` | src/App.tsx:56-57 | the draft becomes the pending new todo; the input is disabled (Header.tsx line 78) and not refocused |
| `App.TodoApp.FinishAdd` | src/App.tsx:59-68 | on success the server's todo is appended after the unchanged earlier entries and the input text is emptied; on failure the list and text stay and the error is UnableToAdd; either way nothing is pending and the input is enabled |
| `App.TodoApp.AddNewTodo` | src/App.tsx:56-69 | the whole add transition, with the same outcome as FinishAdd |
| `App.TodoApp.Submit` | src/commponents/Header.tsx:41-58 | submitting a blank input only sets the validation error; otherwise the trimmed draft goes through the add transition |
| `App.TodoApp.BeginDelete` | src/App.tsx:71-72 | the id becomes the pending delete; the rows with that id show the loader (TodoCard.tsx lines 47-50) and the input is not refocused |
| `App.TodoApp.FinishDelete` | src/App.tsx:74-81 | on success every todo with the id is filtered out, and an absent id changes nothing; on failure the list stays and the error is UnableToDelete; either way no delete is pending |
| `App.TodoApp.DeleteTodoItem` | src/App.tsx:71-82 | the whole delete transition; with unique ids a successful delete of a present id removes exactly the one position holding it |
| `App.TodoApp.BeginClearCompleted` | src/App.tsx:84-90 | the bulk delete is marked running and the completed todos are the ones to delete; their rows show the loader, the clear button is disabled and the input is not refocused |
| `App.TodoApp.FinishClearCompleted` | src/App.tsx:91-104 | the loop over the settled results ends in the state `Reconcile` describes: the resolved ids removed, UnableToDelete exactly when some result was rejected; then the bulk flag is off |
| `App.TodoApp.LoadedDeleteTodo` | src/App.tsx:84-105 | clear completed end to end: the completed todos whose delete succeeded are removed, the error becomes UnableToDelete exactly when some delete failed, and the bulk flag ends off. With unique ids, active todos stay and a completed todo stays exactly when its delete failed |
| `App.TodoApp.SetFilterType` | src/App.tsx:151 | choosing a filter sets the filter selection |
| `App.TodoApp.SetTodoTask` | src/App.tsx:119 | typing sets the input text |
| `App.TodoApp.ClearError` | src/App.tsx:160 | dismissing the banner empties the error slot |

## Left out

- Network calls (`getTodos`, `addTodo`, `deleteTodo`): `./api/todos` is not part of this model. Each call is replaced by its settled outcome, given as a parameter.
- Promise scheduling and the concurrency of `Promise.allSettled`. The fan-out is a sequence of outcomes in `allSettled` order, processed one at a time like the `forEach` at src/App.tsx:92. Other interleavings are possible only at the Begin/Finish split of each transition.
- Timers (src/App.tsx:25, 33, 36): the 3-second timer, set before the load's await, that empties the error slot 3 seconds after the load starts (even while the request is pending, which can clear a banner set meanwhile), and its cancellation when the load fails first. They are timing behaviour, and the returned cleanup is never used.
- Uniqueness of persisted ids is a promise of the server, not something the controller enforces. The lemmas that need it take `UniqueIds` as a precondition.
- The value of the id the server assigns to an added todo (the model appends whatever todo the server returns).
- The `UserWarning` branch taken when the user id is unset (src/App.tsx:107-109): the user id is a constructor parameter, and the `UserWarning` and `Errors` components are not part of this model.
- Rendering, CSS classes and hrefs, and the focus call itself. The refocus rule is a predicate. When React re-runs the effect (its dependency list, Header.tsx line 39) is not modelled.
- `NaN` equality semantics: the pending-delete id is an `Option<int>`.
- Code points of the Unicode category Zs assigned after Unicode 15: the WhiteSpace set is fixed.
- Lone surrogates: a JavaScript string is a sequence of UTF-16 code units and may hold an unpaired surrogate, while a Dafny `string` holds Unicode scalar values. `Trim` agrees with `String.prototype.trim` on every string Dafny can represent, because no WhiteSpace or LineTerminator code point is a surrogate.
