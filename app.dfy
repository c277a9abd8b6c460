/** The root controller: the page's whole state and its transitions. Each network call
    is replaced by its settled outcome, passed in by the caller. Adding, deleting one
    todo and clearing the completed ones are split where the source awaits: a `Begin`
    method for the part that runs before the request is sent and a `Finish` method for
    the continuation, plus one method that runs both back to back. The initial load is
    one method, because only its timer, which is not modelled, runs before its await. */
module App {
  import opened TodoTypes
  import opened TodoList
  import opened BulkDelete
  import Header
  import EcmaTrim

  /** The loading overlay of one row: on the pending new todo, on a completed todo
      while a bulk delete runs, and on the todo whose single delete is pending. */
  predicate RowLoaderActive(todo: Todo, hasNewTodo: bool, deleteItemTodo: Option<int>, loadedDelete: bool) {
    hasNewTodo || (loadedDelete && todo.completed) || deleteItemTodo == Some(todo.id)
  }

  /** The footer's "Clear completed" button is enabled when some todo is completed and
      no bulk delete is running, that is when fewer items are left than there are todos. */
  function ClearCompletedEnabled(todos: seq<Todo>, loadedDelete: bool): (b: bool)
    ensures b <==> !loadedDelete && CountTodo(todos) < |todos|
  {
    var completed := TodoFilter(todos, Completed);
    assert completed != [] ==> completed[0] in completed;
    !loadedDelete && exists t :: t in todos && t.completed
  }

  class TodoApp {
    /** The user the todos belong to. */
    const userId: int

    var todos: seq<Todo>
    var filterType: Status
    var errorType: ErrorType
    /** The draft being added, while its request is in flight. */
    var newTodo: Option<Todo>
    /** The id whose single delete is in flight. */
    var deleteItemTodo: Option<int>
    /** Whether a bulk delete of the completed todos is running. */
    var loadedDelete: bool
    /** The text of the new-todo input. */
    var todoTask: string

    constructor (userId: int)
      ensures this.userId == userId
      ensures todos == [] && filterType == All && errorType == NoError
      ensures newTodo == None && deleteItemTodo == None && !loadedDelete && todoTask == ""
    {
      this.userId := userId;
      todos := [];
      filterType := All;
      errorType := NoError;
      newTodo := None;
      deleteItemTodo := None;
      loadedDelete := false;
      todoTask := "";
    }

    /** The footer is rendered only when the list is not empty. */
    predicate FooterShown()
      reads this
    {
      |todos| > 0
    }

    /** Whether the new-todo input is refocused in the current state. */
    predicate InputRefocused()
      reads this
    {
      Header.ShouldRefocus(true, newTodo, deleteItemTodo, loadedDelete)
    }

    /** The initial load: the fetched list replaces the current one; a failure keeps
        the list and reports UnableToLoad. */
    method FetchTodos(result: Settled<seq<Todo>>)
      modifies this`todos, this`errorType
      ensures result.Fulfilled? ==> todos == result.value && errorType == old(errorType)
      ensures result.Rejected? ==> todos == old(todos) && errorType == UnableToLoad
      ensures result == Fulfilled([]) ==> !FooterShown()
    {
      match result {
        case Fulfilled(todosData) => todos := todosData;
        case Rejected => errorType := UnableToLoad;
      }
    }

    /** Adding, before the request is sent: the draft becomes the pending new todo,
        which disables the input and keeps it from being refocused. */
    method BeginAdd(todoToAdd: Todo)
      modifies this`newTodo
      ensures newTodo == Some(todoToAdd)
      ensures Header.InputDisabled(newTodo) && !InputRefocused()
    {
      newTodo := Some(todoToAdd);
    }

    /** Adding, once the request settles: on success the server's todo is appended and
        the input text cleared; on failure the list stays and the error is UnableToAdd.
        Either way the pending new todo is gone. */
    method FinishAdd(result: Settled<Todo>)
      modifies this`todos, this`todoTask, this`errorType, this`newTodo
      ensures newTodo == None && !Header.InputDisabled(newTodo)
      ensures result.Fulfilled? ==>
                todos == old(todos) + [result.value] && todoTask == "" && errorType == old(errorType)
      ensures result.Rejected? ==>
                todos == old(todos) && todoTask == old(todoTask) && errorType == UnableToAdd
    {
      match result {
        case Fulfilled(todoNew) =>
          todos := todos + [todoNew];
          todoTask := "";
        case Rejected =>
          errorType := UnableToAdd;
      }
      newTodo := None;
    }

    /** The whole add transition. */
    method AddNewTodo(todoToAdd: Todo, result: Settled<Todo>)
      modifies this`todos, this`todoTask, this`errorType, this`newTodo
      ensures newTodo == None
      ensures result.Fulfilled? ==>
                todos == old(todos) + [result.value] && todoTask == "" && errorType == old(errorType)
      ensures result.Rejected? ==>
                todos == old(todos) && todoTask == old(todoTask) && errorType == UnableToAdd
    {
      BeginAdd(todoToAdd);
      FinishAdd(result);
    }

    /** Submitting the new-todo form: a blank input only sets the validation error;
        otherwise the trimmed draft is added, with `added` the outcome of its request. */
    method Submit(added: Settled<Todo>)
      modifies this`todos, this`todoTask, this`errorType, this`newTodo
      ensures EcmaTrim.Trim(old(todoTask)) == [] ==>
                errorType == EmptyTitle && todos == old(todos) && todoTask == old(todoTask)
                && newTodo == old(newTodo)
      ensures EcmaTrim.Trim(old(todoTask)) != [] ==> newTodo == None
      ensures EcmaTrim.Trim(old(todoTask)) != [] && added.Fulfilled? ==>
                todos == old(todos) + [added.value] && todoTask == "" && errorType == old(errorType)
      ensures EcmaTrim.Trim(old(todoTask)) != [] && added.Rejected? ==>
                todos == old(todos) && todoTask == old(todoTask) && errorType == UnableToAdd
    {
      match Header.OnSubmit(todoTask, userId) {
        case ShowError(e) => errorType := e;
        case AddTodo(draft) => AddNewTodo(draft, added);
      }
    }

    /** Deleting one todo, before the request is sent: its id becomes the pending
        delete, which shows its row's loader and keeps the input from being refocused. */
    method BeginDelete(todoId: int)
      modifies this`deleteItemTodo
      ensures deleteItemTodo == Some(todoId) && !InputRefocused()
      ensures forall t :: t in todos && t.id == todoId ==> RowLoaderActive(t, false, deleteItemTodo, loadedDelete)
    {
      deleteItemTodo := Some(todoId);
    }

    /** Deleting one todo, once the request settles: on success every todo with that id
        is filtered out (nothing, when the id is absent); on failure the list stays and
        the error is UnableToDelete. Either way no delete is pending afterwards. */
    method FinishDelete(todoId: int, deleted: bool)
      modifies this`todos, this`errorType, this`deleteItemTodo
      ensures deleteItemTodo == None
      ensures deleted ==> todos == WithoutId(old(todos), todoId) && errorType == old(errorType)
      ensures deleted && todoId !in Ids(old(todos)) ==> todos == old(todos)
      ensures !deleted ==> todos == old(todos) && errorType == UnableToDelete
    {
      if deleted {
        if todoId !in Ids(todos) {
          WithoutAbsentId(todos, todoId);
        }
        todos := WithoutId(todos, todoId);
      } else {
        errorType := UnableToDelete;
      }
      deleteItemTodo := None;
    }

    /** The whole single-delete transition. With unique ids, a successful delete of a
        present id removes exactly the one position holding it. */
    method DeleteTodoItem(todoId: int, deleted: bool)
      modifies this`todos, this`errorType, this`deleteItemTodo
      ensures deleteItemTodo == None
      ensures deleted ==> todos == WithoutId(old(todos), todoId) && errorType == old(errorType)
      ensures deleted && todoId !in Ids(old(todos)) ==> todos == old(todos)
      ensures deleted && UniqueIds(old(todos)) && todoId in Ids(old(todos)) ==>
                exists i :: 0 <= i < |old(todos)| && old(todos)[i].id == todoId
                            && todos == old(todos)[..i] + old(todos)[i + 1..]
      ensures !deleted ==> todos == old(todos) && errorType == UnableToDelete
    {
      if deleted && UniqueIds(todos) && todoId in Ids(todos) {
        ghost var i := WithoutIdRemovesOne(todos, todoId);
      }
      BeginDelete(todoId);
      FinishDelete(todoId, deleted);
    }

    /** Clearing completed todos, before the requests are sent: the bulk delete is
        marked running and the completed todos are the ones to delete. Their rows show
        the loader, the button is disabled and the input is not refocused. */
    method BeginClearCompleted() returns (completed: seq<Todo>)
      modifies this`loadedDelete
      ensures loadedDelete && completed == TodoFilter(todos, Completed)
      ensures forall t :: t in completed ==> RowLoaderActive(t, false, deleteItemTodo, loadedDelete)
      ensures !ClearCompletedEnabled(todos, loadedDelete) && !InputRefocused()
    {
      loadedDelete := true;
      completed := TodoFilter(todos, Completed);
    }

    /** Clearing completed todos, once every request has settled: the results are
        processed in order, a rejection setting the error slot and a resolution filtering
        its todo's id out of the current list; then the bulk delete is no longer running.
        The outcome is fixed by the set of resolved ids and whether any was rejected. */
    method FinishClearCompleted(results: seq<Settled<Todo>>)
      modifies this`todos, this`errorType, this`loadedDelete
      ensures Reconciled(todos, errorType) == Reconcile(Reconciled(old(todos), old(errorType)), results)
      ensures todos == RemoveIds(old(todos), FulfilledIds(results))
      ensures errorType == if Rejected in results then UnableToDelete else old(errorType)
      ensures !loadedDelete
    {
      ghost var start := Reconciled(todos, errorType);
      var i := 0;
      while i < |results|
        invariant 0 <= i <= |results|
        invariant Reconciled(todos, errorType) == Reconcile(start, results[..i])
      {
        match results[i] {
          case Rejected => errorType := UnableToDelete;
          case Fulfilled(todo) => todos := WithoutId(todos, todo.id);
        }
        assert results[..i + 1][..i] == results[..i];
        i := i + 1;
      }
      assert results[..i] == results;
      ReconcileBySets(start, results);
      loadedDelete := false;
    }

    /** The whole clear-completed transition, with `succeeded[i]` the outcome of deleting
        the i-th completed todo. The completed todos whose delete succeeded are removed;
        the error becomes UnableToDelete exactly when some delete failed. With unique
        ids, every active todo stays and a completed one stays exactly when its delete
        failed. */
    method LoadedDeleteTodo(succeeded: seq<bool>)
      requires |succeeded| == |TodoFilter(todos, Completed)|
      modifies this`todos, this`errorType, this`loadedDelete
      ensures todos == RemoveIds(old(todos), FulfilledIds(Settle(TodoFilter(old(todos), Completed), succeeded)))
      ensures errorType == if false in succeeded then UnableToDelete else old(errorType)
      ensures !loadedDelete
      ensures var completed := TodoFilter(old(todos), Completed);
              UniqueIds(old(todos)) ==>
                && (forall t :: t in old(todos) && !t.completed ==> t in todos)
                && (forall i :: 0 <= i < |completed| ==> (completed[i] in todos <==> !succeeded[i]))
    {
      if UniqueIds(todos) {
        ClearCompletedExact(todos, succeeded);
      }
      var completed := BeginClearCompleted();
      FinishClearCompleted(Settle(completed, succeeded));
    }

    /** Choosing a filter in the footer. */
    method SetFilterType(status: Status)
      modifies this`filterType
      ensures filterType == status
    {
      filterType := status;
    }

    /** Typing in the new-todo input. */
    method SetTodoTask(text: string)
      modifies this`todoTask
      ensures todoTask == text
    {
      todoTask := text;
    }

    /** Dismissing the error banner. */
    method ClearError()
      modifies this`errorType
      ensures errorType == NoError
    {
      errorType := NoError;
    }
  }

  /** The clear-completed example: two completed todos and one active one, the second
      completed todo's delete fails. */
  method ClearCompletedScenario() {
    var app := new TodoApp(7);
    var t1, t2, t3 := Todo(1, 7, "a", true), Todo(2, 7, "b", true), Todo(3, 7, "c", false);
    app.FetchTodos(Fulfilled([t1, t2, t3]));
    assert [t1, t2, t3][1..] == [t2, t3] && [t2, t3][1..] == [t3] && [t3][1..] == [];
    assert TodoFilter([t3], Completed) == [];
    assert TodoFilter([t2, t3], Completed) == [t2];
    assert TodoFilter([t1, t2, t3], Completed) == [t1, t2];
    app.LoadedDeleteTodo([true, false]);
    assert FulfilledIds(Settle([t1, t2], [true, false])) == {1};
    assert RemoveIds([t3], {1}) == [t3];
    assert RemoveIds([t2, t3], {1}) == [t2, t3];
    assert app.todos == [t2, t3];
    assert app.errorType == UnableToDelete && !app.loadedDelete;
  }
}
