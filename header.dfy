/** The new-todo form: what submitting it does, when its input is refocused, and when
    it is disabled. */
module Header {
  import opened TodoTypes
  import opened EcmaTrim

  /** The single effect of a submit: set the error slot, or hand one draft todo to the
      controller's add operation. */
  datatype Submission = ShowError(error: ErrorType) | AddTodo(draft: Todo)

  /** Submitting the form with input text `todoTask`. A blank input is refused with the
      validation error; any other input yields a draft with id 0, the caller's user id,
      the trimmed text as title, and not completed. */
  function OnSubmit(todoTask: string, userId: int): (r: Submission)
    ensures r.ShowError? <==> forall k :: 0 <= k < |todoTask| ==> IsTrimmable(todoTask[k])
    ensures r.ShowError? ==> r.error == EmptyTitle
    ensures r.AddTodo? ==> r.draft.id == 0 && r.draft.userId == userId && !r.draft.completed
    ensures r.AddTodo? ==> r.draft.title == Trim(todoTask)
    ensures r.AddTodo? ==> r.draft.title != [] && Trim(r.draft.title) == r.draft.title
  {
    var title := Trim(todoTask);
    if title == [] then ShowError(EmptyTitle)
    else
      TrimIdempotent(todoTask);
      AddTodo(Todo(0, userId, title, false))
  }

  /** The input is disabled while a new todo is pending. */
  predicate InputDisabled(newTodo: Option<Todo>) {
    newTodo.Some?
  }

  /** Whether the focus effect refocuses the input: it is mounted, no new todo is
      pending, no single delete is pending and no bulk delete is running. */
  predicate ShouldRefocus(inputMounted: bool, newTodo: Option<Todo>, deleteItemTodo: Option<int>,
                          loadedDelete: bool)
  {
    inputMounted && newTodo == None && deleteItemTodo == None && !loadedDelete
  }
}
