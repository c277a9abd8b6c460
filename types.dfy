/** The data shapes shared by the controller and its components: a to-do item,
    the filter selector, the single error slot, and the outcome of one network call. */
module TodoTypes {

  datatype Option<+T> = None | Some(value: T)

  /** A task. `id` is assigned by the server; a draft that is not yet persisted carries id 0. */
  datatype Todo = Todo(id: int, userId: int, title: string, completed: bool)

  /** The view selector of the footer. */
  datatype Status = All | Active | Completed

  /** The single error slot of the controller. `NoError` stands for the empty string,
      `EmptyTitle` for the validation message "Title should not be empty". */
  datatype ErrorType = NoError | UnableToLoad | UnableToAdd | UnableToDelete | EmptyTitle

  /** How a network call settled: resolved with a value, or rejected. */
  datatype Settled<+T> = Fulfilled(value: T) | Rejected
}
