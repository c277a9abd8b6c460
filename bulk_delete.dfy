/** "Clear completed": one delete per completed todo, all awaited with
    `Promise.allSettled`, then the settled results reconciled one at a time into the
    list and the error slot. */
module BulkDelete {
  import opened TodoTypes
  import opened TodoList

  /** The ids of the todos whose delete resolved. */
  function FulfilledIds(results: seq<Settled<Todo>>): set<int> {
    set r | r in results && r.Fulfilled? :: r.value.id
  }

  /** The settled results of deleting the completed todos: the i-th resolves with the
      i-th completed todo itself when its delete succeeded, and is rejected otherwise
      (`Promise.allSettled` keeps the order of its inputs). */
  function Settle(completed: seq<Todo>, succeeded: seq<bool>): (r: seq<Settled<Todo>>)
    requires |succeeded| == |completed|
    ensures |r| == |completed|
    ensures Rejected in r <==> false in succeeded
    ensures FulfilledIds(r) == set i | 0 <= i < |completed| && succeeded[i] :: completed[i].id
  {
    var r := seq(|completed|, i requires 0 <= i < |completed| =>
                   if succeeded[i] then Fulfilled(completed[i]) else Rejected);
    assert forall i :: 0 <= i < |completed| ==> r[i] in r && succeeded[i] in succeeded;
    assert Rejected in r ==> exists i :: 0 <= i < |completed| && r[i] == Rejected;
    assert false in succeeded ==> exists i :: 0 <= i < |completed| && !succeeded[i];
    r
  }

  /** The part of the controller state the reconciliation touches. */
  datatype Reconciled = Reconciled(todos: seq<Todo>, error: ErrorType)

  /** One iteration of the reconciliation: a rejection sets the error slot, a
      resolution filters that todo's id out of the current list. A step never grows the
      list and never sets any error other than UnableToDelete. */
  function Step(st: Reconciled, r: Settled<Todo>): (next: Reconciled)
    ensures |next.todos| <= |st.todos|
    ensures next.error == st.error || next.error == UnableToDelete
  {
    match r
    case Rejected => st.(error := UnableToDelete)
    case Fulfilled(todo) => st.(todos := WithoutId(st.todos, todo.id))
  }

  /** The settled results processed in order, first to last. The list never grows,
      and the error slot is either untouched or UnableToDelete. */
  function Reconcile(st: Reconciled, results: seq<Settled<Todo>>): (end: Reconciled)
    ensures |end.todos| <= |st.todos|
    ensures end.error == st.error || end.error == UnableToDelete
    decreases |results|
  {
    if results == [] then st
    else Step(Reconcile(st, results[..|results| - 1]), results[|results| - 1])
  }

  /** Reconciling removes exactly the ids of the resolved deletes, and sets the
      error slot to UnableToDelete exactly when some delete was rejected. */
  lemma {:induction false} ReconcileBySets(st: Reconciled, results: seq<Settled<Todo>>)
    ensures Reconcile(st, results)
         == Reconciled(RemoveIds(st.todos, FulfilledIds(results)),
                       if Rejected in results then UnableToDelete else st.error)
  {
    if results == [] {
      assert FulfilledIds(results) == {};
      RemoveNoIds(st.todos);
    } else {
      var init, last := results[..|results| - 1], results[|results| - 1];
      ReconcileBySets(st, init);
      FulfilledIdsSnoc(init, last);
      assert results == init + [last];
      if last.Fulfilled? {
        RemoveOneMoreId(st.todos, FulfilledIds(init), last.value.id);
      }
    }
  }

  /** Appending one result adds its id to the resolved ids when it is fulfilled. */
  lemma FulfilledIdsSnoc(init: seq<Settled<Todo>>, last: Settled<Todo>)
    ensures FulfilledIds(init + [last])
         == if last.Fulfilled? then FulfilledIds(init) + {last.value.id} else FulfilledIds(init)
  {
  }

  /** The outcome does not depend on the order in which the results are processed. */
  lemma ReconcileOrderIndependent(st: Reconciled, a: seq<Settled<Todo>>, b: seq<Settled<Todo>>)
    requires multiset(a) == multiset(b)
    ensures Reconcile(st, a) == Reconcile(st, b)
  {
    ReconcileBySets(st, a);
    ReconcileBySets(st, b);
    assert forall r :: r in a <==> r in multiset(a);
    assert forall r :: r in b <==> r in multiset(b);
    assert FulfilledIds(a) == FulfilledIds(b);
  }

  /** With unique ids, clearing completed todos keeps every active todo, removes a
      completed todo exactly when its delete succeeded, and adds nothing. */
  lemma ClearCompletedExact(todos: seq<Todo>, succeeded: seq<bool>)
    requires UniqueIds(todos)
    requires |succeeded| == |TodoFilter(todos, Completed)|
    ensures var completed := TodoFilter(todos, Completed);
            var after := RemoveIds(todos, FulfilledIds(Settle(completed, succeeded)));
            && (forall t :: t in todos && !t.completed ==> t in after)
            && (forall i :: 0 <= i < |completed| ==> (completed[i] in after <==> !succeeded[i]))
            && (forall t :: t in after ==> t in todos)
  {
    var completed := TodoFilter(todos, Completed);
    var ids := FulfilledIds(Settle(completed, succeeded));
    FilterKeepsUniqueIds(todos, (t: Todo) => Matches(Completed, t));
    forall t | t in todos && !t.completed
      ensures t.id !in ids
    {
      if t.id in ids {
        var i :| 0 <= i < |completed| && succeeded[i] && completed[i].id == t.id;
        assert completed[i] in completed;
        SameIdSameTodo(todos, t, completed[i]);
      }
    }
    forall i | 0 <= i < |completed|
      ensures completed[i].id in ids <==> succeeded[i]
    {
      if completed[i].id in ids {
        var j :| 0 <= j < |completed| && succeeded[j] && completed[j].id == completed[i].id;
        if i < j {
          UniqueIdsDistinct(completed, i, j);
        } else if j < i {
          UniqueIdsDistinct(completed, j, i);
        }
      }
    }
  }
}
