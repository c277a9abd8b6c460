/** The pure views of the controller's list (the remaining count and the filtered
    list) and the two list operations deletion uses: dropping one id, and dropping
    a set of ids. Every one of them is an `Array.prototype.filter` in the source. */
module TodoList {
  import opened TodoTypes
  import opened Filtering

  /** Whether a todo is shown under a filter selection. */
  predicate Matches(status: Status, todo: Todo) {
    match status
    case Active => !todo.completed
    case Completed => todo.completed
    case All => true
  }

  /** The todos shown under `status`, in list order. */
  function TodoFilter(todos: seq<Todo>, status: Status): (r: seq<Todo>)
    ensures forall t :: t in r <==> t in todos && Matches(status, t)
  {
    FilterMembership(todos, (t: Todo) => Matches(status, t));
    Filter(todos, (t: Todo) => Matches(status, t))
  }

  /** The All view is the whole list, and the Active and Completed views split the
      list between them: disjoint, and together every todo exactly as often as it occurs. */
  lemma {:induction false} ViewsPartition(todos: seq<Todo>)
    ensures TodoFilter(todos, All) == todos
    ensures multiset(TodoFilter(todos, Active)) + multiset(TodoFilter(todos, Completed)) == multiset(todos)
    ensures forall t :: t in TodoFilter(todos, Active) ==> t !in TodoFilter(todos, Completed)
  {
    FilterKeepsAll(todos, (t: Todo) => Matches(All, t));
    FilterPartition(todos, (t: Todo) => Matches(Active, t), (t: Todo) => Matches(Completed, t));
  }

  /** Every view keeps list order: the view of a concatenation is the concatenation of the views. */
  lemma {:induction false} ViewsKeepOrder(a: seq<Todo>, b: seq<Todo>, status: Status)
    ensures TodoFilter(a + b, status) == TodoFilter(a, status) + TodoFilter(b, status)
  {
    FilterAppend(a, b, (t: Todo) => Matches(status, t));
  }

  /** The "items left" counter: the number of todos not yet completed. */
  function CountTodo(todos: seq<Todo>): (n: nat)
    ensures n == |TodoFilter(todos, Active)|
    ensures n == |todos| - |TodoFilter(todos, Completed)|
  {
    FilterExtensional(todos, (t: Todo) => !t.completed, (t: Todo) => Matches(Active, t));
    FilterPartition(todos, (t: Todo) => Matches(Active, t), (t: Todo) => Matches(Completed, t));
    |Filter(todos, (t: Todo) => !t.completed)|
  }

  /** The ids that occur in a list. */
  function Ids(todos: seq<Todo>): set<int> {
    set t | t in todos :: t.id
  }

  /** No two entries of the list share an id (what the server guarantees of persisted todos). */
  predicate UniqueIds(todos: seq<Todo>)
    decreases |todos|
  {
    todos == [] || (todos[0].id !in Ids(todos[1..]) && UniqueIds(todos[1..]))
  }

  lemma {:induction false} UniqueIdsDistinct(todos: seq<Todo>, i: int, j: int)
    requires UniqueIds(todos) && 0 <= i < j < |todos|
    ensures todos[i].id != todos[j].id
  {
    if i == 0 {
      assert todos[j] == todos[1..][j - 1];
      assert todos[j].id in Ids(todos[1..]);
    } else {
      UniqueIdsDistinct(todos[1..], i - 1, j - 1);
    }
  }

  /** With unique ids, two entries that share an id are the same todo. */
  lemma SameIdSameTodo(todos: seq<Todo>, a: Todo, b: Todo)
    requires UniqueIds(todos) && a in todos && b in todos && a.id == b.id
    ensures a == b
  {
  }

  /** Any filter of a list with unique ids has unique ids. */
  lemma {:induction false} FilterKeepsUniqueIds(todos: seq<Todo>, keep: Todo -> bool)
    requires UniqueIds(todos)
    ensures UniqueIds(Filter(todos, keep))
  {
    if todos != [] {
      FilterKeepsUniqueIds(todos[1..], keep);
      var r := Filter(todos, keep);
      if keep(todos[0]) {
        assert r[0] == todos[0] && r[1..] == Filter(todos[1..], keep);
        FilterMembership(todos[1..], keep);
        assert Ids(r[1..]) <= Ids(todos[1..]);
      } else {
        assert r == Filter(todos[1..], keep);
      }
    }
  }

  /** The list without the todos whose id is `id` (the filter that deletion applies). */
  function WithoutId(todos: seq<Todo>, id: int): (r: seq<Todo>)
    ensures forall t :: t in r <==> t in todos && t.id != id
    ensures id !in Ids(r)
  {
    FilterMembership(todos, (t: Todo) => t.id != id);
    Filter(todos, (t: Todo) => t.id != id)
  }

  lemma WithoutIdCons(todos: seq<Todo>, id: int)
    requires todos != []
    ensures WithoutId(todos, id) == (if todos[0].id != id then [todos[0]] else []) + WithoutId(todos[1..], id)
  {
  }

  /** Removing an id that is not in the list changes nothing. */
  lemma {:induction false} WithoutAbsentId(todos: seq<Todo>, id: int)
    requires id !in Ids(todos)
    ensures WithoutId(todos, id) == todos
  {
    forall i | 0 <= i < |todos| ensures todos[i].id != id {
      assert todos[i] in todos;
    }
    FilterKeepsAll(todos, (t: Todo) => t.id != id);
  }

  /** Putting back the head in front of a list with one position cut out. */
  lemma ConsAroundCut(todos: seq<Todo>, k: nat)
    requires k + 1 < |todos|
    ensures [todos[0]] + (todos[1..][..k] + todos[1..][k + 1..]) == todos[..k + 1] + todos[k + 2..]
  {
  }

  /** A present id that the head does not carry occurs in the tail. */
  lemma IdInTail(todos: seq<Todo>, id: int)
    requires todos != [] && id in Ids(todos) && todos[0].id != id
    ensures id in Ids(todos[1..])
  {
  }

  /** With unique ids, removing a present id drops exactly one position and keeps the
      rest in order. */
  lemma {:induction false} WithoutIdRemovesOne(todos: seq<Todo>, id: int) returns (i: nat)
    requires UniqueIds(todos) && id in Ids(todos)
    ensures i < |todos| && todos[i].id == id
    ensures WithoutId(todos, id) == todos[..i] + todos[i + 1..]
  {
    WithoutIdCons(todos, id);
    if todos[0].id == id {
      i := 0;
      WithoutAbsentId(todos[1..], id);
    } else {
      IdInTail(todos, id);
      var k := WithoutIdRemovesOne(todos[1..], id);
      i := k + 1;
      ConsAroundCut(todos, k);
    }
  }

  /** The list without every todo whose id is in `ids`. */
  function RemoveIds(todos: seq<Todo>, ids: set<int>): (r: seq<Todo>)
    ensures forall t :: t in r <==> t in todos && t.id !in ids
  {
    FilterMembership(todos, (t: Todo) => t.id !in ids);
    Filter(todos, (t: Todo) => t.id !in ids)
  }

  lemma RemoveNoIds(todos: seq<Todo>)
    ensures RemoveIds(todos, {}) == todos
  {
    var none: set<int> := {};
    FilterKeepsAll(todos, (t: Todo) => t.id !in none);
  }

  /** Dropping one more id after a set of ids is dropping the enlarged set. */
  lemma RemoveOneMoreId(todos: seq<Todo>, ids: set<int>, id: int)
    ensures WithoutId(RemoveIds(todos, ids), id) == RemoveIds(todos, ids + {id})
  {
    FilterTwice(todos, (t: Todo) => t.id !in ids, (t: Todo) => t.id != id, (t: Todo) => t.id !in ids + {id});
  }
}
