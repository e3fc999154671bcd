/**
 * The list handlers of the React app: each builds the new `todos` array
 * from the current one without changing it.
 */
module ClientList {
  import opened TodoStore

  /** `handleTodoAdded`: `[newTodo, ...todos]`. */
  function Added(todos: seq<Todo>, newTodo: Todo): (r: seq<Todo>)
    ensures |r| == |todos| + 1
    ensures r[0] == newTodo && r[1..] == todos
  {
    [newTodo] + todos
  }

  /** `handleTodoUpdated`: every element with the updated id is replaced by it. */
  function Updated(todos: seq<Todo>, updated: Todo): (r: seq<Todo>)
    ensures |r| == |todos|
    ensures forall i :: 0 <= i < |todos| && todos[i].id == updated.id ==> r[i] == updated
    ensures forall i :: 0 <= i < |todos| && todos[i].id != updated.id ==> r[i] == todos[i]
  {
    if todos == [] then []
    else [if todos[0].id == updated.id then updated else todos[0]] + Updated(todos[1..], updated)
  }

  /** `handleTodoDeleted`: the todos whose id differs, in their order. */
  function Deleted(todos: seq<Todo>, id: int): (r: seq<Todo>)
    ensures |r| <= |todos|
    ensures forall t :: t in r <==> t in todos && t.id != id
  {
    if todos == [] then []
    else (if todos[0].id == id then [] else [todos[0]]) + Deleted(todos[1..], id)
  }

  predicate HasId(todos: seq<Todo>, id: int)
  {
    exists t :: t in todos && t.id == id
  }

  /** Deleting works element by element, so it keeps the order of what remains. */
  lemma {:induction false} DeletedDistributes(a: seq<Todo>, b: seq<Todo>, id: int)
    ensures Deleted(a + b, id) == Deleted(a, id) + Deleted(b, id)
  {
    if a != [] {
      assert (a + b)[1..] == a[1..] + b;
      DeletedDistributes(a[1..], b, id);
    } else {
      assert a + b == b;
    }
  }

  /** Deleting an id no todo has leaves the list as it is. */
  lemma {:induction false} DeletedAbsent(todos: seq<Todo>, id: int)
    requires !HasId(todos, id)
    ensures Deleted(todos, id) == todos
  {
    if todos != [] {
      assert todos[0] in todos;
      assert !HasId(todos[1..], id) by {
        forall t | t in todos[1..] ensures t.id != id {
          assert t in todos;
        }
      }
      DeletedAbsent(todos[1..], id);
    }
  }

  /** Deleting the same id again changes nothing. */
  lemma DeletedIdempotent(todos: seq<Todo>, id: int)
    ensures Deleted(Deleted(todos, id), id) == Deleted(todos, id)
  {
    DeletedAbsent(Deleted(todos, id), id);
  }

  /** Updating with an id no todo has leaves the list as it is. */
  lemma UpdatedAbsent(todos: seq<Todo>, updated: Todo)
    requires !HasId(todos, updated.id)
    ensures Updated(todos, updated) == todos
  {
    var r := Updated(todos, updated);
    forall i | 0 <= i < |todos| ensures r[i] == todos[i] {
      assert todos[i] in todos;
    }
  }

  /** Adding a todo with a fresh id and then deleting that id restores the list. */
  lemma AddThenDelete(todos: seq<Todo>, newTodo: Todo)
    requires !HasId(todos, newTodo.id)
    ensures Deleted(Added(todos, newTodo), newTodo.id) == todos
  {
    DeletedDistributes([newTodo], todos, newTodo.id);
    DeletedAbsent(todos, newTodo.id);
  }

  /** Deleting an id after updating it gives what deleting alone gives. */
  lemma {:induction false} DeleteAfterUpdate(todos: seq<Todo>, updated: Todo)
    ensures Deleted(Updated(todos, updated), updated.id) == Deleted(todos, updated.id)
  {
    if todos != [] {
      DeleteAfterUpdate(todos[1..], updated);
    }
  }
}
