/**
 * The to-do list: an insertion-ordered sequence of `Todo` records and the
 * three per-id list transformations the app applies to it (replace, toggle,
 * remove). Ids are not required to be unique, so every operation acts on all
 * records carrying the id.
 */
module TodoList {

  /** A record id; in the app a random float, here an abstract number. */
  type Id = int

  datatype Todo = Todo(id: Id, title: string, completed: bool)

  /** The same record with its `completed` flag negated (`{ ...todo, completed: !todo.completed }`). */
  function Flipped(t: Todo): (r: Todo)
    ensures r.id == t.id && r.title == t.title && r.completed == !t.completed
  {
    t.(completed := !t.completed)
  }

  /** Number of records in `todos` whose id is `id`. */
  function CountId(todos: seq<Todo>, id: Id): (n: nat)
    ensures n <= |todos|
    ensures n == 0 <==> forall i :: 0 <= i < |todos| ==> todos[i].id != id
  {
    if todos == [] then 0
    else (if todos[0].id == id then 1 else 0) + CountId(todos[1..], id)
  }

  /** `a` is `b` with some records left out, the rest in their original order. */
  predicate IsSubsequence(a: seq<Todo>, b: seq<Todo>)
    decreases |b|
  {
    if a == [] then true
    else if b == [] then false
    else (a[0] == b[0] && IsSubsequence(a[1..], b[1..])) || IsSubsequence(a, b[1..])
  }

  /**
   * `todos.map(t => t.id === id ? t' : t)`: every record with the id is
   * replaced by `t'`; the others keep their place.
   */
  function ReplaceById(todos: seq<Todo>, id: Id, t': Todo): (r: seq<Todo>)
    ensures |r| == |todos|
    ensures forall i :: 0 <= i < |todos| && todos[i].id == id ==> r[i] == t'
    ensures forall i :: 0 <= i < |todos| && todos[i].id != id ==> r[i] == todos[i]
  {
    if todos == [] then []
    else [if todos[0].id == id then t' else todos[0]] + ReplaceById(todos[1..], id, t')
  }

  /** `todos.map(t => t.id === id ? { ...t, completed: !t.completed } : t)`. */
  function ToggleById(todos: seq<Todo>, id: Id): (r: seq<Todo>)
    ensures |r| == |todos|
    ensures forall i :: 0 <= i < |todos| && todos[i].id == id ==> r[i] == Flipped(todos[i])
    ensures forall i :: 0 <= i < |todos| && todos[i].id != id ==> r[i] == todos[i]
  {
    if todos == [] then []
    else [if todos[0].id == id then Flipped(todos[0]) else todos[0]] + ToggleById(todos[1..], id)
  }

  /** `todos.filter(t => t.id !== id)`. */
  function RemoveById(todos: seq<Todo>, id: Id): (r: seq<Todo>)
    ensures forall t :: t in r <==> t in todos && t.id != id
    ensures |r| == |todos| - CountId(todos, id)
    ensures IsSubsequence(r, todos)
  {
    if todos == [] then []
    else if todos[0].id == id then RemoveById(todos[1..], id)
    else [todos[0]] + RemoveById(todos[1..], id)
  }

  /** Toggling the same id twice gives back the original list. */
  lemma {:induction false} ToggleTwice(todos: seq<Todo>, id: Id)
    ensures ToggleById(ToggleById(todos, id), id) == todos
  {
    if todos != [] {
      ToggleTwice(todos[1..], id);
      var once := ToggleById(todos, id);
      assert once[1..] == ToggleById(todos[1..], id);
    }
  }

  /** Replacing or toggling an id no record carries leaves the list as it is. */
  lemma AbsentIdUntouched(todos: seq<Todo>, id: Id, t': Todo)
    requires CountId(todos, id) == 0
    ensures ReplaceById(todos, id, t') == todos
    ensures ToggleById(todos, id) == todos
  {
    assert forall i :: 0 <= i < |todos| ==> ReplaceById(todos, id, t')[i] == todos[i];
    assert forall i :: 0 <= i < |todos| ==> ToggleById(todos, id)[i] == todos[i];
  }

  /** Removing an id no record carries leaves the list as it is. */
  lemma {:induction false} RemoveAbsent(todos: seq<Todo>, id: Id)
    requires CountId(todos, id) == 0
    ensures RemoveById(todos, id) == todos
  {
    if todos != [] {
      assert todos[0].id != id;
      assert CountId(todos[1..], id) == 0;
      RemoveAbsent(todos[1..], id);
    }
  }

  /** Removing is idempotent: the result no longer holds the id. */
  lemma RemoveTwice(todos: seq<Todo>, id: Id)
    ensures RemoveById(RemoveById(todos, id), id) == RemoveById(todos, id)
  {
    var r := RemoveById(todos, id);
    assert forall i :: 0 <= i < |r| ==> r[i] in r;
    RemoveAbsent(r, id);
  }

  /** Removing distributes over concatenation: the kept records keep their relative order. */
  lemma {:induction false} RemoveConcat(a: seq<Todo>, b: seq<Todo>, id: Id)
    ensures RemoveById(a + b, id) == RemoveById(a, id) + RemoveById(b, id)
  {
    if a != [] {
      assert (a + b)[1..] == a[1..] + b;
      RemoveConcat(a[1..], b, id);
    } else {
      assert a + b == b;
    }
  }
}
