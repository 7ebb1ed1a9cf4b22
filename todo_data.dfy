/**
 The data a session holds: an ordered sequence of named lists, each an
 ordered sequence of todos. Lists and todos are identified only by their
 position, so every deletion renumbers the elements after it.
 */
module TodoData {

  /** One todo item: its text and its completion flag. */
  datatype Todo = Todo(body: string, completed: bool)

  /** A named list of todos. */
  datatype TodoList = TodoList(name: string, todos: seq<Todo>)

  /** The flash messages a handler records when it rejects a request. */
  datatype ErrorMessage =
    | ListNameLength   // the list name is not 1 to 100 characters long
    | ListNameTaken    // some list already has that name
    | TodoLength       // the todo text is not 1 to 200 characters long
    | TodoTaken        // the list already holds a todo with that text
    | TodoNotDeleted   // there is no todo at the given position

  /** The flash messages a handler records when it succeeds. */
  datatype SuccessMessage =
    | ListCreated
    | ListRenamed
    | ListDeleted(name: string)
    | TodoAdded
    | TodoDeleted
    | AllCompleted

  /** No two lists share a name. */
  predicate NamesUnique(lists: seq<TodoList>) {
    forall i, j :: 0 <= i < j < |lists| ==> lists[i].name != lists[j].name
  }

  /** No two todos of one list share a body. */
  predicate BodiesUnique(todos: seq<Todo>) {
    forall i, j :: 0 <= i < j < |todos| ==> todos[i].body != todos[j].body
  }

  /** Names are unique across the lists and bodies are unique within each list. */
  predicate AllUnique(lists: seq<TodoList>) {
    NamesUnique(lists) && forall i :: 0 <= i < |lists| ==> BodiesUnique(lists[i].todos)
  }

  /** The todos of a list after every one of them has been marked completed. */
  function MarkAllDone(todos: seq<Todo>): (done: seq<Todo>)
    ensures |done| == |todos|
    ensures forall i :: 0 <= i < |todos| ==> done[i].body == todos[i].body && done[i].completed
  {
    if todos == [] then []
    else MarkAllDone(todos[..|todos| - 1]) + [Todo(todos[|todos| - 1].body, true)]
  }

  /** Marking everything completed a second time changes nothing. */
  lemma MarkAllDoneIdempotent(todos: seq<Todo>)
    ensures MarkAllDone(MarkAllDone(todos)) == MarkAllDone(todos)
  {
  }

  /** Marking everything completed keeps the bodies, hence their uniqueness. */
  lemma MarkAllDoneKeepsBodiesUnique(todos: seq<Todo>)
    requires BodiesUnique(todos)
    ensures BodiesUnique(MarkAllDone(todos))
  {
  }

  /**
   Removing the element at position i keeps the ones before it, moves every
   later one down by one position and shortens the sequence by one.
   */
  lemma RemovalShiftsLater<T>(s: seq<T>, i: nat)
    requires i < |s|
    ensures var rest := s[..i] + s[i + 1..];
      && |rest| == |s| - 1
      && (forall k :: 0 <= k < i ==> rest[k] == s[k])
      && (forall k :: i <= k < |rest| ==> rest[k] == s[k + 1])
  {
  }

  /** Removing one list keeps the remaining names pairwise distinct. */
  lemma RemovalKeepsNamesUnique(lists: seq<TodoList>, i: nat)
    requires i < |lists| && NamesUnique(lists)
    ensures NamesUnique(lists[..i] + lists[i + 1..])
  {
  }

  /** Removing one todo keeps the remaining bodies pairwise distinct. */
  lemma RemovalKeepsBodiesUnique(todos: seq<Todo>, i: nat)
    requires i < |todos| && BodiesUnique(todos)
    ensures BodiesUnique(todos[..i] + todos[i + 1..])
  {
  }
}
