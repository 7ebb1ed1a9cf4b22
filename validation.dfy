/**
 The checks a submitted list name or todo text must pass. Each returns the
 messages for the rules that fail, in a fixed order; no message means the
 text is accepted.
 */
module Validation {
  import opened TodoData

  /** A list name of 1 to 100 characters that no existing list already has. */
  predicate NameAvailable(name: string, lists: seq<TodoList>) {
    1 <= |name| <= 100 && forall i :: 0 <= i < |lists| ==> lists[i].name != name
  }

  /** A todo text of 1 to 200 characters that no todo of the list already has. */
  predicate BodyAvailable(body: string, todos: seq<Todo>) {
    1 <= |body| <= 200 && forall i :: 0 <= i < |todos| ==> todos[i].body != body
  }

  /**
   The messages for a proposed list name, checked against every existing
   list: first the length rule (1 to 100 characters), then the rule that no
   list already has exactly that name.
   */
  function ListNameErrors(name: string, lists: seq<TodoList>): (errors: seq<ErrorMessage>)
    ensures errors == [] <==> NameAvailable(name, lists)
    ensures ListNameLength in errors <==> !(1 <= |name| <= 100)
    ensures ListNameTaken in errors <==> exists i :: 0 <= i < |lists| && lists[i].name == name
    ensures forall e :: e in errors ==> e == ListNameLength || e == ListNameTaken
    ensures |errors| <= 2 && (|errors| == 2 ==> errors == [ListNameLength, ListNameTaken])
  {
    var lengthErrors := if 1 <= |name| <= 100 then [] else [ListNameLength];
    var taken := exists l :: l in lists && name == l.name;
    lengthErrors + if taken then [ListNameTaken] else []
  }

  /**
   The messages for a proposed todo text, checked against the todos of the
   list it would join: first the length rule (1 to 200 characters), then
   the rule that no todo of that list already has exactly that text.
   */
  function TodoBodyErrors(body: string, todos: seq<Todo>): (errors: seq<ErrorMessage>)
    ensures errors == [] <==> BodyAvailable(body, todos)
    ensures TodoLength in errors <==> !(1 <= |body| <= 200)
    ensures TodoTaken in errors <==> exists i :: 0 <= i < |todos| && todos[i].body == body
    ensures forall e :: e in errors ==> e == TodoLength || e == TodoTaken
    ensures |errors| <= 2 && (|errors| == 2 ==> errors == [TodoLength, TodoTaken])
  {
    var lengthErrors := if 1 <= |body| <= 200 then [] else [TodoLength];
    var taken := exists t :: t in todos && t.body == body;
    lengthErrors + if taken then [TodoTaken] else []
  }

  /** Accepting a name keeps list names unique once it is added under that exact name. */
  lemma AcceptedNameKeepsNamesUnique(lists: seq<TodoList>, name: string, todos: seq<Todo>)
    requires NamesUnique(lists) && ListNameErrors(name, lists) == []
    ensures NamesUnique(lists + [TodoList(name, todos)])
  {
  }

  /**
   The check runs against all lists, so a list can never be renamed to the
   name it already has: that name is reported as taken.
   */
  lemma RenameRejectsCurrentName(lists: seq<TodoList>, i: nat)
    requires i < |lists|
    ensures ListNameTaken in ListNameErrors(lists[i].name, lists)
    ensures ListNameErrors(lists[i].name, lists) != []
  {
  }

  /** Accepting a new name for list i keeps list names unique. */
  lemma AcceptedRenameKeepsNamesUnique(lists: seq<TodoList>, i: nat, name: string)
    requires i < |lists| && NamesUnique(lists) && ListNameErrors(name, lists) == []
    ensures NamesUnique(lists[i := TodoList(name, lists[i].todos)])
  {
  }

  /** Accepting a todo text keeps the bodies of that list unique once it is added. */
  lemma AcceptedBodyKeepsBodiesUnique(todos: seq<Todo>, body: string, completed: bool)
    requires BodiesUnique(todos) && TodoBodyErrors(body, todos) == []
    ensures BodiesUnique(todos + [Todo(body, completed)])
  {
  }
}
