/**
 Short request sequences against one session, showing what a caller can
 conclude from the handlers' contracts alone.
 */
module Scenarios {
  import opened TodoData
  import opened Text
  import opened Validation
  import opened Helpers
  import opened Handlers

  /** Creating the same list twice: the second request is rejected as a duplicate. */
  method CreateTwice(name: string)
    requires 1 <= |name| <= 100 && Strip(name) == name
  {
    var session := new Session();
    var first := session.CreateList(name);
    assert first && session.lists == [TodoList(name, [])];
    ghost var before := session.lists;
    assert before[0].name == Strip(name);
    var second := session.CreateList(name);
    assert !second && ListNameTaken in session.errors;
    assert |session.lists| == 1 && session.lists[0].name == name;
  }

  /** The same todo text is rejected a second time in one list but accepted in another. */
  method SameBodyTwoLists(session: Session, a: nat, b: nat, body: string)
    requires a < |session.lists| && b < |session.lists| && a != b
    requires BodyAvailable(Strip(body), session.lists[a].todos)
    requires BodyAvailable(Strip(body), session.lists[b].todos)
    modifies session
  {
    var ok := session.AddTodo(a, body);
    assert ok;
    ghost var added := session.lists[a].todos;
    assert added[|added| - 1].body == Strip(body);
    ok := session.AddTodo(a, body);
    assert !ok && TodoTaken in session.errors;
    ok := session.AddTodo(b, body);
    assert ok;
  }

  /** Deleting the middle one of three todos moves the last one to position 1. */
  method DeleteMiddleTodo(session: Session, id: nat)
    requires id < |session.lists| && |session.lists[id].todos| == 3
    modifies session
  {
    var last := session.lists[id].todos[2];
    var ok := session.DeleteTodo(id, 1);
    assert ok && |session.lists[id].todos| == 2 && session.lists[id].todos[1] == last;
  }

  /** Completing all todos twice leaves the same lists as completing them once. */
  method CheckAllTwice(session: Session, id: nat)
    requires id < |session.lists|
    modifies session
  {
    session.CheckAll(id);
    var once := session.lists;
    MarkAllDoneIdempotent(old(session.lists)[id].todos);
    session.CheckAll(id);
    assert session.lists == once;
    MarkAllDoneCompletes(old(session.lists)[id]);
    assert ListComplete(session.lists[id]) <==> |old(session.lists)[id].todos| > 0;
  }

  /**
   Resubmitting a list's own name as its new name: rejected as taken when the
   name is stored trimmed, and nothing changes.
   */
  method RenameToSameName(session: Session, id: nat)
    requires id < |session.lists| && Strip(session.lists[id].name) == session.lists[id].name
    modifies session
  {
    var name := session.lists[id].name;
    RenameRejectsStoredName(session.lists, id);
    var renamed := session.RenameList(id, name);
    assert !renamed && ListNameTaken in session.errors;
    assert session.lists == old(session.lists);
  }
}
