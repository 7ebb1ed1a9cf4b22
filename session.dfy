/**
 The per-user session and the request handlers that change it. A handler
 either succeeds, changes the lists and appends a success message, or fails
 and records error messages; whether it succeeded stands for the choice
 between redirecting and showing the form again.
 */
module Handlers {
  import opened TodoData
  import opened Text
  import opened Validation

  class Session {
    var lists: seq<TodoList>
    var errors: seq<ErrorMessage>
    var success: seq<SuccessMessage>

    /**
     A fresh session: no lists and no pending messages. Its lists are
     trivially AllUnique, which every handler but CreateList keeps.
     */
    constructor ()
      ensures lists == [] && errors == [] && success == []
      ensures AllUnique(lists)
    {
      lists, errors, success := [], [], [];
    }

    /**
     Creates a list. The trimmed name is checked, but the name is stored as
     submitted; on failure the pending errors are replaced by the validator's
     messages (ListNameErrors).
     */
    method CreateList(listName: string) returns (created: bool)
      modifies this
      ensures created <==> NameAvailable(Strip(listName), old(lists))
      ensures created ==> (lists == old(lists) + [TodoList(listName, [])]
        && success == old(success) + [ListCreated] && errors == old(errors))
      ensures !created ==> (lists == old(lists)
        && errors == ListNameErrors(Strip(listName), old(lists)) && success == old(success))
      ensures AllUnique(old(lists)) && listName == Strip(listName) ==> AllUnique(lists)
    {
      var name := Strip(listName);
      var found := ListNameErrors(name, lists);
      if found == [] {
        if AllUnique(lists) && listName == name {
          CreateKeepsUnique(lists, listName);
        }
        lists := lists + [TodoList(listName, [])];
        success := success + [ListCreated];
        created := true;
      } else {
        errors := found;
        created := false;
      }
    }

    /**
     Renames list id to the trimmed new name. The name is checked against
     every list, the renamed one included, so resubmitting a current name
     that is stored trimmed is rejected as taken (RenameRejectsStoredName).
     */
    method RenameList(id: nat, listName: string) returns (renamed: bool)
      requires id < |lists|
      modifies this
      ensures renamed <==> NameAvailable(Strip(listName), old(lists))
      ensures renamed ==> (lists == old(lists)[id := TodoList(Strip(listName), old(lists)[id].todos)]
        && success == old(success) + [ListRenamed] && errors == old(errors))
      ensures !renamed ==> (lists == old(lists)
        && errors == ListNameErrors(Strip(listName), old(lists)) && success == old(success))
      ensures AllUnique(old(lists)) ==> AllUnique(lists)
    {
      var name := Strip(listName);
      var found := ListNameErrors(name, lists);
      if found == [] {
        if AllUnique(lists) {
          RenameKeepsUnique(lists, id, name);
        }
        lists := lists[id := TodoList(name, lists[id].todos)];
        success := success + [ListRenamed];
        renamed := true;
      } else {
        errors := found;
        renamed := false;
      }
    }

    /** Deletes list id; every later list moves down one position. */
    method DeleteList(id: nat)
      requires id < |lists|
      modifies this
      ensures lists == old(lists)[..id] + old(lists)[id + 1..]
      ensures success == old(success) + [ListDeleted(old(lists)[id].name)]
      ensures errors == old(errors)
      ensures AllUnique(old(lists)) ==> AllUnique(lists)
    {
      var name := lists[id].name;
      if AllUnique(lists) {
        DeleteListKeepsUnique(lists, id);
      }
      lists := lists[..id] + lists[id + 1..];
      success := success + [ListDeleted(name)];
    }

    /**
     Adds the trimmed text as a new, unfinished todo at the end of list id,
     after checking it against that list's todos; on failure the pending
     errors are replaced by the validator's messages (TodoBodyErrors).
     */
    method AddTodo(id: nat, todo: string) returns (added: bool)
      requires id < |lists|
      modifies this
      ensures added <==> BodyAvailable(Strip(todo), old(lists)[id].todos)
      ensures added ==> (lists == old(lists)[id := TodoList(old(lists)[id].name, old(lists)[id].todos + [Todo(Strip(todo), false)])]
        && success == old(success) + [TodoAdded] && errors == old(errors))
      ensures !added ==> (lists == old(lists)
        && errors == TodoBodyErrors(Strip(todo), old(lists)[id].todos) && success == old(success))
      ensures AllUnique(old(lists)) ==> AllUnique(lists)
    {
      var item := Todo(Strip(todo), false);
      var list := lists[id];
      var found := TodoBodyErrors(item.body, list.todos);
      if found == [] {
        if AllUnique(lists) {
          AddTodoKeepsUnique(lists, id, item.body);
        }
        lists := lists[id := TodoList(list.name, list.todos + [item])];
        success := success + [TodoAdded];
        added := true;
      } else {
        errors := found;
        added := false;
      }
    }

    /**
     Deletes todo todoId of list id; every later todo of that list moves down
     one position. A position past the end deletes nothing and appends an
     error to the pending ones.
     */
    method DeleteTodo(id: nat, todoId: nat) returns (deleted: bool)
      requires id < |lists|
      modifies this
      ensures deleted <==> todoId < |old(lists)[id].todos|
      ensures deleted ==> (lists == old(lists)[id := TodoList(old(lists)[id].name,
                            old(lists)[id].todos[..todoId] + old(lists)[id].todos[todoId + 1..])]
        && success == old(success) + [TodoDeleted] && errors == old(errors))
      ensures !deleted ==> (lists == old(lists)
        && errors == old(errors) + [TodoNotDeleted] && success == old(success))
      ensures AllUnique(old(lists)) ==> AllUnique(lists)
    {
      var list := lists[id];
      if todoId < |list.todos| {
        if AllUnique(lists) {
          DeleteTodoKeepsUnique(lists, id, todoId);
        }
        lists := lists[id := TodoList(list.name, list.todos[..todoId] + list.todos[todoId + 1..])];
        success := success + [TodoDeleted];
        deleted := true;
      } else {
        errors := errors + [TodoNotDeleted];
        deleted := false;
      }
    }

    /**
     Sets the flag of todo todoId of list id: done exactly when the submitted
     value is the text "true". Nothing else changes and no message is recorded.
     */
    method CheckTodo(id: nat, todoId: nat, completed: string)
      requires id < |lists| && todoId < |lists[id].todos|
      modifies this
      ensures lists == old(lists)[id := TodoList(old(lists)[id].name,
                 old(lists)[id].todos[todoId := Todo(old(lists)[id].todos[todoId].body, completed == "true")])]
      ensures lists[id].todos[todoId].completed <==> completed == "true"
      ensures errors == old(errors) && success == old(success)
      ensures AllUnique(old(lists)) ==> AllUnique(lists)
    {
      var list := lists[id];
      var item := list.todos[todoId];
      if AllUnique(lists) {
        CheckTodoKeepsUnique(lists, id, todoId, completed == "true");
      }
      lists := lists[id := TodoList(list.name, list.todos[todoId := Todo(item.body, completed == "true")])];
    }

    /**
     Marks every todo of list id done, one by one, keeping their texts and
     order, and appends a success message.
     */
    method CheckAll(id: nat)
      requires id < |lists|
      modifies this
      ensures lists == old(lists)[id := TodoList(old(lists)[id].name, MarkAllDone(old(lists)[id].todos))]
      ensures success == old(success) + [AllCompleted] && errors == old(errors)
      ensures AllUnique(old(lists)) ==> AllUnique(lists)
    {
      var todos := lists[id].todos;
      ghost var before := todos;
      var i := 0;
      while i < |todos|
        invariant 0 <= i <= |todos| == |before|
        invariant forall k :: 0 <= k < i ==> todos[k] == Todo(before[k].body, true)
        invariant forall k :: i <= k < |todos| ==> todos[k] == before[k]
      {
        todos := todos[i := Todo(todos[i].body, true)];
        i := i + 1;
      }
      assert todos == MarkAllDone(before);
      if AllUnique(lists) {
        CheckAllKeepsUnique(lists, id);
      }
      lists := lists[id := TodoList(lists[id].name, todos)];
      success := success + [AllCompleted];
    }
  }

  /**
   An accepted name keeps the session's names and bodies unique when it was
   submitted without surrounding white space, so that the stored name is
   the one that was checked.
   */
  lemma CreateKeepsUnique(lists: seq<TodoList>, listName: string)
    requires AllUnique(lists) && Strip(listName) == listName && ListNameErrors(Strip(listName), lists) == []
    ensures AllUnique(lists + [TodoList(listName, [])])
  {
    AcceptedNameKeepsNamesUnique(lists, listName, []);
  }

  /** An accepted rename keeps the session's names and bodies unique. */
  lemma RenameKeepsUnique(lists: seq<TodoList>, id: nat, name: string)
    requires id < |lists| && AllUnique(lists) && ListNameErrors(name, lists) == []
    ensures AllUnique(lists[id := TodoList(name, lists[id].todos)])
  {
    AcceptedRenameKeepsNamesUnique(lists, id, name);
  }

  /** Deleting a list keeps the session's names and bodies unique. */
  lemma DeleteListKeepsUnique(lists: seq<TodoList>, id: nat)
    requires id < |lists| && AllUnique(lists)
    ensures AllUnique(lists[..id] + lists[id + 1..])
  {
    RemovalKeepsNamesUnique(lists, id);
    RemovalShiftsLater(lists, id);
  }

  /** An accepted todo keeps the session's names and bodies unique. */
  lemma AddTodoKeepsUnique(lists: seq<TodoList>, id: nat, body: string)
    requires id < |lists| && AllUnique(lists) && TodoBodyErrors(body, lists[id].todos) == []
    ensures AllUnique(lists[id := TodoList(lists[id].name, lists[id].todos + [Todo(body, false)])])
  {
    AcceptedBodyKeepsBodiesUnique(lists[id].todos, body, false);
  }

  /** Deleting a todo keeps the session's names and bodies unique. */
  lemma DeleteTodoKeepsUnique(lists: seq<TodoList>, id: nat, todoId: nat)
    requires id < |lists| && todoId < |lists[id].todos| && AllUnique(lists)
    ensures AllUnique(lists[id := TodoList(lists[id].name, lists[id].todos[..todoId] + lists[id].todos[todoId + 1..])])
  {
    RemovalKeepsBodiesUnique(lists[id].todos, todoId);
  }

  /** Setting one flag keeps the session's names and bodies unique. */
  lemma CheckTodoKeepsUnique(lists: seq<TodoList>, id: nat, todoId: nat, done: bool)
    requires id < |lists| && todoId < |lists[id].todos| && AllUnique(lists)
    ensures AllUnique(lists[id := TodoList(lists[id].name,
              lists[id].todos[todoId := Todo(lists[id].todos[todoId].body, done)])])
  {
  }

  /** Marking all todos of a list done keeps the session's names and bodies unique. */
  lemma CheckAllKeepsUnique(lists: seq<TodoList>, id: nat)
    requires id < |lists| && AllUnique(lists)
    ensures AllUnique(lists[id := TodoList(lists[id].name, MarkAllDone(lists[id].todos))])
  {
    MarkAllDoneKeepsBodiesUnique(lists[id].todos);
  }

  /**
   A list whose name is stored trimmed cannot be renamed to that same name:
   the trimmed submission equals the stored name, and the check finds it
   among all lists. (A list stored under a padded name can be, since the
   check then sees a different text.)
   */
  lemma RenameRejectsStoredName(lists: seq<TodoList>, id: nat)
    requires id < |lists| && Strip(lists[id].name) == lists[id].name
    ensures !NameAvailable(Strip(lists[id].name), lists)
    ensures ListNameErrors(Strip(lists[id].name), lists) == [ListNameTaken]
      || ListNameErrors(Strip(lists[id].name), lists) == [ListNameLength, ListNameTaken]
  {
    RenameRejectsCurrentName(lists, id);
  }

  /**
   Creating a list can break the uniqueness of names: the name is checked
   after trimming but stored as submitted. A name with white space in front
   (" a", say) passes the check against a list already stored under that
   very name, since the check sees "a", and a second " a" is stored.
   */
  lemma PaddedNameSlipsPastUniqueness(c: char, name: string)
    requires IsSpace(c) && 1 <= |name| <= 100 && !IsSpace(name[0]) && !IsSpace(name[|name| - 1])
    ensures var padded := [c] + name;
      var lists := [TodoList(padded, [])];
      && ListNameErrors(Strip(padded), lists) == []
      && !NamesUnique(lists + [TodoList(padded, [])])
  {
    var padded := [c] + name;
    StripSkipsLeadingSpace(c, name);
    StripKeepsTrimmed(name);
    var lists := [TodoList(padded, [])];
    assert |lists[0].name| != |name|;
    assert NameAvailable(name, lists);
    var after := lists + [TodoList(padded, [])];
    assert after[0].name == after[1].name;
  }
}
