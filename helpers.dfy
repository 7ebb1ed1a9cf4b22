/**
 The read-only helpers the views use: how many todos of a list are done,
 whether a list counts as complete, and the display order that puts
 unfinished entries first while remembering each entry's position.
 */
module Helpers {
  import opened TodoData

  /** The number of completed todos in a sequence of todos. */
  function CountDone(todos: seq<Todo>): (n: nat)
    ensures n <= |todos|
    ensures n == |todos| <==> forall i :: 0 <= i < |todos| ==> todos[i].completed
    ensures n == 0 <==> forall i :: 0 <= i < |todos| ==> !todos[i].completed
  {
    if todos == [] then 0
    else CountDone(todos[..|todos| - 1]) + (if todos[|todos| - 1].completed then 1 else 0)
  }

  /** The positions of the completed todos: an independent account of CountDone. */
  ghost function CompletedPositions(todos: seq<Todo>): set<nat> {
    set i: nat | i < |todos| && todos[i].completed
  }

  /** CountDone counts exactly the positions that hold a completed todo. */
  lemma {:induction false} CountDoneIsCompletedPositions(todos: seq<Todo>)
    ensures CountDone(todos) == |CompletedPositions(todos)|
  {
    if todos != [] {
      var init := todos[..|todos| - 1];
      var last := |todos| - 1;
      CountDoneIsCompletedPositions(init);
      assert last !in CompletedPositions(init);
      if todos[last].completed {
        assert CompletedPositions(todos) == CompletedPositions(init) + {last};
      } else {
        assert CompletedPositions(todos) == CompletedPositions(init);
      }
    }
  }

  /** The number of completed todos of a list. */
  function NumTodosDone(list: TodoList): (n: nat)
    ensures n <= |list.todos|
    ensures n == |CompletedPositions(list.todos)|
  {
    CountDoneIsCompletedPositions(list.todos);
    CountDone(list.todos)
  }

  /** A list is complete when all of its todos are done and at least one is. */
  function ListComplete(list: TodoList): (complete: bool)
    ensures complete <==> |list.todos| > 0 && forall i :: 0 <= i < |list.todos| ==> list.todos[i].completed
  {
    (forall t :: t in list.todos ==> t.completed) && NumTodosDone(list) > 0
  }

  /** A list with no todos is never complete. */
  lemma EmptyListNeverComplete(name: string)
    ensures !ListComplete(TodoList(name, []))
  {
  }

  /** Marking every todo done makes a list complete exactly when it has a todo. */
  lemma MarkAllDoneCompletes(list: TodoList)
    ensures ListComplete(TodoList(list.name, MarkAllDone(list.todos))) <==> |list.todos| > 0
    ensures NumTodosDone(TodoList(list.name, MarkAllDone(list.todos))) == |list.todos|
  {
  }

  /** Each item paired with its position, as the helpers collect them before sorting. */
  function Enumerate<T>(items: seq<T>): seq<(T, nat)> {
    seq(|items|, i requires 0 <= i < |items| => (items[i], i))
  }

  /** Every pair of Enumerate(items) names a position of items that holds its item. */
  lemma EnumeratePointsBack<T>(items: seq<T>, p: (T, nat))
    requires p in multiset(Enumerate(items))
    ensures p.1 < |items| && items[p.1] == p.0
  {
  }

  /** No entry marked done comes before an entry that is not. */
  predicate StatusPartitioned<T>(sorted: seq<(T, nat)>, isDone: T -> bool) {
    forall a, b :: 0 <= a < b < |sorted| && isDone(sorted[a].0) ==> isDone(sorted[b].0)
  }

  /**
   Pairs every item with its position and orders the pairs so that every
   item not done comes before every item done. The result is a permutation
   of the pairs (items[i], i), so each position leads back to its item.
   */
  method SortByStatus<T>(items: seq<T>, isDone: T -> bool) returns (sorted: seq<(T, nat)>)
    ensures multiset(sorted) == multiset(Enumerate(items))
    ensures |sorted| == |items|
    ensures forall k :: 0 <= k < |sorted| ==> sorted[k].1 < |items| && items[sorted[k].1] == sorted[k].0
    ensures StatusPartitioned(sorted, isDone)
  {
    var combined: seq<(T, nat)> := [];
    for i := 0 to |items|
      invariant combined == Enumerate(items[..i])
    {
      assert Enumerate(items[..i + 1]) == combined + [(items[i], i)];
      combined := combined + [(items[i], i)];
    }
    assert items[..|items|] == items;

    var open: seq<(T, nat)> := [];
    var done: seq<(T, nat)> := [];
    for j := 0 to |combined|
      invariant multiset(open) + multiset(done) == multiset(combined[..j])
      invariant forall k :: 0 <= k < |open| ==> !isDone(open[k].0)
      invariant forall k :: 0 <= k < |done| ==> isDone(done[k].0)
    {
      assert combined[..j + 1] == combined[..j] + [combined[j]];
      if isDone(combined[j].0) {
        done := done + [combined[j]];
      } else {
        open := open + [combined[j]];
      }
    }
    assert combined[..|combined|] == combined;
    sorted := open + done;
    assert |sorted| == |multiset(sorted)| == |items|;
    forall k | 0 <= k < |sorted|
      ensures sorted[k].1 < |items| && items[sorted[k].1] == sorted[k].0
    {
      EnumeratePointsBack(items, sorted[k]);
    }
  }

  /** The lists in display order, incomplete lists first, each with its position. */
  method SortedListsWithIndex(lists: seq<TodoList>) returns (sorted: seq<(TodoList, nat)>)
    ensures multiset(sorted) == multiset(Enumerate(lists))
    ensures forall k :: 0 <= k < |sorted| ==> sorted[k].1 < |lists| && lists[sorted[k].1] == sorted[k].0
    ensures forall a, b :: 0 <= a < b < |sorted| && ListComplete(sorted[a].0) ==> ListComplete(sorted[b].0)
  {
    sorted := SortByStatus(lists, ListComplete);
  }

  /** The todos of a list in display order, unfinished first, each with its position. */
  method SortedTodosWithIndex(todos: seq<Todo>) returns (sorted: seq<(Todo, nat)>)
    ensures multiset(sorted) == multiset(Enumerate(todos))
    ensures forall k :: 0 <= k < |sorted| ==> sorted[k].1 < |todos| && todos[sorted[k].1] == sorted[k].0
    ensures forall a, b :: 0 <= a < b < |sorted| && sorted[a].0.completed ==> sorted[b].0.completed
  {
    sorted := SortByStatus(todos, (t: Todo) => t.completed);
  }
}
