# To-do lists held in a web session

This project models, in Dafny, the data logic of a small Sinatra to-do
application (`todo.rb`). A user's session holds an ordered sequence of
lists; each list has a name and an ordered sequence of todos; each todo has
a body and a completion flag. Lists and todos are identified only by their
position, so a deletion renumbers everything after it. The session also
holds two sequences of flash messages: errors and successes.

The model has five modules:

- `TodoData` (`todo_data.dfy`): the `Todo` and `TodoList` values, the
  message kinds, the uniqueness predicates (`NamesUnique`, `BodiesUnique`,
  `AllUnique`) and `MarkAllDone`, the value a list's todos take after
  "complete all".
- `Text` (`text.dfy`): `Strip`, the trimming applied to a submitted list
  name or todo text, with its meaning (`TrimmedAt`) and idempotence.
- `Helpers` (`helpers.dfy`): `list_complete?`, `num_todos_done` and the two
  "sort by status, keep the original index" helpers. The sort helpers build
  the index pairs with a loop and then partition them, as methods.
- `Validation` (`validation.dfy`): the two validators, taking the existing
  lists or todos as an explicit parameter (the source reads
  `session[:lists]` and `@list` implicitly).
- `Handlers` (`session.dfy`): the class `Session` with fields `lists`,
  `errors` and `success`, one method per POST handler that changes them
  in place, and lemmas, on plain values, that every handler keeps list
  names and todo bodies unique (create only when the submitted name has no
  surrounding white space).

`scenarios.dfy` holds client methods that run short request sequences
against a session and assert what the handlers' contracts let a caller
conclude. Examples are a duplicate list name being rejected and "complete
all" run twice.

Behaviour of the code that the model keeps on purpose:

- Creating a list checks the trimmed name but stores the name as submitted,
  so list names are not always unique. They are guaranteed to stay unique
  when the submitted name has no surrounding white space
  (`Handlers.CreateKeepsUnique`). A padded name such as `" a"` can be stored
  twice (`Handlers.PaddedNameSlipsPastUniqueness`).
- Renaming checks the new name against every list; the renamed list is not
  excluded from the check. Resubmitting a list's current name is therefore
  rejected as taken when that name is stored trimmed
  (`Validation.RenameRejectsCurrentName`, `Handlers.RenameRejectsStoredName`).
  A list stored under a padded name such as `" a"` accepts `" a"` again,
  because the check sees `"a"`, and the list is then renamed to `"a"`.
- The handlers that index a list with an out-of-range position crash in the
  code instead of reporting that the list is missing (rename only on its
  success path; see "## Left out"). The model makes those
  positions preconditions. Delete-todo with an out-of-range todo position
  appends an error and changes nothing.
- Validation failures replace the pending errors. A failed delete-todo
  appends to them. Successes append to the pending success messages.
  Nothing in the handlers clears messages between requests.
- The sort helpers promise only that unfinished entries come before
  finished ones and that the result is a permutation of the
  (item, position) pairs. The implementation here is a stable partition,
  but stability is not part of the contract.

## Model

| member | source | states |
|---|---|---|
| `Helpers.ListComplete` | todo.rb:18-20 | a list is complete exactly when it has at least one todo and every todo is completed |
| `Helpers.EmptyListNeverComplete` | todo.rb:18-20 | a list without todos is never complete |
| `Helpers.CountDone` | todo.rb:22-24 | the count of completed todos is at most the number of todos; it equals that number exactly when all are completed, and is 0 exactly when none is |
| `Helpers.NumTodosDone` | todo.rb:22-24 | the number of done todos of a list lies between 0 and its todo count and equals the number of positions holding a completed todo |
| `Helpers.CountDoneIsCompletedPositions` | todo.rb:22-24 | the recursive count agrees with the size of the set of positions whose todo is completed |
| `Helpers.SortByStatus` | todo.rb:30-44 | the result is a permutation of the pairs (item, position); every pair's position holds its item; no finished item precedes an unfinished one |
| `Helpers.SortedListsWithIndex` | todo.rb:30-36 | lists in display order: a permutation of (list, position) pairs, each position pointing back to its list, incomplete lists before complete ones |
| `Helpers.SortedTodosWithIndex` | todo.rb:38-44 | todos in display order: a permutation of (todo, position) pairs, each position pointing back to its todo, unfinished todos before finished ones |
| `Helpers.MarkAllDoneCompletes` | todo.rb:147-155 | after "complete all" a list is complete exactly when it has a todo, and its done count equals its todo count |
| `Validation.ListNameErrors` | todo.rb:157-166 | no message exactly when the name has 1 to 100 characters and no list has exactly that name; the length message appears exactly when the length is wrong, the uniqueness message exactly when some list has the name; at most two messages, length first |
| `Validation.TodoBodyErrors` | todo.rb:168-177 | no message exactly when the text has 1 to 200 characters and no todo of the list has exactly that text; each message appears exactly when its rule fails; at most two messages, length first |
| `Validation.RenameRejectsCurrentName` | todo.rb:84-97 | because rename checks against all lists, a list's current name is always reported as taken |
| `Validation.AcceptedNameKeepsNamesUnique` | todo.rb:157-166 | a name the validator accepts can be appended without creating a duplicate name |
| `Validation.AcceptedRenameKeepsNamesUnique` | todo.rb:84-97 | a new name the validator accepts can replace a list's name without creating a duplicate name |
| `Validation.AcceptedBodyKeepsBodiesUnique` | todo.rb:168-177 | a todo text the validator accepts can be appended without creating a duplicate body |
| `Text.Strip` | todo.rb:72 | the trimmed text is no longer than the input and neither starts nor ends with white space |
| `Text.StripCutsOnlySpace` | todo.rb:72 | the trimmed text is a contiguous stretch of the input and everything cut off on either side is white space |
| `Text.StripKeepsTrimmed` | todo.rb:72 | text without white space at either end is left unchanged |
| `Text.StripSkipsLeadingSpace` | todo.rb:72 | a leading white-space character does not change the trimmed result |
| `Text.StripIdempotent` | todo.rb:72 | trimming twice gives the same text as trimming once |
| `TodoData.MarkAllDone` | todo.rb:150-152 | after "complete all" the todos have the same count, order and bodies, and every one is completed |
| `TodoData.MarkAllDoneIdempotent` | todo.rb:147-155 | completing all todos a second time changes nothing |
| `TodoData.RemovalShiftsLater` | todo.rb:102 | removing position i keeps the earlier elements, moves every later one down by one and shortens the sequence by one |
| `TodoData.RemovalKeepsNamesUnique` | todo.rb:99-109 | deleting a list keeps the remaining names pairwise distinct |
| `TodoData.RemovalKeepsBodiesUnique` | todo.rb:126-137 | deleting a todo keeps the remaining bodies of its list pairwise distinct |
| `Handlers.Session.constructor` | todo.rb:11-15 | a new session has no lists and no pending messages |
| `Handlers.Session.CreateList` | todo.rb:71-82 | succeeds exactly when the trimmed name is acceptable; on success appends one list with the untrimmed name and no todos and appends a success message; on failure leaves the lists alone and replaces the errors by the validator's messages |
| `Handlers.Session.RenameList` | todo.rb:84-97 | succeeds exactly when the trimmed name has a valid length and no list, itself included, has it; on success only that list's name changes, to the trimmed name; on failure the lists stay and the errors are replaced |
| `Handlers.Session.DeleteList` | todo.rb:99-109 | removes exactly the list at the position, later lists moving down one, and appends a success message naming it |
| `Handlers.Session.AddTodo` | todo.rb:111-124 | succeeds exactly when the trimmed text is acceptable for that list; on success appends one unfinished todo with the trimmed text to that list only; on failure the lists stay and the errors are replaced |
| `Handlers.Session.DeleteTodo` | todo.rb:126-137 | with a todo position in range removes exactly that todo of that list; past the end changes no list and appends one error |
| `Handlers.Session.CheckTodo` | todo.rb:139-145 | only that todo's flag changes, to whether the submitted value is "true"; no messages are recorded |
| `Handlers.Session.CheckAll` | todo.rb:147-155 | that list's todos become `MarkAllDone` of the old ones, other lists are unchanged, and a success message is appended |
| `Handlers.CreateKeepsUnique` | todo.rb:71-82 | creating a list whose submitted name is already trimmed keeps names and bodies unique |
| `Handlers.RenameRejectsStoredName` | todo.rb:84-97 | a list whose name is stored trimmed cannot be renamed to that name: the validator reports it as taken (alone or after the length message) |
| `Handlers.PaddedNameSlipsPastUniqueness` | todo.rb:71-82 | a name with white space in front passes the check against a list stored under that same padded name, and storing it duplicates the name |
| `Handlers.RenameKeepsUnique` | todo.rb:84-97 | an accepted rename keeps names and bodies unique |
| `Handlers.DeleteListKeepsUnique` | todo.rb:99-109 | deleting a list keeps names and bodies unique |
| `Handlers.AddTodoKeepsUnique` | todo.rb:111-124 | an accepted todo keeps names and bodies unique |
| `Handlers.DeleteTodoKeepsUnique` | todo.rb:126-137 | deleting a todo keeps names and bodies unique |
| `Handlers.CheckTodoKeepsUnique` | todo.rb:139-145 | setting one flag keeps names and bodies unique |
| `Handlers.CheckAllKeepsUnique` | todo.rb:147-155 | completing all todos of a list keeps names and bodies unique |

## Left out

- Sinatra configuration, the session secret and the cookie transport (todo.rb:1-9) are framework plumbing.
- The GET routes, `erb` rendering, `redirect` and `list_class` (todo.rb:26-28, 48-69) are view glue. A handler's boolean result stands for the choice between redirecting and rendering the form again.
- The sort helpers hand their pairs to a block; the model returns the sequence instead.
- Parameter parsing with `to_i` is not modelled. This covers Ruby's negative indices counting from the end and non-numeric text reading as 0. Positions are `nat`.
- Handlers.Session.RenameList, DeleteList, AddTodo, DeleteTodo and CheckAll require the list position to be in range, and CheckTodo requires the todo position too. The code dereferences a missing list or todo there and fails. For rename with an out-of-range list position, the validation at todo.rb:88 still runs, and when it fails todo.rb:94 replaces `session[:error]` before the failure path renders the `edit_list` view; what that view then does is not part of this model, and the precondition also hides that error replacement.
- The `else` branch of delete-list (an error "could not be deleted") is not modelled. `delete_at` of an in-range position always returns the removed list, so that branch is never reached.
- Text.Strip removes ASCII white space and NUL at both ends. Ruby's exact `String#strip` rules across versions are not modelled. Character counts are counts of Unicode scalar values.
- The text of flash messages is abstracted to message kinds. The deleted list's name is kept in its success message.
- Handlers.Session.CheckTodo takes the submitted `completed` parameter as a string. A missing parameter behaves like any text other than "true".
- Ruby hashes are mutated in place and shared only through the session. The model updates values held in the session's fields, so aliasing is not modelled.
- Concurrent requests on one session are not modelled; each handler runs alone.
