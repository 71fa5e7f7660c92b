# Task tracker: a verified model

The task tracker keeps, in memory, a registry of users. Each user has a name
and an ordered list of tasks, and each task has a title and a completion flag.
Four command handlers work on the registry:

- `add_task` files the user if the name is new and appends a fresh task.
- `complete_task` completes the first task of a user with a given title. It
  reports an unknown user, an unknown title or a task that is already done.
- `list_tasks` prints one user's numbered task list.
- `list_users` prints one summary line per user, in the order the users were
  created.

The model has four modules:

- `Wrappers` (wrappers.dfy) holds the `Option` type.
- `Models` (models.dfy) models lib/models.py.
  - `Task` and `User` are classes whose fields change in place: the flag of a
    task, and the task list of a user.
  - Task titles and user names are fixed at construction (`const`).
  - The two `__str__` renderings (`Render`, `Summary`), the numbered listing
    (`Listing`) and the first-match search (`FirstMatch`) are pure functions.
  - `TaskView` is the observable value of a task: its title and its flag.
- `Commands` (commands.dfy) gives the meaning of every handler as pure
  functions over `Db`, the abstract state of the registry. `Db` holds the user
  names in insertion order and each user's task values. Each handler function
  returns the new state or the lines printed. The lemmas about the handlers
  are stated and proved here.
- `CliTool` (cli_tool.dfy) models lib/cli_tool.py.
  - The module-level `users` dictionary becomes the object `Registry`. It
    persists across handler calls.
  - Its `order` field is the dictionary's insertion order, and its `users`
    field is the dictionary itself.
  - Every handler is a method. Its contract ties the new abstract state
    `Abs()` and the printed lines to the `Commands` function for that handler.
  - `Valid()` is the registry invariant:
    - Every user is filed under its own name.
    - The name order enumerates the dictionary keys.
    - The ghost map `Tasks` mirrors the live task objects.
    - No task object is shared between two places. The ghost map `Slot` gives
      each task object its owner and position.

Output model: each `print(x)` is one element `x` of the sequence of strings a
method returns. A leading `"\n"` in a printed header stays inside that
element.

Python truthiness: `if not user` and `if not task` test for `None`, because
`User` and `Task` objects are always true. `if not self.tasks` and
`if not users` test for emptiness.

## Model

| member | source | states |
|---|---|---|
| Models.Task.constructor | lib/models.py:4-6 | a new task has the given title and is not completed |
| Models.Task.Complete | lib/models.py:8-11 | afterwards the task is completed and its title is unchanged, whatever its state was before, so a second call leaves the state as it is; the printed line is the confirmation with the title |
| Models.Render | lib/models.py:13-15 | the rendering is the glyph, a space, then the title; the glyph is ✅ exactly when the task is completed and ⭕ exactly when it is not |
| Models.User.constructor | lib/models.py:21-23 | a new user has the given name and no tasks |
| Models.User.AddTask | lib/models.py:25-28 | the list becomes the old list followed by the task, so earlier tasks keep their positions; the printed line names the task and the user |
| Models.FirstMatch | lib/models.py:30-35 | the result is None exactly when no task has the title; otherwise it is an index holding the title, and no lower index holds it |
| Models.FirstMatchSameTitles | lib/models.py:30-35 | the search depends only on titles: lists with the same titles in the same positions give the same answer, so completing a task never moves the first match |
| Models.FirstMatchAppend | lib/models.py:30-35 | appending a task keeps an earlier match; otherwise the new task is found exactly when it has the title |
| Models.User.GetTaskByTitle | lib/models.py:30-35 | returns the live task object at the first match, and null when no title matches; the method modifies nothing |
| Models.Entries | lib/models.py:43-44 | one line per task, in list order, numbered consecutively from the first number |
| Models.EntriesUpdate | lib/models.py:43-44 | changing the task at position k changes only entry k |
| Models.Listing | lib/models.py:37-44 | no tasks gives the single line `<name> has no tasks.`; otherwise a header, then task i rendered as `  <i+1>. <rendering>` |
| Models.ListingUpdate | lib/models.py:37-44 | changing the task at position k changes only listing line k+1, which shows the new task |
| Models.User.ListTasks | lib/models.py:37-44 | the lines printed are the listing of the tasks as they are now |
| Models.DecimalString | lib/models.py:47 | the count is rendered as decimal digits, with no leading zero; zero is the single digit `0` |
| Models.DecimalRoundTrip | lib/models.py:47 | reading the digits back gives the count |
| Models.SummaryRoundTrip | lib/models.py:46-47 | the contract of `Models.Summary` (`User.__str__`): the summary is `User: <name> (`, then exactly `DecimalString(count)`, then ` tasks)`; those digits read back as the task count |
| Commands.EnumeratesMember | lib/cli_tool.py:18 | a name is a key exactly when the insertion order lists it |
| Commands.EnumeratesDistinct | lib/cli_tool.py:18 | the insertion order has no repetitions and as many entries as there are keys |
| Commands.EnumeratesAppend | lib/cli_tool.py:27 | inserting a new key lists it last and keeps the order an enumeration of the keys |
| Commands.AddTask | lib/cli_tool.py:21-31 | the name becomes registered; a new name is listed last; the user's list grows by one; its earlier tasks stay unchanged in place; the new last task is the title, not completed; other users are untouched |
| Commands.AddTaskKeepsWellFormed | lib/cli_tool.py:21-31 | `add_task` keeps the order an enumeration of the keys |
| Commands.Enrol | lib/cli_tool.py:24-27 | filing a user registers the name with no tasks, lists a new name last and touches no other user |
| Commands.EnrolKeepsWellFormed | lib/cli_tool.py:24-27 | filing a user keeps the order an enumeration of the keys |
| Commands.AddTaskAfterEnrol | lib/cli_tool.py:24-31 | for an unknown name, filing the user and then appending has the same effect as `add_task` |
| Commands.Classify | lib/cli_tool.py:36-48 | the four-way guard: unknown user exactly when the name is unregistered; unknown task exactly when no task has the title; otherwise the first match is either already completed or is returned as the index to complete |
| Commands.CompleteTask | lib/cli_tool.py:34-49 | in every case other than completion, nothing changes; otherwise only the first matching task of that user becomes completed, and every other task of every user and every list length stays as it was |
| Commands.CompleteTaskKeepsWellFormed | lib/cli_tool.py:34-49 | `complete_task` keeps the order an enumeration of the keys |
| Commands.CompleteTwice | lib/cli_tool.py:46-49 | a second identical `complete_task` changes nothing, and it reports "already completed" where the first call completed |
| Commands.AddThenClassify | lib/cli_tool.py:21-48 | right after `add_task(u, t)`, `complete_task(u, t)` targets the new task unless an earlier task of `u` already has title `t` |
| Commands.ListTasksOutput | lib/cli_tool.py:52-59 | an unknown user gives the not-found line; a known user gives the user's listing |
| Commands.AddTaskListedLast | lib/cli_tool.py:52-59 | after `add_task`, the user's listing has one more line, the new task not completed and numbered last; a listing that already had tasks keeps its earlier lines |
| Commands.CompleteTaskListing | lib/cli_tool.py:52-59 | after a completion at position k, the listing differs only in line k+1, which shows the task as completed |
| Commands.UserLines | lib/cli_tool.py:69-70 | one `  • <summary>` line per name, in the given order |
| Commands.ListUsersOutput | lib/cli_tool.py:62-70 | an empty registry gives `No users found.`; otherwise a header followed by one line per user |
| Commands.UserLinesCover | lib/cli_tool.py:69-70 | every registered user has a line |
| Commands.UserLinesOnlyUsers | lib/cli_tool.py:69-70 | every line belongs to a registered user |
| Commands.ListUsersShowsEveryUser | lib/cli_tool.py:62-70 | a non-empty registry prints one line per user: every user's line appears, every line is some user's, and there are as many lines as users |
| Commands.AddTaskKeepsOtherLines | lib/cli_tool.py:69-70 | `add_task` leaves every other user's summary line unchanged |
| Commands.UserLinesSnoc | lib/cli_tool.py:69-70 | listing one more name adds exactly its line at the end |
| Commands.AddTaskKeepsLines | lib/cli_tool.py:69-70 | `add_task` leaves the lines of all names other than its user unchanged |
| Commands.AddNewUserLines | lib/cli_tool.py:69-70 | a user created by `add_task` gets the last line, and the earlier lines stay as they were |
| Commands.AddNewUserListedLast | lib/cli_tool.py:62-70 | after `add_task` creates a user, `list_users` prints the earlier output followed by the new user's line |
| Commands.NewUserLine | lib/cli_tool.py:70 | the line of a newly created user reports one task |
| CliTool.Registry.constructor | lib/cli_tool.py:18 | the registry starts as an empty dictionary |
| CliTool.Registry.Enrol | lib/cli_tool.py:24-27 | a fresh user with that name and no tasks is filed under the name and listed last; the abstract state follows `Commands.Enrol` |
| CliTool.Registry.Append | lib/cli_tool.py:29-31 | the user's list of task objects grows by one; the earlier objects stay in their places; the new last object is freshly allocated; its view is the title, not completed (the abstract state follows `Commands.AddTask`); the invariant is kept; the printed line is the confirmation |
| CliTool.Registry.AddTask | lib/cli_tool.py:21-31 | the abstract state follows `Commands.AddTask`; known names keep their user object; a new name gets a fresh one; every other user keeps the very same task objects; the user's earlier task objects stay in their places (none for a new name); the user's last task is a freshly allocated object; the printed line is the confirmation |
| CliTool.Registry.Mark | lib/cli_tool.py:48-49 | completing the live task at position k changes exactly entry k of that user's mirrored state |
| CliTool.Registry.CompleteTask | lib/cli_tool.py:34-49 | the abstract state follows `Commands.CompleteTask`, the printed line follows `Commands.Classify`, and no user object is replaced; it may change only the registry and the task objects its users hold, so every other object stays as it was |
| CliTool.AddThenComplete | lib/cli_tool.py:21-49 | on a fresh registry, `add_task(u, t)` then `complete_task(u, t)` prints the completion line, and a task object the registry does not hold keeps its state |
| CliTool.Registry.ListTasks | lib/cli_tool.py:52-59 | prints `Commands.ListTasksOutput` of the current state and modifies nothing |
| CliTool.Registry.ListUsers | lib/cli_tool.py:62-70 | prints `Commands.ListUsersOutput` of the current state, iterating in insertion order, and modifies nothing |

## Left out

- `main`, the argparse set-up, help texts and dispatch through `args.func`: these are argument parsing and process plumbing.
- Printing to standard output: every printed line is returned as an element of a sequence instead.
- The `sys.path` change at lib/cli_tool.py:12-13 and the package `__init__` files: these only concern imports.
- The process-per-invocation lifetime: the model's registry persists across any sequence of handler calls.
- Test scaffolding (subprocess runs, stdout capture, monkey-patching the registry) is not part of this model.
- CliTool.Registry.Enrol: requires a name that is not yet registered, because `add_task` only reaches `users[args.user] = user` for such a name. `Commands.Enrol` still defines the other case.
- Text is compared as sequences of Unicode code points. Python string equality is the same thing, so titles and names need no normalisation.
