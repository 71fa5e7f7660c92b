/** The command handlers of lib/cli_tool.py as pure functions over the
    registry's state: what each handler prints and the state it leaves. */
module Commands {
  import opened Wrappers
  import opened Models

  /** The registry's state: the user names in insertion order, and each
      user's tasks. */
  datatype Db = Db(order: seq<string>, tasks: map<string, seq<TaskView>>)

  /** `order` lists every element of `keys` exactly once: the keys of a
      Python dictionary in their insertion order. */
  predicate Enumerates(order: seq<string>, keys: set<string>)
    decreases |order|
  {
    if order == [] then keys == {}
    else
      var last := order[|order| - 1];
      last in keys && Enumerates(order[..|order| - 1], keys - {last})
  }

  /** A name is a key exactly when the enumeration lists it. */
  lemma {:induction false} EnumeratesMember(order: seq<string>, keys: set<string>, n: string)
    requires Enumerates(order, keys)
    ensures n in keys <==> n in order
  {
    if order != [] {
      var last, rest := order[|order| - 1], order[..|order| - 1];
      EnumeratesMember(rest, keys - {last}, n);
      assert order == rest + [last];
    }
  }

  /** An enumeration has no repetitions and as many entries as keys. */
  lemma {:induction false} EnumeratesDistinct(order: seq<string>, keys: set<string>)
    requires Enumerates(order, keys)
    ensures forall i, j :: 0 <= i < j < |order| ==> order[i] != order[j]
    ensures |keys| == |order|
  {
    if order != [] {
      var last, rest := order[|order| - 1], order[..|order| - 1];
      EnumeratesDistinct(rest, keys - {last});
      forall i | 0 <= i < |rest|
        ensures rest[i] != last
      {
        EnumeratesMember(rest, keys - {last}, rest[i]);
      }
    }
  }

  /** Listing one more key last keeps an enumeration. */
  lemma EnumeratesAppend(order: seq<string>, keys: set<string>, n: string)
    requires Enumerates(order, keys) && n !in keys
    ensures Enumerates(order + [n], keys + {n})
  {
  }

  /** The registry is a dictionary: its order enumerates its keys. */
  predicate WellFormed(db: Db)
  {
    Enumerates(db.order, db.tasks.Keys)
  }

  /** A user's tasks, or none for a name that is not registered. */
  function TasksOf(db: Db, user: string): seq<TaskView>
  {
    if user in db.tasks then db.tasks[user] else []
  }

  function UserNotFoundMessage(user: string): string
  {
    "❌ User '" + user + "' not found."
  }

  function TaskNotFoundMessage(user: string, title: string): string
  {
    "❌ Task '" + title + "' not found for " + user + "."
  }

  function AlreadyCompletedMessage(title: string): string
  {
    "ℹ️  Task '" + title + "' is already completed."
  }

  const NoUsersMessage := "No users found."
  const UsersHeader := "\nAll users:"

  // ---------------------------------------------------------------------------
  // add_task
  // ---------------------------------------------------------------------------

  /** `add_task`: gets or creates the user, then appends a new incomplete task
      behind the user's earlier tasks; nobody else is touched. */
  function AddTask(db: Db, user: string, title: string): (r: Db)
    ensures r.tasks.Keys == db.tasks.Keys + {user}
    ensures r.order == if user in db.tasks then db.order else db.order + [user]
    ensures |r.tasks[user]| == |TasksOf(db, user)| + 1
    ensures r.tasks[user][..|TasksOf(db, user)|] == TasksOf(db, user)
    ensures r.tasks[user][|TasksOf(db, user)|] == TaskView(title, false)
    ensures forall n :: n in db.tasks && n != user ==> r.tasks[n] == db.tasks[n]
  {
    var existing := TasksOf(db, user);
    Db(if user in db.tasks then db.order else db.order + [user],
       db.tasks[user := existing + [TaskView(title, false)]])
  }

  /** `add_task` keeps the registry a dictionary. */
  lemma AddTaskKeepsWellFormed(db: Db, user: string, title: string)
    requires WellFormed(db)
    ensures WellFormed(AddTask(db, user, title))
  {
    if user !in db.tasks {
      EnumeratesAppend(db.order, db.tasks.Keys, user);
    } else {
      assert db.tasks.Keys + {user} == db.tasks.Keys;
    }
  }

  /** `users[name] = User(name)`: files a user with no tasks under `name`; a
      new name is listed last, a known one keeps its place and loses its
      tasks. */
  function Enrol(db: Db, user: string): (r: Db)
    ensures r.tasks.Keys == db.tasks.Keys + {user}
    ensures r.order == if user in db.tasks then db.order else db.order + [user]
    ensures TasksOf(r, user) == []
    ensures forall n :: n in db.tasks && n != user ==> r.tasks[n] == db.tasks[n]
  {
    Db(if user in db.tasks then db.order else db.order + [user], db.tasks[user := []])
  }

  /** Filing a user keeps the registry a dictionary. */
  lemma EnrolKeepsWellFormed(db: Db, user: string)
    requires WellFormed(db)
    ensures WellFormed(Enrol(db, user))
  {
    if user !in db.tasks {
      EnumeratesAppend(db.order, db.tasks.Keys, user);
    } else {
      assert db.tasks.Keys + {user} == db.tasks.Keys;
    }
  }

  /** The first branch of `add_task` is invisible in the result: filing an
      unknown user first and then appending is `add_task` itself. */
  lemma AddTaskAfterEnrol(db: Db, user: string, title: string)
    requires user !in db.tasks
    ensures AddTask(Enrol(db, user), user, title) == AddTask(db, user, title)
  {
  }

  // ---------------------------------------------------------------------------
  // complete_task
  // ---------------------------------------------------------------------------

  /** The cases `complete_task` tells apart. */
  datatype Completion = UserNotFound | TaskNotFound | AlreadyCompleted | Completed(index: nat)

  /** The guard of `complete_task`: unknown user, no task with that title,
      first such task already completed, or the index of the task to complete. */
  function Classify(db: Db, user: string, title: string): (c: Completion)
    ensures c == UserNotFound <==> user !in db.tasks
    ensures c == TaskNotFound <==>
      user in db.tasks && forall i :: 0 <= i < |db.tasks[user]| ==> db.tasks[user][i].title != title
    ensures c == AlreadyCompleted ==>
      user in db.tasks && FirstMatch(db.tasks[user], title).Some? &&
      db.tasks[user][FirstMatch(db.tasks[user], title).value] == TaskView(title, true)
    ensures c.Completed? ==>
      user in db.tasks && FirstMatch(db.tasks[user], title) == Some(c.index) &&
      db.tasks[user][c.index] == TaskView(title, false)
  {
    if user !in db.tasks then UserNotFound
    else match FirstMatch(db.tasks[user], title)
      case None => TaskNotFound
      case Some(k) => if db.tasks[user][k].completed then AlreadyCompleted else Completed(k)
  }

  /** The line `complete_task` prints in each case. */
  function CompleteMessage(c: Completion, user: string, title: string): string
  {
    match c
    case UserNotFound => UserNotFoundMessage(user)
    case TaskNotFound => TaskNotFoundMessage(user, title)
    case AlreadyCompleted => AlreadyCompletedMessage(title)
    case Completed(_) => CompletedMessage(title)
  }

  /** `complete_task`: sets the flag of exactly the first task of `user` titled
      `title` when it was not yet set; every other task of every user, the
      names and the list shapes stay as they were. */
  function CompleteTask(db: Db, user: string, title: string): (r: Db)
    ensures r.order == db.order && r.tasks.Keys == db.tasks.Keys
    ensures !Classify(db, user, title).Completed? ==> r == db
    ensures forall n :: n in db.tasks ==> |r.tasks[n]| == |db.tasks[n]|
    ensures forall n, i :: n in db.tasks && 0 <= i < |db.tasks[n]| ==>
      r.tasks[n][i] ==
        if Classify(db, user, title) == Completed(i) && n == user then TaskView(title, true)
        else db.tasks[n][i]
  {
    match Classify(db, user, title)
    case Completed(k) => Db(db.order, db.tasks[user := db.tasks[user][k := TaskView(title, true)]])
    case _ => db
  }

  /** `complete_task` keeps the registry a dictionary. */
  lemma CompleteTaskKeepsWellFormed(db: Db, user: string, title: string)
    requires WellFormed(db)
    ensures WellFormed(CompleteTask(db, user, title))
  {
  }

  /** Completing twice: the second call reports the task as already completed
      and changes nothing; the other outcomes simply repeat. */
  lemma CompleteTwice(db: Db, user: string, title: string)
    ensures CompleteTask(CompleteTask(db, user, title), user, title) == CompleteTask(db, user, title)
    ensures Classify(CompleteTask(db, user, title), user, title) ==
      if Classify(db, user, title).Completed? then AlreadyCompleted else Classify(db, user, title)
  {
  }

  /** A task just added can be completed by its title: the new task itself,
      unless an earlier task of the same user has that title, in which case
      the earlier one still answers. */
  lemma AddThenClassify(db: Db, user: string, title: string)
    ensures Classify(AddTask(db, user, title), user, title) ==
      if user in db.tasks && FirstMatch(db.tasks[user], title).Some? then Classify(db, user, title)
      else Completed(|TasksOf(db, user)|)
  {
  }

  // ---------------------------------------------------------------------------
  // list_tasks
  // ---------------------------------------------------------------------------

  /** `list_tasks`: an unknown user is reported, a known one's tasks listed. */
  function ListTasksOutput(db: Db, user: string): (lines: seq<string>)
    ensures user !in db.tasks ==> lines == [UserNotFoundMessage(user)]
    ensures user in db.tasks ==> lines == Listing(user, db.tasks[user])
  {
    if user !in db.tasks then [UserNotFoundMessage(user)] else Listing(user, db.tasks[user])
  }

  /** After `add_task`, the user's listing gains one line, the new task
      numbered after the earlier ones and shown not completed; a listing that
      already had tasks keeps its earlier lines. */
  lemma AddTaskListedLast(db: Db, user: string, title: string)
    ensures var before, after := ListTasksOutput(db, user), ListTasksOutput(AddTask(db, user, title), user);
      && |after| == |TasksOf(db, user)| + 2
      && after[|after| - 1] == Entry(|TasksOf(db, user)| + 1, TaskView(title, false))
      && (TasksOf(db, user) != [] ==> after[..|after| - 1] == before)
  {
  }

  /** After `complete_task` completes the task at position k, the user's
      listing shows that task's line with the completed glyph and every other
      line unchanged. */
  lemma CompleteTaskListing(db: Db, user: string, title: string)
    requires Classify(db, user, title).Completed?
    ensures var k := Classify(db, user, title).index;
      ListTasksOutput(CompleteTask(db, user, title), user)
        == ListTasksOutput(db, user)[k + 1 := Entry(k + 1, TaskView(title, true))]
  {
    // Dafny also finds this proof unaided, but at some twenty times the
    // cost, beyond the resource limit on some solver seeds.
    var k := Classify(db, user, title).index;
    var r := CompleteTask(db, user, title);
    assert r.tasks[user] == db.tasks[user][k := TaskView(title, true)];
    ListingUpdate(user, db.tasks[user], k, TaskView(title, true));
  }

  // ---------------------------------------------------------------------------
  // list_users
  // ---------------------------------------------------------------------------

  /** The line `list_users` prints for one user: a bullet and its summary. */
  function UserLine(db: Db, name: string): string
  {
    "  • " + Summary(name, |TasksOf(db, name)|)
  }

  /** One line per name, in the given order. */
  function UserLines(db: Db, names: seq<string>): (lines: seq<string>)
    ensures |lines| == |names|
    ensures forall k :: 0 <= k < |names| ==> lines[k] == UserLine(db, names[k])
  {
    if names == [] then [] else [UserLine(db, names[0])] + UserLines(db, names[1..])
  }

  /** `list_users`: one message for an empty registry, otherwise a header and
      one line per user in insertion order. */
  function ListUsersOutput(db: Db): (lines: seq<string>)
    ensures |db.tasks| == 0 ==> lines == [NoUsersMessage]
    ensures |db.tasks| != 0 ==> |lines| == |db.order| + 1 && lines[0] == UsersHeader
    ensures |db.tasks| != 0 ==> forall k :: 0 <= k < |db.order| ==> lines[k + 1] == UserLine(db, db.order[k])
  {
    if |db.tasks| == 0 then [NoUsersMessage] else [UsersHeader] + UserLines(db, db.order)
  }

  /** Every registered user has a line among the user lines. */
  lemma UserLinesCover(db: Db, n: string)
    requires WellFormed(db) && n in db.tasks
    ensures UserLine(db, n) in UserLines(db, db.order)
  {
    EnumeratesMember(db.order, db.tasks.Keys, n);
    var i :| 0 <= i < |db.order| && db.order[i] == n;
    assert UserLines(db, db.order)[i] == UserLine(db, n);
  }

  /** Every user line belongs to a registered user. */
  lemma UserLinesOnlyUsers(db: Db, line: string)
    requires WellFormed(db) && line in UserLines(db, db.order)
    ensures exists n :: n in db.tasks && line == UserLine(db, n)
  {
    var lines := UserLines(db, db.order);
    var i :| 0 <= i < |lines| && lines[i] == line;
    EnumeratesMember(db.order, db.tasks.Keys, db.order[i]);
  }

  /** A non-empty registry lists one line per registered user: the line of
      every registered user appears, every line is some registered user's,
      and there are as many lines as users. */
  lemma {:induction false} ListUsersShowsEveryUser(db: Db)
    requires WellFormed(db) && |db.tasks| != 0
    ensures var out := ListUsersOutput(db);
      && |out| == |db.tasks| + 1
      && (forall n :: n in db.tasks ==> UserLine(db, n) in out[1..])
      && (forall line :: line in out[1..] ==> exists n :: n in db.tasks && line == UserLine(db, n))
  {
    assert ListUsersOutput(db)[1..] == UserLines(db, db.order);
    EnumeratesDistinct(db.order, db.tasks.Keys);
    forall n | n in db.tasks
      ensures UserLine(db, n) in UserLines(db, db.order)
    {
      UserLinesCover(db, n);
    }
    forall line | line in UserLines(db, db.order)
      ensures exists n :: n in db.tasks && line == UserLine(db, n)
    {
      UserLinesOnlyUsers(db, line);
    }
  }

  /** `add_task` changes no other user's line. */
  lemma AddTaskKeepsOtherLines(db: Db, user: string, title: string, n: string)
    requires n != user
    ensures UserLine(AddTask(db, user, title), n) == UserLine(db, n)
  {
  }

  /** Listing one more name adds its line last. */
  lemma UserLinesSnoc(db: Db, names: seq<string>, n: string)
    ensures UserLines(db, names + [n]) == UserLines(db, names) + [UserLine(db, n)]
  {
  }

  /** `add_task` leaves the lines of names other than its user unchanged. */
  lemma AddTaskKeepsLines(db: Db, user: string, title: string, names: seq<string>)
    requires user !in names
    ensures UserLines(AddTask(db, user, title), names) == UserLines(db, names)
  {
  }

  /** The user lines after `add_task` files a new user: the earlier lines,
      then the new user's. */
  lemma AddNewUserLines(db: Db, user: string, title: string)
    requires WellFormed(db) && user !in db.tasks
    ensures var r := AddTask(db, user, title);
      UserLines(r, r.order) == UserLines(db, db.order) + [UserLine(r, user)]
  {
    var r := AddTask(db, user, title);
    EnumeratesMember(db.order, db.tasks.Keys, user);
    UserLinesSnoc(r, db.order, user);
    AddTaskKeepsLines(db, user, title, db.order);
  }

  /** A user created by `add_task` is listed after every earlier user, each
      of which keeps its line. */
  lemma {:induction false} AddNewUserListedLast(db: Db, user: string, title: string)
    requires WellFormed(db) && user !in db.tasks && |db.tasks| != 0
    ensures ListUsersOutput(AddTask(db, user, title))
      == ListUsersOutput(db) + [UserLine(AddTask(db, user, title), user)]
  {
    var r := AddTask(db, user, title);
    assert |r.tasks| != 0 by { assert user in r.tasks; }
    AddNewUserLines(db, user, title);
  }

  /** The line of a user created by `add_task` counts its one task. */
  lemma NewUserLine(db: Db, user: string, title: string)
    requires user !in db.tasks
    ensures UserLine(AddTask(db, user, title), user) == "  • " + Summary(user, 1)
  {
  }

}
