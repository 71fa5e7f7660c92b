/** The command layer of lib/cli_tool.py: the module-level `users` dictionary,
    made an explicit registry object that persists across handler calls, and
    the four handlers as its methods.  Each handler returns the lines it
    prints instead of printing them. */
module CliTool {
  import opened Wrappers
  import opened Models
  import opened Commands

  class Registry {
    /** The registered names, in the order the dictionary iterates them
        (insertion order). */
    var order: seq<string>
    /** Username to user. */
    var users: map<string, User>
    /** The current state of every user's tasks. */
    ghost var Tasks: map<string, seq<TaskView>>
    /** Where each task object sits: its owner's name and its position.  Its
        keys are all the tasks of all the users. */
    ghost var Slot: map<Task, (string, nat)>

    ghost function Abs(): Db
      reads this
    {
      Db(order, Tasks)
    }

    /** One user per name, filed under its own name; `Tasks` mirrors the task
        objects; each task object sits in exactly one place (`Slot` gives it),
        so no task is shared, within a user or between users. */
    ghost predicate Valid()
      reads this, users.Values, Slot.Keys
    {
      && WellFormed(Abs())
      && users.Keys == Tasks.Keys
      && (forall n :: n in users ==>
            && users[n].name == n
            && |users[n].tasks| == |Tasks[n]|)
      && (forall n, i :: n in users && 0 <= i < |users[n].tasks| ==>
            && users[n].tasks[i] in Slot
            && Slot[users[n].tasks[i]] == (n, i)
            && users[n].tasks[i].View() == Tasks[n][i])
    }

    /** The registry starts empty. */
    constructor ()
      ensures Valid()
      ensures users == map[] && Abs() == Db([], map[])
    {
      order := [];
      users := map[];
      Tasks := map[];
      Slot := map[];
    }

    /** The first half of `add_task`: a name not yet registered gets a new
        user with no tasks, filed under that name and listed last. */
    method Enrol(user: string) returns (u: User)
      requires Valid()
      requires user !in users
      modifies this
      ensures Valid()
      ensures fresh(u) && u.name == user && u.tasks == []
      ensures users == old(users)[user := u]
      ensures Abs() == Commands.Enrol(old(Abs()), user)
      ensures Slot == old(Slot)
    {
      EnrolKeepsWellFormed(Abs(), user);
      u := new User(user);
      users, order, Tasks := users[user := u], order + [user], Tasks[user := []];
    }

    /** The second half of `add_task`: appends a fresh incomplete task titled
        `title` to the list of the (registered) user `user`. */
    method Append(user: string, title: string) returns (out: seq<string>)
      requires Valid()
      requires user in users
      modifies this, users[user]
      ensures Valid()
      ensures Abs() == Commands.AddTask(old(Abs()), user, title)
      ensures out == [AddedMessage(title, user)]
      ensures users == old(users)
      ensures |users[user].tasks| == |old(users[user].tasks)| + 1
      ensures users[user].tasks[..|old(users[user].tasks)|] == old(users[user].tasks)
      ensures fresh(users[user].tasks[|old(users[user].tasks)|])
    {
      var u := users[user];
      ghost var existing := Tasks[user];
      AddTaskKeepsWellFormed(Abs(), user, title);
      var task := new Task(title);
      var msg := u.AddTask(task);
      out := [msg];
      assert task.View() == TaskView(title, false);
      Tasks, Slot := Tasks[user := existing + [task.View()]], Slot[task := (user, |existing|)];
      assert Abs() == Commands.AddTask(old(Abs()), user, title);
      forall n, i | n in users && 0 <= i < |users[n].tasks|
        ensures users[n].tasks[i] in Slot
        ensures Slot[users[n].tasks[i]] == (n, i) && users[n].tasks[i].View() == Tasks[n][i]
      {
        if n == user && i == |existing| {
          assert users[n].tasks[i] == task;
        }
      }
    }

    /** `add_task`: reuses the user filed under `user` or files a new one, and
        appends a fresh incomplete task titled `title` to its list. */
    method AddTask(user: string, title: string) returns (out: seq<string>)
      requires Valid()
      modifies this, users.Values
      ensures Valid()
      ensures Abs() == Commands.AddTask(old(Abs()), user, title)
      ensures out == [AddedMessage(title, user)]
      ensures forall n :: n in old(users) ==> n in users && users[n] == old(users[n])
      ensures user !in old(users) ==> fresh(users[user])
      ensures forall n :: n in old(users) && n != user ==> users[n].tasks == old(users[n].tasks)
      ensures |users[user].tasks| >= 1 && fresh(users[user].tasks[|users[user].tasks| - 1])
      ensures users[user].tasks[..|users[user].tasks| - 1]
        == if user in old(users) then old(users[user].tasks) else []
    {
      if user !in users {
        var _ := Enrol(user);
        AddTaskAfterEnrol(old(Abs()), user, title);
      }
      out := Append(user, title);
    }

    /** The last branch of `complete_task`: completes the task at position
        `k` of `user`'s list, the only object that changes. */
    method Mark(user: string, ghost k: nat, task: Task) returns (msg: string)
      requires Valid()
      requires user in users && k < |users[user].tasks| && users[user].tasks[k] == task
      modifies this, task
      ensures Valid()
      ensures Tasks == old(Tasks)[user := old(Tasks[user])[k := TaskView(task.title, true)]]
      ensures users == old(users) && order == old(order) && Slot == old(Slot)
      ensures msg == CompletedMessage(task.title)
    {
      msg := task.Complete();
      Tasks := Tasks[user := Tasks[user][k := task.View()]];
      assert Tasks.Keys == old(Tasks).Keys;
      forall n, i | n in users && 0 <= i < |users[n].tasks|
        ensures users[n].tasks[i].View() == Tasks[n][i]
      {
        if users[n].tasks[i] == task {
          assert Slot[task] == (user, k) == (n, i);
        }
      }
    }

    /** `complete_task`: reports an unknown user, an unknown title or a task
        already done; otherwise completes the first task with that title, the
        only object that changes.  Its frame is the registry and the task
        objects it holds, so no other object can change. */
    method CompleteTask(user: string, title: string) returns (out: seq<string>)
      requires Valid()
      modifies this, set n, i | n in users && 0 <= i < |users[n].tasks| :: users[n].tasks[i]
      ensures Valid()
      ensures Abs() == Commands.CompleteTask(old(Abs()), user, title)
      ensures out == [CompleteMessage(Classify(old(Abs()), user, title), user, title)]
      ensures users == old(users) && Slot == old(Slot)
    {
      if user !in users {
        return [UserNotFoundMessage(user)];
      }
      var u := users[user];
      assert ViewsOf(u.tasks) == Tasks[user];
      var task := u.GetTaskByTitle(title);
      if task == null {
        return [TaskNotFoundMessage(user, title)];
      }
      ghost var k := FirstMatch(Tasks[user], title).value;
      if task.completed {
        return [AlreadyCompletedMessage(title)];
      }
      var msg := Mark(user, k, task);
      out := [msg];
    }

    /** `list_tasks`: an unknown user is reported, a known one lists its
        tasks as they are now. */
    method ListTasks(user: string) returns (out: seq<string>)
      requires Valid()
      ensures out == ListTasksOutput(Abs(), user)
    {
      if user !in users {
        return [UserNotFoundMessage(user)];
      }
      var u := users[user];
      assert ViewsOf(u.tasks) == Tasks[user];
      out := u.ListTasks();
    }

    /** `list_users`: a notice for an empty registry, otherwise a header and
        one summary line per user, in the order the users were created. */
    method ListUsers() returns (out: seq<string>)
      requires Valid()
      ensures out == ListUsersOutput(Abs())
    {
      if |users| == 0 {
        return [NoUsersMessage];
      }
      ghost var db := Abs();
      var lines: seq<string> := [];
      for k := 0 to |order|
        invariant |lines| == k
        invariant forall j :: 0 <= j < k ==> lines[j] == UserLine(db, order[j])
      {
        EnumeratesMember(db.order, db.tasks.Keys, order[k]);
        var u := users[order[k]];
        lines := lines + ["  • " + Summary(u.name, |u.tasks|)];
      }
      assert lines == UserLines(db, order);
      assert |Tasks| == |users| by {
        assert Tasks.Keys == users.Keys;
      }
      out := [UsersHeader] + lines;
    }
  }

  /** A run on a fresh registry: `add_task(user, title)` then
      `complete_task(user, title)` confirms the completion, and a task the
      registry does not hold is left as it was. */
  method AddThenComplete(t: Task, user: string, title: string) returns (out: seq<string>)
    ensures out == [CompletedMessage(title)]
  {
    var r := new Registry();
    var _ := r.AddTask(user, title);
    assert t !in set n, i | n in r.users && 0 <= i < |r.users[n].tasks| :: r.users[n].tasks[i] by {
      assert r.users.Keys == {user};
      assert fresh(r.users[user].tasks[0]) && |r.users[user].tasks| == 1;
    }
    assert r.Abs().tasks[user] == [TaskView(title, false)];
    assert Classify(r.Abs(), user, title) == Completed(0);
    ghost var before := t.completed;
    out := r.CompleteTask(user, title);
    assert t.completed == before;
  }
}
