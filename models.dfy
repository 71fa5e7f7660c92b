/** The two entities of the task tracker, `Task` and `User` (lib/models.py),
    together with the pure renderings and the title search they use. */
module Models {
  import opened Wrappers

  /** The observable state of one task. */
  datatype TaskView = TaskView(title: string, completed: bool)

  // ---------------------------------------------------------------------------
  // Decimal rendering of a count, as Python's f-string formatting of an `int`.
  // ---------------------------------------------------------------------------

  predicate IsDigit(c: char) { '0' <= c <= '9' }

  function DigitChar(d: nat): (c: char)
    requires d < 10
    ensures IsDigit(c) && c as int - '0' as int == d
  {
    ('0' as int + d) as char
  }

  /** Reads back a string of decimal digits; a non-digit counts as 0. */
  function ParseDecimal(s: string): nat
  {
    if s == [] then 0
    else ParseDecimal(s[..|s| - 1]) * 10
         + (if IsDigit(s[|s| - 1]) then s[|s| - 1] as int - '0' as int else 0)
  }

  /** `str(n)` for a natural number: its decimal digits, without leading zeros. */
  function DecimalString(n: nat): (s: string)
    ensures |s| >= 1 && forall i :: 0 <= i < |s| ==> IsDigit(s[i])
    ensures s[0] == '0' <==> n == 0
    ensures n == 0 ==> s == "0"
  {
    if n < 10 then [DigitChar(n)] else DecimalString(n / 10) + [DigitChar(n % 10)]
  }

  /** Reading back a rendered number gives the number. */
  lemma {:induction false} DecimalRoundTrip(n: nat)
    ensures ParseDecimal(DecimalString(n)) == n
  {
    var s := DecimalString(n);
    if n >= 10 {
      DecimalRoundTrip(n / 10);
      assert s[..|s| - 1] == DecimalString(n / 10);
    } else {
      assert s[..|s| - 1] == [];
    }
  }

  // ---------------------------------------------------------------------------
  // Task
  // ---------------------------------------------------------------------------

  /** The status glyph `Task.__str__` puts in front of the title. */
  function Glyph(completed: bool): char
  {
    if completed then '✅' else '⭕'
  }

  /** `Task.__str__`: the status glyph, one space, then the title; the glyph
      alone tells whether the task is completed. */
  function Render(v: TaskView): (s: string)
    ensures |s| == |v.title| + 2
    ensures s[1] == ' ' && s[2..] == v.title
    ensures s[0] == '✅' <==> v.completed
    ensures s[0] == '⭕' <==> !v.completed
  {
    [Glyph(v.completed), ' '] + v.title
  }

  /** The line `Task.complete` prints. */
  function CompletedMessage(title: string): string
  {
    "✅ Task '" + title + "' completed."
  }

  /** A task: a title fixed at construction and a completion flag. */
  class Task {
    const title: string
    var completed: bool

    /** A new task keeps the given title and starts incomplete. */
    constructor (title: string)
      ensures this.title == title && !completed
    {
      this.title := title;
      completed := false;
    }

    function View(): TaskView
      reads this
    {
      TaskView(title, completed)
    }

    /** Marks the task completed, whatever its prior state (so a second call
        changes nothing), and returns the confirmation line. */
    method Complete() returns (msg: string)
      modifies this
      ensures View() == old(View()).(completed := true)
      ensures msg == CompletedMessage(title)
    {
      completed := true;
      msg := CompletedMessage(title);
    }
  }

  /** The current state of a list of task objects, element by element. */
  ghost function ViewsOf(ts: seq<Task>): (vs: seq<TaskView>)
    reads set t | t in ts
    ensures |vs| == |ts|
    ensures forall i :: 0 <= i < |ts| ==> vs[i] == ts[i].View()
  {
    if ts == [] then [] else [ts[0].View()] + ViewsOf(ts[1..])
  }

  // ---------------------------------------------------------------------------
  // User
  // ---------------------------------------------------------------------------

  /** Index of the first task titled `title`, or `None` when no title matches. */
  function FirstMatch(vs: seq<TaskView>, title: string): (r: Option<nat>)
    ensures r.None? <==> forall i :: 0 <= i < |vs| ==> vs[i].title != title
    ensures r.Some? ==> r.value < |vs| && vs[r.value].title == title
    ensures r.Some? ==> forall j :: 0 <= j < r.value ==> vs[j].title != title
  {
    if vs == [] then None
    else if vs[0].title == title then Some(0)
    else match FirstMatch(vs[1..], title)
      case None => None
      case Some(k) => Some(k + 1)
  }

  /** The search only looks at titles: two lists with the same titles in the
      same positions have the same first match. */
  lemma FirstMatchSameTitles(a: seq<TaskView>, b: seq<TaskView>, title: string)
    requires |a| == |b|
    requires forall i :: 0 <= i < |a| ==> a[i].title == b[i].title
    ensures FirstMatch(a, title) == FirstMatch(b, title)
  {
  }

  /** Appending a task never hides an earlier match; the new task is found
      exactly when no earlier task has its title. */
  lemma {:induction false} FirstMatchAppend(vs: seq<TaskView>, v: TaskView, title: string)
    ensures FirstMatch(vs + [v], title) ==
      if FirstMatch(vs, title).Some? then FirstMatch(vs, title)
      else if v.title == title then Some(|vs|)
      else None
  {
    if vs != [] {
      FirstMatchAppend(vs[1..], v, title);
      assert (vs + [v])[1..] == vs[1..] + [v];
    }
  }

  /** The line `User.list_tasks` prints for the task numbered `number`. */
  function Entry(number: nat, v: TaskView): string
  {
    "  " + DecimalString(number) + ". " + Render(v)
  }

  /** The numbered lines for `vs`, the first numbered `first` (Python's `enumerate(tasks, 1)`). */
  function Entries(vs: seq<TaskView>, first: nat): (lines: seq<string>)
    ensures |lines| == |vs|
    ensures forall i :: 0 <= i < |vs| ==> lines[i] == Entry(first + i, vs[i])
  {
    if vs == [] then [] else [Entry(first, vs[0])] + Entries(vs[1..], first + 1)
  }

  /** `User.list_tasks`: one line when there is no task, otherwise a header and
      one line per task in list order, numbered from 1. */
  function Listing(name: string, vs: seq<TaskView>): (lines: seq<string>)
    ensures vs == [] ==> lines == [name + " has no tasks."]
    ensures vs != [] ==> |lines| == |vs| + 1 && lines[0] == "\n" + name + "'s tasks:"
    ensures vs != [] ==> forall i :: 0 <= i < |vs| ==> lines[i + 1] == Entry(i + 1, vs[i])
  {
    if vs == [] then [name + " has no tasks."] else ["\n" + name + "'s tasks:"] + Entries(vs, 1)
  }

  /** Changing the task at position k changes only its entry. */
  lemma EntriesUpdate(vs: seq<TaskView>, first: nat, k: nat, v: TaskView)
    requires k < |vs|
    ensures Entries(vs[k := v], first) == Entries(vs, first)[k := Entry(first + k, v)]
  {
  }

  /** Changing the task at position k changes only its line, the (k+1)-th. */
  lemma ListingUpdate(name: string, vs: seq<TaskView>, k: nat, v: TaskView)
    requires k < |vs|
    ensures Listing(name, vs[k := v]) == Listing(name, vs)[k + 1 := Entry(k + 1, v)]
  {
  }

  /** `User.__str__`: the name and the task count (read back by
      `SummaryRoundTrip`). */
  function Summary(name: string, count: nat): string
  {
    "User: " + name + " (" + DecimalString(count) + " tasks)"
  }

  /** The name and the task count can be read back from a summary. */
  lemma SummaryRoundTrip(name: string, count: nat)
    ensures var s := Summary(name, count);
      && |s| >= |name| + 16
      && s[..|name| + 8] == "User: " + name + " ("
      && s[|s| - 7..] == " tasks)"
      && s[|name| + 8..|s| - 7] == DecimalString(count)
      && ParseDecimal(s[|name| + 8..|s| - 7]) == count
  {
    var s, digits := Summary(name, count), DecimalString(count);
    DecimalRoundTrip(count);
    assert s[|name| + 8..|s| - 7] == digits;
  }

  /** The line `User.add_task` prints. */
  function AddedMessage(title: string, name: string): string
  {
    "📌 Task '" + title + "' added to " + name + "."
  }

  /** A user: a name and the ordered list of the tasks it owns. */
  class User {
    const name: string
    var tasks: seq<Task>

    /** A new user has the given name and no task. */
    constructor (name: string)
      ensures this.name == name && tasks == []
    {
      this.name := name;
      tasks := [];
    }

    /** Appends `task` after all earlier tasks, which keep their places. */
    method AddTask(task: Task) returns (msg: string)
      modifies this
      ensures tasks == old(tasks) + [task]
      ensures msg == AddedMessage(task.title, name)
    {
      tasks := tasks + [task];
      msg := AddedMessage(task.title, name);
    }

    /** The first task (the live object) whose title equals `title`, or `null`. */
    method GetTaskByTitle(title: string) returns (r: Task?)
      ensures r == match FirstMatch(ViewsOf(tasks), title)
                   case None => null
                   case Some(k) => tasks[k]
    {
      ghost var vs := ViewsOf(tasks);
      for i := 0 to |tasks|
        invariant forall j :: 0 <= j < i ==> vs[j].title != title
      {
        if tasks[i].title == title {
          assert vs[i].title == title;
          assert FirstMatch(vs, title) == Some(i);
          return tasks[i];
        }
      }
      assert FirstMatch(vs, title) == None;
      return null;
    }

    /** The lines `list_tasks` prints for the tasks as they are now. */
    method ListTasks() returns (lines: seq<string>)
      ensures lines == Listing(name, ViewsOf(tasks))
    {
      ghost var vs := ViewsOf(tasks);
      if tasks == [] {
        lines := [name + " has no tasks."];
      } else {
        lines := ["\n" + name + "'s tasks:"];
        for i := 0 to |tasks|
          invariant |lines| == i + 1 && lines[0] == "\n" + name + "'s tasks:"
          invariant forall j :: 0 <= j < i ==> lines[j + 1] == Entry(j + 1, vs[j])
        {
          lines := lines + [Entry(i + 1, tasks[i].View())];
        }
        ghost var expected := Listing(name, vs);
        assert forall j :: 0 <= j < |lines| ==> lines[j] == expected[j];
      }
    }
  }
}
