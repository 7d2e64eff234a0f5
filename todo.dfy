/**
 * The to-do checklist: a form for new tasks, a list of tasks with done
 * flags, an edit dialog, and a view with open tasks first.
 */
module Todo {
  import opened Wrappers

  datatype Priority = Low | Medium | High

  /**
   * A task. `addTask`, the only place tasks are made, always sets a due date
   * (possibly empty) and a priority, so both are plain fields here.
   */
  datatype Task = Task(id: string, text: string, done: bool, dueDate: string, priority: Priority)

  /** The screen's state: the new-task form, the list, and the edit dialog. */
  datatype TodoState = TodoState(
    task: string,
    dueDate: string,
    priority: Priority,
    tasks: seq<Task>,
    editingTaskId: Option<string>,
    editText: string,
    editDueDate: string,
    editPriority: Priority)

  /** The screen as first shown. */
  const Initial: TodoState := TodoState("", "", Medium, [], None, "", "", Medium)

  // ---------------------------------------------------------------------
  // String.prototype.trim
  // ---------------------------------------------------------------------

  /** ECMAScript white space and line terminators, the characters `trim` removes. */
  predicate IsWhitespace(ch: char) {
    var n := ch as int;
    || 0x09 <= n <= 0x0D || n == 0x20 || n == 0xA0 || n == 0x1680
    || 0x2000 <= n <= 0x200A || n == 0x2028 || n == 0x2029 || n == 0x202F
    || n == 0x205F || n == 0x3000 || n == 0xFEFF
  }

  function TrimStart(s: string): (r: string)
    ensures |r| <= |s| && r == s[|s| - |r|..]
    ensures r == [] || !IsWhitespace(r[0])
    ensures forall i :: 0 <= i < |s| - |r| ==> IsWhitespace(s[i])
  {
    if s != [] && IsWhitespace(s[0]) then TrimStart(s[1..]) else s
  }

  function TrimEnd(s: string): (r: string)
    ensures |r| <= |s| && r == s[..|r|]
    ensures r == [] || !IsWhitespace(r[|r| - 1])
    ensures forall i :: |r| <= i < |s| ==> IsWhitespace(s[i])
  {
    if s != [] && IsWhitespace(s[|s| - 1]) then TrimEnd(s[..|s| - 1]) else s
  }

  /** `s.trim()`: white space removed from both ends. */
  function Trim(s: string): (r: string)
    ensures exists i, j :: 0 <= i <= j <= |s| && r == s[i..j]
  {
    var t := TrimStart(s);
    var r := TrimEnd(t);
    assert r == s[|s| - |t|..][..|r|] == s[|s| - |t|..|s| - |t| + |r|];
    r
  }

  /** A text trims to "" exactly when it is all white space. */
  lemma TrimEmptyIffBlank(s: string)
    ensures Trim(s) == [] <==> forall i :: 0 <= i < |s| ==> IsWhitespace(s[i])
  {
    var t := TrimStart(s);
    if t != [] {
      assert !IsWhitespace(s[|s| - |t|]);
      assert !IsWhitespace(t[0]);
    }
  }

  /** Trimming leaves no white space at either end and is idempotent. */
  lemma TrimIdempotent(s: string)
    ensures Trim(s) == [] || (!IsWhitespace(Trim(s)[0]) && !IsWhitespace(Trim(s)[|Trim(s)| - 1]))
    ensures Trim(Trim(s)) == Trim(s)
  {
    var t := TrimStart(s);
    var r := TrimEnd(t);
    if r != [] {
      assert r[0] == t[0];
    }
  }

  // ---------------------------------------------------------------------
  // The handlers
  // ---------------------------------------------------------------------

  /**
   * `addTask`, with `now` the string of `Date.now()` used as the id: a blank
   * text adds nothing; otherwise the task is appended, open, and the form is
   * emptied with the priority back at Medium.
   */
  function AddTask(st: TodoState, now: string): (r: TodoState)
    ensures Trim(st.task) == [] ==> r == st
    ensures Trim(st.task) != [] ==>
      && r.tasks == st.tasks + [Task(now, st.task, false, st.dueDate, st.priority)]
      && r.task == [] && r.dueDate == [] && r.priority == Medium
      && r.editingTaskId == st.editingTaskId && r.editText == st.editText
      && r.editDueDate == st.editDueDate && r.editPriority == st.editPriority
  {
    if Trim(st.task) == [] then st
    else
      st.(tasks := st.tasks + [Task(now, st.task, false, st.dueDate, st.priority)],
          task := [], dueDate := [], priority := Medium)
  }

  /** `toggleTask(id)`: every task with that id has its done flag flipped. */
  function ToggleTask(tasks: seq<Task>, id: string): (r: seq<Task>)
    ensures |r| == |tasks|
    ensures forall i :: 0 <= i < |tasks| ==>
      r[i] == if tasks[i].id == id then tasks[i].(done := !tasks[i].done) else tasks[i]
  {
    seq(|tasks|, i requires 0 <= i < |tasks| =>
      if tasks[i].id == id then tasks[i].(done := !tasks[i].done) else tasks[i])
  }

  /** Toggling the same id twice gives back the list. */
  lemma ToggleTwiceRestores(tasks: seq<Task>, id: string)
    ensures ToggleTask(ToggleTask(tasks, id), id) == tasks
  {
    assert forall i :: 0 <= i < |tasks| ==> ToggleTask(ToggleTask(tasks, id), id)[i] == tasks[i];
  }

  /** Toggling changes nothing but done flags, and the order of ids stays. */
  lemma ToggleKeepsEverythingElse(tasks: seq<Task>, id: string)
    ensures forall i :: 0 <= i < |tasks| ==>
      var t := ToggleTask(tasks, id)[i];
      t.id == tasks[i].id && t.text == tasks[i].text && t.dueDate == tasks[i].dueDate
      && t.priority == tasks[i].priority && (t.done != tasks[i].done <==> tasks[i].id == id)
  {
  }

  /** `deleteTask(id)`: the tasks without that id, in their order. */
  function DeleteTask(tasks: seq<Task>, id: string): (r: seq<Task>)
    ensures |r| <= |tasks|
    ensures forall t :: t in r <==> t in tasks && t.id != id
  {
    if tasks == [] then []
    else
      var rest := DeleteTask(tasks[1..], id);
      assert tasks == [tasks[0]] + tasks[1..];
      if tasks[0].id != id then [tasks[0]] + rest else rest
  }

  /** Deleting works piece by piece: splitting the list keeps each part's survivors in order. */
  lemma {:induction false} DeleteIsOrderPreserving(a: seq<Task>, b: seq<Task>, id: string)
    ensures DeleteTask(a + b, id) == DeleteTask(a, id) + DeleteTask(b, id)
  {
    if a != [] {
      assert (a + b)[1..] == a[1..] + b;
      DeleteIsOrderPreserving(a[1..], b, id);
    } else {
      assert a + b == b;
    }
  }

  /** Deleting an id no task has leaves the list as it was. */
  lemma {:induction false} DeleteAbsentIsIdentity(tasks: seq<Task>, id: string)
    requires forall t :: t in tasks ==> t.id != id
    ensures DeleteTask(tasks, id) == tasks
  {
    if tasks != [] {
      assert forall t :: t in tasks[1..] ==> t in tasks;
      DeleteAbsentIsIdentity(tasks[1..], id);
    }
  }

  /** `startEditTask(task)`: the dialog opens on the task's fields. */
  function StartEditTask(st: TodoState, t: Task): (r: TodoState)
    ensures r.editingTaskId == Some(t.id) && r.editText == t.text
    ensures r.editDueDate == t.dueDate && r.editPriority == t.priority
    ensures r.tasks == st.tasks && r.task == st.task && r.dueDate == st.dueDate && r.priority == st.priority
  {
    st.(editingTaskId := Some(t.id), editText := t.text, editDueDate := t.dueDate, editPriority := t.priority)
  }

  /** `closeModal`: the dialog closes and its fields are reset. */
  function CloseModal(st: TodoState): (r: TodoState)
    ensures r.editingTaskId == None && r.editText == [] && r.editDueDate == [] && r.editPriority == Medium
    ensures r.tasks == st.tasks && r.task == st.task && r.dueDate == st.dueDate && r.priority == st.priority
  {
    st.(editingTaskId := None, editText := [], editDueDate := [], editPriority := Medium)
  }

  /** The edited fields applied to every task with the given id. */
  function ApplyEdit(tasks: seq<Task>, id: string, text: string, dueDate: string, priority: Priority): (r: seq<Task>)
    ensures |r| == |tasks|
    ensures forall i :: 0 <= i < |tasks| ==>
      r[i] == if tasks[i].id == id then tasks[i].(text := text, dueDate := dueDate, priority := priority)
              else tasks[i]
  {
    seq(|tasks|, i requires 0 <= i < |tasks| =>
      if tasks[i].id == id then tasks[i].(text := text, dueDate := dueDate, priority := priority) else tasks[i])
  }

  /**
   * `saveEditTask`: with no task being edited (no id, or an empty one,
   * which JavaScript treats as false) nothing happens; otherwise the edits
   * go to the tasks with that id and the dialog closes.
   */
  function SaveEditTask(st: TodoState): (r: TodoState)
    ensures st.editingTaskId.None? || st.editingTaskId.value == [] ==> r == st
    ensures st.editingTaskId.Some? && st.editingTaskId.value != [] ==>
      && r == CloseModal(st.(tasks := r.tasks))
      && |r.tasks| == |st.tasks|
      && forall i :: 0 <= i < |st.tasks| ==>
           && r.tasks[i].id == st.tasks[i].id && r.tasks[i].done == st.tasks[i].done
           && (st.tasks[i].id == st.editingTaskId.value ==>
                 r.tasks[i].text == st.editText && r.tasks[i].dueDate == st.editDueDate
                 && r.tasks[i].priority == st.editPriority)
           && (st.tasks[i].id != st.editingTaskId.value ==> r.tasks[i] == st.tasks[i])
  {
    if st.editingTaskId.None? || st.editingTaskId.value == [] then st
    else
      var id := st.editingTaskId.value;
      CloseModal(st.(tasks := ApplyEdit(st.tasks, id, st.editText, st.editDueDate, st.editPriority)))
  }

  // ---------------------------------------------------------------------
  // The displayed order
  // ---------------------------------------------------------------------

  /** `tasks.filter(t => !t.done)`, in the same order. */
  function OpenTasks(tasks: seq<Task>): (r: seq<Task>)
    ensures forall t :: t in r <==> t in tasks && !t.done
  {
    if tasks == [] then []
    else
      var rest := OpenTasks(tasks[1..]);
      if !tasks[0].done then [tasks[0]] + rest else rest
  }

  /** `tasks.filter(t => t.done)`, in the same order. */
  function DoneTasks(tasks: seq<Task>): (r: seq<Task>)
    ensures forall t :: t in r <==> t in tasks && t.done
  {
    if tasks == [] then []
    else
      var rest := DoneTasks(tasks[1..]);
      if tasks[0].done then [tasks[0]] + rest else rest
  }

  /**
   * `[...tasks].sort((a, b) => Number(a.done) - Number(b.done))`. The sort is
   * stable, so this is the open tasks in their order followed by the done
   * ones in theirs.
   */
  function SortedTasks(tasks: seq<Task>): (r: seq<Task>)
    ensures forall t :: t in r <==> t in tasks
  {
    OpenTasks(tasks) + DoneTasks(tasks)
  }

  /** The displayed list holds exactly the tasks, each as often. */
  lemma {:induction false} SortedIsPermutation(tasks: seq<Task>)
    ensures multiset(SortedTasks(tasks)) == multiset(tasks)
  {
    if tasks != [] {
      SortedIsPermutation(tasks[1..]);
      assert tasks == [tasks[0]] + tasks[1..];
    }
  }

  /** In the displayed list no done task comes before an open one. */
  lemma SortedOpenFirst(tasks: seq<Task>)
    ensures forall i, j :: 0 <= i < j < |SortedTasks(tasks)| ==>
      !(SortedTasks(tasks)[i].done && !SortedTasks(tasks)[j].done)
  {
    var s := SortedTasks(tasks);
    var o := OpenTasks(tasks);
    forall i, j | 0 <= i < j < |s| ensures !(s[i].done && !s[j].done) {
      if i < |o| {
        assert s[i] == o[i] && o[i] in o;
      } else {
        assert s[i] == DoneTasks(tasks)[i - |o|] && s[j] == DoneTasks(tasks)[j - |o|];
        assert s[j] in DoneTasks(tasks);
      }
    }
  }

  /** Sorting an already sorted list changes nothing: the tasks keep their relative order. */
  lemma {:induction false} SortedIsStable(tasks: seq<Task>)
    ensures OpenTasks(SortedTasks(tasks)) == OpenTasks(tasks)
    ensures DoneTasks(SortedTasks(tasks)) == DoneTasks(tasks)
  {
    OpenDoneSplit(OpenTasks(tasks), DoneTasks(tasks));
    OnlyOpen(OpenTasks(tasks));
    OnlyDone(DoneTasks(tasks));
  }

  // ---------------------------------------------------------------------
  // An independent definition: a stable insertion sort by `Number(done)`
  // ---------------------------------------------------------------------

  /** The comparator's key, `Number(t.done)`. */
  function SortKey(t: Task): int {
    if t.done then 1 else 0
  }

  /**
   * `t`, which comes after every task of `s` in the input, inserted into the
   * sorted `s` after every task whose key is not larger: ties keep input order.
   */
  function InsertStable(s: seq<Task>, t: Task): seq<Task> {
    if s == [] then [t]
    else if SortKey(s[|s| - 1]) <= SortKey(t) then s + [t]
    else InsertStable(s[..|s| - 1], t) + [s[|s| - 1]]
  }

  /** A stable sort by key, inserting the tasks one by one in input order. */
  function StableSortByDone(tasks: seq<Task>): seq<Task> {
    if tasks == [] then []
    else InsertStable(StableSortByDone(tasks[..|tasks| - 1]), tasks[|tasks| - 1])
  }

  /** The displayed order is exactly what a stable sort by `Number(done)` gives. */
  lemma {:induction false} SortedIsStableSort(tasks: seq<Task>)
    ensures SortedTasks(tasks) == StableSortByDone(tasks)
  {
    if tasks != [] {
      SortedIsStableSort(tasks[..|tasks| - 1]);
      SortedSnoc(tasks[..|tasks| - 1], tasks[|tasks| - 1]);
      assert tasks[..|tasks| - 1] + [tasks[|tasks| - 1]] == tasks;
    }
  }

  /** Sorting one more task at the end inserts it stably into the sorted rest. */
  lemma SortedSnoc(prefix: seq<Task>, t: Task)
    ensures SortedTasks(prefix + [t]) == InsertStable(SortedTasks(prefix), t)
  {
    FiltersOfSnoc(prefix, t);
    if t.done {
      InsertDone(OpenTasks(prefix), DoneTasks(prefix), t);
    } else {
      InsertOpen(OpenTasks(prefix), DoneTasks(prefix), t);
    }
  }

  /** Appending one task extends exactly one of the two filters. */
  lemma FiltersOfSnoc(prefix: seq<Task>, t: Task)
    ensures t.done ==> OpenTasks(prefix + [t]) == OpenTasks(prefix)
    ensures t.done ==> DoneTasks(prefix + [t]) == DoneTasks(prefix) + [t]
    ensures !t.done ==> OpenTasks(prefix + [t]) == OpenTasks(prefix) + [t]
    ensures !t.done ==> DoneTasks(prefix + [t]) == DoneTasks(prefix)
  {
    OpenDoneSplit(prefix, [t]);
    assert OpenTasks([t]) == (if t.done then [] else [t]);
    assert DoneTasks([t]) == (if t.done then [t] else []);
    assert OpenTasks(prefix) + [] == OpenTasks(prefix);
    assert DoneTasks(prefix) + [] == DoneTasks(prefix);
  }

  lemma InsertDone(o: seq<Task>, d: seq<Task>, t: Task)
    requires forall x :: x in o ==> !x.done
    requires forall x :: x in d ==> x.done
    requires t.done
    ensures InsertStable(o + d, t) == o + (d + [t])
  {
    assert o + d + [t] == o + (d + [t]);
  }

  lemma {:induction false} InsertOpen(o: seq<Task>, d: seq<Task>, t: Task)
    requires forall x :: x in o ==> !x.done
    requires forall x :: x in d ==> x.done
    requires !t.done
    ensures InsertStable(o + d, t) == (o + [t]) + d
  {
    var s := o + d;
    if d == [] {
      assert s == o;
      if o != [] {
        assert !o[|o| - 1].done by { assert o[|o| - 1] in o; }
      }
    } else {
      var last := d[|d| - 1];
      var d' := d[..|d| - 1];
      assert last.done by { assert last in d; }
      assert forall x :: x in d' ==> x.done by {
        forall x | x in d' ensures x.done { assert x in d; }
      }
      assert s[|s| - 1] == last;
      assert s[..|s| - 1] == o + d';
      assert InsertStable(s, t) == InsertStable(o + d', t) + [last];
      InsertOpen(o, d', t);
      assert d == d' + [last];
      assert o + [t] + d' + [last] == o + [t] + d;
    }
  }

  lemma {:induction false} OpenDoneSplit(a: seq<Task>, b: seq<Task>)
    ensures OpenTasks(a + b) == OpenTasks(a) + OpenTasks(b)
    ensures DoneTasks(a + b) == DoneTasks(a) + DoneTasks(b)
  {
    if a != [] {
      assert (a + b)[1..] == a[1..] + b;
      OpenDoneSplit(a[1..], b);
    } else {
      assert a + b == b;
    }
  }

  lemma {:induction false} OnlyOpen(a: seq<Task>)
    requires forall t :: t in a ==> !t.done
    ensures OpenTasks(a) == a && DoneTasks(a) == []
  {
    if a != [] {
      assert forall t :: t in a[1..] ==> t in a;
      OnlyOpen(a[1..]);
    }
  }

  lemma {:induction false} OnlyDone(a: seq<Task>)
    requires forall t :: t in a ==> t.done
    ensures DoneTasks(a) == a && OpenTasks(a) == []
  {
    if a != [] {
      assert forall t :: t in a[1..] ==> t in a;
      OnlyDone(a[1..]);
    }
  }
}
