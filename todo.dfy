/** The to-do board: the user's own tasks (add, toggle, delete), their merge
    with the system's tasks with urgent ones first, the category filter, the
    per-type counts, click routing and the priority badge. */
module Todo {
  import opened Common

  /** `string | number` ids, compared with `===`. */
  datatype TaskId = Num(n: int) | Str(s: string)

  /** A TaskItem; `completed` and `isUserTask` are false when unset. The type
      (`kind`) and the priority are the strings the data carries. */
  datatype Task = Task(id: TaskId, kind: string, priority: string, title: string,
                       sender: string, time: string, completed: bool, isUserTask: bool)

  /** The board's state: the selected item, the active category, the user's
      tasks and the new-task title box. */
  datatype Board = Board(selected: Option<Task>, category: string, userTasks: seq<Task>, newTitle: string)

  const AllCategory: string := "all"
  const UserSender: string := "朱江 (本人)"

  // -----------------------------------------------------------------------
  // Adding, toggling and deleting the user's tasks
  // -----------------------------------------------------------------------

  /** handleAddUserTask. `stamp` is Date.now() as text, `time` the formatted clock. */
  function AddUserTask(b: Board, stamp: string, time: string): Board
  {
    if IsJsBlank(b.newTitle) then b
    else
      var task := Task(Str("user-" + stamp), "task", "high", b.newTitle, UserSender, time, false, true);
      b.(userTasks := [task] + b.userTasks, newTitle := "")
  }

  /** A blank title changes nothing; otherwise exactly one open, high-priority
      user task with that title is put in front of the unchanged list and the
      title box is cleared. */
  lemma AddUserTaskSpec(b: Board, stamp: string, time: string)
    ensures AllWhitespace(b.newTitle, IsJsWhitespace) ==> AddUserTask(b, stamp, time) == b
    ensures !AllWhitespace(b.newTitle, IsJsWhitespace) ==>
      var r := AddUserTask(b, stamp, time);
      && |r.userTasks| == |b.userTasks| + 1
      && r.userTasks[1..] == b.userTasks
      && r.userTasks[0].title == b.newTitle && r.userTasks[0].kind == "task"
      && r.userTasks[0].priority == "high" && !r.userTasks[0].completed && r.userTasks[0].isUserTask
      && r.userTasks[0].id == Str("user-" + stamp) && r.userTasks[0].sender == UserSender
      && r.userTasks[0].time == time
      && r.newTitle == "" && r.category == b.category && r.selected == b.selected
  {
    TrimEmptyIff(b.newTitle, IsJsWhitespace);
  }

  function FlipCompleted(t: Task, id: TaskId): Task
  {
    if t.id == id then t.(completed := !t.completed) else t
  }

  /** toggleUserTask(id). */
  function ToggleUserTask(ts: seq<Task>, id: TaskId): seq<Task>
  {
    if ts == [] then [] else [FlipCompleted(ts[0], id)] + ToggleUserTask(ts[1..], id)
  }

  /** toggleUserTask flips `completed` exactly on the tasks with that id, and
      keeps length, order and every other field. */
  lemma {:induction false} ToggleUserTaskSpec(ts: seq<Task>, id: TaskId)
    ensures |ToggleUserTask(ts, id)| == |ts|
    ensures forall i :: 0 <= i < |ts| ==>
      ToggleUserTask(ts, id)[i] ==
        ts[i].(completed := if ts[i].id == id then !ts[i].completed else ts[i].completed)
  {
    if ts != [] {
      ToggleUserTaskSpec(ts[1..], id);
      assert ToggleUserTask(ts, id)[1..] == ToggleUserTask(ts[1..], id);
    }
  }

  /** Toggling twice restores the list. */
  lemma {:induction false} ToggleUserTaskTwice(ts: seq<Task>, id: TaskId)
    ensures ToggleUserTask(ToggleUserTask(ts, id), id) == ts
  {
    if ts != [] {
      ToggleUserTaskTwice(ts[1..], id);
    }
  }

  function HasOtherId(id: TaskId): Task -> bool
  {
    (t: Task) => t.id != id
  }

  /** deleteUserTask(id). */
  function DeleteUserTask(ts: seq<Task>, id: TaskId): seq<Task>
  {
    Filter(ts, HasOtherId(id))
  }

  /** deleteUserTask removes exactly the tasks with that id: what is left is a
      subsequence of the list, none of it has the id, every task with another
      id survives, one task is lost per occurrence of the id, and an absent id
      leaves the list as it was. */
  lemma DeleteUserTaskSpec(ts: seq<Task>, id: TaskId)
    ensures var r := DeleteUserTask(ts, id);
            && IsSubsequence(r, ts)
            && (forall i :: 0 <= i < |r| ==> r[i].id != id)
            && (forall i :: 0 <= i < |ts| && ts[i].id != id ==> ts[i] in r)
            && |r| == |ts| - CountWhere(ts, (t: Task) => t.id == id)
            && ((forall i :: 0 <= i < |ts| ==> ts[i].id != id) ==> r == ts)
  {
    FilterIsSubsequence(ts, HasOtherId(id));
    FilterLength(ts, HasOtherId(id));
    CountComplement(ts, id);
    if forall i :: 0 <= i < |ts| ==> ts[i].id != id {
      FilterKeepsAll(ts, HasOtherId(id));
    }
  }

  lemma {:induction false} CountComplement(ts: seq<Task>, id: TaskId)
    ensures CountWhere(ts, HasOtherId(id)) + CountWhere(ts, (t: Task) => t.id == id) == |ts|
  {
    if ts != [] {
      CountComplement(ts[1..], id);
    }
  }

  // -----------------------------------------------------------------------
  // Merging: the user's tasks, then the system's, urgent ones moved first
  // -----------------------------------------------------------------------

  predicate IsUrgent(t: Task)
  {
    t.priority == "urgent"
  }

  predicate NotUrgent(t: Task)
  {
    t.priority != "urgent"
  }

  /** `TODOS_DATA.map(t => ({ ...t, isUserTask: false }))`. */
  function SystemTasks(data: seq<Task>): (r: seq<Task>)
    ensures |r| == |data|
    ensures forall i :: 0 <= i < |data| ==> r[i] == data[i].(isUserTask := false)
  {
    seq(|data|, i requires 0 <= i < |data| => data[i].(isUserTask := false))
  }

  /** The comparator handed to sort. */
  function Compare(a: Task, b: Task): int
  {
    if IsUrgent(a) && !IsUrgent(b) then -1
    else if !IsUrgent(a) && IsUrgent(b) then 1
    else 0
  }

  /** Stable insertion of `x` at the end of an already sorted prefix: it moves
      left only past elements that compare strictly greater. */
  function Insert(sorted: seq<Task>, x: Task): seq<Task>
    decreases |sorted|
  {
    if sorted == [] then [x]
    else if Compare(sorted[|sorted| - 1], x) > 0 then Insert(sorted[..|sorted| - 1], x) + [sorted[|sorted| - 1]]
    else sorted + [x]
  }

  /** A stable sort with Compare, as Array.prototype.sort is required to be
      (ECMA-262, 10th edition, section 22.1.3.27). */
  function StableSort(xs: seq<Task>): seq<Task>
  {
    if xs == [] then [] else Insert(StableSort(xs[..|xs| - 1]), xs[|xs| - 1])
  }

  /** The merged list: urgent tasks first, each group in its original order. */
  function AllTasks(userTasks: seq<Task>, data: seq<Task>): seq<Task>
  {
    var xs := userTasks + SystemTasks(data);
    Filter(xs, IsUrgent) + Filter(xs, NotUrgent)
  }

  lemma {:induction false} InsertUrgent(u: seq<Task>, n: seq<Task>, x: Task)
    requires forall i :: 0 <= i < |u| ==> IsUrgent(u[i])
    requires forall i :: 0 <= i < |n| ==> NotUrgent(n[i])
    requires IsUrgent(x)
    ensures Insert(u + n, x) == u + [x] + n
  {
    if n == [] {
      assert u + n == u;
    } else {
      var m := n[..|n| - 1];
      assert (u + n)[..|u + n| - 1] == u + m;
      InsertUrgent(u, m, x);
      assert n == m + [n[|n| - 1]];
    }
  }

  lemma InsertNotUrgent(u: seq<Task>, n: seq<Task>, x: Task)
    requires forall i :: 0 <= i < |u| ==> IsUrgent(u[i])
    requires forall i :: 0 <= i < |n| ==> NotUrgent(n[i])
    requires NotUrgent(x)
    ensures Insert(u + n, x) == u + n + [x]
  {
  }

  /** Appending one task to the input inserts it stably into the partition. */
  lemma {:induction false} PartitionSnoc(p: seq<Task>, x: Task)
    ensures Filter(p + [x], IsUrgent) + Filter(p + [x], NotUrgent)
         == Insert(Filter(p, IsUrgent) + Filter(p, NotUrgent), x)
  {
    FilterAppend(p, [x], IsUrgent);
    FilterAppend(p, [x], NotUrgent);
    var u, n := Filter(p, IsUrgent), Filter(p, NotUrgent);
    if IsUrgent(x) {
      assert Filter([x], IsUrgent) == [x];
      assert Filter([x], NotUrgent) == [];
      InsertUrgent(u, n, x);
      assert Filter(p + [x], IsUrgent) == u + [x];
      assert Filter(p + [x], NotUrgent) == n;
    } else {
      assert Filter([x], IsUrgent) == [];
      assert Filter([x], NotUrgent) == [x];
      InsertNotUrgent(u, n, x);
      assert Filter(p + [x], IsUrgent) == u;
      assert Filter(p + [x], NotUrgent) == n + [x];
    }
  }

  /** Sorting with the comparator is exactly the stable partition. */
  lemma {:induction false} StableSortIsPartition(xs: seq<Task>)
    ensures StableSort(xs) == Filter(xs, IsUrgent) + Filter(xs, NotUrgent)
  {
    if xs != [] {
      var p, x := xs[..|xs| - 1], xs[|xs| - 1];
      assert xs == p + [x];
      StableSortIsPartition(p);
      PartitionSnoc(p, x);
    }
  }

  /** The merged list is the sorted concatenation of user and system tasks, a
      permutation of it, with every urgent task before every other one and the
      relative order inside both groups kept. */
  lemma AllTasksSpec(userTasks: seq<Task>, data: seq<Task>)
    ensures var xs := userTasks + SystemTasks(data);
            var r := AllTasks(userTasks, data);
            && r == StableSort(xs)
            && multiset(r) == multiset(xs)
            && (forall i, j :: 0 <= i < j < |r| && IsUrgent(r[j]) ==> IsUrgent(r[i]))
            && Filter(r, IsUrgent) == Filter(xs, IsUrgent)
            && Filter(r, NotUrgent) == Filter(xs, NotUrgent)
  {
    var xs := userTasks + SystemTasks(data);
    var u, n := Filter(xs, IsUrgent), Filter(xs, NotUrgent);
    StableSortIsPartition(xs);
    FilterPartition(xs, IsUrgent, NotUrgent);
    FilterAppend(u, n, IsUrgent);
    FilterAppend(u, n, NotUrgent);
    FilterKeepsAll(u, IsUrgent);
    FilterKeepsAll(n, NotUrgent);
    FilterDropsAll(n, IsUrgent);
    FilterDropsAll(u, NotUrgent);
  }

  lemma {:induction false} FilterDropsAll(s: seq<Task>, p: Task -> bool)
    requires forall i :: 0 <= i < |s| ==> !p(s[i])
    ensures Filter(s, p) == []
  {
    if s != [] {
      FilterDropsAll(s[1..], p);
    }
  }

  // -----------------------------------------------------------------------
  // Category filter, counts, click routing, priority badge
  // -----------------------------------------------------------------------

  function HasKind(kind: string): Task -> bool
  {
    (t: Task) => t.kind == kind
  }

  /** filteredTasks. */
  function FilteredTasks(all: seq<Task>, category: string): seq<Task>
  {
    if category == AllCategory then all else Filter(all, HasKind(category))
  }

  /** "all" shows everything; any other category shows, in order, exactly the
      tasks of that type. */
  lemma FilteredTasksSpec(all: seq<Task>, category: string)
    ensures category == AllCategory ==> FilteredTasks(all, category) == all
    ensures category != AllCategory ==>
      var r := FilteredTasks(all, category);
      && IsSubsequence(r, all)
      && (forall i :: 0 <= i < |r| ==> r[i].kind == category)
      && (forall i :: 0 <= i < |all| && all[i].kind == category ==> all[i] in r)
      && |r| == CountWhere(all, HasKind(category))
  {
    if category != AllCategory {
      FilterIsSubsequence(all, HasKind(category));
      FilterLength(all, HasKind(category));
    }
  }

  /** getCount(type): the number of demo tasks of that type. */
  function GetCount(data: seq<Task>, kind: string): (n: nat)
    ensures n <= |data|
    ensures n == CountWhere(data, HasKind(kind))
  {
    FilterLength(data, HasKind(kind));
    |Filter(data, HasKind(kind))|
  }

  /** handleTaskClick. */
  function TaskClick(b: Board, item: Task): Board
  {
    if b.category == AllCategory && !item.isUserTask then b.(category := item.kind)
    else if !item.isUserTask then b.(selected := Some(item))
    else b
  }

  /** A system task clicked under "all" switches to its type; one clicked in a
      specific category is selected; user tasks are ignored. Nothing else changes. */
  lemma TaskClickSpec(b: Board, item: Task)
    ensures item.isUserTask ==> TaskClick(b, item) == b
    ensures !item.isUserTask && b.category == AllCategory ==>
      TaskClick(b, item) == Board(b.selected, item.kind, b.userTasks, b.newTitle)
    ensures !item.isUserTask && b.category != AllCategory ==>
      TaskClick(b, item) == Board(Some(item), b.category, b.userTasks, b.newTitle)
  {
  }

  datatype Style = UrgentStyle | HighStyle | NormalStyle

  /** `styles[priority] || styles.normal`. */
  function PriorityStyle(priority: string): Style
  {
    if priority == "urgent" then UrgentStyle
    else if priority == "high" then HighStyle
    else NormalStyle
  }

  function StyleLabel(s: Style): string
  {
    match s
    case UrgentStyle => "紧急"
    case HighStyle => "重要"
    case NormalStyle => "常规"
  }

  /** Known priorities get their own badge; anything else falls back to the
      badge of "normal". */
  lemma PriorityStyleFallback(priority: string)
    ensures priority !in {"urgent", "high"} ==> PriorityStyle(priority) == PriorityStyle("normal")
    ensures PriorityStyle("urgent") != PriorityStyle("high") && PriorityStyle("high") != PriorityStyle("normal")
    ensures PriorityStyle("normal") != PriorityStyle("urgent")
    ensures StyleLabel(PriorityStyle(priority)) == (if priority == "urgent" then "紧急" else if priority == "high" then "重要" else "常规")
  {
  }
}
