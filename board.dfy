/**
 * The day planner's store as pure transitions: each operation of the
 * dashboard component rebuilds one collection from the old one with an
 * append, a `map` or a `filter`, and the component replaces that
 * collection with the result. Ids are supplied by the caller (the
 * component takes them from the clock).
 */
module Board {
  import opened Wrappers
  import opened PlannerTypes
  import opened IdLists

  // ---------------------------------------------------------------- initial state

  const InitialSchedule: seq<ScheduleItem> := [
    ScheduleItem(1, "09:00", 60, "Morning Planning", Work, false),
    ScheduleItem(2, "10:00", 90, "Project Development", Work, false),
    ScheduleItem(3, "14:00", 30, "Lunch Break", Personal, false)
  ]

  const InitialTasks: QuadrantTasks := QuadrantTasks(
    [Task(1, "Complete project proposal", false), Task(2, "Review client feedback", false)],
    [Task(3, "Learn new technology", false), Task(4, "Plan next week", false)],
    [Task(5, "Reply to emails", false), Task(6, "Schedule meetings", false)],
    [Task(7, "Organize desktop", false)]
  )

  const InitialGoals: ColumnGoals := ColumnGoals(
    [Goal(1, "Build personal website", Personal), Goal(2, "Learn TypeScript advanced concepts", Learning)],
    [Goal(3, "Complete dashboard mockup", Work), Goal(4, "Exercise for 30 minutes", Health)],
    [Goal(5, "Reading \"Clean Code\" book", Learning)],
    [Goal(6, "Set up development environment", Work)]
  )

  /** The seeded collections carry the ids 1..3, 1..7 and 1..6 in order, each once across the whole collection. */
  lemma InitialIdsUnique()
    ensures |InitialSchedule| == 3 && forall i :: 0 <= i < 3 ==> InitialSchedule[i].id == i + 1
    ensures |InitialTasks.All()| == 7 && forall i :: 0 <= i < 7 ==> InitialTasks.All()[i].id == i + 1
    ensures |InitialGoals.All()| == 6 && forall i :: 0 <= i < 6 ==> InitialGoals.All()[i].id == i + 1
    ensures UniqueIds(InitialSchedule, ScheduleItemId)
    ensures UniqueIds(InitialTasks.All(), TaskId)
    ensures UniqueIds(InitialGoals.All(), GoalId)
  {
  }

  // ---------------------------------------------------------------- schedule

  /** `[...items, {id, ...draft, completed: false}]` */
  function AddScheduleItem(items: seq<ScheduleItem>, draft: ScheduleDraft, id: int): (r: seq<ScheduleItem>)
    ensures |r| == |items| + 1 && r[..|items|] == items
    ensures r[|items|].id == id && !r[|items|].completed
    ensures r[|items|].time == draft.time && r[|items|].task == draft.task
    ensures r[|items|].duration == draft.duration && r[|items|].category == draft.category
  {
    items + [ScheduleItem(id, draft.time, draft.duration, draft.task, draft.category, false)]
  }

  /** `items.map(item => item.id === id ? {...item, completed: !item.completed} : item)` */
  function ToggleScheduleComplete(items: seq<ScheduleItem>, id: int): (r: seq<ScheduleItem>)
    ensures |r| == |items|
    ensures forall i :: 0 <= i < |r| ==> r[i].(completed := items[i].completed) == items[i]
    ensures forall i :: 0 <= i < |r| ==> (r[i].completed != items[i].completed <==> items[i].id == id)
  {
    seq(|items|, i requires 0 <= i < |items| =>
      if items[i].id == id then items[i].(completed := !items[i].completed) else items[i])
  }

  /** Toggling the same id twice restores the list. */
  lemma ToggleScheduleInvolution(items: seq<ScheduleItem>, id: int)
    ensures ToggleScheduleComplete(ToggleScheduleComplete(items, id), id) == items
  {
  }

  /** Toggling an id no item carries leaves the list unchanged. */
  lemma ToggleScheduleAbsent(items: seq<ScheduleItem>, id: int)
    requires !HasId(items, ScheduleItemId, id)
    ensures ToggleScheduleComplete(items, id) == items
  {
  }

  /** Toggling keeps every id in place, so it keeps ids unique. */
  lemma ToggleScheduleKeepsUnique(items: seq<ScheduleItem>, id: int)
    requires UniqueIds(items, ScheduleItemId)
    ensures UniqueIds(ToggleScheduleComplete(items, id), ScheduleItemId)
  {
  }

  /** Adding with an id that is not yet in use keeps ids unique, and the new item is the only one with that id. */
  lemma AddScheduleItemFreshId(items: seq<ScheduleItem>, draft: ScheduleDraft, id: int)
    requires UniqueIds(items, ScheduleItemId) && !HasId(items, ScheduleItemId, id)
    ensures UniqueIds(AddScheduleItem(items, draft, id), ScheduleItemId)
    ensures CountId(AddScheduleItem(items, draft, id), ScheduleItemId, id) == 1
  {
    var r := AddScheduleItem(items, draft, id);
    assert forall i :: 0 <= i < |items| ==> r[i] == items[i];
    CountIdAppend(items, [r[|items|]], ScheduleItemId, id);
    assert CountId(items, ScheduleItemId, id) == 0;
  }

  /** Deleting the id just added with a fresh id undoes the add. */
  lemma DeleteUndoesAddScheduleItem(items: seq<ScheduleItem>, draft: ScheduleDraft, id: int)
    requires !HasId(items, ScheduleItemId, id)
    ensures Without(AddScheduleItem(items, draft, id), ScheduleItemId, id) == items
  {
    var added := ScheduleItem(id, draft.time, draft.duration, draft.task, draft.category, false);
    WithoutAppend(items, [added], ScheduleItemId, id);
    WithoutAbsent(items, ScheduleItemId, id);
    assert Without([added][1..], ScheduleItemId, id) == [];
  }

  // ---------------------------------------------------------------- completion rate

  /** `items.filter(item => item.completed).length` */
  function CountCompleted(items: seq<ScheduleItem>): (c: nat)
    ensures c <= |items|
    ensures c == |items| <==> forall i :: 0 <= i < |items| ==> items[i].completed
    ensures c == 0 <==> forall i :: 0 <= i < |items| ==> !items[i].completed
  {
    if items == [] then 0
    else
      assert forall i :: 0 < i < |items| ==> items[1..][i - 1] == items[i];
      (if items[0].completed then 1 else 0) + CountCompleted(items[1..])
  }

  lemma MulMono(d: int, a: int, b: int)
    requires d >= 0 && a <= b
    ensures d * a <= d * b
  {
  }

  /** The integer quotient used for the rate lies within half a unit of 100 * c / t. */
  lemma RoundHalfUpBounds(c: int, t: int)
    requires 0 <= c <= t && 0 < t
    ensures var q := (200 * c + t) / (2 * t);
      0 <= q <= 100 && 2 * q * t <= 200 * c + t < 2 * q * t + 2 * t
  {
    var n := 200 * c + t;
    var d := 2 * t;
    var q := n / d;
    assert n == d * q + n % d && 0 <= n % d < d;
    assert d * q == 2 * q * t;
    if q > 100 {
      MulMono(d, 101, q);
    }
    if q < 0 {
      MulMono(d, q, -1);
    }
  }

  /**
   * `total > 0 ? Math.round(completed / total * 100) : 0`, in integers:
   * 100 * completed / total rounded to the nearest integer, halves upwards.
   */
  function CompletionRate(items: seq<ScheduleItem>): (r: int)
    ensures 0 <= r <= 100
    ensures |items| == 0 ==> r == 0
    ensures |items| > 0 ==> 2 * r * |items| <= 200 * CountCompleted(items) + |items|
    ensures |items| > 0 ==> 200 * CountCompleted(items) + |items| < 2 * r * |items| + 2 * |items|
  {
    var t := |items|;
    if t == 0 then 0
    else
      var c := CountCompleted(items);
      RoundHalfUpBounds(c, t);
      (200 * c + t) / (2 * t)
  }

  /** A schedule whose items are all completed is at 100%. */
  lemma CompletionRateAllCompleted(items: seq<ScheduleItem>)
    requires |items| > 0 && forall i :: 0 <= i < |items| ==> items[i].completed
    ensures CompletionRate(items) == 100
  {
    assert CountCompleted(items) == |items|;
    AllCompletedRoundsToFull(CompletionRate(items), |items|);
  }

  /** A rate within half a unit of 100 * t / t is 100. */
  lemma AllCompletedRoundsToFull(r: int, t: int)
    requires t > 0 && 0 <= r <= 100 && 200 * t + t < 2 * r * t + 2 * t
    ensures r == 100
  {
    if r < 100 {
      MulMono(2 * t, r, 99);
    }
  }

  /**
   * Below 200 items the rate is 100 exactly when every item is completed;
   * with 200 or more items one open item can round up to 100
   * (see CompletionRateRoundsUpToFull).
   */
  lemma CompletionRateFullIff(items: seq<ScheduleItem>)
    requires 0 < |items| < 200
    ensures CompletionRate(items) == 100 <==> forall i :: 0 <= i < |items| ==> items[i].completed
  {
    if forall i :: 0 <= i < |items| ==> items[i].completed {
      CompletionRateAllCompleted(items);
    } else {
      var t := |items|;
      var c := CountCompleted(items);
      assert c <= t - 1;
      assert 200 * c + t < 200 * t;
    }
  }

  /** With at least 200 items and exactly one of them open, the rate still rounds to 100. */
  lemma CompletionRateRoundsUpToFull(items: seq<ScheduleItem>)
    requires |items| >= 200 && CountCompleted(items) == |items| - 1
    ensures CompletionRate(items) == 100
    ensures exists i :: 0 <= i < |items| && !items[i].completed
  {
    var t := |items|;
    var c := CountCompleted(items);
    OneOpenRoundsUp(CompletionRate(items), c, t);
    assert c != t;
  }

  /** A rate within half a unit of 100 * (t - 1) / t, for t >= 200, is 100. */
  lemma OneOpenRoundsUp(r: int, c: int, t: int)
    requires t >= 200 && c == t - 1 && 0 <= r <= 100 && 200 * c + t < 2 * r * t + 2 * t
    ensures r == 100
  {
  }

  /** No completed item (in particular an empty schedule) gives 0%. */
  lemma CompletionRateNoneCompleted(items: seq<ScheduleItem>)
    requires forall i :: 0 <= i < |items| ==> !items[i].completed
    ensures CompletionRate(items) == 0
  {
  }

  // ---------------------------------------------------------------- priority matrix

  /** `{...tasks, [q]: [...tasks[q], {id, text, completed: false}]}` */
  function AddTask(tasks: QuadrantTasks, q: QuadrantKey, text: string, id: int): (r: QuadrantTasks)
    ensures r.Get(q) == tasks.Get(q) + [Task(id, text, false)]
    ensures forall k :: k != q ==> r.Get(k) == tasks.Get(k)
  {
    tasks.With(q, tasks.Get(q) + [Task(id, text, false)])
  }

  /** `ts.map(task => task.id === id ? {...task, completed: !task.completed} : task)` */
  function ToggleTasks(ts: seq<Task>, id: int): (r: seq<Task>)
    ensures |r| == |ts|
    ensures forall i :: 0 <= i < |r| ==> r[i].id == ts[i].id && r[i].text == ts[i].text
    ensures forall i :: 0 <= i < |r| ==> (r[i].completed != ts[i].completed <==> ts[i].id == id)
  {
    seq(|ts|, i requires 0 <= i < |ts| =>
      if ts[i].id == id then ts[i].(completed := !ts[i].completed) else ts[i])
  }

  /** `{...tasks, [q]: tasks[q].map(...)}`: only quadrant `q` is rebuilt. */
  function ToggleTaskComplete(tasks: QuadrantTasks, q: QuadrantKey, id: int): (r: QuadrantTasks)
    ensures r.Get(q) == ToggleTasks(tasks.Get(q), id)
    ensures |r.Get(q)| == |tasks.Get(q)|
    ensures forall k :: k != q ==> r.Get(k) == tasks.Get(k)
  {
    tasks.With(q, ToggleTasks(tasks.Get(q), id))
  }

  /** Toggling a task twice restores the whole matrix. */
  lemma ToggleTaskInvolution(tasks: QuadrantTasks, q: QuadrantKey, id: int)
    ensures ToggleTaskComplete(ToggleTaskComplete(tasks, q, id), q, id) == tasks
  {
  }

  /** `{...tasks, [q]: tasks[q].filter(task => task.id !== id)}` */
  function DeleteTask(tasks: QuadrantTasks, q: QuadrantKey, id: int): (r: QuadrantTasks)
    ensures r.Get(q) == Without(tasks.Get(q), TaskId, id)
    ensures forall k :: k != q ==> r.Get(k) == tasks.Get(k)
  {
    tasks.With(q, Without(tasks.Get(q), TaskId, id))
  }

  /** Deleting an id that quadrant `q` does not hold leaves every quadrant unchanged. */
  lemma DeleteTaskAbsent(tasks: QuadrantTasks, q: QuadrantKey, id: int)
    requires !HasId(tasks.Get(q), TaskId, id)
    ensures DeleteTask(tasks, q, id) == tasks
  {
    WithoutAbsent(tasks.Get(q), TaskId, id);
    match q {
      case UrgentImportant =>
      case NotUrgentImportant =>
      case UrgentNotImportant =>
      case NotUrgentNotImportant =>
    }
  }

  // ---------------------------------------------------------------- goal board

  /** `{...goals, backlog: [...goals.backlog, {id, text, category}]}` */
  function AddGoal(goals: ColumnGoals, text: string, category: CategoryKey, id: int): (r: ColumnGoals)
    ensures r.backlog == goals.backlog + [Goal(id, text, category)]
    ensures r.today == goals.today && r.inProgress == goals.inProgress && r.completed == goals.completed
  {
    goals.With(Backlog, goals.backlog + [Goal(id, text, category)])
  }

  /** `{...goals, [c]: goals[c].filter(goal => goal.id !== id)}` */
  function DeleteGoal(goals: ColumnGoals, c: GoalColumnKey, id: int): (r: ColumnGoals)
    ensures r.Get(c) == Without(goals.Get(c), GoalId, id)
    ensures forall k :: k != c ==> r.Get(k) == goals.Get(k)
  {
    goals.With(c, Without(goals.Get(c), GoalId, id))
  }

  /** Deleting removes exactly the goals of column `c` that carry the id, and nothing elsewhere. */
  lemma DeleteGoalRemovesExactly(goals: ColumnGoals, c: GoalColumnKey, id: int)
    ensures !HasId(DeleteGoal(goals, c, id).Get(c), GoalId, id)
    ensures |DeleteGoal(goals, c, id).Get(c)| == |goals.Get(c)| - CountId(goals.Get(c), GoalId, id)
    ensures !HasId(goals.Get(c), GoalId, id) ==> DeleteGoal(goals, c, id) == goals
  {
    WithoutRemovesAll(goals.Get(c), GoalId, id);
    if !HasId(goals.Get(c), GoalId, id) {
      WithoutAbsent(goals.Get(c), GoalId, id);
      match c {
        case Backlog =>
        case Today =>
        case InProgress =>
        case Completed =>
      }
    }
  }

  /**
   * `moveGoal(goalId, from, to)`: find the goal in `from`; if there is one,
   * `{...goals, [from]: goals[from].filter(g => g.id !== goalId), [to]: [...goals[to], goal]}`.
   * Both new columns are computed from the old board and the `to` key is
   * written last, so with `from == to` the column becomes its old contents
   * with the goal appended again.
   */
  function MoveGoal(goals: ColumnGoals, goalId: int, from: GoalColumnKey, to: GoalColumnKey): (r: ColumnGoals)
    ensures !HasId(goals.Get(from), GoalId, goalId) ==> r == goals
    ensures HasId(goals.Get(from), GoalId, goalId) ==>
      && |r.Get(to)| == |goals.Get(to)| + 1
      && r.Get(to)[..|goals.Get(to)|] == goals.Get(to)
      && r.Get(to)[|goals.Get(to)|] in goals.Get(from)
      && r.Get(to)[|goals.Get(to)|].id == goalId
      && Find(goals.Get(from), GoalId, goalId) == Some(r.Get(to)[|goals.Get(to)|])
    ensures from != to && HasId(goals.Get(from), GoalId, goalId) ==>
      r.Get(from) == Without(goals.Get(from), GoalId, goalId)
    ensures forall k :: k != from && k != to ==> r.Get(k) == goals.Get(k)
  {
    match Find(goals.Get(from), GoalId, goalId)
    case None => goals
    case Some(goal) =>
      goals.With(from, Without(goals.Get(from), GoalId, goalId)).With(to, goals.Get(to) + [goal])
  }

  /**
   * Taking `goal` out of column `from` and appending it to a different column
   * `to` keeps the board's multiset of goals.
   */
  lemma TransferKeepsBag(goals: ColumnGoals, from: GoalColumnKey, to: GoalColumnKey, w: seq<Goal>, goal: Goal)
    requires from != to && multiset(goals.Get(from)) == multiset(w) + multiset{goal}
    ensures goals.With(from, w).With(to, goals.Get(to) + [goal]).Bag() == goals.Bag()
  {
    var g1 := goals.With(from, w);
    var t := goals.Get(to) + [goal];
    BagWith(goals, from, w);
    BagWith(g1, to, t);
    assert g1.Get(to) == goals.Get(to);
    assert multiset(t) == multiset(goals.Get(to)) + multiset{goal};
    TransferCancel(g1.With(to, t).Bag(), g1.Bag(), goals.Bag(), multiset(g1.Get(to)), multiset(t),
                   multiset(goals.Get(from)), multiset(w), goal);
  }

  /**
   * The multiset arithmetic of a transfer: `a` is `b` with `goal` added
   * (via `t1`, `t2`) and `b` is `g` with `goal` removed (via `f`, `w`),
   * so `a` is `g`.
   */
  lemma TransferCancel(a: multiset<Goal>, b: multiset<Goal>, g: multiset<Goal>, t1: multiset<Goal>, t2: multiset<Goal>,
                       f: multiset<Goal>, w: multiset<Goal>, goal: Goal)
    requires a + t1 == b + t2 && t2 == t1 + multiset{goal}
    requires b + f == g + w && f == w + multiset{goal}
    ensures a == g
  {
    MultisetCancel(a, b + multiset{goal}, t1);
    MultisetCancel(b + multiset{goal}, g, w);
  }

  /** Replacing one column changes the board's multiset by exactly the old and the new list of that column. */
  lemma BagWith(goals: ColumnGoals, c: GoalColumnKey, gs: seq<Goal>)
    ensures goals.With(c, gs).Bag() + multiset(goals.Get(c)) == goals.Bag() + multiset(gs)
  {
    match c
    case Backlog =>
    case Today =>
    case InProgress =>
    case Completed =>
  }

  /**
   * A move between two different columns, with ids unique in the source
   * column, takes the goal out of `from`, adds it once at the end of `to`,
   * and keeps the board's goals as a multiset (so their total count too).
   */
  lemma MoveGoalPreservesGoals(goals: ColumnGoals, goalId: int, from: GoalColumnKey, to: GoalColumnKey)
    requires from != to && UniqueIds(goals.Get(from), GoalId)
    ensures !HasId(MoveGoal(goals, goalId, from, to).Get(from), GoalId, goalId)
    ensures MoveGoal(goals, goalId, from, to).Bag() == goals.Bag()
    ensures |MoveGoal(goals, goalId, from, to).All()| == |goals.All()|
  {
    var r := MoveGoal(goals, goalId, from, to);
    WithoutRemovesAll(goals.Get(from), GoalId, goalId);
    match Find(goals.Get(from), GoalId, goalId)
    case None =>
    case Some(goal) =>
      WithoutUniqueRemovesOne(goals.Get(from), GoalId, goal);
      TransferKeepsBag(goals, from, to, Without(goals.Get(from), GoalId, goalId), goal);
    assert |r.Bag()| == |goals.Bag()|;
  }

  /** A move with `from == to` of a goal that is there appends that goal to the column a second time. */
  lemma MoveGoalSameColumnDuplicates(goals: ColumnGoals, goalId: int, c: GoalColumnKey)
    requires HasId(goals.Get(c), GoalId, goalId)
    ensures var r := MoveGoal(goals, goalId, c, c);
      && r.Get(c) == goals.Get(c) + [r.Get(c)[|goals.Get(c)|]]
      && r.Get(c)[|goals.Get(c)|] in goals.Get(c)
      && |r.All()| == |goals.All()| + 1
  {
  }

  /**
   * Without unique ids the move loses goals: every goal of `from` with the
   * id is filtered out, but only the first is appended to `to`.
   */
  lemma MoveGoalDuplicateIdsLoseGoal()
    ensures var b := ColumnGoals([Goal(7, "a", Work), Goal(7, "b", Health)], [], [], []);
      && MoveGoal(b, 7, Backlog, Today) == ColumnGoals([], [Goal(7, "a", Work)], [], [])
      && |MoveGoal(b, 7, Backlog, Today).All()| == |b.All()| - 1
  {
  }

  /**
   * The same loss in general: a move between two different columns changes
   * the number of goals on the board by one minus the number of goals of
   * `from` that carry the id, so any duplicate there shrinks the board.
   */
  lemma MoveGoalLosesDuplicates(goals: ColumnGoals, goalId: int, from: GoalColumnKey, to: GoalColumnKey)
    requires from != to && HasId(goals.Get(from), GoalId, goalId)
    ensures |MoveGoal(goals, goalId, from, to).All()| == |goals.All()| + 1 - CountId(goals.Get(from), GoalId, goalId)
    ensures CountId(goals.Get(from), GoalId, goalId) >= 2 ==> |MoveGoal(goals, goalId, from, to).All()| < |goals.All()|
  {
    var w := Without(goals.Get(from), GoalId, goalId);
    var g1 := goals.With(from, w);
    match Find(goals.Get(from), GoalId, goalId)
    case Some(goal) =>
      GoalsLengthWith(goals, from, w);
      GoalsLengthWith(g1, to, goals.Get(to) + [goal]);
  }

  // ---------------------------------------------------------------- ids across a whole collection

  /** Replacing one column changes the board's size by the difference of the two lists. */
  lemma GoalsLengthWith(goals: ColumnGoals, c: GoalColumnKey, gs: seq<Goal>)
    ensures |goals.With(c, gs).All()| + |goals.Get(c)| == |goals.All()| + |gs|
  {
    match c
    case Backlog =>
    case Today =>
    case InProgress =>
    case Completed =>
  }

  /** An id occurs in the whole matrix as often as in its four quadrants together. */
  lemma CountTasks(tasks: QuadrantTasks, id: int)
    ensures CountId(tasks.All(), TaskId, id) ==
      CountId(tasks.urgentImportant, TaskId, id) + CountId(tasks.notUrgentImportant, TaskId, id) +
      CountId(tasks.urgentNotImportant, TaskId, id) + CountId(tasks.notUrgentNotImportant, TaskId, id)
  {
    var a := tasks.urgentImportant + tasks.notUrgentImportant;
    CountIdAppend(tasks.urgentImportant, tasks.notUrgentImportant, TaskId, id);
    CountIdAppend(a, tasks.urgentNotImportant, TaskId, id);
    CountIdAppend(a + tasks.urgentNotImportant, tasks.notUrgentNotImportant, TaskId, id);
  }

  /** Replacing quadrant `q` changes how often an id occurs in the matrix by that quadrant's difference. */
  lemma TasksCountWith(tasks: QuadrantTasks, q: QuadrantKey, ts: seq<Task>, id: int)
    ensures CountId(tasks.With(q, ts).All(), TaskId, id) + CountId(tasks.Get(q), TaskId, id)
         == CountId(tasks.All(), TaskId, id) + CountId(ts, TaskId, id)
  {
    CountTasks(tasks, id);
    CountTasks(tasks.With(q, ts), id);
    match q
    case UrgentImportant =>
    case NotUrgentImportant =>
    case UrgentNotImportant =>
    case NotUrgentNotImportant =>
  }

  /** An id occurs on the whole board as often as in its four columns together. */
  lemma CountGoals(goals: ColumnGoals, id: int)
    ensures CountId(goals.All(), GoalId, id) ==
      CountId(goals.backlog, GoalId, id) + CountId(goals.today, GoalId, id) +
      CountId(goals.inProgress, GoalId, id) + CountId(goals.completed, GoalId, id)
  {
    var a := goals.backlog + goals.today;
    CountIdAppend(goals.backlog, goals.today, GoalId, id);
    CountIdAppend(a, goals.inProgress, GoalId, id);
    CountIdAppend(a + goals.inProgress, goals.completed, GoalId, id);
  }

  /** Replacing column `c` changes how often an id occurs on the board by that column's difference. */
  lemma GoalsCountWith(goals: ColumnGoals, c: GoalColumnKey, gs: seq<Goal>, id: int)
    ensures CountId(goals.With(c, gs).All(), GoalId, id) + CountId(goals.Get(c), GoalId, id)
         == CountId(goals.All(), GoalId, id) + CountId(gs, GoalId, id)
  {
    CountGoals(goals, id);
    CountGoals(goals.With(c, gs), id);
    match c
    case Backlog =>
    case Today =>
    case InProgress =>
    case Completed =>
  }

  /** Ids unique across the board are unique within each column (what MoveGoalPreservesGoals asks of `from`). */
  lemma ColumnUnique(goals: ColumnGoals, c: GoalColumnKey)
    requires UniqueIds(goals.All(), GoalId)
    ensures UniqueIds(goals.Get(c), GoalId)
  {
    forall id ensures CountId(goals.Get(c), GoalId, id) <= CountId(goals.All(), GoalId, id) {
      GoalsCountWith(goals, c, [], id);
    }
    UniqueUnderFewerIds(goals.All(), goals.Get(c), GoalId);
  }

  /** Adding a task with an id not used anywhere in the matrix keeps ids unique across the matrix. */
  lemma AddTaskFreshId(tasks: QuadrantTasks, q: QuadrantKey, text: string, id: int)
    requires UniqueIds(tasks.All(), TaskId) && !HasId(tasks.All(), TaskId, id)
    ensures UniqueIds(AddTask(tasks, q, text, id).All(), TaskId)
    ensures CountId(AddTask(tasks, q, text, id).All(), TaskId, id) == 1
  {
    var t := Task(id, text, false);
    var r := AddTask(tasks, q, text, id);
    forall other ensures CountId(r.All(), TaskId, other) == CountId(tasks.All(), TaskId, other) + CountId([t], TaskId, other) {
      TasksCountWith(tasks, q, tasks.Get(q) + [t], other);
      CountIdAppend(tasks.Get(q), [t], TaskId, other);
    }
    forall other ensures CountId(r.All(), TaskId, other) <= 1 {
      UniqueCountAtMostOne(tasks.All(), TaskId, other);
      assert CountId([t], TaskId, other) == if other == id then 1 else 0 by {
        assert [t][1..] == [];
      }
    }
    CountAtMostOneUnique(r.All(), TaskId);
    assert CountId([t], TaskId, id) == 1 by {
      assert [t][1..] == [];
    }
  }

  /** Toggling keeps every id where it was, so it keeps ids unique across the matrix. */
  lemma ToggleTaskKeepsUnique(tasks: QuadrantTasks, q: QuadrantKey, id: int)
    requires UniqueIds(tasks.All(), TaskId)
    ensures UniqueIds(ToggleTaskComplete(tasks, q, id).All(), TaskId)
  {
    var ts := ToggleTasks(tasks.Get(q), id);
    forall other ensures CountId(ToggleTaskComplete(tasks, q, id).All(), TaskId, other) <= CountId(tasks.All(), TaskId, other) {
      TasksCountWith(tasks, q, ts, other);
      CountSameIds(tasks.Get(q), ts, TaskId, other);
    }
    UniqueUnderFewerIds(tasks.All(), ToggleTaskComplete(tasks, q, id).All(), TaskId);
  }

  /** Deleting keeps ids unique across the matrix. */
  lemma DeleteTaskKeepsUnique(tasks: QuadrantTasks, q: QuadrantKey, id: int)
    requires UniqueIds(tasks.All(), TaskId)
    ensures UniqueIds(DeleteTask(tasks, q, id).All(), TaskId)
  {
    forall other ensures CountId(DeleteTask(tasks, q, id).All(), TaskId, other) <= CountId(tasks.All(), TaskId, other) {
      TasksCountWith(tasks, q, Without(tasks.Get(q), TaskId, id), other);
      CountWithout(tasks.Get(q), TaskId, id, other);
    }
    UniqueUnderFewerIds(tasks.All(), DeleteTask(tasks, q, id).All(), TaskId);
  }

  /** Adding a goal with an id not used anywhere on the board keeps ids unique across the board. */
  lemma AddGoalFreshId(goals: ColumnGoals, text: string, category: CategoryKey, id: int)
    requires UniqueIds(goals.All(), GoalId) && !HasId(goals.All(), GoalId, id)
    ensures UniqueIds(AddGoal(goals, text, category, id).All(), GoalId)
    ensures CountId(AddGoal(goals, text, category, id).All(), GoalId, id) == 1
  {
    var g := Goal(id, text, category);
    var r := AddGoal(goals, text, category, id);
    forall other ensures CountId(r.All(), GoalId, other) == CountId(goals.All(), GoalId, other) + CountId([g], GoalId, other) {
      GoalsCountWith(goals, Backlog, goals.backlog + [g], other);
      CountIdAppend(goals.backlog, [g], GoalId, other);
    }
    forall other ensures CountId(r.All(), GoalId, other) <= 1 {
      UniqueCountAtMostOne(goals.All(), GoalId, other);
      assert CountId([g], GoalId, other) == if other == id then 1 else 0 by {
        assert [g][1..] == [];
      }
    }
    CountAtMostOneUnique(r.All(), GoalId);
    assert CountId([g], GoalId, id) == 1 by {
      assert [g][1..] == [];
    }
  }

  /** Deleting keeps ids unique across the board. */
  lemma DeleteGoalKeepsUnique(goals: ColumnGoals, c: GoalColumnKey, id: int)
    requires UniqueIds(goals.All(), GoalId)
    ensures UniqueIds(DeleteGoal(goals, c, id).All(), GoalId)
  {
    forall other ensures CountId(DeleteGoal(goals, c, id).All(), GoalId, other) <= CountId(goals.All(), GoalId, other) {
      GoalsCountWith(goals, c, Without(goals.Get(c), GoalId, id), other);
      CountWithout(goals.Get(c), GoalId, id, other);
    }
    UniqueUnderFewerIds(goals.All(), DeleteGoal(goals, c, id).All(), GoalId);
  }

  /**
   * On a board whose ids are unique, a move between two different columns
   * keeps the ids unique and keeps the board's goals as a multiset.
   */
  lemma MoveGoalKeepsUnique(goals: ColumnGoals, goalId: int, from: GoalColumnKey, to: GoalColumnKey)
    requires from != to && UniqueIds(goals.All(), GoalId)
    ensures UniqueIds(MoveGoal(goals, goalId, from, to).All(), GoalId)
    ensures MoveGoal(goals, goalId, from, to).Bag() == goals.Bag()
  {
    ColumnUnique(goals, from);
    MoveGoalPreservesGoals(goals, goalId, from, to);
    var r := MoveGoal(goals, goalId, from, to);
    forall other ensures CountId(r.All(), GoalId, other) <= CountId(goals.All(), GoalId, other) {
      CountPermutation(goals.All(), r.All(), GoalId, other);
    }
    UniqueUnderFewerIds(goals.All(), r.All(), GoalId);
  }
}
