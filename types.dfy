/**
 * The record shapes and closed key sets of the day planner
 * (src/libs/Mockdata.ts), plus the two keyed records the store keeps:
 * tasks by quadrant and goals by board column.
 */
module PlannerTypes {

  datatype CategoryKey = Work | Personal | Health | Learning
  datatype QuadrantKey = UrgentImportant | NotUrgentImportant | UrgentNotImportant | NotUrgentNotImportant
  datatype GoalColumnKey = Backlog | Today | InProgress | Completed
  datatype TabKey = Schedule | Priority | Goals

  datatype ScheduleItem = ScheduleItem(id: int, time: string, duration: int, task: string,
                                       category: CategoryKey, completed: bool)
  datatype Task = Task(id: int, text: string, completed: bool)
  datatype Goal = Goal(id: int, text: string, category: CategoryKey)

  /** What the schedule form hands to the store: a schedule item without `id` and `completed`. */
  datatype ScheduleDraft = ScheduleDraft(time: string, task: string, duration: int, category: CategoryKey)

  function ScheduleItemId(s: ScheduleItem): int { s.id }
  function TaskId(t: Task): int { t.id }
  function GoalId(g: Goal): int { g.id }

  /** `Record<QuadrantKey, Task[]>`: one task list per quadrant, total by construction. */
  datatype QuadrantTasks = QuadrantTasks(urgentImportant: seq<Task>, notUrgentImportant: seq<Task>,
                                         urgentNotImportant: seq<Task>, notUrgentNotImportant: seq<Task>)
  {
    /** `tasks[q]` */
    function Get(q: QuadrantKey): seq<Task>
    {
      match q
      case UrgentImportant => urgentImportant
      case NotUrgentImportant => notUrgentImportant
      case UrgentNotImportant => urgentNotImportant
      case NotUrgentNotImportant => notUrgentNotImportant
    }

    /** `{...tasks, [q]: ts}`: the list under `q` is replaced, every other list is kept. */
    function With(q: QuadrantKey, ts: seq<Task>): (r: QuadrantTasks)
      ensures r.Get(q) == ts
      ensures forall k :: k != q ==> r.Get(k) == Get(k)
    {
      match q
      case UrgentImportant => this.(urgentImportant := ts)
      case NotUrgentImportant => this.(notUrgentImportant := ts)
      case UrgentNotImportant => this.(urgentNotImportant := ts)
      case NotUrgentNotImportant => this.(notUrgentNotImportant := ts)
    }

    /** Every task of the matrix, quadrant by quadrant. */
    function All(): seq<Task>
    {
      urgentImportant + notUrgentImportant + urgentNotImportant + notUrgentNotImportant
    }
  }

  /** `Record<GoalColumnKey, Goal[]>`: one goal list per board column, total by construction. */
  datatype ColumnGoals = ColumnGoals(backlog: seq<Goal>, today: seq<Goal>,
                                     inProgress: seq<Goal>, completed: seq<Goal>)
  {
    /** `goals[c]` */
    function Get(c: GoalColumnKey): seq<Goal>
    {
      match c
      case Backlog => backlog
      case Today => today
      case InProgress => inProgress
      case Completed => completed
    }

    /** `{...goals, [c]: gs}`: the list under `c` is replaced, every other list is kept. */
    function With(c: GoalColumnKey, gs: seq<Goal>): (r: ColumnGoals)
      ensures r.Get(c) == gs
      ensures forall k :: k != c ==> r.Get(k) == Get(k)
    {
      match c
      case Backlog => this.(backlog := gs)
      case Today => this.(today := gs)
      case InProgress => this.(inProgress := gs)
      case Completed => this.(completed := gs)
    }

    /** Every goal of the board, column by column. */
    function All(): seq<Goal>
    {
      backlog + today + inProgress + completed
    }

    /** The goals of the board as a multiset, whatever their column and position. */
    function Bag(): (b: multiset<Goal>)
      ensures b == multiset(All())
    {
      multiset(backlog) + multiset(today) + multiset(inProgress) + multiset(completed)
    }
  }
}
