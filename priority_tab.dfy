/**
 * The priority matrix view: the quadrant table, the add form's guard, and
 * the toggle/delete callbacks each rendered task carries.
 */
module PriorityTab {
  import opened Wrappers
  import opened PlannerTypes
  import opened JsStrings
  import opened IdLists
  import Board

  /** Display data of a quadrant. */
  datatype Quadrant = Quadrant(title: string, color: string)

  /** The `quadrants` table. */
  function QuadrantInfo(q: QuadrantKey): (r: Quadrant)
    ensures r.title != "" && r.color != ""
  {
    match q
    case UrgentImportant => Quadrant("Urgent & Important", "border-red-300 bg-red-50")
    case NotUrgentImportant => Quadrant("Important, Not Urgent", "border-yellow-300 bg-yellow-50")
    case UrgentNotImportant => Quadrant("Urgent, Not Important", "border-orange-300 bg-orange-50")
    case NotUrgentNotImportant => Quadrant("Neither Urgent nor Important", "border-gray-300 bg-gray-50")
  }

  /** The order of the table's entries, which is the order quadrants are rendered and offered. */
  const QuadrantOrder: seq<QuadrantKey> := [UrgentImportant, NotUrgentImportant, UrgentNotImportant, NotUrgentNotImportant]

  /** Every quadrant is listed once, with a non-empty title and colour of its own. */
  lemma QuadrantTableTotal()
    ensures forall q :: q in QuadrantOrder
    ensures forall i, j :: 0 <= i < j < |QuadrantOrder| ==> QuadrantOrder[i] != QuadrantOrder[j]
    ensures forall q :: QuadrantInfo(q).title != "" && QuadrantInfo(q).color != ""
    ensures forall p, q :: p != q ==> QuadrantInfo(p).title != QuadrantInfo(q).title
  {
    forall q ensures q in QuadrantOrder {
      match q
      case UrgentImportant => assert QuadrantOrder[0] == q;
      case NotUrgentImportant => assert QuadrantOrder[1] == q;
      case UrgentNotImportant => assert QuadrantOrder[2] == q;
      case NotUrgentNotImportant => assert QuadrantOrder[3] == q;
    }
  }

  /** A rendered task with the quadrant it was rendered under. */
  datatype TaskRow = TaskRow(quadrant: QuadrantKey, task: Task)
  {
    /** The arguments its toggle button passes to `onToggleTask`. */
    function ToggleArgs(): (QuadrantKey, int) { (quadrant, task.id) }
    /** The arguments its delete button passes to `onDeleteTask`. */
    function DeleteArgs(): (QuadrantKey, int) { (quadrant, task.id) }
  }

  function QuadrantRows(q: QuadrantKey, ts: seq<Task>): (r: seq<TaskRow>)
    ensures |r| == |ts|
    ensures forall i :: 0 <= i < |r| ==> r[i] == TaskRow(q, ts[i])
    ensures forall row :: row in r ==> row.quadrant == q && row.task in ts
  {
    seq(|ts|, i requires 0 <= i < |ts| => TaskRow(q, ts[i]))
  }

  /** The rows of the matrix, quadrant by quadrant: each carries the quadrant its task is stored under. */
  function Rows(tasks: QuadrantTasks): (r: seq<TaskRow>)
    ensures |r| == |tasks.All()|
    ensures forall i :: 0 <= i < |r| ==> r[i].task == tasks.All()[i]
    ensures forall row :: row in r ==> row.task in tasks.Get(row.quadrant)
    ensures forall q, i :: 0 <= i < |tasks.Get(q)| ==> TaskRow(q, tasks.Get(q)[i]) in r
  {
    QuadrantRows(UrgentImportant, tasks.urgentImportant)
    + QuadrantRows(NotUrgentImportant, tasks.notUrgentImportant)
    + QuadrantRows(UrgentNotImportant, tasks.urgentNotImportant)
    + QuadrantRows(NotUrgentNotImportant, tasks.notUrgentNotImportant)
  }

  /** The delete button of a rendered task removes that task from its quadrant, and no other quadrant changes. */
  lemma DeleteFromRow(tasks: QuadrantTasks, row: TaskRow)
    requires row in Rows(tasks)
    ensures var (q, id) := row.DeleteArgs();
      && row.task !in Board.DeleteTask(tasks, q, id).Get(q)
      && |Board.DeleteTask(tasks, q, id).Get(q)| < |tasks.Get(q)|
      && forall k :: k != q ==> Board.DeleteTask(tasks, q, id).Get(k) == tasks.Get(k)
  {
  }

  /** The toggle button of a rendered task flips that task's completion in its quadrant. */
  lemma ToggleFromRow(tasks: QuadrantTasks, row: TaskRow)
    requires row in Rows(tasks)
    ensures var (q, id) := row.ToggleArgs();
      && row.task.(completed := !row.task.completed) in Board.ToggleTaskComplete(tasks, q, id).Get(q)
      && forall k :: k != q ==> Board.ToggleTaskComplete(tasks, q, id).Get(k) == tasks.Get(k)
  {
  }

  /** The component state of the add form. */
  class TaskForm {
    var newTask: string
    var selectedQuadrant: QuadrantKey

    constructor ()
      ensures newTask == "" && selectedQuadrant == UrgentImportant
    {
      newTask := "";
      selectedQuadrant := UrgentImportant;
    }

    /** The text input's `onChange`. */
    method EditText(text: string)
      modifies this`newTask
      ensures newTask == text
    {
      newTask := text;
    }

    /** The quadrant select's `onChange`. */
    method SelectQuadrant(q: QuadrantKey)
      modifies this`selectedQuadrant
      ensures selectedQuadrant == q
    {
      selectedQuadrant := q;
    }

    /**
     * `handleAddTask`: when the trimmed text is non-empty, the selected
     * quadrant and the untrimmed text go to `onAddTask` (returned here) and
     * the input is cleared; otherwise nothing happens.
     */
    method HandleAddTask() returns (forwarded: Option<(QuadrantKey, string)>)
      modifies this`newTask
      ensures forwarded == if Trim(old(newTask)) != [] then Some((selectedQuadrant, old(newTask))) else None
      ensures newTask == if Trim(old(newTask)) != [] then "" else old(newTask)
    {
      if Trim(newTask) != [] {
        forwarded := Some((selectedQuadrant, newTask));
        newTask := "";
      } else {
        forwarded := None;
      }
    }
  }
}
