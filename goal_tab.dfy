/**
 * The goal board view: which move buttons a goal card offers, the fixed
 * column order with per-column counts, and the add form's guard.
 */
module GoalTab {
  import opened Wrappers
  import opened PlannerTypes
  import opened JsStrings
  import opened IdLists
  import Board

  /** Whether the card of a goal in `column` shows the button that moves it to `target`. */
  predicate Offers(column: GoalColumnKey, target: GoalColumnKey)
    ensures Offers(column, target) <==> column != target && (column == Completed ==> target == Backlog)
  {
    match target
    case Backlog => column != Backlog
    case Today => column != Today && column != Completed
    case InProgress => column != InProgress && column != Completed
    case Completed => column != Completed
  }

  /** The board's columns, left to right. */
  const ColumnOrder: seq<GoalColumnKey> := [Backlog, Today, InProgress, Completed]

  /** Where a column sits in the header row: every column has exactly one place. */
  function ColumnPosition(c: GoalColumnKey): (i: nat)
    ensures i < |ColumnOrder| && ColumnOrder[i] == c
    ensures forall j :: 0 <= j < |ColumnOrder| && ColumnOrder[j] == c ==> j == i
  {
    match c
    case Backlog => 0
    case Today => 1
    case InProgress => 2
    case Completed => 3
  }

  /** The move buttons of a card in `column`, in the order they are rendered. */
  function MoveTargets(column: GoalColumnKey): (r: seq<GoalColumnKey>)
    ensures |r| <= |ColumnOrder|
    ensures forall i, j :: 0 <= i < j < |r| ==> ColumnPosition(r[i]) < ColumnPosition(r[j])
  {
    (if Offers(column, Backlog) then [Backlog] else [])
    + (if Offers(column, Today) then [Today] else [])
    + (if Offers(column, InProgress) then [InProgress] else [])
    + (if Offers(column, Completed) then [Completed] else [])
  }

  /** A card shows exactly the buttons `Offers` allows, each once, in board order, and never its own column. */
  lemma MoveTargetsOffers(column: GoalColumnKey)
    ensures forall t :: t in MoveTargets(column) <==> Offers(column, t)
    ensures column !in MoveTargets(column)
    ensures forall i, j :: 0 <= i < j < |MoveTargets(column)| ==> MoveTargets(column)[i] != MoveTargets(column)[j]
  {
    MoveTargetsTable();
    match column
    case Backlog =>
    case Today =>
    case InProgress =>
    case Completed =>
  }

  /** The targets each column offers. */
  lemma MoveTargetsTable()
    ensures MoveTargets(Backlog) == [Today, InProgress, Completed]
    ensures MoveTargets(Today) == [Backlog, InProgress, Completed]
    ensures MoveTargets(InProgress) == [Backlog, Today, Completed]
    ensures MoveTargets(Completed) == [Backlog]
  {
  }

  /** No card offers a move to its own column; every column but `completed` offers `completed`, every column but `backlog` offers `backlog`. */
  lemma OfferedTargets(column: GoalColumnKey)
    ensures !Offers(column, column)
    ensures column != Completed ==> Offers(column, Completed)
    ensures column != Backlog ==> Offers(column, Backlog)
  {
  }

  /**
   * A move started from a card — a goal rendered in `column` moved to a
   * target its card offers — with ids unique in that column takes exactly
   * that goal to the end of the target column and keeps every goal of the
   * board.
   */
  lemma OfferedMoveKeepsGoals(goals: ColumnGoals, column: GoalColumnKey, target: GoalColumnKey, g: Goal)
    requires g in goals.Get(column) && Offers(column, target) && UniqueIds(goals.Get(column), GoalId)
    ensures Board.MoveGoal(goals, g.id, column, target).Get(target) == goals.Get(target) + [g]
    ensures g !in Board.MoveGoal(goals, g.id, column, target).Get(column)
    ensures Board.MoveGoal(goals, g.id, column, target).Bag() == goals.Bag()
  {
    var cs := goals.Get(column);
    assert HasId(cs, GoalId, g.id);
    var found := Find(cs, GoalId, g.id);
    var i :| 0 <= i < |cs| && cs[i] == found.value && GoalId(cs[i]) == g.id;
    var j :| 0 <= j < |cs| && cs[j] == g;
    assert i == j;
    Board.MoveGoalPreservesGoals(goals, g.id, column, target);
  }

  /** The counts shown in the column headers, in board order. */
  function ColumnCounts(goals: ColumnGoals): (r: seq<nat>)
    ensures |r| == |ColumnOrder|
    ensures forall i :: 0 <= i < |r| ==> r[i] == |goals.Get(ColumnOrder[i])|
    ensures r[0] + r[1] + r[2] + r[3] == |goals.All()|
  {
    seq(|ColumnOrder|, i requires 0 <= i < |ColumnOrder| => |goals.Get(ColumnOrder[i])|)
  }

  /** The component state of the add form. */
  class GoalForm {
    var newGoal: string
    var selectedCategory: CategoryKey

    constructor ()
      ensures newGoal == "" && selectedCategory == Work
    {
      newGoal := "";
      selectedCategory := Work;
    }

    /** The text input's `onChange`. */
    method EditText(text: string)
      modifies this`newGoal
      ensures newGoal == text
    {
      newGoal := text;
    }

    /** The category select's `onChange`. */
    method SelectCategory(category: CategoryKey)
      modifies this`selectedCategory
      ensures selectedCategory == category
    {
      selectedCategory := category;
    }

    /**
     * `handleAddGoal`: when the trimmed text is non-empty, the untrimmed text
     * and the selected category go to `onAddGoal` (returned here) and the
     * input is cleared; otherwise nothing happens.
     */
    method HandleAddGoal() returns (forwarded: Option<(string, CategoryKey)>)
      modifies this`newGoal
      ensures forwarded == if Trim(old(newGoal)) != [] then Some((old(newGoal), selectedCategory)) else None
      ensures newGoal == if Trim(old(newGoal)) != [] then "" else old(newGoal)
    {
      if Trim(newGoal) != [] {
        forwarded := Some((newGoal, selectedCategory));
        newGoal := "";
      } else {
        forwarded := None;
      }
    }
  }
}
