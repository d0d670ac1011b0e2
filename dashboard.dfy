/**
 * The day-planner component: the store that owns the three collections,
 * the active tab and the date, and the handlers that replace a collection
 * with the one computed by the matching transition in `Board`.
 */
module Dashboard {
  import opened PlannerTypes
  import opened IdLists
  import Board
  import ScheduleTab

  class DayPlanner {
    var activeTab: TabKey
    var currentDate: string
    var scheduleItems: seq<ScheduleItem>
    var tasks: QuadrantTasks
    var goals: ColumnGoals

    /** The seeded state; `today` is the date the component reads from the clock. */
    constructor (today: string)
      ensures activeTab == Schedule && currentDate == today
      ensures scheduleItems == Board.InitialSchedule
      ensures tasks == Board.InitialTasks && goals == Board.InitialGoals
      ensures UniqueIds(scheduleItems, ScheduleItemId) && UniqueIds(tasks.All(), TaskId) && UniqueIds(goals.All(), GoalId)
    {
      activeTab := Schedule;
      currentDate := today;
      scheduleItems := Board.InitialSchedule;
      tasks := Board.InitialTasks;
      goals := Board.InitialGoals;
      Board.InitialIdsUnique();
    }

    /** The navigation's `onTabChange`. */
    method SelectTab(tab: TabKey)
      modifies this`activeTab
      ensures activeTab == tab
    {
      activeTab := tab;
    }

    /** The header's `onDateChange`. */
    method ChangeDate(date: string)
      modifies this`currentDate
      ensures currentDate == date
    {
      currentDate := date;
    }

    /** `addScheduleItem`, with the id the component takes from the clock as `id`. */
    method AddScheduleItem(draft: ScheduleDraft, id: int)
      modifies this`scheduleItems
      ensures scheduleItems == Board.AddScheduleItem(old(scheduleItems), draft, id)
      ensures !HasId(old(scheduleItems), ScheduleItemId, id) && UniqueIds(old(scheduleItems), ScheduleItemId) ==>
        UniqueIds(scheduleItems, ScheduleItemId)
    {
      if !HasId(scheduleItems, ScheduleItemId, id) && UniqueIds(scheduleItems, ScheduleItemId) {
        Board.AddScheduleItemFreshId(scheduleItems, draft, id);
      }
      scheduleItems := Board.AddScheduleItem(scheduleItems, draft, id);
    }

    /** `toggleScheduleComplete`. */
    method ToggleScheduleComplete(id: int)
      modifies this`scheduleItems
      ensures scheduleItems == Board.ToggleScheduleComplete(old(scheduleItems), id)
      ensures Board.ToggleScheduleComplete(scheduleItems, id) == old(scheduleItems)
    {
      Board.ToggleScheduleInvolution(scheduleItems, id);
      scheduleItems := Board.ToggleScheduleComplete(scheduleItems, id);
    }

    /** `deleteScheduleItem`. */
    method DeleteScheduleItem(id: int)
      modifies this`scheduleItems
      ensures scheduleItems == Without(old(scheduleItems), ScheduleItemId, id)
      ensures !HasId(scheduleItems, ScheduleItemId, id)
    {
      WithoutRemovesAll(scheduleItems, ScheduleItemId, id);
      scheduleItems := Without(scheduleItems, ScheduleItemId, id);
    }

    /** `addTask`. */
    method AddTask(q: QuadrantKey, text: string, id: int)
      modifies this`tasks
      ensures tasks == Board.AddTask(old(tasks), q, text, id)
    {
      tasks := Board.AddTask(tasks, q, text, id);
    }

    /** `toggleTaskComplete`. */
    method ToggleTaskComplete(q: QuadrantKey, id: int)
      modifies this`tasks
      ensures tasks == Board.ToggleTaskComplete(old(tasks), q, id)
      ensures Board.ToggleTaskComplete(tasks, q, id) == old(tasks)
    {
      Board.ToggleTaskInvolution(tasks, q, id);
      tasks := Board.ToggleTaskComplete(tasks, q, id);
    }

    /** `deleteTask`. */
    method DeleteTask(q: QuadrantKey, id: int)
      modifies this`tasks
      ensures tasks == Board.DeleteTask(old(tasks), q, id)
    {
      tasks := Board.DeleteTask(tasks, q, id);
    }

    /** `addGoal`: new goals always start in the backlog. */
    method AddGoal(text: string, category: CategoryKey, id: int)
      modifies this`goals
      ensures goals == Board.AddGoal(old(goals), text, category, id)
    {
      goals := Board.AddGoal(goals, text, category, id);
    }

    /** `moveGoal`: the board is replaced only when the goal is found in `from`. */
    method MoveGoal(goalId: int, from: GoalColumnKey, to: GoalColumnKey)
      modifies this`goals
      ensures goals == Board.MoveGoal(old(goals), goalId, from, to)
      ensures from != to && UniqueIds(old(goals).Get(from), GoalId) ==> goals.Bag() == old(goals).Bag()
    {
      if from != to && UniqueIds(goals.Get(from), GoalId) {
        Board.MoveGoalPreservesGoals(goals, goalId, from, to);
      }
      var found := Find(goals.Get(from), GoalId, goalId);
      if found.Some? {
        goals := Board.MoveGoal(goals, goalId, from, to);
      }
    }

    /** `deleteGoal`. */
    method DeleteGoal(c: GoalColumnKey, id: int)
      modifies this`goals
      ensures goals == Board.DeleteGoal(old(goals), c, id)
    {
      goals := Board.DeleteGoal(goals, c, id);
    }

    /** `completionRate`, shown in the header. */
    function CompletionRate(): (r: int)
      reads this`scheduleItems
      ensures r == Board.CompletionRate(scheduleItems)
      ensures 0 <= r <= 100
      ensures scheduleItems == [] ==> r == 0
    {
      Board.CompletionRate(scheduleItems)
    }

    /**
     * Rendering the schedule tab: the tab sorts the array it receives, which
     * is the store's own array, by `time`; the store's list is left in that
     * order and the rows are shown in it.
     */
    method ShowSchedule() returns (shown: seq<ScheduleItem>)
      modifies this`scheduleItems
      ensures shown == scheduleItems
      ensures ScheduleTab.SortedByTime(shown)
      ensures multiset(shown) == multiset(old(scheduleItems))
      ensures UniqueIds(old(scheduleItems), ScheduleItemId) ==> UniqueIds(shown, ScheduleItemId)
    {
      var s := scheduleItems;
      var a := new ScheduleItem[|s|](i requires 0 <= i < |s| => s[i]);
      assert a[..] == s;
      ScheduleTab.SortByTime(a);
      scheduleItems := a[..];
      shown := scheduleItems;
      if UniqueIds(s, ScheduleItemId) {
        forall id ensures CountId(shown, ScheduleItemId, id) <= CountId(s, ScheduleItemId, id) {
          CountPermutation(shown, s, ScheduleItemId, id);
        }
        UniqueUnderFewerIds(s, shown, ScheduleItemId);
      }
    }
  }
}
