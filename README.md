# Day-planner board store

This project models the core of the day-planner dashboard in Dafny. The
dashboard component owns three collections:

- a schedule list of timed items;
- tasks split into the four quadrants of a priority matrix;
- goals split into the four columns of a board (backlog, today, in progress,
  completed).

Every handler rebuilds one collection from the old one with an append, a
`map` or a `filter` and replaces it. The project also models the tab
components' input guards, the move buttons a goal card offers, the
schedule view's sort by time, and the status classification of the
infrastructure page.

Layout:

- `types.dfy`: the records and enums.
  - A `Record<K, V[]>` is a datatype with one field per key.
  - `Get(k)` reads a key.
  - `With(k, v)` is the object spread `{...obj, [k]: v}`, so when a key is written twice the later write wins.
- `id_lists.dfy`: `filter` by id (`Without`), `find` by id (`Find`), and facts about ids.
- `board.dfy`: each handler as a pure transition on the old collection, plus its lemmas.
- `dashboard.dfy`: the component as a class, `Dashboard.DayPlanner`.
  - Its fields are the component state.
  - Each method replaces one field with the result of the matching `Board` transition.
- `schedule_tab.dfy`, `goal_tab.dfy`, `priority_tab.dfy`: the tabs.
  - Each form's local state is a class.
  - The sort is an in-place insertion sort on an array.
- `js_strings.dfy`: `String.prototype.trim`, `toLowerCase` and `localeCompare`, as far as the core uses them.
- `infra_status.dfy`: `getStatusColor`, `getStatusIcon` and the active tab of the infrastructure page.

Two behaviours of the code are modelled as written, even where they look
unintended:

- `moveGoal` with the same source and target column builds both keys from
  the old board, and the target key is written last. So the goal is not
  repositioned: it is appended to its own column a second time
  (`Board.MoveGoalSameColumnDuplicates`).
- The schedule tab calls `.sort` on the array it receives. That array is
  the component's own state, so showing the tab leaves the stored list in
  time order, not insertion order (`Dashboard.DayPlanner.ShowSchedule`).

## Model

| member | source | states |
|---|---|---|
| PlannerTypes.QuadrantTasks.With | src/components/MainDashboard.tsx:79-86 | the spread `{...tasks, [q]: ts}` replaces the list under `q` and keeps every other quadrant's list |
| PlannerTypes.ColumnGoals.With | src/components/MainDashboard.tsx:120-124 | the spread `{...goals, [c]: gs}` replaces the list under `c` and keeps every other column's list; written twice, the later key wins |
| Board.InitialIdsUnique | src/components/MainDashboard.tsx:15-57 | the seeded schedule, tasks and goals carry the ids 1..3, 1..7 and 1..6 in order, each once across the whole collection |
| Board.AddScheduleItem | src/components/MainDashboard.tsx:59-65 | exactly one item is appended: the draft's fields, the supplied id and `completed = false`; earlier items are unchanged and in order |
| Board.AddScheduleItemFreshId | src/components/MainDashboard.tsx:59-65 | adding with an id not yet in use keeps ids unique, and the new item is the only one with that id |
| Board.DeleteUndoesAddScheduleItem | src/components/MainDashboard.tsx:59-75 | deleting the id just added with a fresh id gives back the list before the add |
| Board.ToggleScheduleComplete | src/components/MainDashboard.tsx:67-71 | length is kept; every item keeps all fields but `completed`; `completed` flips exactly on the items with the id |
| Board.ToggleScheduleInvolution | src/components/MainDashboard.tsx:67-71 | toggling the same id twice restores the list |
| Board.ToggleScheduleAbsent | src/components/MainDashboard.tsx:67-71 | toggling an id that no item carries leaves the list unchanged |
| Board.ToggleScheduleKeepsUnique | src/components/MainDashboard.tsx:67-71 | toggling keeps ids unique |
| IdLists.Without | src/components/MainDashboard.tsx:73-75 | the filter shrinks the list by exactly the number of elements with the id, and every element it keeps was in the list and carries another id |
| IdLists.WithoutMultiset | src/components/MainDashboard.tsx:73-75 | the filter keeps every element whose id differs as often as it occurred, and drops every element with the id |
| IdLists.WithoutAbsent | src/components/MainDashboard.tsx:73-75 | filtering by an id that no element carries gives back the list |
| IdLists.WithoutRemovesAll | src/components/MainDashboard.tsx:73-75 | after the filter no element carries the id |
| IdLists.WithoutIdempotent | src/components/MainDashboard.tsx:73-75 | deleting the same id twice is deleting it once |
| IdLists.WithoutAppend | src/components/MainDashboard.tsx:73-75 | the filter distributes over concatenation |
| IdLists.WithoutSubset | src/components/MainDashboard.tsx:73-75 | every element left by the filter was in the list and does not carry the id |
| IdLists.WithoutKeepsUnique | src/components/MainDashboard.tsx:73-75 | deleting keeps ids unique |
| IdLists.WithoutUniqueRemovesOne | src/components/MainDashboard.tsx:117-124 | with unique ids, filtering out the id of an element removes that one element and nothing else (as multisets) |
| IdLists.CountId | src/components/MainDashboard.tsx:73-75 | the number of elements with an id is at most the length, and zero exactly when no element carries it |
| IdLists.Find | src/components/MainDashboard.tsx:118 | `find` returns nothing exactly when no element carries the id, and otherwise the first element that does |
| Dashboard.DayPlanner.DeleteScheduleItem | src/components/MainDashboard.tsx:73-75 | the schedule becomes the list filtered by the id, and no item with the id is left |
| Board.CountCompleted | src/components/MainDashboard.tsx:136 | the completed count is at most the length; it equals the length exactly when all items are completed, and is zero exactly when none is |
| Board.CompletionRate | src/components/MainDashboard.tsx:136-138 | the rate is 0 for an empty schedule, lies in 0..100, and is 100 * completed / total rounded half up |
| Board.CompletionRateAllCompleted | src/components/MainDashboard.tsx:136-138 | a non-empty schedule with every item completed is at 100 |
| Board.CompletionRateFullIff | src/components/MainDashboard.tsx:136-138 | for 1..199 items the rate is 100 exactly when every item is completed |
| Board.CompletionRateRoundsUpToFull | src/components/MainDashboard.tsx:136-138 | from 200 items on, a schedule with one open item still shows 100 |
| Board.CompletionRateNoneCompleted | src/components/MainDashboard.tsx:136-138 | a schedule with no completed item (in particular an empty one) is at 0 |
| Dashboard.DayPlanner.CompletionRate | src/components/MainDashboard.tsx:136-138 | the header's rate is `Board.CompletionRate` of the stored schedule, so it lies in 0..100 and is 0 for an empty schedule |
| Board.AddTask | src/components/MainDashboard.tsx:78-87 | quadrant `q` gets the new task (the id, the text, not completed) appended; the other three quadrants are unchanged |
| Board.ToggleTasks | src/components/MainDashboard.tsx:89-96 | ids and texts stay in place, and `completed` flips exactly on the tasks with the id |
| Board.ToggleTaskComplete | src/app/page.tsx:399-406 | quadrant `q` becomes its tasks with `completed` flipped exactly on the id (ids and texts in place, same length); the other three quadrants are unchanged |
| Board.ToggleTaskInvolution | src/app/page.tsx:399-406 | toggling the same task twice restores the whole matrix |
| Board.DeleteTask | src/components/MainDashboard.tsx:98-103 | quadrant `q` becomes the filter by the id; the other three quadrants are unchanged |
| Board.DeleteTaskAbsent | src/app/page.tsx:408-413 | deleting an id that quadrant `q` does not hold leaves every quadrant unchanged |
| Board.AddGoal | src/components/MainDashboard.tsx:106-115 | the new goal is appended to the backlog; today, in progress and completed are unchanged |
| Board.DeleteGoal | src/app/page.tsx:438-443 | column `c` becomes the filter by the id; the other columns are unchanged |
| Board.DeleteGoalRemovesExactly | src/app/page.tsx:438-443 | afterwards no goal of `c` carries the id, `c` shrinks by exactly the number of goals that did, and an absent id changes nothing |
| Board.MoveGoal | src/components/MainDashboard.tsx:117-126 | a goal missing from `from` leaves the board unchanged. A goal that is there gives `to` its old contents plus, at the end, the first goal of `from` with the id (the one `find` returns). With `from != to`, `from` is filtered by the id. Other columns are unchanged |
| Board.BagWith | src/components/MainDashboard.tsx:120-124 | replacing one column changes the board's multiset by exactly that column's old and new contents |
| Board.MoveGoalPreservesGoals | src/app/page.tsx:427-436 | a move between different columns with ids unique in `from` takes the id out of `from` and keeps the board's multiset of goals and its total count |
| Board.MoveGoalSameColumnDuplicates | src/components/MainDashboard.tsx:120-124 | a move with `from == to` of a present goal leaves the column as its old contents with a goal of that column appended, so the board grows by one |
| Board.MoveGoalDuplicateIdsLoseGoal | src/components/MainDashboard.tsx:117-126 | on an example board whose backlog holds two goals with id 7, moving id 7 to today filters out both but appends only the first, so the board loses a goal |
| Board.MoveGoalLosesDuplicates | src/components/MainDashboard.tsx:117-126 | a move between different columns changes the board's size by one minus the number of goals of `from` with the id, so two or more such goals shrink the board |
| Board.GoalsLengthWith | src/components/MainDashboard.tsx:120-124 | replacing one column changes the board's size by the difference between the new and the old list |
| Board.CountTasks | src/components/MainDashboard.tsx:78-103 | an id occurs in the whole matrix as often as in its four quadrants together |
| Board.TasksCountWith | src/components/MainDashboard.tsx:78-103 | replacing one quadrant changes how often an id occurs in the matrix by that quadrant's difference |
| Board.CountGoals | src/components/MainDashboard.tsx:106-126 | an id occurs on the whole board as often as in its four columns together |
| Board.GoalsCountWith | src/components/MainDashboard.tsx:106-126 | replacing one column changes how often an id occurs on the board by that column's difference |
| Board.ColumnUnique | src/components/MainDashboard.tsx:117-126 | ids unique across the board are unique within each column, which is what a move needs of its source column |
| Board.AddTaskFreshId | src/components/MainDashboard.tsx:78-87 | adding a task with an id unused anywhere in the matrix keeps ids unique across the matrix, and the new task is the only one with that id |
| Board.ToggleTaskKeepsUnique | src/components/MainDashboard.tsx:89-96 | toggling keeps ids unique across the matrix |
| Board.DeleteTaskKeepsUnique | src/components/MainDashboard.tsx:98-103 | deleting keeps ids unique across the matrix |
| Board.AddGoalFreshId | src/components/MainDashboard.tsx:106-115 | adding a goal with an id unused anywhere on the board keeps ids unique across the board, and the new goal is the only one with that id |
| Board.DeleteGoalKeepsUnique | src/app/page.tsx:438-443 | deleting keeps ids unique across the board |
| Board.MoveGoalKeepsUnique | src/components/MainDashboard.tsx:117-126 | on a board with unique ids, a move between different columns keeps ids unique and keeps the board's goals as a multiset |
| IdLists.CountIdAppend | src/components/MainDashboard.tsx:73-75 | the number of elements with an id is additive over concatenation |
| IdLists.UniqueCountAtMostOne | src/components/MainDashboard.tsx:73-75 | in a list with unique ids each id occurs at most once |
| IdLists.CountAtMostOneUnique | src/components/MainDashboard.tsx:73-75 | a list in which each id occurs at most once has unique ids |
| IdLists.UniqueUnderFewerIds | src/components/MainDashboard.tsx:73-75 | a list in which no id occurs more often than in a list with unique ids has unique ids |
| IdLists.CountWithout | src/components/MainDashboard.tsx:73-75 | after the filter the id occurs nowhere and every other id occurs as often as before |
| IdLists.CountSameIds | src/components/MainDashboard.tsx:89-96 | two lists with the same ids position by position have the same id counts |
| IdLists.CountPermutation | src/components/ScheduleTab.tsx:81-82 | two lists with the same multiset of elements have the same id counts |
| Dashboard.DayPlanner.constructor | src/app/page.tsx:321-366 | the initial active tab is `schedule`, the date is today's, the collections are the seeded ones, and their ids are unique |
| Dashboard.DayPlanner.SelectTab | src/components/MainDashboard.tsx:11 | the navigation sets the active tab |
| Dashboard.DayPlanner.ChangeDate | src/components/MainDashboard.tsx:12 | the header's date input sets the current date |
| Dashboard.DayPlanner.AddScheduleItem | src/app/page.tsx:369-375 | the schedule becomes `Board.AddScheduleItem` of the old one; a fresh id keeps ids unique |
| Dashboard.DayPlanner.ToggleScheduleComplete | src/app/page.tsx:377-381 | the schedule becomes `Board.ToggleScheduleComplete` of the old one, and toggling again would restore it |
| Dashboard.DayPlanner.AddTask | src/app/page.tsx:388-397 | the matrix becomes `Board.AddTask` of the old one |
| Dashboard.DayPlanner.ToggleTaskComplete | src/app/page.tsx:399-406 | the matrix becomes `Board.ToggleTaskComplete` of the old one, and toggling again would restore it |
| Dashboard.DayPlanner.DeleteTask | src/app/page.tsx:408-413 | the matrix becomes `Board.DeleteTask` of the old one |
| Dashboard.DayPlanner.AddGoal | src/app/page.tsx:416-425 | the board becomes `Board.AddGoal` of the old one |
| Dashboard.DayPlanner.MoveGoal | src/app/page.tsx:427-436 | the board becomes `Board.MoveGoal` of the old one (unchanged when the goal is not found); a move between different columns with unique ids keeps the board's goals |
| Dashboard.DayPlanner.DeleteGoal | src/app/page.tsx:438-443 | the board becomes `Board.DeleteGoal` of the old one |
| Dashboard.DayPlanner.ShowSchedule | src/components/ScheduleTab.tsx:81-82 | showing the schedule leaves the stored list sorted by time and a permutation of what it was, keeps ids unique when they were, and the rows are shown in that order |
| ScheduleTab.ScheduleForm.constructor | src/components/ScheduleTab.tsx:20 | the initial draft is empty, with duration 60 and category `work` |
| ScheduleTab.ScheduleForm.EditTime | src/components/ScheduleTab.tsx:50-51 | editing the time changes only the time; duration stays 60 |
| ScheduleTab.ScheduleForm.EditTask | src/components/ScheduleTab.tsx:57-58 | editing the task changes only the task; duration stays 60 |
| ScheduleTab.ScheduleForm.EditCategory | src/components/ScheduleTab.tsx:62-63 | choosing a category changes only the category; duration stays 60 |
| ScheduleTab.ScheduleForm.HandleAddItem | src/components/ScheduleTab.tsx:22-27 | the draft is forwarded exactly when time and task are non-empty, and then reset to the default. A rejected add leaves the draft unchanged. Every forwarded draft has duration 60 |
| ScheduleTab.CanAdd | src/components/ScheduleTab.tsx:23 | the add guard is the truthiness of both strings: time and task non-empty, with no trimming (so ScheduleTab.BlankTaskAccepted holds) |
| ScheduleTab.BlankTaskAccepted | src/components/ScheduleTab.tsx:23 | no trimming is done: a whitespace-only task with a time is accepted |
| ScheduleTab.SortByTime | src/components/ScheduleTab.tsx:81-82 | the in-place sort leaves the array in non-decreasing `time` order by code-point comparison, with the same multiset of items |
| ScheduleTab.InsertAt | src/components/ScheduleTab.tsx:81-82 | one insertion step extends the sorted prefix by one element and permutes the array |
| ScheduleTab.SwapDown | src/components/ScheduleTab.tsx:81-82 | one exchange of neighbours, nothing else changed, same multiset |
| ScheduleTab.SortedByTimePairwise | src/components/ScheduleTab.tsx:81-82 | in a sorted list every earlier item's time compares no later than every later item's |
| ScheduleTab.ClockOrderIsDigitOrder | src/components/ScheduleTab.tsx:82 | on zero-padded `HH:MM` strings, code-point order is the order of the hour digits, then the minute digits |
| ScheduleTab.ClockOrderIsChronological | src/components/ScheduleTab.tsx:82 | on zero-padded `HH:MM` strings, comparing the strings is comparing minutes since midnight |
| JsStrings.CodePointLe | src/components/ScheduleTab.tsx:82 | `a.localeCompare(b) <= 0` taken as lexicographic order on characters, a proper prefix first (its order laws: the three lemmas below) |
| JsStrings.CodePointLeTotal | src/components/ScheduleTab.tsx:82 | the comparison used for sorting is total |
| JsStrings.CodePointLeTransitive | src/components/ScheduleTab.tsx:82 | the comparison used for sorting is transitive |
| JsStrings.CodePointLeAntisymmetric | src/components/ScheduleTab.tsx:82 | strings that compare both ways are equal |
| JsStrings.IsJsWhitespace | src/components/GoalTab.tsx:97 | the characters `trim` strips: ECMAScript WhiteSpace (tab, vertical tab, form feed, space, no-break space, byte order mark, Unicode space separators) and LineTerminator (line feed, carriage return, line and paragraph separators) |
| JsStrings.LeadingBlanks | src/components/GoalTab.tsx:97 | the count of leading whitespace characters: every character before it is whitespace, and the character at it, if any, is not |
| JsStrings.TrailingStart | src/components/GoalTab.tsx:97 | the length without trailing whitespace: every character from it on is whitespace, and the character just before it, if any, is not |
| JsStrings.TrimStart | src/components/GoalTab.tsx:97 | the result is a suffix of the input; what was removed is whitespace; it starts with a non-whitespace character or is empty |
| JsStrings.TrimEnd | src/components/GoalTab.tsx:97 | the result is a prefix of the input; what was removed is whitespace; it ends with a non-whitespace character or is empty |
| JsStrings.Trim | src/components/GoalTab.tsx:97 | a non-empty result neither starts nor ends with whitespace, and the result is empty exactly when the input is all whitespace |
| JsStrings.TrimIsInfix | src/components/GoalTab.tsx:97 | the trimmed text is the part of the input that starts right after its leading whitespace, with only whitespace before and after it |
| JsStrings.TrimIdempotent | src/components/GoalTab.tsx:97 | trimming twice is trimming once |
| JsStrings.TrimNonEmptyIff | src/components/PriorityTab.tsx:46 | the trim guard passes exactly when the text has a non-whitespace character |
| GoalTab.Offers | src/components/GoalTab.tsx:50-81 | a card offers a move to `target` exactly when `target` is another column and, from the completed column, only back to the backlog |
| GoalTab.MoveTargets | src/components/GoalTab.tsx:50-81 | a card shows at most four move buttons, in the board's column order |
| GoalTab.ColumnPosition | src/components/GoalTab.tsx:103-108 | the `columns` list holds every column exactly once (backlog, today, in progress, completed) |
| GoalTab.MoveTargetsOffers | src/components/GoalTab.tsx:50-81 | a card shows exactly the buttons its guards allow, each once, and never its own column |
| GoalTab.MoveTargetsTable | src/components/GoalTab.tsx:50-81 | backlog offers today, in progress and completed; today offers backlog, in progress and completed; in progress offers backlog, today and completed; completed offers backlog |
| GoalTab.OfferedTargets | src/app/page.tsx:197-228 | no card offers its own column; every column but completed offers completed, and every column but backlog offers backlog |
| GoalTab.OfferedMoveKeepsGoals | src/components/GoalTab.tsx:50-81 | a move started from a card with ids unique in its column takes that goal to the end of the target column, out of its own column, and keeps every goal of the board |
| GoalTab.ColumnCounts | src/components/GoalTab.tsx:103-108 | the headers show one count per column in the order backlog, today, in progress, completed; each is that column's length, and together they count every goal |
| GoalTab.GoalForm.constructor | src/components/GoalTab.tsx:93-94 | the input starts empty and the category starts as `work` |
| GoalTab.GoalForm.EditText | src/components/GoalTab.tsx:93 | typing sets the input text |
| GoalTab.GoalForm.SelectCategory | src/components/GoalTab.tsx:94 | choosing sets the category |
| GoalTab.GoalForm.HandleAddGoal | src/components/GoalTab.tsx:96-101 | the untrimmed text and the selected category are forwarded exactly when the trimmed text is non-empty, and then the input is cleared; otherwise nothing changes |
| PriorityTab.QuadrantInfo | src/components/PriorityTab.tsx:6-11 | the `quadrants` table gives every quadrant a non-empty title and colour class |
| PriorityTab.TaskRow.ToggleArgs | src/components/PriorityTab.tsx:94 | a row's toggle button passes the quadrant it is rendered under and its task's id (its effect: PriorityTab.ToggleFromRow) |
| PriorityTab.TaskRow.DeleteArgs | src/components/PriorityTab.tsx:95 | a row's delete button passes the quadrant it is rendered under and its task's id (its effect: PriorityTab.DeleteFromRow) |
| PriorityTab.QuadrantTableTotal | src/components/PriorityTab.tsx:6-11 | the table lists each quadrant once, each with a non-empty title and colour, and the titles are distinct |
| PriorityTab.QuadrantRows | src/components/PriorityTab.tsx:90-95 | each task of a quadrant is rendered once, in order, with that quadrant |
| PriorityTab.Rows | src/components/PriorityTab.tsx:86-95 | the rows show the matrix's tasks one for one, in quadrant order (row `i` shows task `i` of all quadrants together); every task of every quadrant has a row carrying that quadrant, and every row's task is stored under the row's quadrant |
| PriorityTab.DeleteFromRow | src/components/PriorityTab.tsx:95 | a row's delete button removes that task from its quadrant and changes no other quadrant |
| PriorityTab.ToggleFromRow | src/components/PriorityTab.tsx:94 | a row's toggle button flips that task's completion in its quadrant and changes no other quadrant |
| PriorityTab.TaskForm.constructor | src/components/PriorityTab.tsx:42-43 | the input starts empty and the selected quadrant starts as `urgent_important` |
| PriorityTab.TaskForm.EditText | src/components/PriorityTab.tsx:42 | typing sets the input text |
| PriorityTab.TaskForm.SelectQuadrant | src/components/PriorityTab.tsx:43 | choosing sets the quadrant |
| PriorityTab.TaskForm.HandleAddTask | src/components/PriorityTab.tsx:45-50 | the selected quadrant and the untrimmed text are forwarded exactly when the trimmed text is non-empty, and then the input is cleared; otherwise nothing changes |
| JsStrings.LowerChar | src/app/Task/page.tsx:74 | ASCII capitals map to their lower-case letter, everything else is kept |
| JsStrings.ToLower | src/app/Task/page.tsx:74 | lower-casing keeps the length, maps each character, and leaves no ASCII capital |
| JsStrings.ToLowerIdempotent | src/app/Task/page.tsx:74 | lower-casing twice is lower-casing once |
| InfraStatus.StatusColor | src/app/Task/page.tsx:73-87 | green exactly for success and running, red exactly for failure and failed, yellow exactly for building and pending, gray otherwise, all after lower-casing |
| InfraStatus.StatusIcon | src/app/Task/page.tsx:89-103 | CheckCircle exactly for success and running, XCircle exactly for failure and failed, Clock exactly for building and pending, AlertTriangle otherwise, all after lower-casing |
| InfraStatus.IconFollowsColor | src/app/Task/page.tsx:73-103 | each status's icon is the one that goes with its colour |
| InfraStatus.SameColorIffSameIcon | src/app/Task/page.tsx:73-103 | two statuses share a colour exactly when they share an icon |
| InfraStatus.StatusCaseInsensitive | src/app/Task/page.tsx:74 | a status and its lower-cased form get the same colour and icon |
| InfraStatus.PageStatuses | src/app/Task/page.tsx:15-33 | the page's upper-case `SUCCESS` and `FAILURE` and lower-case `running` are classified green/red/green with the matching icons |
| InfraStatus.TabIdsListed | src/app/Task/page.tsx:179-185 | the page lists five tabs, `overview` first, with distinct ids |
| InfraStatus.InfraDashboard.constructor | src/app/Task/page.tsx:6 | the active tab starts as `overview`, the first tab |
| InfraStatus.InfraDashboard.SelectTab | src/app/Task/page.tsx:188 | a tab button sets the active tab to its id, whatever was active before |

## Left out

- Ids come from `Date.now()` in the source. Here they are a parameter of each add, and uniqueness is a precondition of the lemmas that need it, because the source does not guarantee it.
- The current date comes from `new Date()`. It is the constructor's `today` parameter, and the locale-dependent date and time formatting is not modelled.
- Board.CompletionRate: `Math.round` over a floating-point quotient is idealised as exact round-half-up, `(200 * completed + total) / (2 * total)`. Floating-point rounding of quotients such as 0.5 is not modelled.
- Board.CompletionRate: the rate is not "100 exactly when every item is completed" for 200 or more items. The model proves that equivalence for 1..199 items, and proves that a schedule of 200 or more items with one open item still shows 100.
- JsStrings.CodePointLe: `localeCompare` is modelled as lexicographic order on Unicode code points, since a Dafny `char` is a Unicode scalar value. General locale collation is not modelled, nor JavaScript's UTF-16 code-unit order, which differs from code-point order when a character beyond U+FFFF meets one in U+E000..U+FFFF. For zero-padded `HH:MM` times all of these agree, and the model proves that order is chronological.
- JsStrings.LowerChar: only the ASCII capitals A-Z are lowered; every other character is kept (the consequence for statuses is on the next line).
- JsStrings.ToLower: only ASCII letters are mapped. The six status keywords are ASCII letters without `k`, so no non-ASCII character lower-cases into a keyword's letters except the Kelvin sign (to `k`) and the dotted capital I (to two characters). The classification is therefore unaffected.
- ScheduleTab.SortByTime: the sort is specified by sortedness and permutation. Stability, and the exact order the engine's sort gives to equal times, are not stated.
- React rendering: `useState`, the re-render after each replacement, keys and all JSX markup and CSS classes are not modelled.
- The infrastructure page's `handleRefresh` is not modelled: it is asynchronous and driven by a timer. Its `refreshing` and `lastUpdated` state is left out with it.
- The infrastructure page's hard-coded mock metrics (including floating-point figures) are not modelled. Only the status strings feed `InfraStatus.PageStatuses`.
- Navigation wiring is not modelled. `src/components/DashboardNavigation.tsx` has only a named export (line 23), yet both planners import it as a default export (`src/components/MainDashboard.tsx:7`, `src/app/page.tsx:4`). Its buttons emit only the ids `overview`, `jenkins`, `docker`, `monitoring` and `metrics` (lines 16-20), none of which is a planner tab, so the source never passes a planner tab key to `setActiveTab` from it. Only `Dashboard.DayPlanner.SelectTab`'s effect on the state is modelled.
- The presentational components (header, stat card, metric bar, schedule row, navigation) are not modelled.
