# ChronoTasks core in Dafny

ChronoTasks (the ChronoFlow repository) is a themed in-memory to-do app. Tasks belong to one of three
"dimensions" (cyber, magic, void), and a time filter (today, tomorrow, upcoming, archived) selects
which of them are shown. This project models the logic under the animation:

- the root page's state and handlers (`IndexPage.Page`). These cover the task list, the active dimension
  and time filter, the two-phase dimension transition, the achievement counter and its effect, and the
  toasts the page raises. The list transformations behind the handlers are pure functions in `TaskStore`.
- the visibility filter of the 3D task list the page renders (`TaskList3D`), and the older list's filter
  (`TaskList`), with lemmas saying where the two agree and where they differ.
- the add-task form (`AddTaskForm`): JavaScript `trim`, the blank-title check, the disabled submit button,
  and the open/closed state.
- the dimension catalogue and its lookup (`Dimensions`), and the dimension picker (`DimensionSelector`).
  The picker covers icon lookup, the shortened description, the expanded menu, and forwarding a change
  only when the dimension differs.

Dates are `Timestamp`s, which are integer milliseconds of local time. `setHours(0, 0, 0, 0)` is
`Midnight`, a floor to whole days. `setDate(getDate() + 1)` adds one day of milliseconds. The filters
take the clock reading `now` as a parameter. `uuidv4()` becomes an `id` parameter that must not already
be in the list. Each `new Date()` becomes a `now` parameter.

Four behaviours of the code worth knowing when reading the model:
- `handleAddTask` (src/pages/Index.tsx:108-118) accepts any title. Only the form trims the title and
  rejects a blank one (src/components/AddTaskForm.tsx:18).
- The rendered 3D list has no completion check before its date tests (src/components/TaskList3D.tsx:31-47),
  so completed tasks stay under today/tomorrow/upcoming, and an undated task is never shown under
  "archived", even a completed one. The older list hides completed tasks outside "archived"
  (src/components/TaskList.tsx:43).
- `handleDimensionChange` (src/pages/Index.tsx:85-90) sets the target whether or not a transition is
  pending, so a second request replaces the pending target.
- The two "upcoming" boundaries (`> tomorrow` at src/components/TaskList3D.tsx:47 and `>= today + 2 days`
  at src/components/TaskList.tsx:56) are the same on midnights, so they agree on every date
  (`TaskList.UpcomingBoundariesCoincide`).

## Model

| member | source | states |
|---|---|---|
| `Types.Day` | src/components/TaskList3D.tsx:33-34 | the day number of a timestamp is the floor in whole days: that day's midnight is at or before it, and the next midnight is after it |
| `Types.Midnight` | src/components/TaskList3D.tsx:39-40 | `setHours(0,0,0,0)` gives a whole multiple of a day, at most a day before the timestamp and never after it |
| `Types.DimensionIdInjective` | src/types/index.ts:2 | the string ids 'cyber', 'magic', 'void' name distinct dimensions |
| `Dimensions.FindIndex` | src/data/dimensions.ts:29 | `find` returns the first entry whose id matches, with no match before it; there is no result exactly when no entry matches |
| `Dimensions.Find` | src/data/dimensions.ts:29 | the entry found is in the table and has the requested id; `undefined` exactly when no entry has it |
| `Dimensions.GetDimension` | src/data/dimensions.ts:28-30 | always returns a table entry; it has the requested id whenever one exists, and otherwise it is the first entry |
| `Dimensions.TableOrder` | src/data/dimensions.ts:4-26 | the table has exactly three entries: cyber, magic and void, in that order |
| `Dimensions.EntryUnique` | src/data/dimensions.ts:4-26 | no two entries share an id, so each dimension has exactly one entry |
| `Dimensions.GetDimensionOfId` | src/data/dimensions.ts:28-30 | looking up a dimension's own id returns that dimension's entry |
| `Dimensions.GetDimensionFallback` | src/data/dimensions.ts:29 | an id that names no dimension returns the cyber entry |
| `Dimensions.BgClassFollowsId` | src/data/dimensions.ts:10-24 | each entry's background class is its id followed by "-bg" |
| `TaskList3D.Visible` | src/components/TaskList3D.tsx:28-50 | a shown task belongs to the current dimension, and a dated task shown outside "archived" is not overdue (due today or later, in whole days) |
| `TaskList3D.FilteredTasks` | src/components/TaskList3D.tsx:28-51 | the shown tasks keep their order as a subsequence of the list; they are exactly the visible tasks and all belong to the current dimension |
| `TaskList3D.UndatedOnlyToday` | src/components/TaskList3D.tsx:31 | an undated task of the dimension is shown exactly under "today", even when completed and even under "archived" |
| `TaskList3D.DatedByDay` | src/components/TaskList3D.tsx:33-50 | a dated task is shown under "today" iff due today, "tomorrow" iff due tomorrow, and "upcoming" iff due after tomorrow (all in whole days); under "archived" it is shown iff completed, whatever its date |
| `TaskList3D.CompletionIgnoredOutsideArchived` | src/components/TaskList3D.tsx:31-47 | outside "archived", flipping completion never changes visibility, so completed tasks stay in their date bucket |
| `TaskList3D.DateBucketsDisjoint` | src/components/TaskList3D.tsx:42-47 | a dated task is in at most one of today/tomorrow/upcoming, and an overdue task is in none |
| `TaskList.Visible` | src/components/TaskList.tsx:24-59 | a shown task belongs to the current dimension and is completed exactly under "archived"; a dated task shown under "today", "tomorrow" or "upcoming" is not overdue |
| `TaskList.FilteredTasks` | src/components/TaskList.tsx:24-60 | the shown tasks keep their order as a subsequence of the list; they are exactly the visible tasks and all belong to the current dimension |
| `TaskList.ArchivedIsCompleted` | src/components/TaskList.tsx:38-40 | "archived" shows a task of the dimension iff it is completed, dated or not |
| `TaskList.CompletedOnlyArchived` | src/components/TaskList.tsx:43 | every filter string other than "archived" hides completed tasks |
| `TaskList.UndatedOnlyToday` | src/components/TaskList.tsx:46 | outside "archived", an undated task is shown iff it is open and the filter is "today" |
| `TaskList.DatedByDay` | src/components/TaskList.tsx:48-59 | an open dated task is shown under "today" iff due today, "tomorrow" iff due tomorrow, "upcoming" iff due two or more days ahead; any unrecognised string shows it |
| `TaskList.UpcomingBoundariesCoincide` | src/components/TaskList.tsx:51-56 | on midnights, "at least two days ahead" and "after tomorrow" are the same condition |
| `TaskList.UnknownFilterShowsOpenDated` | src/components/TaskList.tsx:59 | an unrecognised filter string shows exactly the open dated tasks of the dimension |
| `TaskList.FiltersDiffer` | src/components/TaskList.tsx:38-46 | the two filters disagree on a task iff it is a completed task of the dimension that is either in a 3D date bucket or undated under "archived" |
| `TaskList.FiltersAgreeOnOpenTasks` | src/components/TaskList.tsx:24-60 | on a list with no completed task, both lists show the same tasks in the same order for every time filter |
| `AddTaskForm.IsWhitespace` | src/components/AddTaskForm.tsx:18 | the characters `trim()` strips include space, tab, line feed and carriage return, and no printable ASCII character is among them |
| `AddTaskForm.Trim` | src/components/AddTaskForm.tsx:18-19 | `trim()` returns a slice of the title with only whitespace around it; the slice neither starts nor ends with whitespace, and it is empty iff the title is all whitespace |
| `AddTaskForm.TrimIdempotent` | src/components/AddTaskForm.tsx:19 | trimming an already trimmed title changes nothing |
| `AddTaskForm.Form.constructor` | src/components/AddTaskForm.tsx:13-14 | the form starts closed with an empty title |
| `AddTaskForm.Form.ToggleOpen` | src/components/AddTaskForm.tsx:103 | the floating button flips `isOpen` and keeps the title |
| `AddTaskForm.Form.Close` | src/components/AddTaskForm.tsx:46 | the close button sets `isOpen` to false and does not clear the title |
| `AddTaskForm.Form.Edit` | src/components/AddTaskForm.tsx:58 | typing replaces the title and leaves `isOpen` alone |
| `AddTaskForm.Form.SubmitDisabled` | src/components/AddTaskForm.tsx:93 | the submit button is disabled exactly when the title is all whitespace |
| `AddTaskForm.Form.Submit` | src/components/AddTaskForm.tsx:16-23 | a blank title adds nothing and changes nothing; otherwise exactly one request is sent, carrying the trimmed title (non-empty, no outer whitespace) and the current dimension, and the form is cleared and closed |
| `DimensionSelector.GetIcon` | src/components/DimensionSelector.tsx:13-24 | `getIcon` draws an icon exactly for the catalogue's icon names and gives `null` for any other string |
| `DimensionSelector.GetIconInjective` | src/components/DimensionSelector.tsx:13-24 | two recognised names that draw the same icon are the same name |
| `DimensionSelector.ToggleIconName` | src/components/DimensionSelector.tsx:52 | the toggle button's icon name, with its `'zap'` fallback, is always one `getIcon` recognises |
| `DimensionSelector.ToggleIconIsActiveIcon` | src/components/DimensionSelector.tsx:52 | the toggle button shows the active dimension's catalogue icon, which is always a recognised one |
| `DimensionSelector.DescriptionPrefix` | src/components/DimensionSelector.tsx:80 | `split('.')[0]` is a prefix with no '.'; it is followed by a '.' in the description, or it is the whole description, and it is the whole description iff there is no '.' |
| `DimensionSelector.DescriptionPrefixOfSentence` | src/components/DimensionSelector.tsx:80 | a description `p + "." + q` with no '.' in `p` is shown as `p` |
| `DimensionSelector.Selector.constructor` | src/components/DimensionSelector.tsx:27 | the menu starts collapsed |
| `DimensionSelector.Selector.Toggle` | src/components/DimensionSelector.tsx:44 | the round button flips `isExpanded` |
| `DimensionSelector.Selector.ClickDimension` | src/components/DimensionSelector.tsx:29-34 | a change is forwarded iff the clicked dimension differs from the active one, and it carries the clicked dimension; the menu is collapsed afterwards either way |
| `TaskStore.IsRecurring` | src/pages/Index.tsx:159 | a task counts as recurring exactly when its `recurring` property is present and true |
| `TaskStore.NewTask` | src/pages/Index.tsx:109-116 | the new task carries the given id, title and dimension; it is open, not recurring, created now and due on the current day |
| `TaskStore.AddTask` | src/pages/Index.tsx:108-118 | one task is appended after the unchanged earlier tasks, with the given id, title and dimension, open, and due and created now |
| `TaskStore.AddTaskKeepsIdsUnique` | src/pages/Index.tsx:110 | appending a task with a fresh id keeps ids unique |
| `TaskStore.FlipCompleted` | src/pages/Index.tsx:130-138 | the callback changes nothing but `completed`, and changes the task exactly when its id matches |
| `TaskStore.ToggleCompleted` | src/pages/Index.tsx:129-140 | the list keeps its length and every task keeps its id in place, so unique ids stay unique |
| `TaskStore.ToggleCompletedChangesOnlyFlag` | src/pages/Index.tsx:128-141 | length and order are kept; only the `completed` flag of tasks with that id flips, and every other field and task is unchanged |
| `TaskStore.ToggleCompletedUnknownId` | src/pages/Index.tsx:129-140 | an id no task has leaves the list unchanged |
| `TaskStore.ToggleCompletedTwice` | src/pages/Index.tsx:128-141 | completing twice restores the list |
| `TaskStore.CounterBumps` | src/pages/Index.tsx:131-136 | the counter is bumped at most once per task, and at all exactly when some open task with that id is in the active dimension |
| `TaskStore.CounterBumpsAtMostOnce` | src/pages/Index.tsx:131-136 | with unique ids the counter is bumped at most once, and exactly when an open task with that id in the active dimension exists |
| `TaskStore.ToggleTwiceBumpsOnce` | src/pages/Index.tsx:131-136 | over two toggles each task of that id in the active dimension is counted exactly once, since un-completing never counts |
| `TaskStore.DeleteTask` | src/pages/Index.tsx:146 | every task with that id is gone, and every other task keeps its number of occurrences |
| `TaskStore.DeleteTaskRemovesId` | src/pages/Index.tsx:146 | deleting keeps the order of the rest and keeps exactly the tasks with another id |
| `TaskStore.DeleteTaskUnknownId` | src/pages/Index.tsx:146 | deleting an id no task has leaves the list unchanged |
| `TaskStore.FilterKeepsIdsUnique` | src/pages/Index.tsx:146 | deleting keeps ids unique |
| `TaskStore.FlipRecurring` | src/pages/Index.tsx:157-161 | the callback changes nothing but `recurring`; on the matching task it negates the flag (absent reads as false) and always leaves it present; other tasks are untouched |
| `TaskStore.ToggleRecurring` | src/pages/Index.tsx:156-162 | the list keeps its length and every task keeps its id in place, so unique ids stay unique |
| `TaskStore.ToggleRecurringChangesOnlyFlag` | src/pages/Index.tsx:156-162 | length and order are kept; only the recurring flag of tasks with that id flips, an absent flag counting as false, and nothing else changes |
| `TaskStore.ToggleRecurringUnknownId` | src/pages/Index.tsx:156-162 | an id no task has leaves the list unchanged |
| `TaskStore.ToggleRecurringTwice` | src/pages/Index.tsx:159 | toggling twice restores every task, except that an absent flag comes back as an explicit false; the list is restored exactly when the toggled tasks had the flag |
| `TaskStore.AchievementEffect` | src/pages/Index.tsx:166-171 | after the effect the counter is below 5, the modal is shown iff it was shown or the counter reached 5; a counter below 5 is untouched, and a counter at 5 or more is reset to 0 with the modal shown |
| `TaskStore.AfterCompletions` | src/pages/Index.tsx:166-171 | after n qualifying completions (n > 0, or starting below 5) the counter is below 5, and at most n achievements have fired |
| `TaskStore.CompletionsFireEveryFifth` | src/pages/Index.tsx:166-171 | n qualifying completions from a count c fire (c + n) / 5 achievements and leave (c + n) % 5: five from zero fire once and leave zero, and the sixth to ninth fire nothing |
| `IndexPage.ToastName` | src/pages/Index.tsx:101 | the "Dimension Changed" toast names the dimension by its catalogue name |
| `IndexPage.DemoTasks` | src/pages/Index.tsx:17-72 | six open tasks carrying the generated ids in order and created now; per dimension one task due now and not recurring, followed by one recurring task due a day later |
| `IndexPage.DemoTasksUniqueIds` | src/pages/Index.tsx:17-72 | the six demo tasks have unique ids when the generated ids are distinct |
| `IndexPage.DemoTodayView` | src/pages/Index.tsx:17-72 | rendered at any time on the day the tasks were built, each dimension's "today" view shows exactly its first demo task |
| `IndexPage.DemoTomorrowView` | src/pages/Index.tsx:17-72 | rendered at any time on the day the tasks were built, each dimension's "tomorrow" view shows exactly its second demo task |
| `IndexPage.DemoLaterViewsEmpty` | src/pages/Index.tsx:17-72 | rendered at any time on the day the tasks were built, no demo task is upcoming or archived |
| `IndexPage.Page.constructor` | src/pages/Index.tsx:75-81 | the page starts in cyber with "today", the given tasks, no modal, counter 0 and no transition |
| `IndexPage.Page.VisibleTasks` | src/pages/Index.tsx:204-211 | the list shown is the tasks visible for the active dimension and time filter |
| `IndexPage.Page.DimensionChange` | src/pages/Index.tsx:85-90 | requesting the active dimension changes nothing; another dimension becomes the pending target, replacing any earlier target, and the active dimension is unchanged |
| `IndexPage.Page.TransitionComplete` | src/pages/Index.tsx:93-105 | a pending target becomes active, the target and flag are cleared, and a toast is raised; with no target nothing changes |
| `IndexPage.Page.AddTask` | src/pages/Index.tsx:108-125 | the list becomes the old list plus one new task, a "task created" toast is raised, and nothing else changes |
| `IndexPage.Page.CompleteTask` | src/pages/Index.tsx:128-142 | the task's completion flips; the counter rises by one iff that task becomes completed in the active dimension; reaching 5 shows the modal and resets the counter to 0; un-completing never lowers it |
| `IndexPage.Page.DeleteTask` | src/pages/Index.tsx:145-153 | the tasks with that id are removed, and a "task deleted" toast is raised even when none matched |
| `IndexPage.Page.ToggleRecurring` | src/pages/Index.tsx:156-163 | only the list changes, by toggling the recurring flag of that id |
| `IndexPage.Page.SelectTimeFilter` | src/pages/Index.tsx:221 | the time filter is replaced and nothing else changes |
| `IndexPage.Page.CloseAchievement` | src/pages/Index.tsx:232 | closing the modal hides it and leaves the counter unchanged |

Every `IndexPage.Page` method also keeps `Valid()`. This invariant says ids are unique and the counter is
below 5. It also says a transition is in flight exactly when it has a target, and that target is never the
active dimension.

## Left out

- Rendering is not modelled. This covers the three.js/WebGL backgrounds, particle layouts, card tilt,
  the portal animation, the achievement modal's chrome and all class-name choices. None of it holds app logic.
- The card components (`Task3DCard`, `TaskCard`) are not modelled separately. Their buttons only forward
  a task id to the page's handlers, which are modelled.
- The time-filter menu (`TimelineSlider`) appears only as `Page.SelectTimeFilter`. It forwards a fixed
  filter id, and its own expanded state has no logic.
- Toasts are recorded as a log of `Notice`s with their title or dimension name. Display, duration and the
  exact description text are not modelled.
- The portal's 1500 ms timer is not modelled. Its expiry is an explicit `Page.TransitionComplete` call.
  Cancelling the timer on unmount, and restarting it when the page re-renders, are not modelled.
- React scheduling is not modelled. Each handler is one atomic step, followed by the achievement effect.
  The handlers close over a `tasks` snapshot, so two handlers in one tick would lose an update; the model
  does not capture that.
- `uuidv4()` and `new Date()` become parameters. The six demo tasks share one `now`, although the source
  reads the clock for each of them.
- Time zones, daylight saving and Invalid Dates are not modelled. A timestamp is an integer and a day is
  86,400,000 ms.
- The `Task` fields `priority`, `tags` and `description`, the `Achievement` interface and the optional
  particle settings of `DimensionInfo` are left out. No core code reads them.
- The form's calendar and bolt buttons have no handler, and `e.preventDefault()` is browser behaviour.
  Neither is modelled.
- DimensionSelector.DescriptionPrefix: the three catalogue descriptions are not evaluated one by one;
  comparing those long literal strings is beyond the prover's budget here. `DescriptionPrefixOfSentence`
  states the rule they follow.
