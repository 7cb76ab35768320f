# Trek Task Manager — a Dafny model of its checklist logic

Trek Task Manager is a single-screen checklist for the people who prepare a guided trek.
It holds a list of preparation tasks. Each task belongs to a trek type (treks, expeditions,
climbs) and a team (ground operations, support, trip leader, head office). The screen shows
the tasks of the selected pair, grouped into numbered sections. Each task card shows its
deadline, counted back from the trek's start date, and whether it is overdue or urgent.
A user marks tasks done and fills in each task's input field.

This project models the non-presentational logic of that screen and proves its properties:

- `tasks.dfy` (module `Tasks`): the task and trek records and their enumerations.
- `app.dfy` (module `App`): the component state as a class `AppState`. It holds the selected
  trek type and team, the trek information (a constant: the program has no setter for it)
  and the task list. The class has the filter that feeds the list view. It also has the two
  updates, which rebuild the whole list with a `map` and replace the field.
- `tasklist.dfy` (module `TaskList`): the grouping loop as a method over a `map<int, Group>`,
  with the function it is proved against. Also the ascending order of section numbers, the
  stable sort of a section's tasks by task number, and the rendered view. The view is either
  the "no tasks" state or the list of sections.
- `taskcard.dfy` (module `TaskCard`): the deadline. It is computed on a copy of the start
  date, which a `Date` class moves back in place. Then the whole days left (ceiling
  division), the overdue and urgent flags, the card state precedence, the overdue warning,
  and the done toggle, which dispatches to the store.
- `seqs.dfy` (module `Seqs`): an order-preserving `Filter` and an element-wise `Map`, with
  the facts about them that the other modules use.

Time is modelled as integer milliseconds since the epoch, as `Date.getTime()` gives it, with
a fixed day length of 86 400 000 ms. "Now" is a parameter. The trek starts on 2025-06-15,
which is 1 749 945 600 000 ms.

Behaviour of the code that the model keeps:
- There is no operation that updates the trek information.
- A group's section name is the name of the first task met with that number, not an
  arbitrary one.
- Tasks within a section are non-decreasing by task number. Ties are possible, and they keep
  their input order because the sort is stable.
- A deadline passed by less than one day gives zero days left. Such a task is urgent, not
  overdue.
- The card state has four values: completed, overdue, urgent and default.

## Model

| member | source | states |
|---|---|---|
| App.FilteredTasks | src/App.tsx:791-793 | every task in the result has the selected trek type and team and comes from the input; every input task with both is in the result |
| App.FilteredKeepsOrderAndMatches | src/App.tsx:791-793 | the result keeps the input's relative order (it is a subsequence), each matching task appears as many times as in the input, a non-matching task not at all |
| App.FilteredIdempotent | src/App.tsx:791-793 | filtering an already filtered list with the same selection returns it unchanged |
| App.WithStatus | src/App.tsx:795-799 | the rebuilt list has the same length; every task whose id is the given id has the new status and differs from the old task in nothing else; every other task is unchanged |
| App.WithInput | src/App.tsx:801-805 | the rebuilt list has the same length; every task whose id is the given id has the given input value (the empty string included) and nothing else changed; every other task is unchanged |
| App.UnknownIdIsNoOp | src/App.tsx:795-805 | with an id that names no task, both updates return the list unchanged |
| App.WithStatusIdempotent | src/App.tsx:795-799 | setting the same status twice gives the same list as setting it once |
| App.StatusUpdateCommutesWithFilter | src/App.tsx:791-799 | the visible list after a status update is the visible list with that update applied: no task enters or leaves the selection |
| App.InputUpdateCommutesWithFilter | src/App.tsx:791-805 | the same for an input update |
| App.AppState.constructor | src/App.tsx:37-48 | the initial state selects treks and ground operations, holds the Hampta Pass trek starting 2025-06-15 and the seed tasks |
| App.AppState.Filtered | src/App.tsx:791-793 | the list handed to the task list holds exactly the tasks of the current selection, taken from the store's list in its order |
| App.AppState.SetSelectedTrekType | src/App.tsx:821-824 | the trek-type selector changes the selected trek type and nothing else |
| App.AppState.SetSelectedTeam | src/App.tsx:825-828 | the team selector changes the selected team and nothing else |
| App.AppState.UpdateTaskStatus | src/App.tsx:795-799 | the task list is replaced by the status-updated list; the number of tasks and their ids are kept; the selection is unchanged |
| App.AppState.UpdateTaskInput | src/App.tsx:801-805 | the task list is replaced by the input-updated list; the number of tasks and their ids are kept; the selection is unchanged |
| TaskList.GroupTasks | src/components/TaskList.tsx:13-23 | the loop builds the dictionary: its keys are the input's section numbers; each group holds its section's tasks in input order and the name of the section's first task |
| TaskList.GroupedKeys | src/components/TaskList.tsx:15-23 | the dictionary has a key for every section number of the input and no other |
| TaskList.GroupedTasks | src/components/TaskList.tsx:15-23 | every task lands in the group of its section number, and a group lists its tasks in input order |
| TaskList.GroupedNames | src/components/TaskList.tsx:16-21 | a group's name is that of the first task with its number; later tasks do not overwrite it |
| TaskList.SortedKeys | src/components/TaskList.tsx:26-29 | the section numbers come out strictly ascending, each key exactly once, and no other number |
| TaskList.SortByTaskNumber | src/components/TaskList.tsx:48 | the sorted copy is non-decreasing by task number and a permutation of the section's tasks |
| TaskList.SortIsStable | src/components/TaskList.tsx:48 | tasks with equal task numbers keep their relative order |
| TaskList.StableSortIsUnique | src/components/TaskList.tsx:48 | any sequence that is sorted by task number and keeps each number's tasks in input order equals the modelled sort, so the model gives the result of any stable sort |
| TaskList.Render | src/components/TaskList.tsx:31-37 | an empty task list gives the "no tasks" state; a non-empty one gives a list of sections |
| TaskList.RenderSectionOrder | src/components/TaskList.tsx:26-29 | the rendered sections are strictly ascending by number, and their numbers are exactly the input's section numbers |
| TaskList.RenderSectionContents | src/components/TaskList.tsx:41-48 | each section's heading is its first task's section name; its tasks are exactly the input tasks with that number, sorted by task number, ties in input order |
| TaskList.RenderPartition | src/components/TaskList.tsx:13-48 | the sections together hold exactly the input tasks, each as many times as in the input; nothing is dropped or duplicated |
| TaskCard.Date.Copy | src/components/TaskCard.tsx:16 | `new Date(d)` creates a date holding the same instant as `d` |
| TaskCard.Date.AddDays | src/components/TaskCard.tsx:18 | moving a date by a number of days changes its instant by that many days |
| TaskCard.Deadline | src/components/TaskCard.tsx:16-19 | there is a deadline exactly when the task has a day offset, and it lies that many whole days before the trek start |
| TaskCard.ComputeDeadline | src/components/TaskCard.tsx:16-19 | the card's deadline is a fresh date holding the deadline instant, or none without a day offset; the trek start date is left as it was |
| TaskCard.CeilDiv | src/components/TaskCard.tsx:22-24 | the result is the ceiling of the quotient: the least q with x <= q * d |
| TaskCard.CeilDivUnique | src/components/TaskCard.tsx:22-24 | only one integer meets the ceiling condition |
| TaskCard.DaysUntilDeadline | src/components/TaskCard.tsx:22-24 | without a deadline there are no days left; otherwise the days left are the deadline minus now in days, rounded up |
| TaskCard.PartialDaysRoundUp | src/components/TaskCard.tsx:22-24 | less than a day ahead counts as 1 day left; up to a day behind counts as 0 days left |
| TaskCard.DaysUntilDeadlineFromStart | src/components/TaskCard.tsx:16-24 | the days left until a task's deadline are the days left until the trek start, rounded up, minus the task's day offset |
| TaskCard.IsOverdue | src/components/TaskCard.tsx:26 | the overdue flag holds only for a task with a deadline at least one whole day behind (fewer than 0 days left), never for a completed task or one without a deadline |
| TaskCard.IsUrgent | src/components/TaskCard.tsx:27 | the urgent flag holds only for a task with 0 to 3 days left, never together with the overdue flag, never for a completed task or one without a deadline |
| TaskCard.FlagsFromInstants | src/components/TaskCard.tsx:22-27 | a task not completed is overdue exactly when a full day has passed since its deadline, and urgent exactly when now is within three days before the deadline and less than one day after it |
| TaskCard.FlagsExclusive | src/components/TaskCard.tsx:26-27 | overdue and urgent never hold together; a completed task, or one without a deadline, is neither |
| TaskCard.CardStateOf | src/components/TaskCard.tsx:115-123 | the card is completed exactly for a completed task; otherwise overdue for fewer than 0 days left, urgent for 0 to 3 days, default without a deadline or with more than 3 |
| TaskCard.OverdueBy | src/components/TaskCard.tsx:180-184 | the warning appears exactly for an overdue task and reports the absolute value of the days left, at least 1 |
| TaskCard.NextStatus | src/components/TaskCard.tsx:36-39 | the toggle turns a completed task into not started and any other status into completed |
| TaskCard.NextStatusTwice | src/components/TaskCard.tsx:36-39 | two toggles restore not started and completed; an in-progress task ends up not started |
| TaskCard.ToggleDone | src/components/TaskCard.tsx:36-39 | the done button updates the store with the toggled status of the card's task |
| TaskCard.HandleFileChange | src/components/TaskCard.tsx:41-47 | a picked file's name becomes the task's input value; with no file picked the store is unchanged |
| TaskCard.PermitTaskScenario | src/components/TaskCard.tsx:16-27 | the seed's permit task (4 days before 2025-06-15) is due 2025-06-11; on 2025-06-09 it has 2 days left and is urgent; on 2025-06-13 it is 2 days overdue, unless it is completed |

## Left out

- Rendering, styling and icons: the JSX markup, the Tailwind class strings and the lucide icons in every component. The card's colouring is modelled as the `CardState` value. The deadline label's colour (src/components/TaskCard.tsx:146-147) and its "Nd before" text are presentation only.
- The trek-type and team selector components (src/components/TeamSelector.tsx, src/components/TrekTypeSelector.tsx) only forward a value to the setters. The setters are modelled as `SetSelectedTrekType` and `SetSelectedTeam`.
- The trek information card (src/components/TrekInfoCard.tsx) only formats dates for display.
- JavaScript date semantics: time zones, daylight-saving changes and month rollover in `setDate`. Every day lasts exactly 86 400 000 ms here, so `setDate(getDate() - n)` becomes a subtraction of n days. The clock read `new Date()` becomes the `now` parameter. Floating-point division followed by `Math.ceil` becomes exact integer ceiling division.
- Numbers are integers: section numbers, task numbers and day offsets. Non-integer, NaN or infinite JavaScript numbers are not modelled. Neither is the string round trip of dictionary keys through `Object.keys` and `Number`, which is the identity on integers.
- The `.filter(sectionNum => groupedTasks[sectionNum] !== undefined)` step (src/components/TaskList.tsx:28) and the `if (!sectionData) return null` guard (src/components/TaskList.tsx:43) can never drop a section. The model leaves them out.
- The algorithm behind `Array.prototype.sort` is not modelled, only its result. That result is the same for every stable sort (`StableSortIsUnique`).
- The browser File API in `handleFileChange`: the picked file is reduced to its name, or none. The component-local `fileName` display state is not modelled.
- React's `useState` hooks and re-rendering. The state is one object whose fields the methods replace.
- The literal seed task list (src/App.tsx:48-788) is a constructor argument. Only the permit task "2" (src/App.tsx:93-106) appears, as a test vector.
- `Render` takes the already filtered list, as the component receives it.
- Task ids are not assumed to be unique. Both updates change every task carrying the given id.
