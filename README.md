# Do-Done to-do app: a verified model of its list and navigation logic

This project models the core of the "Done" to-do app in two of its variants.

- **app.js** (`TaskApp`) keeps an in-memory array of tasks. Each task has an `id` (its creation time), a `text`, a `priority` (`normal`, `medium` or `high`) and a `completed` flag. The class shows the tasks in a fixed display order. It toggles completion, cycles priority, deletes and adds tasks by id, and computes the figures of the insights panel. It also keeps a three-page navigation state: `mode` 0 is tasks, 1 is insights and 2 is settings. The pages sit on a swipeable bar in the order insights, tasks, settings. The class also tracks an input bar that opens and closes, and a small settings record.
- **src/App.js** (`MinimalistTodo`) is a React component over a list of todos. Its handlers build a new list from the old one: add, toggle, delete and cancel. It also counts the open todos for its header line.

The modules are:

- `Tasks`: the pure list logic of app.js as functions on `seq<Task>`. This covers the comparator and the sorted copy that `renderTasks` shows, the priority cycle, find/update of the first task with an id, delete, add, and the statistics.
- `Navigation`: the swipe order `[1, 0, 2]`, the decision `touchend` makes, and the clamp of the track offset.
- `Settings`: the settings record as a map from names to values, with `toggleSetting` and `cycleTheme`.
- `App`: the class `TaskApp`. Its fields `tasks`, `settings`, `mode`, `inputActive`, `overlay` and `shownInsights` are changed in place by its methods. `shownInsights` holds the figures last written into the insights panel. Each method is proved against the functions above. The module also has the class `NavGesture`, which holds the closure state of the bottom-bar touch listeners.
- `Minimalist`: the handlers of src/App.js, as functions from the old screen state to the new one.
- `Variants`: app.js and src/App.js side by side. Both accept the same add input. Their toggles agree when ids are unique and differ when an id repeats. Their deletes agree.
- `Text` (`String.prototype.trim`), `Seqs` (`filter`, `indexOf`, order-preserving subsequences) and `Wrappers` (`Option`): shared helpers.

Boundaries of the model:

- The clock (`Date.now()`) becomes a parameter `now`.
- The text of the DOM input field becomes a parameter `input`.
- Touch coordinates become `real` parameters.
- What local storage held at start-up becomes an `Option` argument of the constructor.
- Whether a click landed inside the input bar or the navigation becomes a boolean parameter.

Behaviour worth knowing, as the code has it:

- Stored settings replace the defaults wholesale (app.js:6-10). They are not merged key by key.
- The swipe threshold is 25 px (app.js:154), after a 5 px drag start (app.js:144).
- app.js toggles and re-prioritises only the first task with a given id (`find`), but deletes every task with that id (`filter`).
- src/App.js toggles every todo with the id (`map`).
- app.js adds the trimmed text at the front. src/App.js appends the untrimmed text at the end. Both reject text that is blank after trimming.
- The insights panel of app.js is filled only at start-up and when the theme is cycled (app.js:21, 277). After a task is added, toggled, re-prioritised or deleted, it keeps its earlier figures.

## Model

| member | source | states |
|---|---|---|
| `Tasks.WeightFollowsCycle` | app.js:45-47 | The sort weight of a known priority is its position in the cycle: normal 0, medium 1, high 2. Any other value weighs 0 (`weight[p] \|\| 0`). |
| `Tasks.CompareRules` | app.js:43-50 | The comparator puts an open task above a completed one. With equal completion, it puts the higher weight above. With equal weight too, it puts the larger (newer) id above. It reports a tie only for equal completion, weight and id. |
| `Tasks.ComparatorIsConsistent` | app.js:43-50 | The comparator is antisymmetric and total. "May be shown before" is transitive, so it is a consistent ordering to sort by. |
| `Tasks.InsertSorted` | app.js:43-50 | Inserting a task into a list already in display order keeps the list in display order. |
| `Tasks.DisplayOrder` | app.js:43-50 | The sorted copy has the same length and exactly the same tasks as `tasks` (a permutation). Every pair of positions in it respects the comparator. |
| `Tasks.DisplayOrderRules` | app.js:44-49 | In the shown list, every incomplete task is above every completed one, whatever the priorities. Within one completion state, a higher weight (high 2, medium 1, normal or unknown 0) is above a lower one. For equal weight, the larger id is above. |
| `Tasks.NextPriority` | app.js:264-265 | The next priority is always one of normal/medium/high and always differs from the current one. An unrecognised value becomes `normal`. |
| `Tasks.NextPriorityOfKnown` | app.js:264-265 | The cycle is normal to medium, medium to high, and high to normal. |
| `Tasks.PriorityCycleRestores` | app.js:261-267 | Three steps bring a known priority back to itself. |
| `Tasks.FindById` | app.js:257 | `find` yields nothing exactly when no task has the id. Otherwise it yields the position of the first task with that id. |
| `Tasks.UpdateFirst` | app.js:256-266 | Find-then-update changes only the first task with the id. Every other position is unchanged. An absent id leaves the list unchanged. |
| `Tasks.ToggleFirst` | app.js:256-258 | `toggleTask` on the array keeps its length. It flips `completed` on the first task with the id, leaving its other fields as they were. Every other task is identical. |
| `Tasks.CycleFirst` | app.js:261-265 | `togglePriority` on the array keeps its length. It moves the first task with the id one step along the priority cycle, leaving its other fields as they were. Every other task is identical. |
| `Tasks.ToggleTwiceRestores` | app.js:256-259 | Toggling the same id twice restores the list. |
| `Tasks.CycleThriceRestores` | app.js:261-268 | Re-prioritising the same id three times restores the list when that task's priority is known. |
| `Tasks.WithoutId` | app.js:270-271 | After a delete, no task has the id. Every other task remains with its fields unchanged, as often as before, in its original relative order. |
| `Tasks.WithAdded` | app.js:231-237 | `addTask` on the array leaves its length unchanged for blank input and adds one otherwise. The old list survives unchanged as the tail. |
| `Tasks.AddedTaskShape` | app.js:229-241 | Blank input adds nothing. Otherwise the list grows by one. The head is `{id: now, text: trimmed, priority: normal, completed: false}` with a non-empty text free of surrounding whitespace, and the tail is the old list. |
| `Tasks.DeleteUndoesAdd` | app.js:229-273 | Deleting a just-added task whose id is fresh gives back the list before the add. |
| `Tasks.CompletedCount` | app.js:78 | The "Finished" count is at most the number of tasks. It is 0 exactly when no task is completed and the full length exactly when every task is. |
| `Tasks.HighPriorityCount` | app.js:89 | The "Priority Hits" count is at most the number of tasks. It is 0 exactly when no task has priority high and the full length exactly when every task does. |
| `Tasks.CompletedAndOpenPartition` | app.js:77-78 | The completed count plus the open count is the number of tasks. |
| `Tasks.RoundedPercent` | app.js:79 | Models `Math.round(done / total * 100)` as the integer nearest to the exact ratio 100*done/total, with halves rounded up. The result lies in 0..100. |
| `Tasks.CompletionRate` | app.js:77-79 | The completion rate is 0 for an empty list. Otherwise it is the rounded percentage of completed tasks, in 0..100. |
| `Tasks.CompletionRateExtremes` | app.js:77-79 | No completed task gives rate 0. All tasks completed, in a non-empty list, gives rate 100. |
| `Navigation.Position` | app.js:153 | Every mode has its place in the bar order `[1, 0, 2]`. |
| `Navigation.SwipeTarget` | app.js:150-160 | The page changes exactly when the touch was a drag, the finger ended more than 25 px away, and the bar has a neighbour on that side. A drag right selects the left neighbour and a drag left the right one. The mode stays in {0,1,2} and moves at most one place. |
| `Navigation.SwipeBackRestores` | app.js:154-157 | A swipe that changed the page is undone by the same swipe in the other direction. |
| `Navigation.ClampShift` | app.js:146 | The track offset shown while dragging is clamped to [-172, 0]. Inside that range it follows the finger exactly. |
| `Navigation.RestingShift` | app.js:138-139 | The resting offset of every page, `index * -86`, already lies inside the clamp. |
| `Settings.Toggled` | app.js:284 | `toggleSetting(k)` sets `k` to the negation of its truthiness. A missing key becomes true. No other key changes. |
| `Settings.ToggleTwiceRestores` | app.js:284 | Toggling a boolean setting twice restores the settings. |
| `Settings.ThemeCycled` | app.js:276 | The theme becomes light exactly when it was dark. Otherwise it becomes dark, also when it was missing or another word. No other key changes. |
| `Settings.ThemeCycleTwiceRestores` | app.js:275-278 | With a dark or light theme, cycling twice restores the settings. |
| `App.TaskApp.constructor` | app.js:4-22 | Start-up takes the stored tasks or an empty list, and the stored settings or the defaults (haptics on, dark theme, auto-sort on). It starts on the tasks page with the input bar closed and no overlay. `init` fills the insights panel with the figures of the starting tasks. |
| `App.TaskApp.ShownOrder` | app.js:43-50 | `renderTasks` shows a permutation of `tasks` in display order. The method changes no state, so `tasks` itself is not reordered. |
| `App.TaskApp.Stats` | app.js:77-89 | The insights figures of the current tasks are the completion rate (0..100), the completed count and the high-priority count. The method changes nothing. |
| `App.TaskApp.RenderOverlays` | app.js:75-89 | `renderOverlays` writes the figures of the current tasks into the panel and changes nothing else. The rate is within 0..100 and both counts are within the number of tasks. |
| `App.TaskApp.AddTask` | app.js:229-241 | The new task list is the old one with the trimmed input added at the front, or unchanged for blank input. No other field changes. |
| `App.TaskApp.ToggleTask` | app.js:256-259 | The new task list is the old one with `completed` flipped on the first task with the id. No other field changes. |
| `App.TaskApp.TogglePriority` | app.js:261-268 | The new task list is the old one with the first task with the id one step further along the priority cycle. No other field changes. |
| `App.TaskApp.DeleteTask` | app.js:270-273 | The new task list is the old one without the id. No task with the id is left. |
| `App.TaskApp.SelectMode` | app.js:183-188 | The selected mode becomes `m`. Selecting the current mode changes nothing. |
| `App.TaskApp.ToggleInput` | app.js:207-219 | The input bar flips between open and closed. Opening it hides every overlay. Closing it leaves the overlays as they were. |
| `App.TaskApp.CloseOverlays` | app.js:222-226 | Every overlay is hidden and the mode returns to 0. |
| `App.TaskApp.ActivatePage` | app.js:190-196 | A tap on the tasks page toggles the input bar. On the insights or settings page, it shows that page's overlay. |
| `App.TaskApp.DocumentClick` | app.js:176-180 | While the input bar is open, a click outside it and outside the navigation closes it. Overlays are untouched. |
| `App.TaskApp.CycleTheme` | app.js:275-278 | The settings become the theme-cycled settings. The insights panel is refreshed with the figures of the current tasks. |
| `App.TaskApp.ToggleSetting` | app.js:284 | The settings become the settings with `k` toggled. |
| `App.NavGesture.constructor` | app.js:128-130 | The touch state starts at position 0, not dragging, with offset 0. |
| `App.NavGesture.TouchStart` | app.js:134-140 | A touch records its start, is not yet a drag, and starts from the resting offset of the current page. |
| `App.NavGesture.TouchMove` | app.js:142-148 | A move more than 5 px from the start makes the touch a drag, and it stays one. The shown offset is the clamped offset, within [-172, 0]. |
| `App.NavGesture.TouchEnd` | app.js:150-162 | The mode after the touch ends is the swipe target for this drag distance. |
| `App.NavGesture.DragSettled` | app.js:161 | When the timer started after a drag fires, the touch no longer counts as a drag. |
| `App.NavGesture.Click` | app.js:164-168 | A click right after a drag is ignored. Otherwise it acts as `activatePage`. On the tasks page it flips the input bar, and opening the bar hides every overlay. On another page it shows that page's overlay and leaves the input bar as it was. |
| `Minimalist.AddTodo` | src/App.js:20-26 | Text that is all whitespace changes nothing. Otherwise `{id: now, text: as typed (untrimmed), completed: false}` is appended at the end, the field is cleared and the input closes. |
| `Minimalist.ToggleTodo` | src/App.js:28-32 | Every todo with the id has `completed` flipped. Every other todo is identical. The typed text and the input flag are untouched. |
| `Minimalist.DeleteTodo` | src/App.js:34-36 | Exactly the todos whose id differs remain, as often as before and in their original order. The rest of the state is untouched. |
| `Minimalist.Cancel` | src/App.js:123-126 | Cancel closes the input and clears the field without touching the todos. |
| `Minimalist.OpenInput` | src/App.js:135 | The plus button opens the input without touching the todos or the typed text. |
| `Minimalist.Edit` | src/App.js:110 | Typing replaces the field's text and nothing else. |
| `Minimalist.ActiveTodos` | src/App.js:38 | The open todos are exactly the todos with `completed == false`, each as often as in the list. |
| `Minimalist.InitialScreen` | src/App.js:5-7 | A fresh component has no todos, so its header reads "all done". An add from the empty field changes nothing. |
| `Minimalist.HeaderFor` | src/App.js:46-50 | The header says "all done" exactly when no todo is open. Otherwise it shows the number of open todos, with the singular "priority" exactly when that number is 1 and "priorities" otherwise. |
| `Minimalist.ToggleTwiceRestores` | src/App.js:28-32 | Toggling the same id twice restores the state. |
| `Minimalist.AddOpensOneMore` | src/App.js:20-38 | A successful add raises the count of open todos by exactly one. |
| `Minimalist.OpenAndCompletedPartition` | src/App.js:38 | The open count plus the completed count is the number of todos. |
| `Minimalist.DeleteUndoesAdd` | src/App.js:20-36 | Deleting a just-added todo whose id is fresh gives back the old list. |
| `Variants.AddAcceptsSameInput` | src/App.js:20-22 | app.js (app.js:231-232) and src/App.js add on exactly the same input: text that is not all whitespace. |
| `Variants.AddPlacesDiffer` | src/App.js:20-24 | On a successful add, app.js puts the trimmed text first and src/App.js the typed text last. The two stored texts agree exactly when the input neither starts nor ends with whitespace. |
| `Variants.ToggleAgreesOnUniqueIds` | src/App.js:28-32 | With unique ids, the toggle of app.js (app.js:256-258) and that of src/App.js change the list the same way. |
| `Variants.ToggleDiffersOnRepeatedIds` | src/App.js:28-32 | When an id repeats, a later task with it is left alone by app.js but flipped by src/App.js. |
| `Variants.DeleteAgrees` | src/App.js:34-36 | The delete of app.js (app.js:271) and that of src/App.js remove the same entries. |
| `Seqs.Filter` | app.js:271 | `filter` keeps exactly the accepted elements and never lengthens the list. |
| `Seqs.FilterCounts` | src/App.js:35 | `filter` keeps each accepted element as often as it occurs and drops every rejected one. |
| `Seqs.FilterFullIffAllKept` | app.js:78 | `filter` returns as many elements as it was given exactly when it accepts every one. |
| `Seqs.FilterEmptyIffNoneKept` | src/App.js:38 | `filter` returns nothing exactly when it accepts no element. |
| `Seqs.FilterKeepsOrder` | src/App.js:35 | What `filter` keeps stays in its original relative order. |
| `Seqs.IndexOf` | app.js:265 | `indexOf` is -1 exactly when the value is absent. Otherwise it is the first position holding the value. |
| `Text.Trim` | app.js:231 | `trim()` is empty exactly when the text is all ECMAScript whitespace. Otherwise it starts and ends with a non-whitespace character. It is the slice between a whitespace-only prefix and a whitespace-only suffix. |
| `Text.TrimIdempotent` | app.js:231 | Trimming trimmed text changes nothing. |
| `Text.TrimUnchanged` | src/App.js:22 | Text is its own trim exactly when it neither starts nor ends with whitespace. |

## Left out

- Rendering is left out: the DOM, `innerHTML` templates, `escape`, `updateNavUI`, `applyTheme`, the React/JSX tree and the icons. The task list is re-rendered after every change to `tasks`, so what it shows is `DisplayOrder(tasks)`. The insights panel is the exception. Its figures are modelled as the field `shownInsights`, which only start-up and `cycleTheme` refresh (app.js:21, 277). `addTask`, `toggleTask`, `togglePriority` and `deleteTask` leave it stale, as in the app.
- Persistence is left out: `localStorage` and `JSON.parse`/`JSON.stringify` (app.js:5-6, 26-27; src/App.js:9-18). The constructor takes what storage held as an `Option`. The save after each action is not modelled.
- Timing and effects are left out: `showSplash`, the focus/blur calls and `haptic()`/`navigator.vibrate` (a device effect).
- App.TaskApp.AddTask: the 300 ms `setTimeout` before the task is inserted (app.js:236) is modelled as immediate.
- App.TaskApp.AddTask: clearing the input field is DOM state and is not modelled.
- `Date.now()` and `toLocaleDateString` are platform sources. The id is a parameter and the date label is not modelled.
- The streak (app.js:80) is a hard-coded placeholder, and the weekly chart (app.js:91) is a "coming soon" text. There is nothing to model.
- `clearData` is called by the settings overlay (app.js:114) but is not defined in app.js. It is not modelled.
- `openOverlay` (app.js:221) is never called. The `autoSort` setting is stored but never read.
- Tasks.RoundedPercent: the percentage uses exact integer arithmetic, `(200*done + total) / (2*total)`. JavaScript computes `done / total * 100` in doubles first, so `Math.round` can land one lower where the exact value is a half. For 57 done of 200, the double product is 28.499999999999996 and JavaScript shows 28, where the model gives 29. The same happens for 23 of 40 (57 against 58).
- Tasks.CompletionRate: inherits the `Tasks.RoundedPercent` difference at those inputs.
- Tasks.DisplayOrder: the contract does not state the relative order of tasks the comparator ties (same completion, weight and id). The model's insertion sort keeps them in list order, as the engine's stable sort does.
- Tasks.Weight maps every unrecognised priority to 0. A stored priority that names an `Object.prototype` member, such as `constructor` or `toString`, would make the JavaScript weight lookup return a function and the comparator return NaN. That case is not modelled.
- Stored data of other types is not modelled: a non-boolean `completed`, a non-numeric `id`, or a stored value that is not an array or record.
- Task objects are modelled as values. In JavaScript, `renderTasks` sorts a copy that shares the task objects with `this.tasks`. The copy is not kept, so the sharing has no observable effect.
- Setting values are modelled as booleans or strings only.
