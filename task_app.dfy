/**
 * The `TaskApp` controller of app.js: the task array, the settings, the selected
 * page and the input bar, changed in place by the user's actions; and the touch
 * gesture on the bottom bar that `setupInteractions` wires up.
 */
module App {
  import opened Wrappers
  import opened Text
  import opened Tasks
  import opened Navigation
  import opened Settings

  /** Which overlay page carries the `active` class, i.e. is shown over the list. */
  datatype Overlay = NoOverlay | InsightsOverlay | SettingsOverlay

  /** The figures written into the insights panel: rate, finished tasks, high-priority tasks. */
  datatype Insights = Insights(rate: nat, done: nat, high: nat)

  class TaskApp {
    var tasks: seq<Task>
    var settings: Settings
    var mode: Mode
    var inputActive: bool
    var overlay: Overlay
    /**
     * What the insights panel shows. `renderOverlays` writes it from the tasks
     * of that moment; only start-up and `cycleTheme` call it, so the panel keeps
     * its figures while tasks are added, toggled or deleted.
     */
    var shownInsights: Insights

    /**
     * Starts from what storage held (`JSON.parse(...) || default`): the stored
     * tasks or an empty list, the stored settings or the defaults, on the tasks
     * page with the input bar closed.
     */
    constructor(storedTasks: Option<seq<Task>>, storedSettings: Option<Settings>)
      ensures tasks == if storedTasks.Some? then storedTasks.value else []
      ensures settings == if storedSettings.Some? then storedSettings.value else Defaults
      ensures mode == 0 && !inputActive && overlay == NoOverlay
      ensures shownInsights == Insights(CompletionRate(tasks), CompletedCount(tasks), HighPriorityCount(tasks))
    {
      tasks := if storedTasks.Some? then storedTasks.value else [];
      settings := if storedSettings.Some? then storedSettings.value else Defaults;
      mode := 0;
      inputActive := false;
      overlay := NoOverlay;
      shownInsights := Insights(0, 0, 0);
      new;
      RenderOverlays();
    }

    /**
     * The list `renderTasks` shows: a sorted copy holding exactly the tasks of
     * `tasks`. The method changes nothing, so `tasks` keeps its own order.
     */
    method ShownOrder() returns (sorted: seq<Task>)
      ensures sorted == DisplayOrder(tasks)
      ensures multiset(sorted) == multiset(tasks) && SortedForDisplay(sorted)
    {
      sorted := DisplayOrder(tasks);
    }

    /** The figures of the insights panel: completion rate, finished tasks, high-priority tasks. */
    method Stats() returns (rate: nat, done: nat, high: nat)
      ensures rate == CompletionRate(tasks) && rate <= 100
      ensures done == CompletedCount(tasks) && done <= |tasks|
      ensures high == HighPriorityCount(tasks) && high <= |tasks|
    {
      var total := |tasks|;
      done := CompletedCount(tasks);
      rate := if total > 0 then RoundedPercent(done, total) else 0;
      high := HighPriorityCount(tasks);
    }

    /** `renderOverlays`: writes the current figures into the insights panel. */
    method RenderOverlays()
      modifies this`shownInsights
      ensures shownInsights == Insights(CompletionRate(tasks), CompletedCount(tasks), HighPriorityCount(tasks))
      ensures shownInsights.rate <= 100 && shownInsights.done <= |tasks| && shownInsights.high <= |tasks|
    {
      var rate, done, high := Stats();
      shownInsights := Insights(rate, done, high);
    }

    /**
     * `addTask` with the text of the input field and the clock reading `now`:
     * blank text is ignored, otherwise a new task with the trimmed text is
     * put at the front.
     */
    method AddTask(input: string, now: int)
      modifies this`tasks
      ensures tasks == WithAdded(old(tasks), input, now)
    {
      var text := Trim(input);
      if text == [] {
        return;
      }
      tasks := [Task(now, text, "normal", false)] + tasks;
    }

    /** `toggleTask`: flips `completed` on the first task with `id`, if there is one. */
    method ToggleTask(id: int)
      modifies this`tasks
      ensures tasks == ToggleFirst(old(tasks), id)
    {
      var found := FindById(tasks, id);
      if found.Some? {
        var i := found.value;
        tasks := tasks[i := tasks[i].(completed := !tasks[i].completed)];
      }
      assert forall k :: 0 <= k < |tasks| ==> tasks[k] == ToggleFirst(old(tasks), id)[k];
    }

    /** `togglePriority`: moves the first task with `id` one step along the priority cycle. */
    method TogglePriority(id: int)
      modifies this`tasks
      ensures tasks == CycleFirst(old(tasks), id)
    {
      var found := FindById(tasks, id);
      if found.Some? {
        var i := found.value;
        tasks := tasks[i := tasks[i].(priority := NextPriority(tasks[i].priority))];
      }
      assert forall k :: 0 <= k < |tasks| ==> tasks[k] == CycleFirst(old(tasks), id)[k];
    }

    /** `deleteTask`: replaces the list by the tasks whose id is not `id`. */
    method DeleteTask(id: int)
      modifies this`tasks
      ensures tasks == WithoutId(old(tasks), id)
      ensures forall t :: t in tasks ==> t.id != id
    {
      tasks := WithoutId(tasks, id);
    }

    /** `selectMode`: selecting the page already selected changes nothing. */
    method SelectMode(m: Mode)
      modifies this`mode
      ensures mode == m
      ensures old(mode) == m ==> unchanged(this)
    {
      if mode == m {
        return;
      }
      mode := m;
    }

    /** `toggleInput`: opens or closes the input bar; opening it hides every overlay. */
    method ToggleInput()
      modifies this`inputActive, this`overlay
      ensures inputActive == !old(inputActive)
      ensures overlay == if inputActive then NoOverlay else old(overlay)
    {
      if inputActive {
        inputActive := false;
      } else {
        overlay := NoOverlay;
        inputActive := true;
      }
    }

    /** `closeOverlays`: hides every overlay and goes back to the tasks page. */
    method CloseOverlays()
      modifies this`overlay, this`mode
      ensures overlay == NoOverlay && mode == 0
    {
      overlay := NoOverlay;
      mode := 0;
    }

    /**
     * `activatePage`, a tap on the bar: on the tasks page it toggles the input
     * bar, on another page it shows that page's overlay.
     */
    method ActivatePage()
      modifies this`inputActive, this`overlay
      ensures mode == 0 ==> inputActive == !old(inputActive)
      ensures mode == 0 ==> overlay == if inputActive then NoOverlay else old(overlay)
      ensures mode != 0 ==> inputActive == old(inputActive)
      ensures mode != 0 ==> overlay == if mode == 1 then InsightsOverlay else SettingsOverlay
    {
      if mode == 0 {
        ToggleInput();
        return;
      }
      overlay := if mode == 1 then InsightsOverlay else SettingsOverlay;
    }

    /**
     * The document click listener: while the input bar is open, a click outside
     * the bar and the navigation closes it.
     */
    method DocumentClick(insideInputOrNav: bool)
      modifies this`inputActive, this`overlay
      ensures inputActive == (old(inputActive) && insideInputOrNav)
      ensures overlay == old(overlay)
    {
      if !inputActive {
        return;
      }
      if !insideInputOrNav {
        ToggleInput();
      }
    }

    /** `cycleTheme`: switches between the dark and the light theme. */
    method CycleTheme()
      modifies this`settings, this`shownInsights
      ensures settings == ThemeCycled(old(settings))
      ensures shownInsights == Insights(CompletionRate(tasks), CompletedCount(tasks), HighPriorityCount(tasks))
    {
      settings := ThemeCycled(settings);
      RenderOverlays();
    }

    /** `toggleSetting(k)`: negates one setting. */
    method ToggleSetting(k: string)
      modifies this`settings
      ensures settings == Toggled(old(settings), k)
    {
      settings := Toggled(settings, k);
    }
  }

  /**
   * The touch state kept by the listeners on the bottom bar: where the touch
   * began, whether it has become a drag, and the track offset it started from.
   */
  class NavGesture {
    var startX: real
    var isDragging: bool
    var lastShift: real

    constructor()
      ensures startX == 0.0 && !isDragging && lastShift == 0.0
    {
      startX, isDragging, lastShift := 0.0, false, 0.0;
    }

    /** `touchstart`: remembers the start and the resting offset of the current page. */
    method TouchStart(x: real, app: TaskApp)
      modifies this
      ensures startX == x && !isDragging && lastShift == RestingShift(app.mode)
    {
      startX := x;
      isDragging := false;
      lastShift := RestingShift(app.mode);
    }

    /**
     * `touchmove`: a move past the small threshold makes the touch a drag; the
     * track follows the finger, clamped to the ends of the bar.
     */
    method TouchMove(x: real) returns (shown: real)
      modifies this`isDragging
      ensures isDragging == (old(isDragging) || Abs(x - startX) > DragStart)
      ensures shown == ClampShift(lastShift + (x - startX))
      ensures -2.0 * ItemWidth <= shown <= 0.0
    {
      var moveX := x - startX;
      if Abs(moveX) > DragStart {
        isDragging := true;
      }
      shown := ClampShift(lastShift + moveX);
    }

    /** `touchend`: a drag past the swipe threshold selects the neighbouring page. */
    method TouchEnd(x: real, app: TaskApp)
      modifies app`mode
      ensures app.mode == SwipeTarget(old(app.mode), x - startX, isDragging)
    {
      var diff := x - startX;
      var index := Position(app.mode);
      if isDragging && Abs(diff) > SwipeThreshold {
        if diff > 0.0 && index > 0 {
          app.SelectMode(Order[index - 1]);
        } else if diff < 0.0 && index < 2 {
          app.SelectMode(Order[index + 1]);
        }
      }
    }

    /** The timer `touchend` starts after a drag: the touch stops counting as a drag. */
    method DragSettled()
      modifies this`isDragging
      ensures !isDragging
    {
      isDragging := false;
    }

    /** The click listener on the bar: ignored right after a drag, otherwise `activatePage`. */
    method Click(app: TaskApp)
      modifies app`inputActive, app`overlay
      ensures isDragging ==> app.inputActive == old(app.inputActive) && app.overlay == old(app.overlay)
      ensures !isDragging && app.mode == 0 ==> app.inputActive == !old(app.inputActive)
      ensures !isDragging && app.mode == 0 ==>
        app.overlay == if app.inputActive then NoOverlay else old(app.overlay)
      ensures !isDragging && app.mode != 0 ==> app.inputActive == old(app.inputActive)
      ensures !isDragging && app.mode != 0 ==>
        app.overlay == if app.mode == 1 then InsightsOverlay else SettingsOverlay
    {
      if isDragging {
        return;
      }
      app.ActivatePage();
    }
  }
}
