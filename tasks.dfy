/**
 * The task-list logic of `TaskApp` (app.js) as functions on the task array:
 * the display order of `renderTasks`, the priority cycle, find-and-update by id,
 * delete by id, add, and the statistics of the insights panel.
 */
module Tasks {
  import opened Wrappers
  import opened Seqs
  import opened Text

  /** One entry of `this.tasks`; `id` is the creation time in milliseconds. */
  datatype Task = Task(id: int, text: string, priority: string, completed: bool)

  /** The priority cycle of `togglePriority`, in order. */
  const Priorities: seq<string> := ["normal", "medium", "high"]

  // ---------------------------------------------------------------------------
  // Display order (renderTasks)
  // ---------------------------------------------------------------------------

  /** Sort weight: high=2, medium=1, anything else (normal or an unknown value) 0. */
  function Weight(priority: string): nat
  {
    if priority == "high" then 2 else if priority == "medium" then 1 else 0
  }

  /**
   * The weights follow the priority cycle: a known priority weighs its position
   * in normal, medium, high; an unknown value weighs 0, like normal.
   */
  lemma WeightFollowsCycle(priority: string)
    ensures priority in Priorities ==> Weight(priority) == IndexOf(Priorities, priority)
    ensures priority !in Priorities ==> Weight(priority) == 0
  {
  }

  /** The comparator handed to `sort` in `renderTasks`: negative when `a` is shown first. */
  function Compare(a: Task, b: Task): int
  {
    if a.completed != b.completed then (if a.completed then 1 else -1)
    else if Weight(a.priority) != Weight(b.priority) then Weight(b.priority) - Weight(a.priority)
    else b.id - a.id
  }

  /**
   * What the comparator decides: an open task goes above a completed one; with
   * equal completion the higher weight goes above; with equal weight too the
   * larger (newer) id goes above; it reports a tie only for equal completion,
   * weight and id.
   */
  lemma CompareRules(a: Task, b: Task)
    ensures a.completed != b.completed ==> (Compare(a, b) < 0 <==> !a.completed)
    ensures a.completed == b.completed && Weight(a.priority) != Weight(b.priority) ==>
              (Compare(a, b) < 0 <==> Weight(a.priority) > Weight(b.priority))
    ensures a.completed == b.completed && Weight(a.priority) == Weight(b.priority) ==>
              (Compare(a, b) < 0 <==> a.id > b.id)
    ensures Compare(a, b) == 0 <==>
              a.completed == b.completed && Weight(a.priority) == Weight(b.priority) && a.id == b.id
  {
  }

  /** `a` may be shown above `b`. */
  predicate ShownBefore(a: Task, b: Task)
  {
    Compare(a, b) <= 0
  }

  /** The comparator is antisymmetric and `ShownBefore` is transitive: a consistent ordering. */
  lemma ComparatorIsConsistent(a: Task, b: Task, c: Task)
    ensures Compare(a, b) == -Compare(b, a)
    ensures ShownBefore(a, b) || ShownBefore(b, a)
    ensures ShownBefore(a, b) && ShownBefore(b, c) ==> ShownBefore(a, c)
  {
  }

  ghost predicate SortedForDisplay(s: seq<Task>)
  {
    forall i, j :: 0 <= i < j < |s| ==> ShownBefore(s[i], s[j])
  }

  /** Places `x` in front of the first task it may be shown before. */
  function Insert(x: Task, s: seq<Task>): (r: seq<Task>)
    ensures |r| == |s| + 1
    ensures multiset(r) == multiset(s) + multiset{x}
  {
    if s == [] then [x]
    else if ShownBefore(x, s[0]) then [x] + s
    else
      assert s == [s[0]] + s[1..];
      [s[0]] + Insert(x, s[1..])
  }

  lemma {:induction false} InsertSorted(x: Task, s: seq<Task>)
    requires SortedForDisplay(s)
    ensures SortedForDisplay(Insert(x, s))
  {
    if s == [] {
    } else if ShownBefore(x, s[0]) {
      forall j | 0 <= j < |s|
        ensures ShownBefore(x, s[j])
      {
        ComparatorIsConsistent(x, s[0], s[j]);
      }
      var r := [x] + s;
      assert forall i :: 0 < i < |r| ==> r[i] == s[i - 1];
    } else {
      InsertSorted(x, s[1..]);
      var rest := Insert(x, s[1..]);
      ComparatorIsConsistent(s[0], x, x);
      forall j | 0 <= j < |rest|
        ensures ShownBefore(s[0], rest[j])
      {
        assert rest[j] in multiset(rest);
        if rest[j] != x {
          assert rest[j] in multiset(s[1..]);
          var k :| 0 <= k < |s[1..]| && s[1..][k] == rest[j];
          assert s[k + 1] == rest[j];
        }
      }
      var r := [s[0]] + rest;
      assert forall i :: 0 < i < |r| ==> r[i] == rest[i - 1];
    }
  }

  /**
   * `[...this.tasks].sort(comparator)`: the order the list is shown in.
   * It holds the same tasks as `tasks` and respects the comparator; the copy is
   * sorted, `tasks` is left as it was.
   */
  function DisplayOrder(tasks: seq<Task>): (r: seq<Task>)
    ensures |r| == |tasks|
    ensures multiset(r) == multiset(tasks)
    ensures SortedForDisplay(r)
  {
    if tasks == [] then []
    else
      var rest := DisplayOrder(tasks[1..]);
      InsertSorted(tasks[0], rest);
      assert tasks == [tasks[0]] + tasks[1..];
      Insert(tasks[0], rest)
  }

  /**
   * The display rules, for any two positions of the shown list: every incomplete
   * task is above every completed one; within one completion state a higher
   * weight is above a lower one; for equal weight a larger id (newer) is above.
   */
  lemma DisplayOrderRules(tasks: seq<Task>, i: int, j: int)
    requires 0 <= i < j < |tasks|
    ensures var r := DisplayOrder(tasks); !r[i].completed || r[j].completed
    ensures var r := DisplayOrder(tasks);
      r[i].completed == r[j].completed ==> Weight(r[i].priority) >= Weight(r[j].priority)
    ensures var r := DisplayOrder(tasks);
      r[i].completed == r[j].completed && Weight(r[i].priority) == Weight(r[j].priority) ==> r[i].id >= r[j].id
  {
    var r := DisplayOrder(tasks);
    assert ShownBefore(r[i], r[j]);
  }

  // ---------------------------------------------------------------------------
  // Priority cycle (togglePriority)
  // ---------------------------------------------------------------------------

  /**
   * `c[(c.indexOf(p) + 1) % 3]`: normal -> medium -> high -> normal; an unknown
   * value has index -1 and so becomes normal.
   */
  function NextPriority(p: string): (q: string)
    ensures q in Priorities
    ensures q != p
    ensures p !in Priorities ==> q == "normal"
  {
    Priorities[(IndexOf(Priorities, p) + 1) % 3]
  }

  /** Three steps of the cycle bring a known priority back. */
  lemma PriorityCycleRestores(p: string)
    requires p in Priorities
    ensures NextPriority(NextPriority(NextPriority(p))) == p
  {
    NextPriorityOfKnown();
  }

  /** The three steps of the cycle, one by one. */
  lemma NextPriorityOfKnown()
    ensures NextPriority("normal") == "medium"
    ensures NextPriority("medium") == "high"
    ensures NextPriority("high") == "normal"
  {
    assert Priorities[0] == "normal" && Priorities[1] == "medium" && Priorities[2] == "high";
    assert IndexOf(Priorities, "normal") == 0;
    assert IndexOf(Priorities, "medium") == 1;
    assert IndexOf(Priorities, "high") == 2;
  }

  // ---------------------------------------------------------------------------
  // Find, toggle and re-prioritise by id (toggleTask, togglePriority)
  // ---------------------------------------------------------------------------

  /** Position `i` holds the first task whose id is `id`. */
  predicate IsFirstWithId(tasks: seq<Task>, i: int, id: int)
  {
    0 <= i < |tasks| && tasks[i].id == id && forall k :: 0 <= k < i ==> tasks[k].id != id
  }

  /** Where `this.tasks.find(x => x.id === id)` finds its task, or `None`. */
  function FindById(tasks: seq<Task>, id: int): (r: Option<nat>)
    ensures r.None? <==> forall k :: 0 <= k < |tasks| ==> tasks[k].id != id
    ensures r.Some? ==> IsFirstWithId(tasks, r.value, id)
  {
    if tasks == [] then None
    else if tasks[0].id == id then Some(0)
    else
      match FindById(tasks[1..], id)
      case None => None
      case Some(k) => Some(k + 1)
  }

  /** `t.completed = !t.completed` */
  function Flipped(t: Task): Task
  {
    t.(completed := !t.completed)
  }

  /** `t.priority = c[(c.indexOf(t.priority) + 1) % 3]` */
  function Reprioritised(t: Task): Task
  {
    t.(priority := NextPriority(t.priority))
  }

  /**
   * Applies `f` to the first task with id `id` and to no other; a list without
   * that id is returned unchanged.
   */
  function UpdateFirst(tasks: seq<Task>, id: int, f: Task -> Task): (r: seq<Task>)
    ensures |r| == |tasks|
    ensures forall k :: 0 <= k < |tasks| ==>
              r[k] == if IsFirstWithId(tasks, k, id) then f(tasks[k]) else tasks[k]
    ensures (forall k :: 0 <= k < |tasks| ==> tasks[k].id != id) ==> r == tasks
  {
    if tasks == [] then []
    else if tasks[0].id == id then [f(tasks[0])] + tasks[1..]
    else
      var rest := UpdateFirst(tasks[1..], id, f);
      assert forall k :: 0 < k < |tasks| ==>
        (IsFirstWithId(tasks, k, id) <==> IsFirstWithId(tasks[1..], k - 1, id));
      [tasks[0]] + rest
  }

  /** `toggleTask(id)` on the array. */
  function ToggleFirst(tasks: seq<Task>, id: int): (r: seq<Task>)
    ensures |r| == |tasks|
    ensures forall k :: 0 <= k < |tasks| ==>
              r[k] == if IsFirstWithId(tasks, k, id) then tasks[k].(completed := !tasks[k].completed) else tasks[k]
  {
    UpdateFirst(tasks, id, Flipped)
  }

  /** `togglePriority(id)` on the array. */
  function CycleFirst(tasks: seq<Task>, id: int): (r: seq<Task>)
    ensures |r| == |tasks|
    ensures forall k :: 0 <= k < |tasks| ==>
              r[k] == if IsFirstWithId(tasks, k, id) then tasks[k].(priority := NextPriority(tasks[k].priority)) else tasks[k]
  {
    UpdateFirst(tasks, id, Reprioritised)
  }

  /** Two lists with the same ids position by position have the same first match. */
  lemma SameIdsSameFirst(a: seq<Task>, b: seq<Task>, id: int)
    requires |a| == |b|
    requires forall k :: 0 <= k < |a| ==> a[k].id == b[k].id
    ensures forall k :: IsFirstWithId(a, k, id) <==> IsFirstWithId(b, k, id)
  {
  }

  /** Toggling the same id twice gives the original list back. */
  lemma ToggleTwiceRestores(tasks: seq<Task>, id: int)
    ensures ToggleFirst(ToggleFirst(tasks, id), id) == tasks
  {
    var once := ToggleFirst(tasks, id);
    SameIdsSameFirst(tasks, once, id);
    var twice := ToggleFirst(once, id);
    assert forall k :: 0 <= k < |tasks| ==> twice[k] == tasks[k];
  }

  /** Cycling a task whose priority is known three times gives the original list back. */
  lemma CycleThriceRestores(tasks: seq<Task>, id: int)
    requires forall k :: IsFirstWithId(tasks, k, id) ==> tasks[k].priority in Priorities
    ensures CycleFirst(CycleFirst(CycleFirst(tasks, id), id), id) == tasks
  {
    var one := CycleFirst(tasks, id);
    SameIdsSameFirst(tasks, one, id);
    var two := CycleFirst(one, id);
    SameIdsSameFirst(tasks, two, id);
    var three := CycleFirst(two, id);
    forall k | 0 <= k < |tasks|
      ensures three[k] == tasks[k]
    {
      if IsFirstWithId(tasks, k, id) {
        PriorityCycleRestores(tasks[k].priority);
      }
    }
  }

  // ---------------------------------------------------------------------------
  // Delete and add (deleteTask, addTask)
  // ---------------------------------------------------------------------------

  /**
   * `this.tasks.filter(t => t.id !== id)`: no task with `id` is left, every
   * other task is kept as it was, as often as it was, in its original order.
   */
  function WithoutId(tasks: seq<Task>, id: int): (r: seq<Task>)
    ensures forall t :: t in r <==> t in tasks && t.id != id
    ensures forall t :: multiset(r)[t] == if t.id == id then 0 else multiset(tasks)[t]
    ensures IsSubsequence(r, tasks)
  {
    FilterKeepsOrder(tasks, (t: Task) => t.id != id);
    FilterCounts(tasks, (t: Task) => t.id != id);
    Filter(tasks, (t: Task) => t.id != id)
  }

  /**
   * `addTask` with the typed text `input` and the clock reading `now`: the trimmed
   * text, when not empty, becomes a new normal-priority open task at the front.
   */
  function WithAdded(tasks: seq<Task>, input: string, now: int): (r: seq<Task>)
    ensures |r| == if AllWhitespace(input) then |tasks| else |tasks| + 1
    ensures r[|r| - |tasks|..] == tasks
  {
    var text := Trim(input);
    if text == [] then tasks else [Task(now, text, "normal", false)] + tasks
  }

  /**
   * What an add does: blank input adds nothing; otherwise exactly one task,
   * at the front, holding the trimmed text, which is non-empty and has no
   * surrounding whitespace.
   */
  lemma AddedTaskShape(tasks: seq<Task>, input: string, now: int)
    ensures AllWhitespace(input) ==> WithAdded(tasks, input, now) == tasks
    ensures !AllWhitespace(input) ==>
      var r := WithAdded(tasks, input, now);
      && |r| == |tasks| + 1 && r[1..] == tasks
      && r[0].id == now && r[0].priority == "normal" && !r[0].completed
      && r[0].text == Trim(input) && r[0].text != []
      && !IsWhitespace(r[0].text[0]) && !IsWhitespace(r[0].text[|r[0].text| - 1])
  {
  }

  /** Deleting the task just added, under a fresh id, undoes the add. */
  lemma {:induction false} DeleteUndoesAdd(tasks: seq<Task>, input: string, now: int)
    requires forall k :: 0 <= k < |tasks| ==> tasks[k].id != now
    ensures WithoutId(WithAdded(tasks, input, now), now) == tasks
  {
    var keep := (t: Task) => t.id != now;
    FilterKeepsAll(tasks, keep);
  }

  // ---------------------------------------------------------------------------
  // Insights statistics (renderOverlays)
  // ---------------------------------------------------------------------------

  /** `this.tasks.filter(t => t.completed).length` */
  function CompletedCount(tasks: seq<Task>): (n: nat)
    ensures n <= |tasks|
    ensures n == 0 <==> forall k :: 0 <= k < |tasks| ==> !tasks[k].completed
    ensures n == |tasks| <==> forall k :: 0 <= k < |tasks| ==> tasks[k].completed
  {
    FilterFullIffAllKept(tasks, (t: Task) => t.completed);
    FilterEmptyIffNoneKept(tasks, (t: Task) => t.completed);
    |Filter(tasks, (t: Task) => t.completed)|
  }

  /** `this.tasks.filter(t => t.priority === 'high').length` */
  function HighPriorityCount(tasks: seq<Task>): (n: nat)
    ensures n <= |tasks|
    ensures n == 0 <==> forall k :: 0 <= k < |tasks| ==> tasks[k].priority != "high"
    ensures n == |tasks| <==> forall k :: 0 <= k < |tasks| ==> tasks[k].priority == "high"
  {
    FilterFullIffAllKept(tasks, (t: Task) => t.priority == "high");
    FilterEmptyIffNoneKept(tasks, (t: Task) => t.priority == "high");
    |Filter(tasks, (t: Task) => t.priority == "high")|
  }

  /** Every task is either completed or still open. */
  lemma CompletedAndOpenPartition(tasks: seq<Task>)
    ensures CompletedCount(tasks) + |Filter(tasks, (t: Task) => !t.completed)| == |tasks|
  {
    FilterComplement(tasks, (t: Task) => t.completed, (t: Task) => !t.completed);
  }

  /**
   * `total ? Math.round((done / total) * 100) : 0`, in integer arithmetic:
   * the percentage of completed tasks rounded half up, 0 for an empty list.
   */
  function CompletionRate(tasks: seq<Task>): (rate: nat)
    ensures rate <= 100
    ensures tasks == [] ==> rate == 0
    ensures tasks != [] ==>
      2 * |tasks| * rate <= 200 * CompletedCount(tasks) + |tasks| < 2 * |tasks| * (rate + 1)
  {
    var total, done := |tasks|, CompletedCount(tasks);
    if total == 0 then 0
    else
      assert done <= total;
      RoundedPercent(done, total)
  }

  /** `Math.round(done / total * 100)` for `0 <= done <= total`, `total > 0`. */
  function RoundedPercent(done: nat, total: nat): (p: nat)
    requires 0 < total && done <= total
    ensures p <= 100
    ensures 2 * total * p <= 200 * done + total < 2 * total * (p + 1)
  {
    var n, m := 200 * done + total, 2 * total;
    var p := n / m;
    DivisionBounds(n, m);
    assert n < m * 101;
    assert p <= 100 by {
      if p > 100 {
        MulMonotone(m, 101, p);
      }
    }
    p
  }

  lemma DivisionBounds(n: nat, m: nat)
    requires m > 0
    ensures m * (n / m) <= n < m * (n / m) + m
  {
  }

  /** No task done gives 0; all tasks done gives 100. */
  lemma CompletionRateExtremes(tasks: seq<Task>)
    ensures CompletedCount(tasks) == 0 ==> CompletionRate(tasks) == 0
    ensures tasks != [] && CompletedCount(tasks) == |tasks| ==> CompletionRate(tasks) == 100
  {
    if tasks != [] {
      RoundedPercentExtremes(CompletedCount(tasks), |tasks|);
    }
  }

  lemma RoundedPercentExtremes(done: nat, total: nat)
    requires 0 < total && done <= total
    ensures done == 0 ==> RoundedPercent(done, total) == 0
    ensures done == total ==> RoundedPercent(done, total) == 100
  {
    var p := RoundedPercent(done, total);
    if done == 0 && p > 0 {
      MulMonotone(2 * total, 1, p);
    }
    if done == total && p < 100 {
      MulMonotone(2 * total, p + 1, 100);
    }
  }

  lemma MulMonotone(a: nat, x: nat, y: nat)
    requires x <= y
    ensures a * x <= a * y
  {
  }
}
