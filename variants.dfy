/**
 * app.js and src/App.js side by side. Both offer add, toggle and delete, but
 * they differ: app.js trims the text and puts the new task first, src/App.js
 * keeps the text as typed and puts it last; app.js toggles only the first task
 * with an id, src/App.js every todo with it.
 */
module Variants {
  import opened Seqs
  import opened Text
  import opened Tasks
  import opened Minimalist

  /** A task of app.js seen as a todo of src/App.js (which has no priority). */
  function AsTodo(t: Task): Todo
  {
    Todo(t.id, t.text, t.completed)
  }

  function AsTodos(tasks: seq<Task>): (r: seq<Todo>)
    ensures |r| == |tasks|
    ensures forall i :: 0 <= i < |tasks| ==> r[i] == AsTodo(tasks[i])
  {
    seq(|tasks|, i requires 0 <= i < |tasks| => AsTodo(tasks[i]))
  }

  predicate UniqueIds(tasks: seq<Task>)
  {
    forall i, j :: 0 <= i < j < |tasks| ==> tasks[i].id != tasks[j].id
  }

  /** Both variants accept exactly the same input: text that is not all whitespace. */
  lemma AddAcceptsSameInput(tasks: seq<Task>, s: Screen, now: int)
    ensures WithAdded(tasks, s.newTodo, now) != tasks <==> AddTodo(s, now) != s
    ensures AddTodo(s, now) != s <==> !AllWhitespace(s.newTodo)
  {
    if !AllWhitespace(s.newTodo) {
      assert |WithAdded(tasks, s.newTodo, now)| == |tasks| + 1;
      assert |AddTodo(s, now).todos| == |s.todos| + 1;
    }
  }

  /**
   * Where they differ on a successful add: app.js stores the trimmed text in
   * front, src/App.js the typed text at the end; the stored texts agree exactly
   * when the typed text neither starts nor ends with whitespace.
   */
  lemma AddPlacesDiffer(tasks: seq<Task>, s: Screen, now: int)
    requires !AllWhitespace(s.newTodo)
    ensures WithAdded(tasks, s.newTodo, now)[0] == Task(now, Trim(s.newTodo), "normal", false)
    ensures WithAdded(tasks, s.newTodo, now)[1..] == tasks
    ensures var todos := AddTodo(s, now).todos;
      todos[|todos| - 1] == Todo(now, s.newTodo, false) && todos[..|todos| - 1] == s.todos
    ensures Trim(s.newTodo) == s.newTodo <==>
      !IsWhitespace(s.newTodo[0]) && !IsWhitespace(s.newTodo[|s.newTodo| - 1])
  {
    TrimUnchanged(s.newTodo);
  }

  /** With unique ids, toggling in app.js and in src/App.js has the same effect on the list. */
  lemma ToggleAgreesOnUniqueIds(tasks: seq<Task>, id: int)
    requires UniqueIds(tasks)
    ensures AsTodos(ToggleFirst(tasks, id)) == ToggleTodo(Screen(AsTodos(tasks), "", false), id).todos
  {
    var lhs := AsTodos(ToggleFirst(tasks, id));
    var rhs := ToggleTodo(Screen(AsTodos(tasks), "", false), id).todos;
    forall k | 0 <= k < |tasks|
      ensures lhs[k] == rhs[k]
    {
      if tasks[k].id == id {
        assert IsFirstWithId(tasks, k, id);
      }
    }
  }

  /**
   * With a repeated id they disagree: a later task sharing the id of an earlier
   * one is left alone by app.js but flipped by src/App.js.
   */
  lemma ToggleDiffersOnRepeatedIds(tasks: seq<Task>, id: int, i: int, j: int)
    requires 0 <= i < j < |tasks| && tasks[i].id == id && tasks[j].id == id
    ensures AsTodos(ToggleFirst(tasks, id))[j] == AsTodo(tasks[j])
    ensures ToggleTodo(Screen(AsTodos(tasks), "", false), id).todos[j]
            == AsTodo(tasks[j]).(completed := !tasks[j].completed)
  {
    assert !IsFirstWithId(tasks, j, id);
  }

  /** Deleting by id has the same effect in both variants. */
  lemma {:induction false} DeleteAgrees(tasks: seq<Task>, id: int)
    ensures AsTodos(WithoutId(tasks, id)) == DeleteTodo(Screen(AsTodos(tasks), "", false), id).todos
  {
    var keepTask := (t: Task) => t.id != id;
    var keepTodo := (t: Todo) => t.id != id;
    FilterAsTodos(tasks, id, keepTask, keepTodo);
  }

  lemma {:induction false} FilterAsTodos(tasks: seq<Task>, id: int, keepTask: Task -> bool, keepTodo: Todo -> bool)
    requires forall t :: keepTask(t) == (t.id != id)
    requires forall t :: keepTodo(t) == (t.id != id)
    ensures AsTodos(Filter(tasks, keepTask)) == Filter(AsTodos(tasks), keepTodo)
  {
    if tasks != [] {
      var todos := AsTodos(tasks);
      AsTodosSplit(tasks);
      FilterAsTodos(tasks[1..], id, keepTask, keepTodo);
      var rest := Filter(tasks[1..], keepTask);
      if keepTask(tasks[0]) {
        AsTodosCons(tasks[0], rest);
      }
    }
  }

  lemma AsTodosSplit(tasks: seq<Task>)
    requires tasks != []
    ensures AsTodos(tasks) == [AsTodo(tasks[0])] + AsTodos(tasks[1..])
  {
  }

  lemma AsTodosCons(t: Task, rest: seq<Task>)
    ensures AsTodos([t] + rest) == [AsTodo(t)] + AsTodos(rest)
  {
  }
}
