/**
 * The `MinimalistTodo` React component of src/App.js. Every handler passes the
 * old state to a state setter and gets a new one back, so each is a function
 * from the old screen state to the new one.
 */
module Minimalist {
  import opened Seqs
  import opened Text

  datatype Todo = Todo(id: int, text: string, completed: bool)

  /** The component's state: `todos`, the text being typed (`newTodo`) and `showInput`. */
  datatype Screen = Screen(todos: seq<Todo>, newTodo: string, showInput: bool)

  /** The `useState` initial values. */
  const Initial: Screen := Screen([], "", false)

  /**
   * `addTodo` with the clock reading `now`: text that is blank after trimming is
   * ignored; otherwise the text exactly as typed, untrimmed, is appended as an
   * open todo, the field is cleared and the input closes.
   */
  function AddTodo(s: Screen, now: int): (r: Screen)
    ensures AllWhitespace(s.newTodo) ==> r == s
    ensures !AllWhitespace(s.newTodo) ==>
      && r.todos == s.todos + [Todo(now, s.newTodo, false)]
      && r.newTodo == "" && !r.showInput
  {
    if Trim(s.newTodo) != "" then Screen(s.todos + [Todo(now, s.newTodo, false)], "", false) else s
  }

  /**
   * `toggleTodo` (`todos.map(...)`): every todo with `id` has `completed` flipped,
   * every other todo is identical; nothing else in the state changes.
   */
  function ToggleTodo(s: Screen, id: int): (r: Screen)
    ensures r.newTodo == s.newTodo && r.showInput == s.showInput
    ensures |r.todos| == |s.todos|
    ensures forall i :: 0 <= i < |s.todos| ==>
      if s.todos[i].id == id
      then r.todos[i] == s.todos[i].(completed := !s.todos[i].completed)
      else r.todos[i] == s.todos[i]
  {
    var todos := seq(|s.todos|, i requires 0 <= i < |s.todos| =>
      if s.todos[i].id == id then s.todos[i].(completed := !s.todos[i].completed) else s.todos[i]);
    s.(todos := todos)
  }

  /**
   * `deleteTodo` (`todos.filter(todo => todo.id !== id)`): exactly the todos whose
   * id differs remain, as often as before, in their original order.
   */
  function DeleteTodo(s: Screen, id: int): (r: Screen)
    ensures r.newTodo == s.newTodo && r.showInput == s.showInput
    ensures forall t :: t in r.todos <==> t in s.todos && t.id != id
    ensures forall t :: multiset(r.todos)[t] == if t.id == id then 0 else multiset(s.todos)[t]
    ensures IsSubsequence(r.todos, s.todos)
  {
    FilterKeepsOrder(s.todos, (t: Todo) => t.id != id);
    FilterCounts(s.todos, (t: Todo) => t.id != id);
    s.(todos := Filter(s.todos, (t: Todo) => t.id != id))
  }

  /** The cancel button: closes the input and clears the field; the todos are untouched. */
  function Cancel(s: Screen): (r: Screen)
    ensures r.todos == s.todos && r.newTodo == "" && !r.showInput
  {
    s.(showInput := false, newTodo := "")
  }

  /** The plus button: opens the input; the todos and the typed text are untouched. */
  function OpenInput(s: Screen): (r: Screen)
    ensures r.todos == s.todos && r.newTodo == s.newTodo && r.showInput
  {
    s.(showInput := true)
  }

  /** The input's `onChange`: the field now holds `value`; nothing else changes. */
  function Edit(s: Screen, value: string): (r: Screen)
    ensures r.todos == s.todos && r.newTodo == value && r.showInput == s.showInput
  {
    s.(newTodo := value)
  }

  /** `todos.filter(t => !t.completed)`: the open todos, each as often as in `todos`. */
  function ActiveTodos(todos: seq<Todo>): (r: seq<Todo>)
    ensures forall t :: t in r <==> t in todos && !t.completed
    ensures forall t :: multiset(r)[t] == if t.completed then 0 else multiset(todos)[t]
  {
    FilterCounts(todos, (t: Todo) => !t.completed);
    Filter(todos, (t: Todo) => !t.completed)
  }

  /** The header line: "All done. ..." or "<n> priority/priorities remaining". */
  datatype Header = AllDone | Remaining(count: nat, noun: string)

  /**
   * The header for a list: "all done" exactly when no todo is open; otherwise the
   * number of open todos, with the singular noun exactly when that number is 1.
   */
  function HeaderFor(todos: seq<Todo>): (h: Header)
    ensures h == AllDone <==> forall i :: 0 <= i < |todos| ==> todos[i].completed
    ensures h.Remaining? ==> h.count == |ActiveTodos(todos)| && h.count > 0
    ensures h.Remaining? ==> (h.noun == "priority" <==> h.count == 1)
    ensures h.Remaining? ==> h.noun == "priority" || h.noun == "priorities"
  {
    var active := ActiveTodos(todos);
    if |active| == 0 then
      assert forall i :: 0 <= i < |todos| ==> todos[i] in todos;
      AllDone
    else
      assert active[0] in todos;
      Remaining(|active|, if |active| == 1 then "priority" else "priorities")
  }

  /**
   * The screen a fresh component shows: no todos, so the header reads "all
   * done", and an add from the empty field does nothing.
   */
  lemma InitialScreen(now: int)
    ensures HeaderFor(Initial.todos) == AllDone
    ensures AddTodo(Initial, now) == Initial
  {
  }

  /** Toggling the same id twice restores the state. */
  lemma ToggleTwiceRestores(s: Screen, id: int)
    ensures ToggleTodo(ToggleTodo(s, id), id) == s
  {
    var r := ToggleTodo(ToggleTodo(s, id), id);
    assert r.todos == s.todos;
  }

  /** A successful add leaves one more open todo. */
  lemma {:induction false} AddOpensOneMore(s: Screen, now: int)
    requires !AllWhitespace(s.newTodo)
    ensures |ActiveTodos(AddTodo(s, now).todos)| == |ActiveTodos(s.todos)| + 1
  {
    var added := Todo(now, s.newTodo, false);
    FilterConcat(s.todos, [added], (t: Todo) => !t.completed);
    assert Filter([added], (t: Todo) => !t.completed) == [added];
  }

  /** Every todo is either open or completed. */
  lemma OpenAndCompletedPartition(todos: seq<Todo>)
    ensures |ActiveTodos(todos)| + |Filter(todos, (t: Todo) => t.completed)| == |todos|
  {
    FilterComplement(todos, (t: Todo) => !t.completed, (t: Todo) => t.completed);
  }

  /** Deleting the todo just added, under a fresh id, gives the old list back. */
  lemma {:induction false} DeleteUndoesAdd(s: Screen, now: int)
    requires forall i :: 0 <= i < |s.todos| ==> s.todos[i].id != now
    ensures DeleteTodo(AddTodo(s, now), now).todos == s.todos
  {
    var keep := (t: Todo) => t.id != now;
    FilterKeepsAll(s.todos, keep);
    if !AllWhitespace(s.newTodo) {
      FilterConcat(s.todos, [Todo(now, s.newTodo, false)], keep);
    }
  }
}
