/** The scheduling controller: the todo record, the operations the planner
    applies to its list of todos, and the grouping of todos by day that the
    calendar cells and the day view show. Every operation builds a new list
    from the old one, as the source's `map`/`filter`/spread expressions do. */
module Scheduling {
  import opened Wrappers
  import opened Lists
  import Text

  datatype Priority = Low | Medium | High

  datatype Todo = Todo(
    id: int,
    title: string,
    date: string,
    completed: bool,
    priority: Priority,
    startTime: string,
    duration: int)

  /** The object passed to `updateTodo`: the fields it mentions, each to be
      overwritten. */
  datatype TodoUpdate = TodoUpdate(
    title: Option<string>,
    date: Option<string>,
    completed: Option<bool>,
    priority: Option<Priority>,
    startTime: Option<string>,
    duration: Option<int>)

  function TodoId(t: Todo): int {
    t.id
  }

  /** The ids in use. */
  ghost predicate HasTodo(todos: seq<Todo>, id: int) {
    exists i :: 0 <= i < |todos| && todos[i].id == id
  }

  // ---------------------------------------------------------------------
  // Day grouping
  // ---------------------------------------------------------------------

  /** `getTodosForDate(date)`: the todos whose date string equals `date`,
      in list order, not sorted. */
  function TodosForDate(todos: seq<Todo>, date: string): (r: seq<Todo>)
    ensures forall i :: 0 <= i < |r| ==> r[i] in todos && r[i].date == date
    ensures forall i :: 0 <= i < |todos| && todos[i].date == date ==> todos[i] in r
  {
    Filter(todos, (t: Todo) => t.date == date)
  }

  /** Grouping keeps list order: the todos of a day from two consecutive
      stretches of the list come out one stretch after the other. */
  lemma TodosForDateAppend(a: seq<Todo>, b: seq<Todo>, date: string)
    ensures TodosForDate(a + b, date) == TodosForDate(a, date) + TodosForDate(b, date)
  {
    FilterAppend(a, b, (t: Todo) => t.date == date);
  }

  /** A todo on a single day is grouped on that day and nowhere else. */
  lemma TodosForSingleton(t: Todo, date: string)
    ensures TodosForDate([t], date) == if t.date == date then [t] else []
  {
    assert [t][1..] == [];
  }

  // ---------------------------------------------------------------------
  // Operations
  // ---------------------------------------------------------------------

  /** `addTodo`: a blank title changes nothing; otherwise one new todo with
      the given id, the title as typed, the selected date and the default
      state goes to the end of the list. */
  function AddTodo(todos: seq<Todo>, title: string, date: string, id: int): (r: seq<Todo>)
    ensures Text.IsBlank(title) ==> r == todos
    ensures !Text.IsBlank(title) ==>
      && |r| == |todos| + 1 && r[..|todos|] == todos
      && r[|todos|].id == id && r[|todos|].title == title && r[|todos|].date == date
      && !r[|todos|].completed && r[|todos|].priority == Medium
      && r[|todos|].startTime == "09:00" && r[|todos|].duration == 60
  {
    if Text.IsBlank(title) then todos
    else todos + [Todo(id, title, date, false, Medium, "09:00", 60)]
  }

  /** `toggleTodo(id)`. */
  function ToggleTodo(todos: seq<Todo>, id: int): (r: seq<Todo>)
    ensures |r| == |todos|
    ensures forall i :: 0 <= i < |todos| ==>
      && r[i].completed == (if todos[i].id == id then !todos[i].completed else todos[i].completed)
      && r[i].(completed := todos[i].completed) == todos[i]
  {
    Map(todos, (t: Todo) => if t.id == id then t.(completed := !t.completed) else t)
  }

  /** `{ ...t, ...updates }`: the fields the update names are overwritten,
      the others kept. */
  function ApplyUpdate(t: Todo, u: TodoUpdate): (r: Todo)
    ensures r.id == t.id
    ensures u.title.None? ==> r.title == t.title
    ensures u.date.None? ==> r.date == t.date
    ensures u.completed.None? ==> r.completed == t.completed
    ensures u.priority.None? ==> r.priority == t.priority
    ensures u.startTime.None? ==> r.startTime == t.startTime
    ensures u.duration.None? ==> r.duration == t.duration
    ensures u.title.Some? ==> r.title == u.title.value
    ensures u.date.Some? ==> r.date == u.date.value
    ensures u.completed.Some? ==> r.completed == u.completed.value
    ensures u.priority.Some? ==> r.priority == u.priority.value
    ensures u.startTime.Some? ==> r.startTime == u.startTime.value
    ensures u.duration.Some? ==> r.duration == u.duration.value
  {
    Todo(t.id,
         u.title.GetOr(t.title),
         u.date.GetOr(t.date),
         u.completed.GetOr(t.completed),
         u.priority.GetOr(t.priority),
         u.startTime.GetOr(t.startTime),
         u.duration.GetOr(t.duration))
  }

  /** `updateTodo(id, updates)`. */
  function UpdateTodo(todos: seq<Todo>, id: int, u: TodoUpdate): (r: seq<Todo>)
    ensures |r| == |todos|
    ensures forall i :: 0 <= i < |todos| ==>
      r[i] == if todos[i].id == id then ApplyUpdate(todos[i], u) else todos[i]
  {
    Map(todos, (t: Todo) => if t.id == id then ApplyUpdate(t, u) else t)
  }

  /** `deleteTodo(id)`. */
  function DeleteTodo(todos: seq<Todo>, id: int): (r: seq<Todo>)
    ensures |r| <= |todos|
    ensures forall i :: 0 <= i < |r| ==> r[i] in todos && r[i].id != id
    ensures forall i :: 0 <= i < |todos| && todos[i].id != id ==> todos[i] in r
  {
    Filter(todos, (t: Todo) => t.id != id)
  }

  /** The update a drop performs: `{ date }`. */
  function DateOnly(date: string): TodoUpdate {
    TodoUpdate(None, Some(date), None, None, None, None)
  }

  /** What `handleDrop(date)` does to the list when a todo with id `id` is
      being dragged: `updateTodo(id, { date })`. */
  function Reschedule(todos: seq<Todo>, id: int, date: string): (r: seq<Todo>)
    ensures |r| == |todos|
    ensures forall i :: 0 <= i < |todos| ==>
      r[i] == if todos[i].id == id then todos[i].(date := date) else todos[i]
  {
    UpdateTodo(todos, id, DateOnly(date))
  }

  // ---------------------------------------------------------------------
  // Properties
  // ---------------------------------------------------------------------

  /** Toggling twice gives the list back. */
  lemma ToggleTodoTwice(todos: seq<Todo>, id: int)
    ensures ToggleTodo(ToggleTodo(todos, id), id) == todos
  {
    var once := ToggleTodo(todos, id);
    var twice := ToggleTodo(once, id);
    forall i | 0 <= i < |todos|
      ensures twice[i] == todos[i]
    {
      assert once[i].id == todos[i].id;
    }
  }

  /** Operations addressed to an id no todo has change nothing. */
  lemma MissingTodoIsNoOp(todos: seq<Todo>, id: int, u: TodoUpdate)
    requires !HasTodo(todos, id)
    ensures ToggleTodo(todos, id) == todos
    ensures UpdateTodo(todos, id, u) == todos
    ensures DeleteTodo(todos, id) == todos
  {
    var toggled := ToggleTodo(todos, id);
    assert forall i :: 0 <= i < |todos| ==> toggled[i] == todos[i];
    FilterKeepsAll(todos, (t: Todo) => t.id != id);
  }

  /** Deleting twice is deleting once. */
  lemma DeleteTodoTwice(todos: seq<Todo>, id: int)
    ensures DeleteTodo(DeleteTodo(todos, id), id) == DeleteTodo(todos, id)
  {
    FilterIdempotent(todos, (t: Todo) => t.id != id);
  }

  /** Deletion keeps the surviving todos in their order. */
  lemma DeleteTodoAppend(a: seq<Todo>, b: seq<Todo>, id: int)
    ensures DeleteTodo(a + b, id) == DeleteTodo(a, id) + DeleteTodo(b, id)
  {
    FilterAppend(a, b, (t: Todo) => t.id != id);
  }

  /** An update racing with a delete of the same id is lost without trace:
      the delete removes the updated records just as it removes the
      originals. */
  lemma {:induction false} DeleteAfterUpdate(todos: seq<Todo>, id: int, u: TodoUpdate)
    ensures DeleteTodo(UpdateTodo(todos, id, u), id) == DeleteTodo(todos, id)
  {
    if todos != [] {
      var updated := UpdateTodo(todos, id, u);
      assert updated == [updated[0]] + UpdateTodo(todos[1..], id, u);
      assert todos == [todos[0]] + todos[1..];
      DeleteAfterUpdate(todos[1..], id, u);
      DeleteTodoAppend([updated[0]], UpdateTodo(todos[1..], id, u), id);
      DeleteTodoAppend([todos[0]], todos[1..], id);
      assert [updated[0]][1..] == [] && [todos[0]][1..] == [];
    }
  }

  /** The same for a toggle racing with a delete. */
  lemma DeleteAfterToggle(todos: seq<Todo>, id: int)
    ensures DeleteTodo(ToggleTodo(todos, id), id) == DeleteTodo(todos, id)
  {
    var toggled := ToggleTodo(todos, id);
    assert forall i :: 0 <= i < |todos| ==> toggled[i].id == todos[i].id;
    SameIdsSameDeletion(toggled, todos, id);
  }

  /** Deletion only looks at ids and the records that survive. */
  lemma {:induction false} SameIdsSameDeletion(a: seq<Todo>, b: seq<Todo>, id: int)
    requires |a| == |b|
    requires forall i :: 0 <= i < |a| ==> a[i].id == b[i].id && (a[i].id != id ==> a[i] == b[i])
    ensures DeleteTodo(a, id) == DeleteTodo(b, id)
  {
    if a != [] {
      SameIdsSameDeletion(a[1..], b[1..], id);
    }
  }

  /** A drop moves only the dragged todo, and only its date: every other
      field of every todo is unchanged, and so is the grouping of every day
      other than the old and the new one. */
  lemma RescheduleChangesOnlyDate(todos: seq<Todo>, id: int, date: string)
    ensures forall i :: 0 <= i < |todos| ==>
      var t, t' := todos[i], Reschedule(todos, id, date)[i];
      && t'.id == t.id && t'.title == t.title && t'.completed == t.completed
      && t'.priority == t.priority && t'.startTime == t.startTime && t'.duration == t.duration
      && t'.date == (if t.id == id then date else t.date)
  {
  }

  /** After a drop, the dragged todo is grouped under the target day. */
  lemma RescheduledTodoIsOnTarget(todos: seq<Todo>, k: int, date: string)
    requires 0 <= k < |todos|
    ensures Reschedule(todos, todos[k].id, date)[k] in TodosForDate(Reschedule(todos, todos[k].id, date), date)
  {
  }

  /** A new todo shows up last on its day. */
  lemma AddedTodoIsLastOnItsDay(todos: seq<Todo>, title: string, date: string, id: int)
    requires !Text.IsBlank(title)
    ensures var r := AddTodo(todos, title, date, id);
      TodosForDate(r, date) == TodosForDate(todos, date) + [r[|todos|]]
  {
    var r := AddTodo(todos, title, date, id);
    TodosForDateAppend(todos, [r[|todos|]], date);
    TodosForSingleton(r[|todos|], date);
  }

  /** A todo added with a fresh id keeps ids unique. */
  lemma AddTodoKeepsIds(todos: seq<Todo>, title: string, date: string, id: int)
    requires UniqueKeys(todos, TodoId) && !HasTodo(todos, id)
    ensures UniqueKeys(AddTodo(todos, title, date, id), TodoId)
  {
  }

  lemma ToggleTodoKeepsIds(todos: seq<Todo>, id: int)
    requires UniqueKeys(todos, TodoId)
    ensures UniqueKeys(ToggleTodo(todos, id), TodoId)
  {
  }

  /** Updates (drops included) never change an id. */
  lemma UpdateTodoKeepsIds(todos: seq<Todo>, id: int, u: TodoUpdate)
    requires UniqueKeys(todos, TodoId)
    ensures UniqueKeys(UpdateTodo(todos, id, u), TodoId)
  {
  }

  lemma DeleteTodoKeepsIds(todos: seq<Todo>, id: int)
    requires UniqueKeys(todos, TodoId)
    ensures UniqueKeys(DeleteTodo(todos, id), TodoId)
  {
    FilterUniqueKeys(todos, (t: Todo) => t.id != id, TodoId);
  }
}
