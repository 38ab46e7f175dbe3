/** The planner component's state and its event handlers. The component
    keeps four state slots — the todo, habit and resource lists and the
    todo being dragged — plus the selected date; every handler replaces a
    slot with a value computed from the old one by the pure operations of
    the other modules. */
module Planner {
  import opened Wrappers
  import opened Lists
  import Scheduling
  import Habits
  import Resources

  class CalendarPlanner {
    var todos: seq<Scheduling.Todo>
    var habits: seq<Habits.Habit>
    var resources: seq<Resources.Resource>
    var selectedDate: string
    var draggedTodo: Option<Scheduling.Todo>

    /** Ids are unique within each list and no habit has a date twice. */
    ghost predicate Valid()
      reads this
    {
      && UniqueKeys(todos, Scheduling.TodoId)
      && UniqueKeys(habits, Habits.HabitId)
      && UniqueKeys(resources, Resources.ResourceId)
      && forall i :: 0 <= i < |habits| ==> NoDuplicates(habits[i].completedDates)
    }

    /** A fresh planner: empty lists, nothing dragged, `today` selected. */
    constructor (today: string)
      ensures Valid()
      ensures todos == [] && habits == [] && resources == []
      ensures selectedDate == today && draggedTodo == None
    {
      todos, habits, resources := [], [], [];
      selectedDate := today;
      draggedTodo := None;
    }

    /** Clicking a day cell selects its date. */
    method SelectDate(date: string)
      modifies this`selectedDate
      ensures selectedDate == date
    {
      selectedDate := date;
    }

    /** `addTodo` with the modal's title and a fresh id. */
    method AddTodo(title: string, id: int)
      requires Valid() && !Scheduling.HasTodo(todos, id)
      modifies this`todos
      ensures Valid()
      ensures todos == Scheduling.AddTodo(old(todos), title, selectedDate, id)
    {
      Scheduling.AddTodoKeepsIds(todos, title, selectedDate, id);
      todos := Scheduling.AddTodo(todos, title, selectedDate, id);
    }

    method ToggleTodo(id: int)
      requires Valid()
      modifies this`todos
      ensures Valid()
      ensures todos == Scheduling.ToggleTodo(old(todos), id)
    {
      Scheduling.ToggleTodoKeepsIds(todos, id);
      todos := Scheduling.ToggleTodo(todos, id);
    }

    method UpdateTodo(id: int, u: Scheduling.TodoUpdate)
      requires Valid()
      modifies this`todos
      ensures Valid()
      ensures todos == Scheduling.UpdateTodo(old(todos), id, u)
    {
      Scheduling.UpdateTodoKeepsIds(todos, id, u);
      todos := Scheduling.UpdateTodo(todos, id, u);
    }

    method DeleteTodo(id: int)
      requires Valid()
      modifies this`todos
      ensures Valid()
      ensures todos == Scheduling.DeleteTodo(old(todos), id)
    {
      Scheduling.DeleteTodoKeepsIds(todos, id);
      todos := Scheduling.DeleteTodo(todos, id);
    }

    /** `handleDragStart(todo)`: the dragged slot now holds `todo`, whatever
        it held before. */
    method HandleDragStart(todo: Scheduling.Todo)
      modifies this`draggedTodo
      ensures draggedTodo == Some(todo)
    {
      draggedTodo := Some(todo);
    }

    /** `handleDrop(date)`: with a todo in the slot, every todo with its id
        moves to `date` and the slot is emptied; with an empty slot nothing
        changes. */
    method HandleDrop(date: string)
      requires Valid()
      modifies this`todos, this`draggedTodo
      ensures Valid()
      ensures draggedTodo == None
      ensures old(draggedTodo).None? ==> todos == old(todos)
      ensures old(draggedTodo).Some? ==>
        todos == Scheduling.Reschedule(old(todos), old(draggedTodo).value.id, date)
    {
      if draggedTodo.Some? {
        Scheduling.UpdateTodoKeepsIds(todos, draggedTodo.value.id, Scheduling.DateOnly(date));
        todos := Scheduling.Reschedule(todos, draggedTodo.value.id, date);
        draggedTodo := None;
      }
    }

    /** `addHabit` with the modal's title as name and a fresh id. */
    method AddHabit(name: string, id: int)
      requires Valid() && !Habits.HasHabit(habits, id)
      modifies this`habits
      ensures Valid()
      ensures habits == Habits.AddHabit(old(habits), name, id)
    {
      Habits.AddHabitKeepsInvariant(habits, name, id);
      SetHabits(Habits.AddHabit(habits, name, id));
    }

    /** The component's `setHabits(...)` state setter, as `AddHabit` calls
        it (line 194 of productivity-hub.jsx): it replaces the habit list,
        and a list that keeps the habit part of `Valid()` keeps all of it. */
    method SetHabits(hs: seq<Habits.Habit>)
      requires Valid() && UniqueKeys(hs, Habits.HabitId)
      requires forall i :: 0 <= i < |hs| ==> NoDuplicates(hs[i].completedDates)
      modifies this`habits
      ensures Valid() && habits == hs
    {
      habits := hs;
    }

    /** `toggleHabitToday(habitId)` on the day `today`. */
    method ToggleHabitToday(habitId: int, today: string)
      requires Valid()
      modifies this`habits
      ensures Valid()
      ensures habits == Habits.ToggleHabitToday(old(habits), habitId, today)
      ensures forall i :: 0 <= i < |habits| ==>
        Habits.Streak(habits[i]) ==
          if old(habits)[i].id != habitId then Habits.Streak(old(habits)[i])
          else if today in old(habits)[i].completedDates then Habits.Streak(old(habits)[i]) - 1
          else Habits.Streak(old(habits)[i]) + 1
    {
      Habits.ToggleHabitTodayKeepsInvariant(habits, habitId, today);
      forall i | 0 <= i < |habits| && habits[i].id == habitId {
        Habits.StreakAfterToggle(habits[i], today);
      }
      habits := Habits.ToggleHabitToday(habits, habitId, today);
    }

    method DeleteHabit(id: int)
      requires Valid()
      modifies this`habits
      ensures Valid()
      ensures habits == Habits.DeleteHabit(old(habits), id)
    {
      Habits.DeleteHabitKeepsInvariant(habits, id);
      habits := Habits.DeleteHabit(habits, id);
    }

    /** `addResource` with the modal's URL and title, a fresh id and the
        creation time stamp. */
    method AddResource(url: string, title: string, id: int, addedAt: string)
      requires Valid() && !Resources.HasResource(resources, id)
      modifies this`resources
      ensures Valid()
      ensures resources == Resources.AddResource(old(resources), url, title, id, addedAt)
    {
      Resources.AddResourceKeepsIds(resources, url, title, id, addedAt);
      SetResources(Resources.AddResource(resources, url, title, id, addedAt));
    }

    /** The component's `setResources(...)` state setter, as `AddResource`
        calls it (line 226 of productivity-hub.jsx): it replaces the
        resource list, and a list with unique ids keeps `Valid()`. */
    method SetResources(rs: seq<Resources.Resource>)
      requires Valid() && UniqueKeys(rs, Resources.ResourceId)
      modifies this`resources
      ensures Valid() && resources == rs
    {
      resources := rs;
    }

    method ToggleResource(id: int)
      requires Valid()
      modifies this`resources
      ensures Valid()
      ensures resources == Resources.ToggleResource(old(resources), id)
    {
      Resources.ToggleResourceKeepsIds(resources, id);
      resources := Resources.ToggleResource(resources, id);
    }

    method DeleteResource(id: int)
      requires Valid()
      modifies this`resources
      ensures Valid()
      ensures resources == Resources.DeleteResource(old(resources), id)
    {
      Resources.DeleteResourceKeepsIds(resources, id);
      resources := Resources.DeleteResource(resources, id);
    }
  }
}
