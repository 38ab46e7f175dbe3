/** The habit tracker: habits with the list of dates they were marked done,
    the "toggle today" operation and the count shown as "N days tracked". */
module Habits {
  import opened Lists
  import Text

  datatype Habit = Habit(id: int, name: string, completedDates: seq<string>)

  function HabitId(h: Habit): int {
    h.id
  }

  ghost predicate HasHabit(habits: seq<Habit>, id: int) {
    exists i :: 0 <= i < |habits| && habits[i].id == id
  }

  /** `addHabit`: a blank name changes nothing; otherwise a habit with the
      name as typed and no completed dates goes to the end of the list. */
  function AddHabit(habits: seq<Habit>, name: string, id: int): (r: seq<Habit>)
    ensures Text.IsBlank(name) ==> r == habits
    ensures !Text.IsBlank(name) ==>
      && |r| == |habits| + 1 && r[..|habits|] == habits
      && r[|habits|].id == id && r[|habits|].name == name && r[|habits|].completedDates == []
  {
    if Text.IsBlank(name) then habits else habits + [Habit(id, name, [])]
  }

  /** `completedDates.filter(d => d !== today)` */
  function RemoveDate(dates: seq<string>, today: string): (r: seq<string>)
    ensures today !in r
    ensures forall d :: d != today ==> (d in r <==> d in dates)
  {
    var r := Filter(dates, (d: string) => d != today);
    assert forall d :: d != today && d in dates ==> d in r by {
      forall d | d != today && d in dates ensures d in r {
        var i :| 0 <= i < |dates| && dates[i] == d;
      }
    }
    r
  }

  /** The new date list of a toggled habit: `today` is removed if present
      (every occurrence) and appended once otherwise. */
  function ToggleDate(dates: seq<string>, today: string): (r: seq<string>)
    ensures today in r <==> today !in dates
    ensures forall d :: d != today ==> (d in r <==> d in dates)
    ensures today !in dates ==> r == dates + [today]
  {
    if today in dates then RemoveDate(dates, today) else dates + [today]
  }

  /** `toggleHabitToday(habitId)` on the day `today`. */
  function ToggleHabitToday(habits: seq<Habit>, habitId: int, today: string): (r: seq<Habit>)
    ensures |r| == |habits|
    ensures forall i :: 0 <= i < |habits| ==>
      && r[i].id == habits[i].id && r[i].name == habits[i].name
      && r[i].completedDates == if habits[i].id == habitId
                                then ToggleDate(habits[i].completedDates, today)
                                else habits[i].completedDates
  {
    Map(habits, (h: Habit) =>
      if h.id == habitId then h.(completedDates := ToggleDate(h.completedDates, today)) else h)
  }

  /** `deleteHabit(id)`. */
  function DeleteHabit(habits: seq<Habit>, id: int): (r: seq<Habit>)
    ensures |r| <= |habits|
    ensures forall i :: 0 <= i < |r| ==> r[i] in habits && r[i].id != id
    ensures forall i :: 0 <= i < |habits| && habits[i].id != id ==> habits[i] in r
  {
    Filter(habits, (h: Habit) => h.id != id)
  }

  /** The number shown as "N days tracked": every marked date counts, with
      no check that the dates are consecutive. */
  function Streak(h: Habit): nat {
    |h.completedDates|
  }

  // ---------------------------------------------------------------------
  // Properties
  // ---------------------------------------------------------------------

  /** Removing a date that occurs once shortens the list by one. */
  lemma {:induction false} RemoveDateLength(dates: seq<string>, today: string)
    requires NoDuplicates(dates)
    ensures |RemoveDate(dates, today)| == if today in dates then |dates| - 1 else |dates|
  {
    if dates != [] {
      assert dates == [dates[0]] + dates[1..];
      FilterAppend([dates[0]], dates[1..], (d: string) => d != today);
      assert [dates[0]][1..] == [];
      if dates[0] == today {
        assert today !in dates[1..];
        FilterKeepsAll(dates[1..], (d: string) => d != today);
      } else {
        RemoveDateLength(dates[1..], today);
      }
    }
  }

  /** Toggling never creates a duplicate date. */
  lemma ToggleDateNoDuplicates(dates: seq<string>, today: string)
    requires NoDuplicates(dates)
    ensures NoDuplicates(ToggleDate(dates, today))
  {
    if today in dates {
      FilterNoDuplicates(dates, (d: string) => d != today);
    }
  }

  /** On duplicate-free dates the displayed count is the number of distinct
      days marked. */
  lemma StreakCountsDays(h: Habit)
    requires NoDuplicates(h.completedDates)
    ensures Streak(h) == |set d | d in h.completedDates|
  {
    NoDuplicatesCardinality(h.completedDates);
  }

  /** The displayed count goes up by one when today is marked, and down by
      one when it is unmarked (dates being duplicate-free). */
  lemma StreakAfterToggle(h: Habit, today: string)
    requires NoDuplicates(h.completedDates)
    ensures var h' := h.(completedDates := ToggleDate(h.completedDates, today));
      Streak(h') == if today in h.completedDates then Streak(h) - 1 else Streak(h) + 1
  {
    if today in h.completedDates {
      RemoveDateLength(h.completedDates, today);
    }
  }

  /** Toggling twice on the same day restores the marked dates: the same
      list when today was unmarked, the same set of dates and the same count
      when it was marked (it then moves to the end of the list). */
  lemma ToggleDateTwice(dates: seq<string>, today: string)
    requires NoDuplicates(dates)
    ensures var r := ToggleDate(ToggleDate(dates, today), today);
      && (today !in dates ==> r == dates)
      && (forall d :: d in r <==> d in dates)
      && |r| == |dates|
      && NoDuplicates(r)
  {
    var once := ToggleDate(dates, today);
    ToggleDateNoDuplicates(dates, today);
    ToggleDateNoDuplicates(once, today);
    if today in dates {
      RemoveDateLength(dates, today);
    } else {
      assert once[..|dates|] == dates;
      FilterKeepsAll(dates, (d: string) => d != today);
      FilterAppend(dates, [today], (d: string) => d != today);
      assert [today][1..] == [];
    }
  }

  /** Toggling a habit twice on the same day restores every habit's name,
      id, set of dates and count. */
  lemma ToggleHabitTodayTwice(habits: seq<Habit>, habitId: int, today: string)
    requires forall i :: 0 <= i < |habits| ==> NoDuplicates(habits[i].completedDates)
    ensures var r := ToggleHabitToday(ToggleHabitToday(habits, habitId, today), habitId, today);
      && |r| == |habits|
      && forall i :: 0 <= i < |habits| ==>
        && r[i].id == habits[i].id && r[i].name == habits[i].name
        && Streak(r[i]) == Streak(habits[i])
        && (forall d :: d in r[i].completedDates <==> d in habits[i].completedDates)
  {
    forall i | 0 <= i < |habits| {
      ToggleDateTwice(habits[i].completedDates, today);
    }
  }

  /** Deletion keeps the surviving habits in their order. */
  lemma DeleteHabitAppend(a: seq<Habit>, b: seq<Habit>, id: int)
    ensures DeleteHabit(a + b, id) == DeleteHabit(a, id) + DeleteHabit(b, id)
  {
    FilterAppend(a, b, (h: Habit) => h.id != id);
  }

  /** Deleting twice is deleting once; a missing id deletes nothing. */
  lemma DeleteHabitProperties(habits: seq<Habit>, id: int)
    ensures DeleteHabit(DeleteHabit(habits, id), id) == DeleteHabit(habits, id)
    ensures !HasHabit(habits, id) ==> DeleteHabit(habits, id) == habits
  {
    FilterIdempotent(habits, (h: Habit) => h.id != id);
    if !HasHabit(habits, id) {
      FilterKeepsAll(habits, (h: Habit) => h.id != id);
    }
  }

  /** Adding with a fresh id keeps ids unique; the new habit has no dates. */
  lemma AddHabitKeepsInvariant(habits: seq<Habit>, name: string, id: int)
    requires UniqueKeys(habits, HabitId) && !HasHabit(habits, id)
    requires forall i :: 0 <= i < |habits| ==> NoDuplicates(habits[i].completedDates)
    ensures UniqueKeys(AddHabit(habits, name, id), HabitId)
    ensures var r := AddHabit(habits, name, id);
      forall i :: 0 <= i < |r| ==> NoDuplicates(r[i].completedDates)
  {
    if !Text.IsBlank(name) {
      var r := habits + [Habit(id, name, [])];
      assert AddHabit(habits, name, id) == r;
      forall i, j | 0 <= i < j < |r| ensures HabitId(r[i]) != HabitId(r[j]) {
        assert r[i] == habits[i];
        if j == |habits| {
          assert habits[i].id != id;
        } else {
          assert r[j] == habits[j];
        }
      }
      forall i | 0 <= i < |r| ensures NoDuplicates(r[i].completedDates) {
        if i < |habits| {
          assert r[i] == habits[i];
        }
      }
    }
  }

  /** Toggling keeps every habit's dates duplicate-free and the ids unique. */
  lemma ToggleHabitTodayKeepsInvariant(habits: seq<Habit>, habitId: int, today: string)
    requires UniqueKeys(habits, HabitId)
    requires forall i :: 0 <= i < |habits| ==> NoDuplicates(habits[i].completedDates)
    ensures UniqueKeys(ToggleHabitToday(habits, habitId, today), HabitId)
    ensures var r := ToggleHabitToday(habits, habitId, today);
      forall i :: 0 <= i < |r| ==> NoDuplicates(r[i].completedDates)
  {
    forall i | 0 <= i < |habits| {
      ToggleDateNoDuplicates(habits[i].completedDates, today);
    }
  }

  /** Deleting keeps ids unique and dates duplicate-free. */
  lemma DeleteHabitKeepsInvariant(habits: seq<Habit>, id: int)
    requires UniqueKeys(habits, HabitId)
    requires forall i :: 0 <= i < |habits| ==> NoDuplicates(habits[i].completedDates)
    ensures UniqueKeys(DeleteHabit(habits, id), HabitId)
    ensures var r := DeleteHabit(habits, id);
      forall i :: 0 <= i < |r| ==> NoDuplicates(r[i].completedDates)
  {
    FilterUniqueKeys(habits, (h: Habit) => h.id != id, HabitId);
    var r := DeleteHabit(habits, id);
    forall i | 0 <= i < |r| ensures NoDuplicates(r[i].completedDates) {
      var j :| 0 <= j < |habits| && habits[j] == r[i];
    }
  }
}
