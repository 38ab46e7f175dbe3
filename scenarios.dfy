/** Concrete runs of the model:
    the grid of March 2024, February lengths around the leap-year rule, a
    todo's life on the calendar and a habit marked and unmarked on one day. */
module Scenarios {
  import opened Calendar
  import Text
  import Scheduling
  import Habits

  /** A `YYYY-MM-DD` literal whose digits spell `y`, `m` and `d` names that
      day. */
  lemma IsoLiteral(ys: string, ms: string, ds: string, y: nat, m: nat, d: nat)
    requires |ys| == 4 && |ms| == 2 && |ds| == 2
    requires AllDigits(ys) && AllDigits(ms) && AllDigits(ds)
    requires 1000 * DigitValue(ys[0]) + 100 * DigitValue(ys[1]) + 10 * DigitValue(ys[2]) + DigitValue(ys[3]) == y
    requires 10 * DigitValue(ms[0]) + DigitValue(ms[1]) == m
    requires 10 * DigitValue(ds[0]) + DigitValue(ds[1]) == d
    requires 1 <= m <= 12 && 1 <= d <= MonthLength(y, m - 1)
    ensures var c := ys + "-" + ms + "-" + ds;
      IsIsoDate(c) && YearOf(c) == y && MonthOf(c) == m && DayOf(c) == d
  {
    ParseIsoFields(ys, ms, ds);
    FourDigitValue(ys);
    TwoDigitValue(ms);
    TwoDigitValue(ds);
  }

  lemma March1st()
    ensures IsIsoDate("2024-03-01") && YearOf("2024-03-01") == 2024 && MonthOf("2024-03-01") == 3
  {
    IsoLiteral("2024", "03", "01", 2024, 3, 1);
    assert "2024-03-01" == "2024" + "-" + "03" + "-" + "01";
  }

  lemma March15th()
    ensures IsIsoDate("2024-03-15") && YearOf("2024-03-15") == 2024
    ensures MonthOf("2024-03-15") == 3 && DayOf("2024-03-15") == 15
  {
    IsoLiteral("2024", "03", "15", 2024, 3, 15);
    assert "2024-03-15" == "2024" + "-" + "03" + "-" + "15";
  }

  /** March 2024 has 31 days and starts on a Friday. */
  lemma March2024()
    ensures IsIsoDate("2024-03-01")
    ensures GetDaysInMonth("2024-03-01") == MonthGrid(31, 5, 2024, 2)
  {
    March1st();
    KnownWeekdays();
  }

  /** The 15th cell of March 2024 is labelled `2024-03-15`. */
  lemma March15thCell()
    ensures DayCellDate(2024, 2, 15) == "2024-03-15"
  {
    March15th();
    SelectedDayCell("2024-03-15");
  }

  /** February has 29 days in the leap years 2024 and 2000. */
  lemma LeapFebruaries()
    ensures IsIsoDate("2024-02-10") && GetDaysInMonth("2024-02-10").daysInMonth == 29
    ensures IsIsoDate("2000-02-10") && GetDaysInMonth("2000-02-10").daysInMonth == 29
  {
    February2024();
    February2000();
  }

  /** February has 28 days in 2023 and in the century year 1900. */
  lemma CommonFebruaries()
    ensures IsIsoDate("2023-02-10") && GetDaysInMonth("2023-02-10").daysInMonth == 28
    ensures IsIsoDate("1900-02-10") && GetDaysInMonth("1900-02-10").daysInMonth == 28
  {
    February2023();
    February1900();
  }

  lemma February2024()
    ensures IsIsoDate("2024-02-10") && GetDaysInMonth("2024-02-10").daysInMonth == 29
  {
    assert IsLeapYear(2024);
    February10th("2024", 2024);
    assert "2024" + "-02-10" == "2024-02-10";
  }

  lemma February2000()
    ensures IsIsoDate("2000-02-10") && GetDaysInMonth("2000-02-10").daysInMonth == 29
  {
    assert IsLeapYear(2000);
    February10th("2000", 2000);
    assert "2000" + "-02-10" == "2000-02-10";
  }

  lemma February2023()
    ensures IsIsoDate("2023-02-10") && GetDaysInMonth("2023-02-10").daysInMonth == 28
  {
    assert !IsLeapYear(2023);
    February10th("2023", 2023);
    assert "2023" + "-02-10" == "2023-02-10";
  }

  lemma February1900()
    ensures IsIsoDate("1900-02-10") && GetDaysInMonth("1900-02-10").daysInMonth == 28
  {
    assert !IsLeapYear(1900);
    February10th("1900", 1900);
    assert "1900" + "-02-10" == "1900-02-10";
  }

  lemma February10th(ys: string, y: nat)
    requires |ys| == 4 && AllDigits(ys) && y >= 100
    requires 1000 * DigitValue(ys[0]) + 100 * DigitValue(ys[1]) + 10 * DigitValue(ys[2]) + DigitValue(ys[3]) == y
    ensures var c := ys + "-02-10";
      IsIsoDate(c) && GetDaysInMonth(c).daysInMonth == if IsLeapYear(y) then 29 else 28
  {
    IsoLiteral(ys, "02", "10", y, 2, 10);
    assert ys + "-02-10" == ys + "-" + "02" + "-" + "10";
  }

  /** A todo's life: added with a non-blank title it is the only todo of
      its day; toggling completes it; deleting it empties the list and the
      day. */
  lemma TodoLifecycle(title: string, date: string, id: int)
    requires !Text.IsBlank(title)
    ensures var added := Scheduling.AddTodo([], title, date, id);
      var toggled := Scheduling.ToggleTodo(added, id);
      var deleted := Scheduling.DeleteTodo(toggled, id);
      && |added| == 1 && added[0].date == date
      && Scheduling.TodosForDate(added, date) == added
      && toggled[0].completed
      && deleted == []
      && Scheduling.TodosForDate(deleted, date) == []
  {
    var added := Scheduling.AddTodo([], title, date, id);
    assert added == [added[0]] && added[0].id == id;
    Scheduling.TodosForSingleton(added[0], date);
    var toggled := Scheduling.ToggleTodo(added, id);
    assert toggled[0].completed && toggled[0].id == id;
    var deleted := Scheduling.DeleteTodo(toggled, id);
    assert forall t :: t in toggled ==> t.id == id;
    assert |deleted| == 0;
  }

  /** Starting from no todos: add "Write report" on 2024-03-15 (the date
      of the 15th cell of March 2024, by `March15thCell`); that day shows it;
      toggling completes it; deleting it leaves no todos and an empty day. */
  lemma WriteReportScenario(id: int)
    ensures var added := Scheduling.AddTodo([], "Write report", "2024-03-15", id);
      var toggled := Scheduling.ToggleTodo(added, id);
      var deleted := Scheduling.DeleteTodo(toggled, id);
      && |added| == 1
      && Scheduling.TodosForDate(added, "2024-03-15") == added
      && toggled[0].completed
      && deleted == []
      && Scheduling.TodosForDate(deleted, "2024-03-15") == []
  {
    assert !Text.IsJsWhitespace("Write report"[0]);
    TodoLifecycle("Write report", "2024-03-15", id);
  }

  /** A new habit "Read" marked on day `d` has `d` as its only date and a
      count of 1; unmarking it on the same day leaves no dates and 0. */
  lemma ReadHabitScenario(id: int, d: string)
    ensures var h0 := Habits.AddHabit([], "Read", id);
      var h1 := Habits.ToggleHabitToday(h0, id, d);
      var h2 := Habits.ToggleHabitToday(h1, id, d);
      && |h0| == 1 && |h1| == 1 && |h2| == 1
      && h1[0].completedDates == [d] && Habits.Streak(h1[0]) == 1
      && h2[0].completedDates == [] && Habits.Streak(h2[0]) == 0
  {
    assert !Text.IsJsWhitespace("Read"[0]);
    var h0 := Habits.AddHabit([], "Read", id);
    var h1 := Habits.ToggleHabitToday(h0, id, d);
    assert h1[0].completedDates == [] + [d];
    assert d in h1[0].completedDates;
  }
}
