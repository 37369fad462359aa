/**
 * The opening-hours calendar of the selected precinct: the month map built
 * from its weekly hours, the month's counts, the selected day's details,
 * month navigation and the grid of cells.
 */
module Hours {
  import opened Wrappers
  import opened Records
  import opened Calendar

  /** One day of the month map. */
  datatype DayEntry = DayEntry(isOpen: bool, hours: string)

  /**
   * `precinctMonthSchedule`: with no opening hours the map is empty;
   * otherwise day `d` is present exactly when the weekly hours have an
   * entry for its weekday, and copies that entry.
   */
  method PrecinctMonthSchedule(year: int, month: Month, openingHours: seq<DayHours>) returns (result: map<int, DayEntry>)
    ensures |openingHours| == 0 ==> result == map[]
    ensures |openingHours| > 0 ==> forall day :: day in result <==>
      1 <= day <= DaysInMonth(year, month) && Weekday(Date(year, month, day)) < |openingHours|
    ensures forall day :: day in result ==>
      var h := openingHours[Weekday(Date(year, month, day))];
      result[day] == DayEntry(h.isOpen, h.hours)
  {
    result := map[];
    if |openingHours| == 0 {
      return;
    }
    var daysInMonth := DaysInMonth(year, month);
    for day := 1 to daysInMonth + 1
      invariant forall d :: d in result <==> 1 <= d < day && Weekday(Date(year, month, d)) < |openingHours|
      invariant forall d :: d in result ==>
        result[d] == DayEntry(openingHours[Weekday(Date(year, month, d))].isOpen, openingHours[Weekday(Date(year, month, d))].hours)
    {
      var dayOfWeek := Weekday(Date(year, month, day));
      if dayOfWeek < |openingHours| {
        var dayHours := openingHours[dayOfWeek];
        result := result[day := DayEntry(dayHours.isOpen, dayHours.hours)];
      }
    }
  }

  datatype Stats = Stats(open: nat, closed: nat, total: nat)

  /** The days of the map on which the precinct is open (or closed). */
  function DaysWith(schedule: map<int, DayEntry>, isOpen: bool): set<int> {
    set day | day in schedule && schedule[day].isOpen == isOpen
  }

  /** `stats`: with no hours data, zero counts over the month's length; otherwise counts of the map's entries. */
  function MonthStats(schedule: map<int, DayEntry>, hasHoursData: bool, daysInMonth: nat): Stats {
    if !hasHoursData then Stats(0, 0, daysInMonth)
    else Stats(|DaysWith(schedule, true)|, |DaysWith(schedule, false)|, |schedule|)
  }

  /** With hours data, open and closed days partition the map's entries. */
  lemma StatsPartition(schedule: map<int, DayEntry>, daysInMonth: nat)
    ensures var st := MonthStats(schedule, true, daysInMonth); st.open + st.closed == st.total
  {
    var a, b := DaysWith(schedule, true), DaysWith(schedule, false);
    assert a + b == schedule.Keys;
    assert a * b == {};
  }

  /** The set `{1, ..., n}`. */
  function DayRange(n: nat): (r: set<int>)
    ensures forall d :: d in r <==> 1 <= d <= n
    ensures |r| == n
  {
    if n == 0 then {} else DayRange(n - 1) + {n}
  }

  /**
   * A precinct with an entry for all seven weekdays has every day of the
   * month in the map, so its total is the month's length.
   */
  lemma FullWeekCoversMonth(year: int, month: Month, openingHours: seq<DayHours>, schedule: map<int, DayEntry>)
    requires |openingHours| >= 7
    requires forall day :: day in schedule <==>
      1 <= day <= DaysInMonth(year, month) && Weekday(Date(year, month, day)) < |openingHours|
    ensures MonthStats(schedule, true, DaysInMonth(year, month)).total == DaysInMonth(year, month)
  {
    var n := DaysInMonth(year, month);
    forall d ensures d in schedule <==> 1 <= d <= n {
      var w := Weekday(Date(year, month, d));
      assert w < |openingHours|;
    }
    MonthKeysCount(schedule, n);
  }

  /** A map whose keys are exactly the days 1..n has n entries. */
  lemma MonthKeysCount(schedule: map<int, DayEntry>, n: nat)
    requires forall d :: d in schedule <==> 1 <= d <= n
    ensures |schedule| == n
  {
    assert schedule.Keys == DayRange(n);
  }

  /** What the page shows for the selected day. */
  datatype DayInfo = DayInfo(dayName: string, isOpen: bool, hours: string)

  const DayNames: seq<string> := ["Sunday", "Monday", "Tuesday", "Wednesday", "Thursday", "Friday", "Saturday"]

  /**
   * `selectedDayInfo`: a day missing from the map counts as open; a day
   * with no (or empty) hours text shows "No data" when the precinct has
   * hours and "Hours not loaded yet" otherwise.
   */
  function SelectedDayInfo(year: int, month: Month, selectedDay: Option<int>, schedule: map<int, DayEntry>, hasHoursData: bool): (r: Option<DayInfo>)
    ensures r.None? <==> selectedDay.None?
    ensures r.Some? ==> r.value.dayName == DayNames[Weekday(Date(year, month, selectedDay.value))]
    ensures r.Some? && selectedDay.value !in schedule ==> r.value.isOpen
    ensures r.Some? && selectedDay.value in schedule ==> r.value.isOpen == schedule[selectedDay.value].isOpen
    ensures r.Some? && selectedDay.value in schedule && schedule[selectedDay.value].hours != "" ==> r.value.hours == schedule[selectedDay.value].hours
    ensures r.Some? && (selectedDay.value !in schedule || schedule[selectedDay.value].hours == "") ==>
      r.value.hours == (if hasHoursData then "No data" else "Hours not loaded yet")
  {
    if selectedDay.None? then None
    else
      var day := selectedDay.value;
      var info := if day in schedule then Some(schedule[day]) else None;
      Some(DayInfo(
        DayNames[Weekday(Date(year, month, day))],
        if info.Some? then info.value.isOpen else true,
        if info.Some? && info.value.hours != "" then info.value.hours
        else if hasHoursData then "No data" else "Hours not loaded yet"))
  }

  /** A shown month: `currentDate` always sits on some day of it; only the year and month matter. */
  datatype YearMonth = YearMonth(year: int, month: Month)

  /** `previousMonth`: day 1 of the month before, wrapping January back to December of the previous year. */
  function PreviousMonth(ym: YearMonth): (r: YearMonth)
    ensures ym.month > 0 ==> r == YearMonth(ym.year, ym.month - 1)
    ensures ym.month == 0 ==> r == YearMonth(ym.year - 1, 11)
  {
    if ym.month == 0 then YearMonth(ym.year - 1, 11) else YearMonth(ym.year, ym.month - 1)
  }

  /** `nextMonth`: day 1 of the month after, wrapping December on to January of the next year. */
  function NextMonth(ym: YearMonth): (r: YearMonth)
    ensures ym.month < 11 ==> r == YearMonth(ym.year, ym.month + 1)
    ensures ym.month == 11 ==> r == YearMonth(ym.year + 1, 0)
  {
    if ym.month == 11 then YearMonth(ym.year + 1, 0) else YearMonth(ym.year, ym.month + 1)
  }

  /** Stepping back and then forward (or forward then back) returns to the same month. */
  lemma MonthNavigationRoundTrip(ym: YearMonth)
    ensures NextMonth(PreviousMonth(ym)) == ym
    ensures PreviousMonth(NextMonth(ym)) == ym
  {
  }

  /** The first day of a shown month is the day after the last day of the month before. */
  lemma NextMonthFollowsOn(ym: YearMonth)
    ensures var n := NextMonth(ym);
      DayNumber(Date(n.year, n.month, 1)) == DayNumber(Date(ym.year, ym.month, DaysInMonth(ym.year, ym.month))) + 1
  {
    NextDateAdvancesOne(Date(ym.year, ym.month, DaysInMonth(ym.year, ym.month)));
  }

  /** The selected day after a month change: today's date in the current month, else the 1st. */
  function InitialSelectedDay(today: Date, ym: YearMonth): (day: int)
    ensures today.year == ym.year && today.month == ym.month ==> day == today.day
    ensures today.year != ym.year || today.month != ym.month ==> day == 1
  {
    if today.year == ym.year && today.month == ym.month then today.day else 1
  }

  datatype CellStatus = Open | Off | NoHours

  datatype Cell = Blank | DayCell(day: int, status: CellStatus)

  /** A day's status in the grid: an absent day counts as open. */
  function StatusOf(schedule: map<int, DayEntry>, hasHoursData: bool, day: int): CellStatus {
    if !hasHoursData then NoHours
    else if day !in schedule || schedule[day].isOpen then Open
    else Off
  }

  /**
   * `renderCalendar`: one blank cell per weekday before the 1st, then one
   * cell per day of the month in order.
   */
  method RenderCalendar(ym: YearMonth, schedule: map<int, DayEntry>, hasHoursData: bool) returns (cells: seq<Cell>)
    ensures var firstDay := Weekday(Date(ym.year, ym.month, 1));
      && |cells| == firstDay + DaysInMonth(ym.year, ym.month)
      && (forall i :: 0 <= i < firstDay ==> cells[i] == Blank)
      && (forall i :: firstDay <= i < |cells| ==>
            cells[i] == DayCell(i - firstDay + 1, StatusOf(schedule, hasHoursData, i - firstDay + 1)))
  {
    var daysInMonth := DaysInMonth(ym.year, ym.month);
    var firstDay := Weekday(Date(ym.year, ym.month, 1));
    cells := [];
    for i := 0 to firstDay
      invariant |cells| == i
      invariant forall k :: 0 <= k < i ==> cells[k] == Blank
    {
      cells := cells + [Blank];
    }
    for day := 1 to daysInMonth + 1
      invariant |cells| == firstDay + day - 1
      invariant forall k :: 0 <= k < firstDay ==> cells[k] == Blank
      invariant forall k :: firstDay <= k < |cells| ==>
        cells[k] == DayCell(k - firstDay + 1, StatusOf(schedule, hasHoursData, k - firstDay + 1))
    {
      cells := cells + [DayCell(day, StatusOf(schedule, hasHoursData, day))];
    }
  }
}
