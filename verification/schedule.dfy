/**
 * The regular-day-off (RDO) engine: which days of a month a squad is off,
 * under a rotating cycle anchored at a date or a fixed weekly pattern.
 */
module Schedule {
  import opened Wrappers
  import opened Calendar

  datatype PatternType = Rotating | Steady

  /**
   * An RDO schedule. `anchor` is the parsed `anchorDate`; a pattern entry
   * `"O"` marks an off day.
   */
  datatype RdoSchedule = RdoSchedule(
    patternType: PatternType,
    cycleLength: int,
    patternArray: seq<string>,
    anchor: Date,
    squadOffset: int)

  /** JavaScript's `%`: the remainder takes the sign of the dividend; `None` (NaN) for a zero divisor. */
  function JsRem(a: int, b: int): (r: Option<int>)
    ensures b == 0 <==> r.None?
    ensures r.Some? ==> (a >= 0 ==> 0 <= r.value) && (a < 0 ==> r.value <= 0)
    ensures r.Some? ==> -Abs(b) < r.value < Abs(b)
  {
    if b == 0 then None
    else if a >= 0 then Some(a % Abs(b))
    else Some(-((-a) % Abs(b)))
  }

  function Abs(x: int): int { if x < 0 then -x else x }

  /** `patternArray[index] === 'O'`; an index outside the array reads `undefined`. */
  predicate IsOffCode(patternArray: seq<string>, index: int) {
    0 <= index < |patternArray| && patternArray[index] == "O"
  }

  /** Whole days from the anchor to the target date. */
  function DiffDays(s: RdoSchedule, target: Date): int {
    DayNumber(target) - DayNumber(s.anchor)
  }

  /** The rotating cycle position: the truncated remainder, moved up by one cycle when negative. */
  function DayIndex(s: RdoSchedule, target: Date): Option<int> {
    match JsRem(DiffDays(s, target) + s.squadOffset, s.cycleLength)
    case None => None
    case Some(r) => Some(if r < 0 then r + s.cycleLength else r)
  }

  /** Whether the squad is off on `target`. */
  predicate IsOffDay(s: RdoSchedule, target: Date) {
    match s.patternType
    case Rotating => DayIndex(s, target).Some? && IsOffCode(s.patternArray, DayIndex(s, target).value)
    case Steady => IsOffCode(s.patternArray, Weekday(target))
  }

  /**
   * With a positive cycle length the position always lies in
   * [0, cycleLength), also for dates before the anchor: it is the
   * Euclidean remainder of the anchor-relative day count.
   */
  lemma DayIndexInCycle(s: RdoSchedule, target: Date)
    requires s.cycleLength > 0
    ensures DayIndex(s, target).Some?
    ensures 0 <= DayIndex(s, target).value < s.cycleLength
    ensures DayIndex(s, target).value == (DiffDays(s, target) + s.squadOffset) % s.cycleLength
  {
    WrappedRemainder(DiffDays(s, target) + s.squadOffset, s.cycleLength);
  }

  /** The truncated remainder, moved up by `c` when negative, is the Euclidean remainder. */
  lemma WrappedRemainder(a: int, c: int)
    requires c > 0
    ensures JsRem(a, c).Some?
    ensures var r := JsRem(a, c).value; (if r < 0 then r + c else r) == a % c
  {
    if a < 0 {
      var q := (-a) / c;
      var r := (-a) % c;
      assert -a == q * c + r;
      if r == 0 {
        assert a == (-q) * c + 0;
        ModUnique(a, c, -q, 0);
      } else {
        assert a == (-q - 1) * c + (c - r);
        ModUnique(a, c, -q - 1, c - r);
      }
    }
  }

  /**
   * The rotating cycle does not drift: the next calendar day is one step
   * further in the cycle, across month and year ends.
   */
  lemma RotatingNoDrift(s: RdoSchedule, d: Date)
    requires s.cycleLength > 0 && ValidDate(d)
    ensures DayIndex(s, NextDate(d)).Some? && DayIndex(s, d).Some?
    ensures DayIndex(s, NextDate(d)).value == (DayIndex(s, d).value + 1) % s.cycleLength
  {
    DayIndexInCycle(s, d);
    DayIndexInCycle(s, NextDate(d));
    NextDateAdvancesOne(d);
    var a := DiffDays(s, d) + s.squadOffset;
    ModStep(a, s.cycleLength);
  }

  lemma ModStep(a: int, c: int)
    requires c > 0
    ensures (a + 1) % c == (a % c + 1) % c
  {
    var q, r := a / c, a % c;
    assert a == q * c + r;
    if r + 1 < c {
      ModUnique(a + 1, c, q, r + 1);
      ModUnique(r + 1, c, 0, r + 1);
    } else {
      assert a + 1 == (q + 1) * c + 0;
      ModUnique(a + 1, c, q + 1, 0);
      ModUnique(r + 1, c, 1, 0);
    }
  }

  /** A steady pattern depends only on the weekday, so it repeats every week. */
  lemma SteadyIsWeekly(s: RdoSchedule, d: Date, e: Date)
    requires s.patternType == Steady
    requires DayNumber(e) == DayNumber(d) + 7
    ensures IsOffDay(s, e) == IsOffDay(s, d)
  {
  }

  /** A zero cycle length yields NaN positions, and no day is off. */
  lemma ZeroCycleNeverOff(s: RdoSchedule, target: Date)
    requires s.patternType == Rotating && s.cycleLength == 0
    ensures !IsOffDay(s, target)
  {
  }

  /**
   * `computeMonthSchedule`: one entry per day of the month, keyed 1 to the
   * month's length, `true` for an off day.
   */
  method ComputeMonthSchedule(year: int, month: Month, s: RdoSchedule) returns (result: map<int, bool>)
    ensures forall day :: day in result <==> 1 <= day <= DaysInMonth(year, month)
    ensures forall day :: 1 <= day <= DaysInMonth(year, month) ==> result[day] == IsOffDay(s, Date(year, month, day))
  {
    result := map[];
    var daysInMonth := DaysInMonth(year, month);
    var anchorNumber := DayNumber(s.anchor);
    for day := 1 to daysInMonth + 1
      invariant forall d :: d in result <==> 1 <= d < day
      invariant forall d :: 1 <= d < day ==> result[d] == IsOffDay(s, Date(year, month, d))
    {
      var target := Date(year, month, day);
      var diffDays := DayNumber(target) - anchorNumber;
      if s.patternType == Rotating {
        var rem := JsRem(diffDays + s.squadOffset, s.cycleLength);
        if rem.None? {
          result := result[day := false];
        } else {
          var dayIndex := rem.value;
          if dayIndex < 0 {
            dayIndex := dayIndex + s.cycleLength;
          }
          result := result[day := IsOffCode(s.patternArray, dayIndex)];
        }
      } else {
        result := result[day := IsOffCode(s.patternArray, Weekday(target))];
      }
    }
  }

  /** The weekend pattern `O X X X X X O` in January 2024: the 6th and 7th are off, the 1st to 5th on duty. */
  lemma WeekendPatternJanuary2024(anchor: Date)
    ensures var s := RdoSchedule(Steady, 7, ["O", "X", "X", "X", "X", "X", "O"], anchor, 0);
      && IsOffDay(s, Date(2024, 0, 6)) && IsOffDay(s, Date(2024, 0, 7))
      && !IsOffDay(s, Date(2024, 0, 1)) && !IsOffDay(s, Date(2024, 0, 2)) && !IsOffDay(s, Date(2024, 0, 3))
      && !IsOffDay(s, Date(2024, 0, 4)) && !IsOffDay(s, Date(2024, 0, 5))
  {
    FirstWeekOf2024();
    var s := RdoSchedule(Steady, 7, ["O", "X", "X", "X", "X", "X", "O"], anchor, 0);
    assert s.patternArray[0] == "O" && s.patternArray[6] == "O";
    assert s.patternArray[1] != "O" && s.patternArray[2] != "O" && s.patternArray[3] != "O";
    assert s.patternArray[4] != "O" && s.patternArray[5] != "O";
  }
}
