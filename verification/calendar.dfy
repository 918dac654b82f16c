/** The calendar resolver: which dates of an inclusive range are workdays.
    Dates are proleptic Gregorian ordinals (0001-01-01 is day 1, a Monday),
    so the weekday of a date is arithmetic on its ordinal. */
module Calendar {

  import opened Basics

  type Date = int

  /** The day of the week, Monday 0 through Sunday 6. */
  function Weekday(d: Date): int
  {
    (d + 6) % 7
  }

  const Sunday: int := 6

  /** The three holiday rules found in the program:
      - CalendarHolidays (app.py): public holidays are days off;
      - SelectedAndCalendar (allocation.py): public holidays and the
        explicitly selected holidays are days off;
      - SelectedOnly (allocation_job.py): only the explicitly selected
        holidays are days off, a public holiday alone is worked. */
  datatype HolidayPolicy = CalendarHolidays | SelectedAndCalendar | SelectedOnly

  /** Monday to Saturday, and not a day off under the policy. */
  predicate IsWorkday(policy: HolidayPolicy, d: Date, selected: set<Date>, calendar: set<Date>)
  {
    && Weekday(d) < 6
    && match policy
       case CalendarHolidays => d !in calendar
       case SelectedAndCalendar => d !in selected && d !in calendar
       case SelectedOnly => d !in selected
  }

  /** The workdays of the inclusive range [start, end], in calendar order. */
  function Workdays(policy: HolidayPolicy, start: Date, end: Date, selected: set<Date>, calendar: set<Date>)
    : (r: seq<Date>)
    ensures forall i | 0 <= i < |r| :: start <= r[i] <= end && IsWorkday(policy, r[i], selected, calendar)
    ensures forall d | start <= d <= end && IsWorkday(policy, d, selected, calendar) :: d in r
    ensures forall i, j | 0 <= i < j < |r| :: r[i] < r[j]
    ensures start > end ==> r == []
    decreases end - start
  {
    if start > end then []
    else
      var rest := Workdays(policy, start + 1, end, selected, calendar);
      if IsWorkday(policy, start, selected, calendar) then [start] + rest else rest
  }

  /** Sunday is never a workday, and the combined rule of allocation.py
      excludes exactly what either of the other two rules excludes. */
  lemma WorkdayPolicies(d: Date, selected: set<Date>, calendar: set<Date>)
    ensures Weekday(d) == Sunday ==>
              forall p: HolidayPolicy :: !IsWorkday(p, d, selected, calendar)
    ensures IsWorkday(SelectedAndCalendar, d, selected, calendar) <==>
              IsWorkday(SelectedOnly, d, selected, calendar) && IsWorkday(CalendarHolidays, d, selected, calendar)
    ensures IsWorkday(SelectedOnly, d, selected, calendar) == IsWorkday(SelectedOnly, d, selected, {})
    ensures IsWorkday(CalendarHolidays, d, selected, calendar) == IsWorkday(CalendarHolidays, d, {}, calendar)
  {
  }

  /** The combined rule never yields more workdays than the selected-only rule. */
  lemma {:induction false} CombinedRuleHasFewerWorkdays(start: Date, end: Date, selected: set<Date>, calendar: set<Date>)
    ensures IsSubseq(Workdays(SelectedAndCalendar, start, end, selected, calendar),
                     Workdays(SelectedOnly, start, end, selected, calendar))
    ensures |Workdays(SelectedAndCalendar, start, end, selected, calendar)|
            <= |Workdays(SelectedOnly, start, end, selected, calendar)|
    decreases end - start
  {
    if start <= end {
      CombinedRuleHasFewerWorkdays(start + 1, end, selected, calendar);
      var a := Workdays(SelectedAndCalendar, start + 1, end, selected, calendar);
      var b := Workdays(SelectedOnly, start + 1, end, selected, calendar);
      if IsWorkday(SelectedAndCalendar, start, selected, calendar) {
        assert ([start] + a)[1..] == a && ([start] + b)[1..] == b;
      } else if IsWorkday(SelectedOnly, start, selected, calendar) {
        SubseqSkip(a, b, start);
      }
    }
  }

  /** Every run of seven consecutive days without holidays holds six workdays:
      Sunday is the only weekly day off. */
  lemma SevenDaysHoldSixWorkdays(policy: HolidayPolicy, start: Date)
    ensures |Workdays(policy, start, start + 6, {}, {})| == 6
  {
    var end := start + 6;
    assert Workdays(policy, start + 7, end, {}, {}) == [];
    WorkdaysStep(policy, start + 6, end);
    WorkdaysStep(policy, start + 5, end);
    WorkdaysStep(policy, start + 4, end);
    WorkdaysStep(policy, start + 3, end);
    WorkdaysStep(policy, start + 2, end);
    WorkdaysStep(policy, start + 1, end);
    WorkdaysStep(policy, start, end);
    OneSundayAWeek(start);
  }

  /** 1 for a day other than Sunday, 0 for a Sunday. */
  function NotSunday(d: Date): nat
  {
    if Weekday(d) < 6 then 1 else 0
  }

  /** Among seven consecutive days exactly one is a Sunday. */
  lemma OneSundayAWeek(d: Date)
    ensures NotSunday(d) + NotSunday(d + 1) + NotSunday(d + 2) + NotSunday(d + 3)
            + NotSunday(d + 4) + NotSunday(d + 5) + NotSunday(d + 6) == 6
  {
    var q := (d + 6) / 7;
    var w := Weekday(d);
    assert d + 6 == 7 * q + w;
    WeekdayShift(d, 1);
    WeekdayShift(d, 2);
    WeekdayShift(d, 3);
    WeekdayShift(d, 4);
    WeekdayShift(d, 5);
    WeekdayShift(d, 6);
  }

  /** Without holidays, a day of the range is counted exactly when it is
      not a Sunday. */
  lemma WorkdaysStep(policy: HolidayPolicy, d: Date, end: Date)
    requires d <= end
    ensures |Workdays(policy, d, end, {}, {})| == |Workdays(policy, d + 1, end, {}, {})| + NotSunday(d)
  {
    var rest := Workdays(policy, d + 1, end, {}, {});
    assert Workdays(policy, d, end, {}, {}) == if IsWorkday(policy, d, {}, {}) then [d] + rest else rest;
  }

  lemma WeekdayShift(d: Date, k: int)
    requires 0 <= k < 7
    ensures Weekday(d + k) == if Weekday(d) + k < 7 then Weekday(d) + k else Weekday(d) + k - 7
  {
    var q := (d + 6) / 7;
    assert d + 6 == 7 * q + Weekday(d);
    if Weekday(d) + k < 7 {
      assert d + k + 6 == 7 * q + (Weekday(d) + k);
    } else {
      assert d + k + 6 == 7 * (q + 1) + (Weekday(d) + k - 7);
    }
  }
}
