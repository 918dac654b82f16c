/** The availability filter and the per-day crew lists it works on: who is
    on vacation on a date, who of a crew is left, and the day-to-crew
    schedule that the zone allocators start from. */
module Availability {

  import opened Basics
  import opened Calendar

  /** Date to the workers on vacation that day; a missing date means nobody. */
  type Vacations = map<Date, set<Worker>>

  function OffOn(vacations: Vacations, d: Date): set<Worker>
  {
    if d in vacations then vacations[d] else {}
  }

  /** The members of `roster` not on vacation on `d`, in roster order. */
  function Available(roster: seq<Worker>, vacations: Vacations, d: Date): (r: seq<Worker>)
    ensures forall w :: w in r <==> w in roster && w !in OffOn(vacations, d)
  {
    Without(roster, OffOn(vacations, d))
  }

  /** Every roster entry of a member not on vacation is kept, as often as
      the roster lists it, and every entry of a vacationer is dropped. */
  lemma AvailableMultiplicity(roster: seq<Worker>, vacations: Vacations, d: Date, w: Worker)
    ensures multiset(Available(roster, vacations, d))[w]
            == if w in OffOn(vacations, d) then 0 else multiset(roster)[w]
  {
    WithoutMultiplicity(roster, OffOn(vacations, d), w);
  }

  /** The available members keep their roster order, and a roster without
      repeats gives a list without repeats. */
  lemma AvailableKeepsOrder(roster: seq<Worker>, vacations: Vacations, d: Date)
    ensures IsSubseq(Available(roster, vacations, d), roster)
    ensures NoDup(roster) ==> NoDup(Available(roster, vacations, d))
  {
    WithoutKeepsOrder(roster, OffOn(vacations, d));
  }

  /** One entry of a day-to-workers schedule. */
  datatype DayCrew = DayCrew(day: Date, crew: seq<Worker>)

  /** Days listed in strictly increasing order (so also without repetition). */
  predicate Chronological(s: seq<DayCrew>)
  {
    forall i, j | 0 <= i < j < |s| :: s[i].day < s[j].day
  }

  /** The zone planner's starting schedule: every workday of [start, end]
      under the public-holiday rule, each with a copy of the whole roster. */
  function GenerateSchedule(start: Date, end: Date, roster: seq<Worker>, calendar: set<Date>)
    : (r: seq<DayCrew>)
    ensures forall i | 0 <= i < |r| ::
              && r[i].crew == roster
              && start <= r[i].day <= end
              && IsWorkday(CalendarHolidays, r[i].day, {}, calendar)
    ensures forall d | start <= d <= end && IsWorkday(CalendarHolidays, d, {}, calendar) ::
              DayCrew(d, roster) in r
    ensures Chronological(r)
    ensures start > end ==> r == []
  {
    var days := Workdays(CalendarHolidays, start, end, {}, calendar);
    var r := seq(|days|, i requires 0 <= i < |days| => DayCrew(days[i], roster));
    assert forall d | start <= d <= end && IsWorkday(CalendarHolidays, d, {}, calendar) ::
             exists i | 0 <= i < |days| :: days[i] == d && r[i] == DayCrew(d, roster);
    r
  }

  /** A day's crew with the vacationers of that day removed. */
  function Restrict(c: DayCrew, vacations: Vacations): DayCrew
  {
    DayCrew(c.day, Available(c.crew, vacations, c.day))
  }

  /** The schedule with vacationers removed from every day, and the days on
      which nobody is left dropped. */
  function FilterSchedule(s: seq<DayCrew>, vacations: Vacations): (r: seq<DayCrew>)
    ensures forall c | c in r :: c.crew != []
    ensures |r| <= |s|
  {
    if s == [] then []
    else
      var head := Restrict(s[0], vacations);
      if head.crew != [] then [head] + FilterSchedule(s[1..], vacations)
      else FilterSchedule(s[1..], vacations)
  }

  /** Every kept day is an input day with its vacationers removed, and no one
      kept is on vacation that day. */
  lemma {:induction false} FilterScheduleSound(s: seq<DayCrew>, vacations: Vacations, c: DayCrew)
    requires c in FilterSchedule(s, vacations)
    ensures exists j | 0 <= j < |s| :: c == Restrict(s[j], vacations)
    ensures forall w | w in c.crew :: w !in OffOn(vacations, c.day)
  {
    var head := Restrict(s[0], vacations);
    if head.crew != [] && c == head {
      assert c == Restrict(s[0], vacations);
    } else {
      FilterScheduleSound(s[1..], vacations, c);
      var j :| 0 <= j < |s[1..]| && c == Restrict(s[1..][j], vacations);
      assert c == Restrict(s[j + 1], vacations);
    }
  }

  /** Every input day on which somebody is left is kept. */
  lemma {:induction false} FilterScheduleComplete(s: seq<DayCrew>, vacations: Vacations, j: nat)
    requires j < |s|
    requires Restrict(s[j], vacations).crew != []
    ensures Restrict(s[j], vacations) in FilterSchedule(s, vacations)
  {
    if j > 0 {
      FilterScheduleComplete(s[1..], vacations, j - 1);
      assert s[1..][j - 1] == s[j];
    }
  }

  /** Every day of the schedule with its vacationers removed, none dropped. */
  function RestrictAll(s: seq<DayCrew>, vacations: Vacations): (r: seq<DayCrew>)
    ensures |r| == |s|
    ensures forall j | 0 <= j < |s| :: r[j] == Restrict(s[j], vacations)
  {
    if s == [] then []
    else [Restrict(s[0], vacations)] + RestrictAll(s[1..], vacations)
  }

  /** Filtering keeps the kept days in the order the input lists them,
      whatever that order is: the result is obtained from the restricted
      days by deleting some of them. */
  lemma {:induction false} FilterScheduleKeepsOrder(s: seq<DayCrew>, vacations: Vacations)
    ensures IsSubseq(FilterSchedule(s, vacations), RestrictAll(s, vacations))
  {
    if s != [] {
      FilterScheduleKeepsOrder(s[1..], vacations);
      var head := Restrict(s[0], vacations);
      var rest := FilterSchedule(s[1..], vacations);
      assert RestrictAll(s, vacations) == [head] + RestrictAll(s[1..], vacations);
      if head.crew != [] {
        assert ([head] + rest)[1..] == rest;
        assert ([head] + RestrictAll(s[1..], vacations))[1..] == RestrictAll(s[1..], vacations);
      } else {
        SubseqSkip(rest, RestrictAll(s[1..], vacations), head);
      }
    }
  }

  /** A schedule listed in increasing date order stays so after filtering. */
  lemma {:induction false} FilterScheduleChronological(s: seq<DayCrew>, vacations: Vacations)
    requires Chronological(s)
    ensures Chronological(FilterSchedule(s, vacations))
  {
    if s != [] {
      FilterScheduleChronological(s[1..], vacations);
      var rest := FilterSchedule(s[1..], vacations);
      forall c | c in rest
        ensures s[0].day < c.day
      {
        FilterScheduleSound(s[1..], vacations, c);
      }
    }
  }
}
