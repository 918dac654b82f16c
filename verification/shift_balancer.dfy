/** The greedy shift balancer of allocation.py: every workday has a morning
    and an afternoon slot; each slot, in that order, goes to the available
    member with the fewest shifts of that kind, then the fewest shifts in
    all, the earlier roster member winning a tie. A day with nobody available
    keeps both slots empty. */
module ShiftBalancer {

  import opened Basics
  import opened Calendar
  import opened Availability

  datatype Shift = Morning | Afternoon

  /** `member_shifts`: how many mornings and afternoons each member has
      been given so far. */
  datatype Tallies = Tallies(morning: Counter, afternoon: Counter) {

    function Of(s: Shift, w: Worker): nat
    {
      match s
      case Morning => Get(morning, w)
      case Afternoon => Get(afternoon, w)
    }

    function Total(w: Worker): nat
    {
      Get(morning, w) + Get(afternoon, w)
    }

    /** One more shift of kind `s` for `w`. */
    function Record(w: Worker, s: Shift): (r: Tallies)
      ensures r.Of(s, w) == Of(s, w) + 1
      ensures forall v, s' | v != w || s' != s :: r.Of(s', v) == Of(s', v)
    {
      match s
      case Morning => Tallies(Bump(morning, w), afternoon)
      case Afternoon => Tallies(morning, Bump(afternoon, w))
    }

    predicate HasKeys(members: set<Worker>)
    {
      morning.Keys == members && afternoon.Keys == members
    }
  }

  /** The starting tallies: every roster member with no morning and no afternoon. */
  function NoShifts(roster: seq<Worker>): (r: Tallies)
    ensures r.HasKeys(Elems(roster))
    ensures forall s, w :: r.Of(s, w) == 0
  {
    Tallies(Zeroes(roster), Zeroes(roster))
  }

  /** `x` sorts strictly before `y` under the key (count of slot s, total count). */
  predicate Before(t: Tallies, s: Shift, x: Worker, y: Worker)
  {
    t.Of(s, x) < t.Of(s, y) || (t.Of(s, x) == t.Of(s, y) && t.Total(x) < t.Total(y))
  }

  /** Index `k` is where a stable sort by the key puts its first element:
      nobody sorts strictly before `avail[k]`, and everybody listed earlier
      sorts strictly after it. */
  predicate FirstMinimum(avail: seq<Worker>, t: Tallies, s: Shift, k: nat)
  {
    && k < |avail|
    && (forall j | 0 <= j < |avail| :: !Before(t, s, avail[j], avail[k]))
    && (forall j | 0 <= j < k :: Before(t, s, avail[k], avail[j]))
  }

  /** The position of the member a stable sort by the key puts first. */
  function PickIndex(avail: seq<Worker>, t: Tallies, s: Shift): (k: nat)
    requires |avail| > 0
    ensures FirstMinimum(avail, t, s, k)
    decreases |avail|
  {
    if |avail| == 1 then 0
    else
      var last := |avail| - 1;
      var k := PickIndex(avail[..last], t, s);
      assert forall j | 0 <= j < last :: avail[..last][j] == avail[j];
      if Before(t, s, avail[last], avail[k]) then last else k
  }

  /** The member picked for slot `s`. */
  function Pick(avail: seq<Worker>, t: Tallies, s: Shift): (w: Worker)
    requires |avail| > 0
    ensures w in avail
    ensures exists k: nat | FirstMinimum(avail, t, s, k) :: avail[k] == w
  {
    avail[PickIndex(avail, t, s)]
  }

  /** The two slots of one day; `None` is the empty string of the source. */
  datatype ShiftDay = ShiftDay(date: Date, morning: Option<Worker>, afternoon: Option<Worker>) {

    function Slot(s: Shift): Option<Worker>
    {
      match s
      case Morning => morning
      case Afternoon => afternoon
    }

    /** The number of slots of this day that were given to somebody. */
    function Filled(): nat
    {
      (if morning.Some? then 1 else 0) + (if afternoon.Some? then 1 else 0)
    }
  }

  /** One day of the balancer: both slots are filled from the same list of
      available members, the morning first, and the counters move at once. */
  function PlanDay(date: Date, avail: seq<Worker>, t: Tallies): (r: (ShiftDay, Tallies))
    ensures r.0.date == date
    ensures SlotsFromAvailable(r.0, avail)
    ensures avail == [] ==> r.1 == t
    ensures avail != [] ==>
              && r.0.morning == Some(Pick(avail, t, Morning))
              && r.0.afternoon == Some(Pick(avail, t.Record(r.0.morning.value, Morning), Afternoon))
              && r.1 == t.Record(r.0.morning.value, Morning).Record(r.0.afternoon.value, Afternoon)
  {
    if avail == [] then (ShiftDay(date, None, None), t)
    else
      var m := Pick(avail, t, Morning);
      var t1 := t.Record(m, Morning);
      var a := Pick(avail, t1, Afternoon);
      (ShiftDay(date, Some(m), Some(a)), t1.Record(a, Afternoon))
  }

  /** A day moves each member's count of a slot kind by one exactly when it
      gives that slot to the member. */
  lemma PlanDayCounts(date: Date, avail: seq<Worker>, t: Tallies, w: Worker, s: Shift)
    ensures PlanDay(date, avail, t).1.Of(s, w) == t.Of(s, w) + (if PlanDay(date, avail, t).0.Slot(s) == Some(w) then 1 else 0)
  {
  }

  /** The balancer's pass over the workdays, in order, threading the counters. */
  function PlanDays(days: seq<Date>, roster: seq<Worker>, vacations: Vacations, t: Tallies)
    : (r: (seq<ShiftDay>, Tallies))
    ensures |r.0| == |days|
    decreases |days|
  {
    if days == [] then ([], t)
    else
      var d := PlanDay(days[0], Available(roster, vacations, days[0]), t);
      var rest := PlanDays(days[1..], roster, vacations, d.1);
      ([d.0] + rest.0, rest.1)
  }

  /** Record `i` of the pass is the plan of workday `i`, with that day's
      available members, for exactly the tallies the pass over the earlier
      workdays leaves behind; the earlier records are that pass's records. */
  lemma {:induction false} PlanDaysPrefix(days: seq<Date>, roster: seq<Worker>, vacations: Vacations, t: Tallies, i: nat)
    requires i < |days|
    ensures var r := PlanDays(days, roster, vacations, t);
            var before := PlanDays(days[..i], roster, vacations, t);
      && r.0[..i] == before.0
      && r.0[i] == PlanDay(days[i], Available(roster, vacations, days[i]), before.1).0
    decreases |days|
  {
    var d := PlanDay(days[0], Available(roster, vacations, days[0]), t);
    var rest := PlanDays(days[1..], roster, vacations, d.1);
    assert PlanDays(days, roster, vacations, t).0 == [d.0] + rest.0;
    if i == 0 {
      assert days[..0] == [];
    } else {
      PlanDaysPrefix(days[1..], roster, vacations, d.1, i - 1);
      PrefixOfTail(days, i);
      PrefixOfCons(d.0, rest.0, i);
    }
  }

  /** Record `i` of the pass is dated workday `i`, and its slots come from
      the members available that day. */
  lemma PlanDaysRecords(days: seq<Date>, roster: seq<Worker>, vacations: Vacations, t: Tallies, i: nat)
    requires i < |days|
    ensures PlanDays(days, roster, vacations, t).0[i].date == days[i]
    ensures SlotsFromAvailable(PlanDays(days, roster, vacations, t).0[i], Available(roster, vacations, days[i]))
  {
    PlanDaysPrefix(days, roster, vacations, t, i);
  }

  /** Both slots are empty exactly when nobody is available, a filled slot
      holds an available member, and a lone available member takes both. */
  predicate SlotsFromAvailable(d: ShiftDay, avail: seq<Worker>)
  {
    && (avail == [] <==> d.morning.None?)
    && (avail == [] <==> d.afternoon.None?)
    && (d.morning.Some? ==> d.morning.value in avail)
    && (d.afternoon.Some? ==> d.afternoon.value in avail)
    && (|avail| == 1 ==> d.morning == d.afternoon)
  }

  /** The number of days whose slot `s` went to `w`. */
  function Served(schedule: seq<ShiftDay>, w: Worker, s: Shift): nat
  {
    if schedule == [] then 0
    else (if schedule[0].Slot(s) == Some(w) then 1 else 0) + Served(schedule[1..], w, s)
  }

  /** The tallies a schedule stands for: each roster member's count of a
      slot kind is the number of its days on which that slot went to it. */
  function History(schedule: seq<ShiftDay>, roster: seq<Worker>): (t: Tallies)
    ensures t.HasKeys(Elems(roster))
  {
    Tallies(map w | w in Elems(roster) :: Served(schedule, w, Morning),
            map w | w in Elems(roster) :: Served(schedule, w, Afternoon))
  }

  /** The number of slots given to anybody over the whole schedule. */
  function FilledSlots(schedule: seq<ShiftDay>): nat
  {
    if schedule == [] then 0 else schedule[0].Filled() + FilledSlots(schedule[1..])
  }

  /** The sum of all members' shift totals, for tallies whose keys are the
      members of `members`. */
  function SumTotals(members: seq<Worker>, t: Tallies): nat
  {
    if members == [] then 0 else t.Total(members[0]) + SumTotals(members[1..], t)
  }

  /** The result of `solve_environment_team_schedule`. */
  datatype ShiftPlan = ShiftPlan(schedule: seq<ShiftDay>, tallies: Tallies, target: nat)

  /** The whole balancer: workdays exclude Sundays, the selected holidays and
      the public holidays; the target is the floor of all assigned shifts per
      roster entry. An empty roster makes the source divide by zero. */
  function Solve(start: Date, end: Date, roster: seq<Worker>, vacations: Vacations,
                 selected: set<Date>, calendar: set<Date>): (r: ShiftPlan)
    requires |roster| > 0
    ensures |r.schedule| == |Workdays(SelectedAndCalendar, start, end, selected, calendar)|
    ensures r.tallies.HasKeys(Elems(roster))
  {
    var days := Workdays(SelectedAndCalendar, start, end, selected, calendar);
    var init := NoShifts(roster);
    var plan := PlanDays(days, roster, vacations, init);
    PlanDaysKeys(days, roster, vacations, init);
    ShiftPlan(plan.0, plan.1, FloorDiv(SumTotals(Distinct(roster), plan.1), |roster|))
  }

  /** The schedule has one record per workday of [start, end], in calendar
      order, and each record's slots come from the members available that day. */
  lemma SolveCoversWorkdays(start: Date, end: Date, roster: seq<Worker>, vacations: Vacations,
                            selected: set<Date>, calendar: set<Date>)
    requires |roster| > 0
    ensures var r := Solve(start, end, roster, vacations, selected, calendar);
      && (forall i | 0 <= i < |r.schedule| ::
            && start <= r.schedule[i].date <= end
            && IsWorkday(SelectedAndCalendar, r.schedule[i].date, selected, calendar)
            && SlotsFromAvailable(r.schedule[i], Available(roster, vacations, r.schedule[i].date)))
      && (forall d | start <= d <= end && IsWorkday(SelectedAndCalendar, d, selected, calendar) ::
            exists i | 0 <= i < |r.schedule| :: r.schedule[i].date == d)
      && (forall i, j | 0 <= i < j < |r.schedule| :: r.schedule[i].date < r.schedule[j].date)
      && (start > end ==> r.schedule == [])
  {
    var days := Workdays(SelectedAndCalendar, start, end, selected, calendar);
    var schedule := Solve(start, end, roster, vacations, selected, calendar).schedule;
    assert schedule == PlanDays(days, roster, vacations, NoShifts(roster)).0;
    forall i | 0 <= i < |days|
      ensures schedule[i].date == days[i]
      ensures SlotsFromAvailable(schedule[i], Available(roster, vacations, days[i]))
    {
      PlanDaysRecords(days, roster, vacations, NoShifts(roster), i);
    }
    forall d | start <= d <= end && IsWorkday(SelectedAndCalendar, d, selected, calendar)
      ensures exists i | 0 <= i < |schedule| :: schedule[i].date == d
    {
      var i :| 0 <= i < |days| && days[i] == d;
      assert schedule[i].date == d;
    }
  }

  /** Record `i` of the run is the plan of its date with that date's
      available members, for the tallies counted from the records before it:
      each slot goes to a member least by (count of that slot, total count)
      over the earlier days, the morning counted before the afternoon. */
  lemma SolveRecord(start: Date, end: Date, roster: seq<Worker>, vacations: Vacations,
                    selected: set<Date>, calendar: set<Date>, i: nat)
    requires |roster| > 0
    requires i < |Solve(start, end, roster, vacations, selected, calendar).schedule|
    ensures var r := Solve(start, end, roster, vacations, selected, calendar);
            r.schedule[i] == PlanDay(r.schedule[i].date, Available(roster, vacations, r.schedule[i].date),
                                     History(r.schedule[..i], roster)).0
  {
    var days := Workdays(SelectedAndCalendar, start, end, selected, calendar);
    var init := NoShifts(roster);
    assert Solve(start, end, roster, vacations, selected, calendar).schedule == PlanDays(days, roster, vacations, init).0;
    PlanDaysPrefix(days, roster, vacations, init, i);
    PlanDaysHistory(days[..i], roster, vacations);
  }

  /** A pass from zero tallies leaves exactly the tallies its schedule stands for. */
  lemma PlanDaysHistory(days: seq<Date>, roster: seq<Worker>, vacations: Vacations)
    ensures var r := PlanDays(days, roster, vacations, NoShifts(roster));
            r.1 == History(r.0, roster)
  {
    var init := NoShifts(roster);
    var r := PlanDays(days, roster, vacations, init);
    PlanDaysKeys(days, roster, vacations, init);
    forall s, w
      ensures r.1.Of(s, w) == Served(r.0, w, s)
    {
      PlanDaysCountsServed(days, roster, vacations, init, w, s);
    }
    ServedTallies(r.1, r.0, roster);
  }

  /** Tallies keyed by the roster that agree with a schedule's counts are
      the tallies it stands for. */
  lemma ServedTallies(t: Tallies, schedule: seq<ShiftDay>, roster: seq<Worker>)
    requires t.HasKeys(Elems(roster))
    requires forall s, w :: t.Of(s, w) == Served(schedule, w, s)
    ensures t == History(schedule, roster)
  {
    var h := History(schedule, roster);
    forall w | w in Elems(roster)
      ensures t.morning[w] == h.morning[w] && t.afternoon[w] == h.afternoon[w]
    {
      assert t.Of(Morning, w) == Served(schedule, w, Morning);
      assert t.Of(Afternoon, w) == Served(schedule, w, Afternoon);
    }
    assert t.morning == h.morning;
    assert t.afternoon == h.afternoon;
  }

  /** The least-pick promise over the whole run: on a day with somebody
      available, the morning goes to a first least member by the earlier
      days' tallies, and the afternoon to a first least member once that
      morning is counted. */
  lemma SolvePicksLeast(start: Date, end: Date, roster: seq<Worker>, vacations: Vacations,
                        selected: set<Date>, calendar: set<Date>, i: nat)
    requires |roster| > 0
    requires i < |Solve(start, end, roster, vacations, selected, calendar).schedule|
    ensures var r := Solve(start, end, roster, vacations, selected, calendar);
            var day := r.schedule[i];
            var avail := Available(roster, vacations, day.date);
            var h := History(r.schedule[..i], roster);
      avail != [] ==>
        && day.morning.Some? && day.afternoon.Some?
        && (exists k: nat | FirstMinimum(avail, h, Morning, k) :: avail[k] == day.morning.value)
        && (exists k: nat | FirstMinimum(avail, h.Record(day.morning.value, Morning), Afternoon, k) ::
              avail[k] == day.afternoon.value)
  {
    SolveRecord(start, end, roster, vacations, selected, calendar, i);
  }

  /** After the run, `member_shifts[w][s]` is the number of days whose slot
      `s` went to `w`. */
  lemma SolveCountsServed(start: Date, end: Date, roster: seq<Worker>, vacations: Vacations,
                          selected: set<Date>, calendar: set<Date>, w: Worker, s: Shift)
    requires |roster| > 0
    ensures var r := Solve(start, end, roster, vacations, selected, calendar);
            r.tallies.Of(s, w) == Served(r.schedule, w, s)
  {
    var days := Workdays(SelectedAndCalendar, start, end, selected, calendar);
    PlanDaysCountsServed(days, roster, vacations, NoShifts(roster), w, s);
  }

  /** The target is the number of filled slots divided by the roster size,
      rounded down. */
  lemma SolveTarget(start: Date, end: Date, roster: seq<Worker>, vacations: Vacations,
                    selected: set<Date>, calendar: set<Date>)
    requires |roster| > 0
    ensures var r := Solve(start, end, roster, vacations, selected, calendar);
            r.target == FloorDiv(FilledSlots(r.schedule), |roster|)
  {
    var days := Workdays(SelectedAndCalendar, start, end, selected, calendar);
    var init := NoShifts(roster);
    var plan := PlanDays(days, roster, vacations, init);
    var members := Distinct(roster);
    var r := Solve(start, end, roster, vacations, selected, calendar);
    assert r == ShiftPlan(plan.0, plan.1, FloorDiv(SumTotals(members, plan.1), |roster|));
    PlanDaysSumsFilled(days, roster, vacations, init, members);
    ZeroSum(members, init);
    assert SumTotals(members, plan.1) == FilledSlots(plan.0);
  }

  /** After the pass, each member's count of a slot kind is its starting
      count plus the number of days on which that slot went to it. */
  lemma {:induction false} PlanDaysCountsServed(days: seq<Date>, roster: seq<Worker>, vacations: Vacations,
                                                t: Tallies, w: Worker, s: Shift)
    ensures PlanDays(days, roster, vacations, t).1.Of(s, w)
            == t.Of(s, w) + Served(PlanDays(days, roster, vacations, t).0, w, s)
    decreases |days|
  {
    if days != [] {
      var d := PlanDay(days[0], Available(roster, vacations, days[0]), t);
      var rest := PlanDays(days[1..], roster, vacations, d.1);
      PlanDayCounts(days[0], Available(roster, vacations, days[0]), t, w, s);
      PlanDaysCountsServed(days[1..], roster, vacations, d.1, w, s);
      assert ([d.0] + rest.0)[1..] == rest.0;
    }
  }

  /** The pass only adds counters for roster members. */
  lemma {:induction false} PlanDaysKeys(days: seq<Date>, roster: seq<Worker>, vacations: Vacations, t: Tallies)
    requires t.HasKeys(Elems(roster))
    ensures PlanDays(days, roster, vacations, t).1.HasKeys(Elems(roster))
    decreases |days|
  {
    if days != [] {
      var d := PlanDay(days[0], Available(roster, vacations, days[0]), t);
      PlanDaysKeys(days[1..], roster, vacations, d.1);
    }
  }

  /** Over a list of distinct members holding the whole roster, the sum of
      totals grows by one per filled slot. */
  lemma {:induction false} PlanDaysSumsFilled(days: seq<Date>, roster: seq<Worker>, vacations: Vacations,
                                              t: Tallies, members: seq<Worker>)
    requires NoDup(members)
    requires Elems(members) == Elems(roster)
    ensures SumTotals(members, PlanDays(days, roster, vacations, t).1)
            == SumTotals(members, t) + FilledSlots(PlanDays(days, roster, vacations, t).0)
    decreases |days|
  {
    if days != [] {
      var avail := Available(roster, vacations, days[0]);
      var d := PlanDay(days[0], avail, t);
      var rest := PlanDays(days[1..], roster, vacations, d.1);
      PlanDaysSumsFilled(days[1..], roster, vacations, d.1, members);
      assert ([d.0] + rest.0)[1..] == rest.0;
      if avail != [] {
        var m := d.0.morning.value;
        var a := d.0.afternoon.value;
        assert m in Elems(members) && a in Elems(members);
        SumAfterRecord(members, t, m, Morning);
        SumAfterRecord(members, t.Record(m, Morning), a, Afternoon);
      }
    }
  }

  lemma {:induction false} SumAfterRecord(members: seq<Worker>, t: Tallies, w: Worker, s: Shift)
    requires NoDup(members)
    ensures SumTotals(members, t.Record(w, s)) == SumTotals(members, t) + (if w in members then 1 else 0)
  {
    if members != [] {
      assert NoDup(members[1..]);
      SumAfterRecord(members[1..], t, w, s);
      assert members[0] !in members[1..];
      assert w in members <==> w == members[0] || w in members[1..];
    }
  }

  lemma {:induction false} ZeroSum(members: seq<Worker>, t: Tallies)
    requires forall s, w :: t.Of(s, w) == 0
    ensures SumTotals(members, t) == 0
  {
    if members != [] {
      assert t.Of(Morning, members[0]) == 0 && t.Of(Afternoon, members[0]) == 0;
      ZeroSum(members[1..], t);
    }
  }
}
