/** The greedy task-type balancer of allocation_job.py. Every workday with
    at least three members available hands out the day's quotas of three
    task types (chat, happy call, closing), in that order; each place goes to
    the remaining member with the least (task ratio, total ratio, task count,
    never-done task count), the earlier roster member winning a tie. Ratios
    divide by the member's number of available workdays in the whole range. */
module TaskBalancer {

  import opened Basics
  import opened Calendar
  import opened Availability

  datatype Task = Chat | HappyCall | Closing

  /** `member_task_counts`: how often each member has had each task type,
      keyed by (task type, member); a missing key reads as 0. */
  datatype TaskCounts = TaskCounts(m: map<(Task, Worker), nat>) {

    function Of(t: Task, w: Worker): nat
    {
      if (t, w) in m then m[(t, w)] else 0
    }

    /** All the tasks `w` has had, of any type. */
    function Total(w: Worker): nat
    {
      Of(Chat, w) + Of(HappyCall, w) + Of(Closing, w)
    }

    /** The number of task types `w` has never been given. */
    function NeverDone(w: Worker): nat
    {
      (if Of(Chat, w) == 0 then 1 else 0)
      + (if Of(HappyCall, w) == 0 then 1 else 0)
      + (if Of(Closing, w) == 0 then 1 else 0)
    }

    /** One more task of type `t` for `w`. */
    function Record(w: Worker, t: Task): (r: TaskCounts)
      ensures r.Of(t, w) == Of(t, w) + 1
      ensures forall v, t' | v != w || t' != t :: r.Of(t', v) == Of(t', v)
    {
      TaskCounts(m[(t, w) := Of(t, w) + 1])
    }
  }

  /** The starting counts: every member has had every task type 0 times.
      The source stores an explicit 0 for each roster member; a missing key
      reads as 0 here, so both give the same count on every read. */
  function NoTasks(): (r: TaskCounts)
    ensures forall t, w :: r.Of(t, w) == 0
  {
    TaskCounts(map[])
  }

  /** One row of `ALLOCATION_RULES`: how many members each task type takes. */
  datatype Quotas = Quotas(chat: nat, happyCall: nat, closing: nat) {

    function Of(t: Task): nat
    {
      match t
      case Chat => chat
      case HappyCall => happyCall
      case Closing => closing
    }

    function Sum(): nat
    {
      chat + happyCall + closing
    }
  }

  /** `ALLOCATION_RULES`, keyed by headcount. */
  const AllocationRules: map<nat, Quotas> :=
    map[3 := Quotas(1, 1, 1), 4 := Quotas(2, 1, 1), 5 := Quotas(2, 2, 1)]

  /** The quotas of a day that is not skipped, looked up by the headcount
      capped at five: they hand out exactly min(headcount, 5) places, at
      least one per task type. */
  function Rule(headcount: nat): (q: Quotas)
    requires headcount >= 3
    ensures q.Sum() == Min(headcount, 5)
    ensures 1 <= q.chat <= 2 && 1 <= q.happyCall <= 2 && q.closing == 1
  {
    AllocationRules[Min(headcount, 5)]
  }

  /* ---------------- available days ---------------- */

  /** The counter with every entry of `ws` counted once more. */
  function BumpAll(c: Counter, ws: seq<Worker>): (r: Counter)
    ensures forall v :: Get(r, v) == Get(c, v) + multiset(ws)[v]
    decreases |ws|
  {
    if ws == [] then c
    else
      assert ws == [ws[0]] + ws[1..];
      BumpAll(Bump(c, ws[0]), ws[1..])
  }

  /** `available_days`: for every workday, every roster entry not on
      vacation that day counts one more available day. */
  function CountAvailableDays(days: seq<Date>, roster: seq<Worker>, vacations: Vacations, c: Counter): Counter
    decreases |days|
  {
    if days == [] then c
    else CountAvailableDays(days[1..], roster, vacations, BumpAll(c, Available(roster, vacations, days[0])))
  }

  /** The working-day count of the work statistics: the workdays on which
      `w` is not on vacation. */
  function WorkingDays(days: seq<Date>, vacations: Vacations, w: Worker): nat
  {
    if days == [] then 0
    else (if w !in OffOn(vacations, days[0]) then 1 else 0) + WorkingDays(days[1..], vacations, w)
  }

  /** The `total_working_days` column of `calculate_work_stats`, whose
      workdays follow the selected-holidays-only rule. */
  function WorkStats(start: Date, end: Date, roster: seq<Worker>, vacations: Vacations, selected: set<Date>)
    : (r: map<Worker, nat>)
    ensures r.Keys == Elems(roster)
  {
    var days := Workdays(SelectedOnly, start, end, selected, {});
    map w | w in roster :: WorkingDays(days, vacations, w)
  }

  /** The number of roster entries of `w` not on vacation, over all `days`. */
  function FreeEntries(days: seq<Date>, roster: seq<Worker>, vacations: Vacations, w: Worker): nat
  {
    if days == [] then 0
    else multiset(Available(roster, vacations, days[0]))[w] + FreeEntries(days[1..], roster, vacations, w)
  }

  lemma {:induction false} CountAvailableDaysAdds(days: seq<Date>, roster: seq<Worker>, vacations: Vacations,
                                                  c: Counter, w: Worker)
    ensures Get(CountAvailableDays(days, roster, vacations, c), w) == Get(c, w) + FreeEntries(days, roster, vacations, w)
    decreases |days|
  {
    if days != [] {
      CountAvailableDaysAdds(days[1..], roster, vacations, BumpAll(c, Available(roster, vacations, days[0])), w);
    }
  }

  lemma {:induction false} FreeEntriesCount(days: seq<Date>, roster: seq<Worker>, vacations: Vacations, w: Worker)
    ensures FreeEntries(days, roster, vacations, w) == multiset(roster)[w] * WorkingDays(days, vacations, w)
  {
    if days != [] {
      FreeEntriesCount(days[1..], roster, vacations, w);
      WithoutMultiplicity(roster, OffOn(vacations, days[0]), w);
      FreeEntriesStep(multiset(roster)[w], w !in OffOn(vacations, days[0]),
                      multiset(Available(roster, vacations, days[0]))[w],
                      WorkingDays(days[1..], vacations, w), FreeEntries(days[1..], roster, vacations, w));
    }
  }

  lemma FreeEntriesStep(m: nat, free: bool, today: nat, k: nat, later: nat)
    requires today == if free then m else 0
    requires later == m * k
    ensures today + later == m * ((if free then 1 else 0) + k)
  {
    if free {
      assert m * (1 + k) == m + m * k;
    }
  }

  /** Each roster entry of `w` adds one per workday on which `w` is free. */
  lemma AvailableDaysCount(days: seq<Date>, roster: seq<Worker>, vacations: Vacations, c: Counter, w: Worker)
    ensures Get(CountAvailableDays(days, roster, vacations, c), w)
            == Get(c, w) + multiset(roster)[w] * WorkingDays(days, vacations, w)
  {
    CountAvailableDaysAdds(days, roster, vacations, c, w);
    FreeEntriesCount(days, roster, vacations, w);
  }

  /** `available_days` of the balancer agrees with `total_working_days` of
      `calculate_work_stats` for every member of a roster without repeats. */
  lemma AvailableDaysMatchWorkStats(start: Date, end: Date, roster: seq<Worker>, vacations: Vacations,
                                    selected: set<Date>, w: Worker)
    requires NoDup(roster)
    requires w in roster
    ensures Get(AvailableDays(start, end, roster, vacations, selected), w)
            == WorkStats(start, end, roster, vacations, selected)[w]
  {
    var days := Workdays(SelectedOnly, start, end, selected, {});
    AvailableDaysCount(days, roster, vacations, Zeroes(roster), w);
    NoDupMultiplicity(roster, w);
  }

  function AvailableDays(start: Date, end: Date, roster: seq<Worker>, vacations: Vacations, selected: set<Date>)
    : Counter
  {
    CountAvailableDays(Workdays(SelectedOnly, start, end, selected, {}), roster, vacations, Zeroes(roster))
  }

  /* ---------------- priorities ---------------- */

  /** A count over a number of days, infinite when there are no days. */
  datatype Ratio = Finite(value: real) | Unbounded

  function RatioOf(n: nat, d: nat): Ratio
  {
    if d > 0 then Finite(n as real / d as real) else Unbounded
  }

  predicate RatioLess(a: Ratio, b: Ratio)
  {
    match a
    case Unbounded => false
    case Finite(x) => b.Unbounded? || x < b.value
  }

  /** The comparison key of one candidate for one task type. */
  datatype Priority = Priority(taskRatio: Ratio, totalRatio: Ratio, taskCount: nat, neverDone: nat)

  /** Python's tuple order on priorities. */
  predicate PriorityLess(p: Priority, q: Priority)
  {
    || RatioLess(p.taskRatio, q.taskRatio)
    || (p.taskRatio == q.taskRatio && RatioLess(p.totalRatio, q.totalRatio))
    || (p.taskRatio == q.taskRatio && p.totalRatio == q.totalRatio && p.taskCount < q.taskCount)
    || (p.taskRatio == q.taskRatio && p.totalRatio == q.totalRatio && p.taskCount == q.taskCount
        && p.neverDone < q.neverDone)
  }

  /** The key of `w` for task `t`: the first three parts come from the
      counts at the start of the day, the never-done count from the live
      counts at the moment of the pick. */
  function PriorityOf(dayStart: TaskCounts, live: TaskCounts, availableDays: Counter, w: Worker, t: Task)
    : Priority
  {
    Priority(RatioOf(dayStart.Of(t, w), Get(availableDays, w)),
             RatioOf(dayStart.Total(w), Get(availableDays, w)),
             dayStart.Of(t, w),
             live.NeverDone(w))
  }

  /** The key function handed to `min`: a member's key, given the counts at
      the moment of the pick. */
  type Key = (Worker, TaskCounts) -> Priority

  /** The sort key for task `t` on a day that began with the counts `dayStart`. */
  function TaskKey(dayStart: TaskCounts, availableDays: Counter, t: Task): Key
  {
    (w: Worker, live: TaskCounts) => PriorityOf(dayStart, live, availableDays, w, t)
  }

  /** `x` has a strictly smaller key than `y`. */
  predicate Before(key: Key, live: TaskCounts, x: Worker, y: Worker)
  {
    PriorityLess(key(x, live), key(y, live))
  }

  /** The key order is a strict weak order: irreflexive, asymmetric and
      transitive, and whatever is below `q` is below everything not below `q`. */
  lemma PriorityLessOrder(p: Priority, q: Priority, r: Priority)
    ensures !PriorityLess(p, p)
    ensures PriorityLess(p, q) ==> !PriorityLess(q, p)
    ensures PriorityLess(p, q) && PriorityLess(q, r) ==> PriorityLess(p, r)
    ensures PriorityLess(p, q) && !PriorityLess(r, q) ==> PriorityLess(p, r)
  {
  }

  /** Index `k` is what Python's `min` returns: nobody has a strictly smaller
      key, and everybody listed earlier has a strictly larger one. */
  predicate FirstLeast(cands: seq<Worker>, key: Key, live: TaskCounts, k: nat)
  {
    && k < |cands|
    && (forall j | 0 <= j < |cands| :: !Before(key, live, cands[j], cands[k]))
    && (forall j | 0 <= j < k :: Before(key, live, cands[k], cands[j]))
  }

  /** The position of the first candidate of least key. */
  function PickIndex(cands: seq<Worker>, key: Key, live: TaskCounts): (k: nat)
    requires |cands| > 0
    ensures k < |cands|
    decreases |cands|
  {
    if |cands| == 1 then 0
    else
      var last := |cands| - 1;
      var k := PickIndex(cands[..last], key, live);
      if Before(key, live, cands[last], cands[k]) then last else k
  }

  /** The pick is the first candidate of least key; in particular no earlier
      candidate has the same name, so removing the pick by position is
      `list.remove` of its name. */
  lemma {:induction false} PickIndexIsFirstLeast(cands: seq<Worker>, key: Key, live: TaskCounts)
    requires |cands| > 0
    ensures FirstLeast(cands, key, live, PickIndex(cands, key, live))
    ensures var k := PickIndex(cands, key, live);
            forall j | 0 <= j < k :: cands[j] != cands[k]
    decreases |cands|
  {
    var k := PickIndex(cands, key, live);
    if |cands| == 1 {
      PriorityLessOrder(key(cands[0], live), key(cands[0], live), key(cands[0], live));
    } else {
      var last := |cands| - 1;
      var k0 := PickIndex(cands[..last], key, live);
      PickIndexIsFirstLeast(cands[..last], key, live);
      assert forall j | 0 <= j < last :: cands[..last][j] == cands[j];
      if Before(key, live, cands[last], cands[k0]) {
        BeforeChain(cands, key, live, k0, last);
      } else {
        PriorityLessOrder(key(cands[last], live), key(cands[last], live), key(cands[last], live));
      }
    }
    forall j | 0 <= j < k
      ensures cands[j] != cands[k]
    {
      PriorityLessOrder(key(cands[k], live), key(cands[k], live), key(cands[k], live));
    }
  }

  lemma BeforeChain(cands: seq<Worker>, key: Key, live: TaskCounts, k: nat, last: nat)
    requires k < last < |cands|
    requires forall j | 0 <= j < last :: !Before(key, live, cands[j], cands[k])
    requires Before(key, live, cands[last], cands[k])
    ensures forall j | 0 <= j <= last :: !Before(key, live, cands[j], cands[last])
    ensures forall j | 0 <= j < last :: Before(key, live, cands[last], cands[j])
  {
    forall j | 0 <= j <= last
      ensures !Before(key, live, cands[j], cands[last])
      ensures j < last ==> Before(key, live, cands[last], cands[j])
    {
      PriorityLessOrder(key(cands[j], live), key(cands[last], live), key(cands[k], live));
      PriorityLessOrder(key(cands[last], live), key(cands[k], live), key(cands[j], live));
    }
  }

  /* ---------------- one task type ---------------- */

  /** The first candidate of least key. */
  function Least(cands: seq<Worker>, key: Key, live: TaskCounts): (w: Worker)
    requires cands != []
    ensures w in cands
  {
    cands[PickIndex(cands, key, live)]
  }

  /** Nobody has a strictly smaller key than the member `min` returns, and
      that member is a first candidate of least key. */
  lemma LeastIsFirstLeast(cands: seq<Worker>, key: Key, live: TaskCounts)
    requires cands != []
    ensures forall v | v in cands :: !Before(key, live, v, Least(cands, key, live))
    ensures exists k: nat :: FirstLeast(cands, key, live, k) && cands[k] == Least(cands, key, live)
  {
    PickIndexIsFirstLeast(cands, key, live);
  }

  /** `s` without the first occurrence of `x`. */
  function RemoveFirst(s: seq<Worker>, x: Worker): (r: seq<Worker>)
    requires x in s
    ensures |r| == |s| - 1
  {
    if s[0] == x then s[1..] else [s[0]] + RemoveFirst(s[1..], x)
  }

  /** The counts with every entry of `ws` given one more task of type `t`. */
  function RecordAll(c: TaskCounts, ws: seq<Worker>, t: Task): TaskCounts
    decreases |ws|
  {
    if ws == [] then c else RecordAll(c.Record(ws[0], t), ws[1..], t)
  }

  /** Recording a list of picks for `t` adds to each member's counter for
      `t` the number of times the list names the member, and changes no
      other counter. */
  lemma {:induction false} RecordAllCounts(c: TaskCounts, ws: seq<Worker>, t: Task, t': Task, w: Worker)
    ensures RecordAll(c, ws, t).Of(t', w) == c.Of(t', w) + (if t' == t then multiset(ws)[w] else 0)
    decreases |ws|
  {
    if ws != [] {
      RecordAllCounts(c.Record(ws[0], t), ws[1..], t, t', w);
      assert ws == [ws[0]] + ws[1..];
    }
  }

  /** Position of the candidate to take next, given the candidates left and
      the live counts. */
  type Chooser = (seq<Worker>, TaskCounts) -> nat

  /** The chooser names a position of any non-empty list. */
  ghost predicate Chooses(pick: Chooser)
  {
    forall s, c | s != [] :: pick(s, c) < |s|
  }

  /** The chooser that takes the first candidate of least key. */
  function MinBy(key: Key): (pick: Chooser)
    ensures Chooses(pick)
  {
    (s: seq<Worker>, c: TaskCounts) => if s == [] then 0 else PickIndex(s, key, c)
  }

  /** `s` without its element at position `k`. */
  function RemoveAt(s: seq<Worker>, k: nat): (r: seq<Worker>)
    requires k < |s|
    ensures |r| == |s| - 1
  {
    s[..k] + s[k + 1..]
  }

  lemma RemoveAtMultiset(s: seq<Worker>, k: nat)
    requires k < |s|
    ensures multiset(RemoveAt(s, k)) + multiset{s[k]} == multiset(s)
  {
    assert s == s[..k] + [s[k]] + s[k + 1..];
  }

  /** Removing the first occurrence of a name is removing it at its position. */
  lemma {:induction false} RemoveAtFirst(s: seq<Worker>, k: nat)
    requires k < |s|
    requires forall j | 0 <= j < k :: s[j] != s[k]
    ensures RemoveAt(s, k) == RemoveFirst(s, s[k])
  {
    if k > 0 {
      RemoveAtFirst(s[1..], k - 1);
      assert RemoveAt(s, k) == [s[0]] + RemoveAt(s[1..], k - 1);
    }
  }

  /** What filling one task type leaves behind. */
  datatype Fill = Fill(picked: seq<Worker>, remaining: seq<Worker>)

  /** Up to `quota` picks for task `t`, each
      removed from the candidates and counted at once, so that the next pick
      sees it; stops early when nobody remains. The counts after the fill
      are `RecordAll(live, picked, t)`. */
  function FillTask(t: Task, quota: nat, remaining: seq<Worker>, pick: Chooser, live: TaskCounts): (r: Fill)
    requires Chooses(pick)
    ensures |r.picked| == Min(quota, |remaining|)
    ensures |r.remaining| == |remaining| - |r.picked|
    ensures forall x :: multiset(r.picked)[x] + multiset(r.remaining)[x] == multiset(remaining)[x]
    decreases quota
  {
    if quota == 0 || remaining == [] then Fill([], remaining)
    else
      var k := pick(remaining, live);
      var f := FillTask(t, quota - 1, RemoveAt(remaining, k), pick, live.Record(remaining[k], t));
      RemoveAtMultiset(remaining, k);
      assert multiset([remaining[k]] + f.picked) == multiset{remaining[k]} + multiset(f.picked);
      Fill([remaining[k]] + f.picked, f.remaining)
  }

  /** One round of the loop with the key's chooser takes the first
      candidate of least key, drops its first occurrence from the remaining
      candidates, and counts it for `t` before the next round. */
  lemma FillTaskStep(t: Task, quota: nat, remaining: seq<Worker>, key: Key, live: TaskCounts)
    requires quota > 0 && remaining != []
    ensures var w := Least(remaining, key, live);
            var f := FillTask(t, quota - 1, RemoveFirst(remaining, w), MinBy(key), live.Record(w, t));
            && FillTask(t, quota, remaining, MinBy(key), live) == Fill([w] + f.picked, f.remaining)
            && exists k: nat :: FirstLeast(remaining, key, live, k) && w == remaining[k]
  {
    var k := PickIndex(remaining, key, live);
    PickIndexIsFirstLeast(remaining, key, live);
    RemoveAtFirst(remaining, k);
  }

  /* ---------------- one day ---------------- */

  /** The places of a day by task type, the members nobody picked, and the
      counts at the end of the day. */
  datatype DayFills = DayFills(chat: seq<Worker>, happyCall: seq<Worker>, closing: seq<Worker>,
                               left: seq<Worker>, counts: TaskCounts)
  {
    function Picked(t: Task): seq<Worker>
    {
      match t
      case Chat => chat
      case HappyCall => happyCall
      case Closing => closing
    }
  }

  /** The quotas filled in task-type order (chat, happy call, closing) from
      one shrinking list of candidates; the keys read the counts
      `c` of the start of the day for their first three parts and the live
      counts for the last. When the quotas add up to no more than the
      candidates, every quota is met exactly. */
  function FillDay(members: seq<Worker>, q: Quotas, availableDays: Counter, c: TaskCounts): (r: DayFills)
    ensures |r.chat| + |r.happyCall| + |r.closing| + |r.left| == |members|
    ensures q.Sum() <= |members| ==>
              |r.chat| == q.chat && |r.happyCall| == q.happyCall && |r.closing| == q.closing
  {
    var chat := FillTask(Chat, q.chat, members, MinBy(TaskKey(c, availableDays, Chat)), c);
    var c1 := RecordAll(c, chat.picked, Chat);
    var happy := FillTask(HappyCall, q.happyCall, chat.remaining, MinBy(TaskKey(c, availableDays, HappyCall)), c1);
    var c2 := RecordAll(c1, happy.picked, HappyCall);
    var closing := FillTask(Closing, q.closing, happy.remaining, MinBy(TaskKey(c, availableDays, Closing)), c2);
    DayFills(chat.picked, happy.picked, closing.picked, closing.remaining, RecordAll(c2, closing.picked, Closing))
  }

  /** The places handed out plus the members left over are the candidates. */
  lemma FillDayPartition(members: seq<Worker>, q: Quotas, availableDays: Counter, c: TaskCounts, x: Worker)
    ensures var r := FillDay(members, q, availableDays, c);
            multiset(r.chat)[x] + multiset(r.happyCall)[x] + multiset(r.closing)[x] + multiset(r.left)[x]
            == multiset(members)[x]
  {
    var chat := FillTask(Chat, q.chat, members, MinBy(TaskKey(c, availableDays, Chat)), c);
    var c1 := RecordAll(c, chat.picked, Chat);
    var happy := FillTask(HappyCall, q.happyCall, chat.remaining, MinBy(TaskKey(c, availableDays, HappyCall)), c1);
    var c2 := RecordAll(c1, happy.picked, HappyCall);
  }

  /** A day moves `member_task_counts[w][t]` by the number of times `w` was
      picked for `t`, and nothing else. */
  lemma FillDayCounts(members: seq<Worker>, q: Quotas, availableDays: Counter, c: TaskCounts, t: Task, w: Worker)
    ensures var r := FillDay(members, q, availableDays, c);
            r.counts.Of(t, w) == c.Of(t, w) + multiset(r.Picked(t))[w]
  {
    var r := FillDay(members, q, availableDays, c);
    var c1 := RecordAll(c, r.chat, Chat);
    var c2 := RecordAll(c1, r.happyCall, HappyCall);
    RecordAllCounts(c, r.chat, Chat, t, w);
    RecordAllCounts(c1, r.happyCall, HappyCall, t, w);
    RecordAllCounts(c2, r.closing, Closing, t, w);
  }

  /** The task part of one workday's record: empty on a skipped day, one
      list per task type otherwise. */
  datatype TaskDay =
    | Skipped(date: Date)
    | Staffed(date: Date, chat: seq<Worker>, happyCall: seq<Worker>, closing: seq<Worker>)
  {
    /** The members listed under `t` (nobody on a skipped day). */
    function Listed(t: Task): seq<Worker>
    {
      match this
      case Skipped(_) => []
      case Staffed(_, a, b, c) =>
        match t
        case Chat => a
        case HappyCall => b
        case Closing => c
    }

    /** Everybody listed that day, task type by task type. */
    function Assigned(): seq<Worker>
    {
      Listed(Chat) + Listed(HappyCall) + Listed(Closing)
    }
  }

  /** A day's record and the counts after it. */
  datatype Step = Step(day: TaskDay, counts: TaskCounts)

  /** One workday with the day's available members: fewer than three skip
      the day; otherwise the quotas of `Rule` are filled from them. */
  function PlanDay(date: Date, members: seq<Worker>, availableDays: Counter, c: TaskCounts): (r: Step)
    ensures r.day.date == date
  {
    if |members| < 3 then Step(Skipped(date), c)
    else
      var f := FillDay(members, Rule(|members|), availableDays, c);
      Step(Staffed(date, f.chat, f.happyCall, f.closing), f.counts)
  }

  /** A day is skipped exactly when fewer than three members are available;
      any other day gives every task type exactly its quota, `min(n, 5)`
      places in all. */
  lemma PlanDayQuotas(date: Date, members: seq<Worker>, availableDays: Counter, c: TaskCounts)
    ensures var day := PlanDay(date, members, availableDays, c).day;
      && (day.Skipped? <==> |members| < 3)
      && (|members| >= 3 ==>
            && |day.Listed(Chat)| == Rule(|members|).chat
            && |day.Listed(HappyCall)| == Rule(|members|).happyCall
            && |day.Listed(Closing)| == Rule(|members|).closing
            && |day.Assigned()| == Min(|members|, 5))
  {
  }

  /** Four lists whose counts add up to those of `whole`: the first three
      together draw on `whole`, and use all of it when the fourth is empty. */
  lemma SplitBound(a: seq<Worker>, b: seq<Worker>, c: seq<Worker>, left: seq<Worker>, whole: seq<Worker>)
    requires forall x :: multiset(a)[x] + multiset(b)[x] + multiset(c)[x] + multiset(left)[x] == multiset(whole)[x]
    ensures multiset(a + b + c) <= multiset(whole)
    ensures left == [] ==> multiset(a + b + c) == multiset(whole)
  {
    assert multiset(a + b + c) == multiset(a) + multiset(b) + multiset(c);
  }

  /** The places of a day go to its available members only, each at most as
      often as they are listed; when three to five are available, every
      available member gets exactly one place. */
  lemma PlanDayDrawsFromAvailable(date: Date, members: seq<Worker>, availableDays: Counter, c: TaskCounts)
    ensures var day := PlanDay(date, members, availableDays, c).day;
      && multiset(day.Assigned()) <= multiset(members)
      && (|members| <= 5 && !day.Skipped? ==> multiset(day.Assigned()) == multiset(members))
  {
    if |members| >= 3 {
      var f := FillDay(members, Rule(|members|), availableDays, c);
      PlanDayStaffed(date, members, availableDays, c);
      FillDayDraws(members, Rule(|members|), availableDays, c);
    }
  }

  lemma PlanDayStaffed(date: Date, members: seq<Worker>, availableDays: Counter, c: TaskCounts)
    requires |members| >= 3
    ensures var f := FillDay(members, Rule(|members|), availableDays, c);
            var day := PlanDay(date, members, availableDays, c).day;
            !day.Skipped? && day.Assigned() == f.chat + f.happyCall + f.closing
  {
  }

  lemma FillDayDraws(members: seq<Worker>, q: Quotas, availableDays: Counter, c: TaskCounts)
    ensures var f := FillDay(members, q, availableDays, c);
      && multiset(f.chat + f.happyCall + f.closing) <= multiset(members)
      && (f.left == [] ==> multiset(f.chat + f.happyCall + f.closing) == multiset(members))
  {
    var f := FillDay(members, q, availableDays, c);
    forall x
      ensures multiset(f.chat)[x] + multiset(f.happyCall)[x] + multiset(f.closing)[x] + multiset(f.left)[x]
              == multiset(members)[x]
    {
      FillDayPartition(members, q, availableDays, c, x);
    }
    SplitBound(f.chat, f.happyCall, f.closing, f.left, members);
  }

  /** A sub-multiset of a list without repeats has no repeats. */
  lemma SubMultisetNoDup(a: seq<Worker>, whole: seq<Worker>)
    requires multiset(a) <= multiset(whole)
    requires NoDup(whole)
    ensures NoDup(a)
  {
    forall x
      ensures multiset(a)[x] <= 1
    {
      NoDupMultiplicity(whole, x);
    }
    MultiplicityNoDup(a);
  }

  /** The list of one task type is part of the day's list. */
  lemma ListedInAssigned(day: TaskDay, t: Task)
    ensures multiset(day.Listed(t)) <= multiset(day.Assigned())
  {
    assert multiset(day.Assigned())
           == multiset(day.Listed(Chat)) + multiset(day.Listed(HappyCall)) + multiset(day.Listed(Closing));
  }

  /** When the day's available members are distinct, nobody holds two places
      on that day. */
  lemma PlanDayNoRepeats(date: Date, members: seq<Worker>, availableDays: Counter, c: TaskCounts, t: Task)
    requires NoDup(members)
    ensures var day := PlanDay(date, members, availableDays, c).day;
            NoDup(day.Assigned()) && NoDup(day.Listed(t))
  {
    var day := PlanDay(date, members, availableDays, c).day;
    PlanDayDrawsFromAvailable(date, members, availableDays, c);
    SubMultisetNoDup(day.Assigned(), members);
    ListedInAssigned(day, t);
    SubMultisetNoDup(day.Listed(t), day.Assigned());
  }

  /** A day moves `member_task_counts[w][t]` by the number of times `w` is
      listed under `t` that day. */
  lemma PlanDayCounts(date: Date, members: seq<Worker>, availableDays: Counter, c: TaskCounts, t: Task, w: Worker)
    ensures var r := PlanDay(date, members, availableDays, c);
            r.counts.Of(t, w) == c.Of(t, w) + multiset(r.day.Listed(t))[w]
  {
    if |members| >= 3 {
      FillDayCounts(members, Rule(|members|), availableDays, c, t, w);
    }
  }

  /* ---------------- the whole range ---------------- */

  /** The result of `solve_environment_team_schedule`: one record per
      workday, and `member_task_counts`. */
  datatype TaskPlan = TaskPlan(schedule: seq<TaskDay>, counts: TaskCounts)

  /** The balancer's pass over the workdays, in order, threading the counts. */
  function PlanDays(days: seq<Date>, roster: seq<Worker>, vacations: Vacations, availableDays: Counter,
                    c: TaskCounts): (r: TaskPlan)
    ensures |r.schedule| == |days|
    ensures forall i | 0 <= i < |days| :: r.schedule[i].date == days[i]
    decreases |days|
  {
    if days == [] then TaskPlan([], c)
    else
      var d := PlanDay(days[0], Available(roster, vacations, days[0]), availableDays, c);
      var rest := PlanDays(days[1..], roster, vacations, availableDays, d.counts);
      assert forall i | 1 <= i < |days| :: ([d.day] + rest.schedule)[i] == rest.schedule[i - 1];
      TaskPlan([d.day] + rest.schedule, rest.counts)
  }

  /** How often `w` is listed under `t` over the whole schedule. */
  function TimesListed(schedule: seq<TaskDay>, w: Worker, t: Task): nat
  {
    if schedule == [] then 0
    else multiset(schedule[0].Listed(t))[w] + TimesListed(schedule[1..], w, t)
  }

  /** The number of days on which `w` is listed under `t`. */
  function DaysListed(schedule: seq<TaskDay>, w: Worker, t: Task): nat
  {
    if schedule == [] then 0
    else (if w in schedule[0].Listed(t) then 1 else 0) + DaysListed(schedule[1..], w, t)
  }

  /** The pass adds to every counter the number of times its member is
      listed under its task type. */
  lemma {:induction false} PlanDaysCounts(days: seq<Date>, roster: seq<Worker>, vacations: Vacations,
                                          availableDays: Counter, c: TaskCounts, t: Task, w: Worker)
    ensures var r := PlanDays(days, roster, vacations, availableDays, c);
            r.counts.Of(t, w) == c.Of(t, w) + TimesListed(r.schedule, w, t)
    decreases |days|
  {
    if days != [] {
      var d := PlanDay(days[0], Available(roster, vacations, days[0]), availableDays, c);
      var rest := PlanDays(days[1..], roster, vacations, availableDays, d.counts);
      PlanDayCounts(days[0], Available(roster, vacations, days[0]), availableDays, c, t, w);
      PlanDaysCounts(days[1..], roster, vacations, availableDays, d.counts, t, w);
      assert ([d.day] + rest.schedule)[1..] == rest.schedule;
    }
  }

  /** Record `i` of the pass is the plan of workday `i`, with that day's
      available members, for exactly the counts the pass over the earlier
      workdays leaves behind; the earlier records are that pass's records. */
  lemma {:induction false} PlanDaysRecord(days: seq<Date>, roster: seq<Worker>, vacations: Vacations,
                                          availableDays: Counter, c: TaskCounts, i: nat)
    requires i < |days|
    ensures var r := PlanDays(days, roster, vacations, availableDays, c);
            var before := PlanDays(days[..i], roster, vacations, availableDays, c);
      && r.schedule[..i] == before.schedule
      && r.schedule[i] == PlanDay(days[i], Available(roster, vacations, days[i]), availableDays, before.counts).day
    decreases |days|
  {
    var d := PlanDay(days[0], Available(roster, vacations, days[0]), availableDays, c);
    var rest := PlanDays(days[1..], roster, vacations, availableDays, d.counts);
    assert PlanDays(days, roster, vacations, availableDays, c).schedule == [d.day] + rest.schedule;
    if i == 0 {
      assert days[..0] == [];
    } else {
      PlanDaysRecord(days[1..], roster, vacations, availableDays, d.counts, i - 1);
      PrefixOfTail(days, i);
      PrefixOfCons(d.day, rest.schedule, i);
    }
  }

  /** The whole balancer over the workdays of [start, end] under the
      selected-holidays-only rule: one record per workday, in order. */
  function Solve(start: Date, end: Date, roster: seq<Worker>, vacations: Vacations, selected: set<Date>)
    : (r: TaskPlan)
    ensures |r.schedule| == |Workdays(SelectedOnly, start, end, selected, {})|
    ensures forall i | 0 <= i < |r.schedule| ::
              r.schedule[i].date == Workdays(SelectedOnly, start, end, selected, {})[i]
  {
    PlanDays(Workdays(SelectedOnly, start, end, selected, {}), roster, vacations,
             AvailableDays(start, end, roster, vacations, selected), NoTasks())
  }

  /** Record `i` of the run is the plan of its date with that date's
      available members, for counts that are exactly how often each member
      was listed under each task type in the records before it. */
  lemma SolveRecord(start: Date, end: Date, roster: seq<Worker>, vacations: Vacations, selected: set<Date>, i: nat)
    requires i < |Solve(start, end, roster, vacations, selected).schedule|
    ensures var r := Solve(start, end, roster, vacations, selected);
            var ad := AvailableDays(start, end, roster, vacations, selected);
            var before := PlanDays(Workdays(SelectedOnly, start, end, selected, {})[..i], roster, vacations, ad,
                                   NoTasks());
      && r.schedule[..i] == before.schedule
      && r.schedule[i] == PlanDay(r.schedule[i].date, Available(roster, vacations, r.schedule[i].date), ad,
                                  before.counts).day
      && (forall t, w :: before.counts.Of(t, w) == TimesListed(r.schedule[..i], w, t))
  {
    var days := Workdays(SelectedOnly, start, end, selected, {});
    var ad := AvailableDays(start, end, roster, vacations, selected);
    PlanDaysRecord(days, roster, vacations, ad, NoTasks(), i);
    forall t, w
      ensures PlanDays(days[..i], roster, vacations, ad, NoTasks()).counts.Of(t, w)
              == TimesListed(PlanDays(days[..i], roster, vacations, ad, NoTasks()).schedule, w, t)
    {
      PlanDaysCounts(days[..i], roster, vacations, ad, NoTasks(), t, w);
    }
  }

  /** Every record of the run is a skipped day exactly when fewer than three
      members are available that day, and otherwise meets the day's quotas. */
  lemma SolveDayQuotas(start: Date, end: Date, roster: seq<Worker>, vacations: Vacations, selected: set<Date>,
                       i: nat)
    requires i < |Solve(start, end, roster, vacations, selected).schedule|
    ensures var day := Solve(start, end, roster, vacations, selected).schedule[i];
            var n := |Available(roster, vacations, day.date)|;
      && (day.Skipped? <==> n < 3)
      && (n >= 3 ==>
            && |day.Listed(Chat)| == Rule(n).chat
            && |day.Listed(HappyCall)| == Rule(n).happyCall
            && |day.Listed(Closing)| == Rule(n).closing)
  {
    var day := Solve(start, end, roster, vacations, selected).schedule[i];
    var ad := AvailableDays(start, end, roster, vacations, selected);
    SolveRecord(start, end, roster, vacations, selected, i);
    var c' := PlanDays(Workdays(SelectedOnly, start, end, selected, {})[..i], roster, vacations, ad, NoTasks()).counts;
    PlanDayQuotas(day.date, Available(roster, vacations, day.date), ad, c');
  }

  /** Every place of the run goes to a member available that day, and on a
      day with three to five available members all of them get a place. */
  lemma SolveDayDrawsFromAvailable(start: Date, end: Date, roster: seq<Worker>, vacations: Vacations,
                                   selected: set<Date>, i: nat)
    requires i < |Solve(start, end, roster, vacations, selected).schedule|
    ensures var day := Solve(start, end, roster, vacations, selected).schedule[i];
            var members := Available(roster, vacations, day.date);
      && (forall w | w in day.Assigned() :: w in members && w !in OffOn(vacations, day.date))
      && (|members| <= 5 && !day.Skipped? ==> multiset(day.Assigned()) == multiset(members))
  {
    var day := Solve(start, end, roster, vacations, selected).schedule[i];
    var members := Available(roster, vacations, day.date);
    var ad := AvailableDays(start, end, roster, vacations, selected);
    SolveRecord(start, end, roster, vacations, selected, i);
    var c' := PlanDays(Workdays(SelectedOnly, start, end, selected, {})[..i], roster, vacations, ad, NoTasks()).counts;
    PlanDayDrawsFromAvailable(day.date, members, ad, c');
    forall w | w in day.Assigned()
      ensures w in members
    {
      assert multiset(day.Assigned())[w] > 0;
    }
  }

  /** With a roster without repeats, nobody holds two places on one day. */
  lemma SolveDayNoRepeats(start: Date, end: Date, roster: seq<Worker>, vacations: Vacations,
                          selected: set<Date>, i: nat, t: Task)
    requires NoDup(roster)
    requires i < |Solve(start, end, roster, vacations, selected).schedule|
    ensures var day := Solve(start, end, roster, vacations, selected).schedule[i];
            NoDup(day.Assigned()) && NoDup(day.Listed(t))
  {
    var day := Solve(start, end, roster, vacations, selected).schedule[i];
    var ad := AvailableDays(start, end, roster, vacations, selected);
    SolveRecord(start, end, roster, vacations, selected, i);
    var c' := PlanDays(Workdays(SelectedOnly, start, end, selected, {})[..i], roster, vacations, ad, NoTasks()).counts;
    AvailableKeepsOrder(roster, vacations, day.date);
    PlanDayNoRepeats(day.date, Available(roster, vacations, day.date), ad, c', t);
  }

  /** After the run, `member_task_counts[w][t]` is the number of times `w`
      is listed under `t`; with a roster without repeats that is the number
      of days on which `w` is listed under `t`. */
  lemma SolveCountsListed(start: Date, end: Date, roster: seq<Worker>, vacations: Vacations,
                          selected: set<Date>, t: Task, w: Worker)
    ensures var r := Solve(start, end, roster, vacations, selected);
      && r.counts.Of(t, w) == TimesListed(r.schedule, w, t)
      && (NoDup(roster) ==> r.counts.Of(t, w) == DaysListed(r.schedule, w, t))
  {
    PlanDaysCounts(Workdays(SelectedOnly, start, end, selected, {}), roster, vacations,
                   AvailableDays(start, end, roster, vacations, selected), NoTasks(), t, w);
    var r := Solve(start, end, roster, vacations, selected);
    if NoDup(roster) {
      forall i | 0 <= i < |r.schedule|
        ensures NoDup(r.schedule[i].Listed(t))
      {
        SolveDayNoRepeats(start, end, roster, vacations, selected, i, t);
      }
      ListedOnceCountsDays(r.schedule, w, t);
    }
  }

  lemma {:induction false} ListedOnceCountsDays(schedule: seq<TaskDay>, w: Worker, t: Task)
    requires forall i | 0 <= i < |schedule| :: NoDup(schedule[i].Listed(t))
    ensures TimesListed(schedule, w, t) == DaysListed(schedule, w, t)
  {
    if schedule != [] {
      NoDupMultiplicity(schedule[0].Listed(t), w);
      ListedOnceCountsDays(schedule[1..], w, t);
    }
  }

  /** Every member who can be picked on a workday has at least one available
      day, so neither ratio of its key is ever infinite. */
  lemma CandidatesHaveFiniteRatios(start: Date, end: Date, roster: seq<Worker>, vacations: Vacations,
                                   selected: set<Date>, d: Date, w: Worker,
                                   dayStart: TaskCounts, live: TaskCounts, t: Task)
    requires start <= d <= end && IsWorkday(SelectedOnly, d, selected, {})
    requires w in Available(roster, vacations, d)
    ensures Get(AvailableDays(start, end, roster, vacations, selected), w) > 0
    ensures var p := PriorityOf(dayStart, live, AvailableDays(start, end, roster, vacations, selected), w, t);
            p.taskRatio.Finite? && p.totalRatio.Finite?
  {
    var days := Workdays(SelectedOnly, start, end, selected, {});
    AvailableDaysCount(days, roster, vacations, Zeroes(roster), w);
    WorkingDaysPositive(days, vacations, w, d);
    assert multiset(roster)[w] > 0;
    ProductPositive(multiset(roster)[w], WorkingDays(days, vacations, w));
  }

  lemma ProductPositive(m: nat, k: nat)
    requires m > 0 && k > 0
    ensures m * k > 0
  {
  }

  lemma {:induction false} WorkingDaysPositive(days: seq<Date>, vacations: Vacations, w: Worker, d: Date)
    requires d in days && w !in OffOn(vacations, d)
    ensures WorkingDays(days, vacations, w) > 0
  {
    if days[0] != d {
      WorkingDaysPositive(days[1..], vacations, w, d);
    }
  }
}
