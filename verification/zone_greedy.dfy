/** The greedy zone allocator of opt_clean_schedule.py
    (`solve_cleaning_schedule_logic`): day by day, one zone-B cleaner on a
    day of at most three and two otherwise, chosen by least counts among the
    workers who were not in zone B the day before when there are enough of
    them; everybody else of the day cleans zone A. */
module ZoneGreedy {

  import opened Basics
  import opened Calendar
  import opened Availability
  import opened Names
  import opened Text

  /** `b_cleaning_count`, `solo_b_cleaning_count` and `a_cleaning_count`. */
  datatype ZoneCounts = ZoneCounts(b: Counter, solo: Counter, a: Counter)

  /** An order on names handed to `min`. */
  type Order = (Worker, Worker) -> bool

  /** Lexicographic order on (solo count, zone-B count, name). */
  predicate SoloLess(solo1: nat, b1: nat, x: Worker, solo2: nat, b2: nat, y: Worker)
  {
    || solo1 < solo2
    || (solo1 == solo2 && b1 < b2)
    || (solo1 == solo2 && b1 == b2 && NameLess(x, y))
  }

  /** Lexicographic order on (zone-B count, name). */
  predicate PairLess(b1: nat, x: Worker, b2: nat, y: Worker)
  {
    b1 < b2 || (b1 == b2 && NameLess(x, y))
  }

  /** Members ordered by their solo zone-B count, then their zone-B count, then name. */
  function SoloOrder(c: ZoneCounts): Order
  {
    (x: Worker, y: Worker) => SoloLess(Get(c.solo, x), Get(c.b, x), x, Get(c.solo, y), Get(c.b, y), y)
  }

  /** Members ordered by their zone-B count, then name. */
  function PairOrder(c: ZoneCounts): Order
  {
    (x: Worker, y: Worker) => PairLess(Get(c.b, x), x, Get(c.b, y), y)
  }

  /** Irreflexive, transitive, and total on different names. */
  ghost predicate StrictTotal(before: Order)
  {
    && (forall x :: !before(x, x))
    && (forall x, y, z :: before(x, y) && before(y, z) ==> before(x, z))
    && (forall x, y :: x != y ==> before(x, y) || before(y, x))
  }

  lemma SoloOrderStrictTotal(c: ZoneCounts)
    ensures StrictTotal(SoloOrder(c))
  {
    var before := SoloOrder(c);
    forall x
      ensures !before(x, x)
    {
      NameLessIrreflexive(x);
    }
    forall x, y, z | before(x, y) && before(y, z)
      ensures before(x, z)
    {
      if NameLess(x, y) && NameLess(y, z) {
        NameLessTransitive(x, y, z);
      }
    }
    forall x, y | x != y
      ensures before(x, y) || before(y, x)
    {
      NameLessTotal(x, y);
    }
  }

  lemma PairOrderStrictTotal(c: ZoneCounts)
    ensures StrictTotal(PairOrder(c))
  {
    var before := PairOrder(c);
    forall x
      ensures !before(x, x)
    {
      NameLessIrreflexive(x);
    }
    forall x, y, z | before(x, y) && before(y, z)
      ensures before(x, z)
    {
      if NameLess(x, y) && NameLess(y, z) {
        NameLessTransitive(x, y, z);
      }
    }
    forall x, y | x != y
      ensures before(x, y) || before(y, x)
    {
      NameLessTotal(x, y);
    }
  }

  /** The least name of `pool` under `before`. */
  function MinOf(pool: seq<Worker>, before: Order): (w: Worker)
    requires pool != []
    ensures w in pool
  {
    if |pool| == 1 then pool[0]
    else
      var m := MinOf(pool[1..], before);
      if before(pool[0], m) then pool[0] else m
  }

  /** `w` comes before every other member of `s`. */
  ghost predicate LeastOf(s: set<Worker>, before: Order, w: Worker)
  {
    w in s && forall v | v in s && v != w :: before(w, v)
  }

  /** Under a strict total order the minimum of a set is unique, so `min`
      over a Python set does not depend on the set's iteration order. */
  lemma LeastOfUnique(s: set<Worker>, before: Order, w: Worker, w': Worker)
    requires StrictTotal(before)
    requires LeastOf(s, before, w) && LeastOf(s, before, w')
    ensures w == w'
  {
  }

  lemma {:induction false} MinOfIsLeast(pool: seq<Worker>, before: Order)
    requires pool != []
    requires StrictTotal(before)
    ensures LeastOf(Elems(pool), before, MinOf(pool, before))
  {
    if |pool| > 1 {
      MinOfIsLeast(pool[1..], before);
      assert Elems(pool) == {pool[0]} + Elems(pool[1..]);
    }
  }

  /* ---------------- one day ---------------- */

  /** `b_workers`: one zone-B cleaner on a day of at most three, two otherwise. */
  function Needed(headcount: nat): nat
  {
    if headcount <= 3 then 1 else 2
  }

  /** The candidates for zone B as a list: the day's workers who were not in
      zone B the day before when there are at least `need` such names, all
      the day's workers otherwise. */
  function Pool(people: seq<Worker>, prev: seq<Worker>, need: nat): seq<Worker>
  {
    var eligible := Without(people, Elems(prev));
    if |Elems(eligible)| >= need then eligible else people
  }

  /** The same candidates as a set, the way the source holds them. */
  function PoolSet(people: seq<Worker>, prev: seq<Worker>, need: nat): set<Worker>
  {
    var eligible := Elems(people) - Elems(prev);
    if |eligible| >= need then eligible else Elems(people)
  }

  lemma PoolIsPoolSet(people: seq<Worker>, prev: seq<Worker>, need: nat)
    ensures Elems(Pool(people, prev, need)) == PoolSet(people, prev, need)
  {
    assert Elems(Without(people, Elems(prev))) == Elems(people) - Elems(prev);
  }

  /** The counter with every member of a set counted once more. */
  function BumpSet(c: Counter, s: set<Worker>): (r: Counter)
    ensures forall w :: Get(r, w) == Get(c, w) + (if w in s then 1 else 0)
  {
    map w | w in c.Keys + s :: Get(c, w) + (if w in s then 1 else 0)
  }

  /** A day of the output: the day's workers, zone A as a set (the source
      builds it from a set, so its order is unspecified) and zone B in pick
      order. */
  datatype ZoneDay = ZoneDay(day: Date, workers: seq<Worker>, zoneA: set<Worker>, zoneB: seq<Worker>)

  /** A day the allocator can handle without an error: somebody is there,
      and a day of four or more has two different names. */
  predicate Allocatable(d: DayCrew)
  {
    d.crew != [] && (|d.crew| >= 4 ==> |Elems(d.crew)| >= 2)
  }

  /** A set of at least two names holds a name other than `w`. */
  lemma OtherName(s: set<Worker>, w: Worker)
    requires |s| >= 2
    ensures exists v :: v in s && v != w
  {
    if w in s {
      assert |s - {w}| == |s| - 1;
    } else {
      assert s - {w} == s;
    }
    assert |s - {w}| > 0;
    var v :| v in s - {w};
  }

  /** The zone-B pick of a day and the counters after it: one least
      `(solo, b, name)` on a day of at most three, otherwise the least
      `(b, name)`, counted and removed, then the least `(b, name)` of the rest. */
  function PickZoneB(pool: seq<Worker>, need: nat, c: ZoneCounts): (r: (seq<Worker>, ZoneCounts))
    requires pool != []
    requires need == 1 || (need == 2 && |Elems(pool)| >= 2)
  {
    if need == 1 then
      var w := MinOf(pool, SoloOrder(c));
      ([w], ZoneCounts(Bump(c.b, w), Bump(c.solo, w), c.a))
    else
      var w1 := MinOf(pool, PairOrder(c));
      var c1 := c.(b := Bump(c.b, w1));
      OtherName(Elems(pool), w1);
      var rest := Without(pool, {w1});
      var w2 := MinOf(rest, PairOrder(c1));
      ([w1, w2], c1.(b := Bump(c1.b, w2)))
  }

  /** One day: zone B from the pool, zone A the rest of the day's names,
      each zone-A member's counter raised by one. */
  function AllocateDay(d: DayCrew, prev: seq<Worker>, c: ZoneCounts): (r: (ZoneDay, ZoneCounts))
    requires Allocatable(d)
  {
    var need := Needed(|d.crew|);
    var pool := Pool(d.crew, prev, need);
    PoolIsPoolSet(d.crew, prev, need);
    var (zoneB, c1) := PickZoneB(pool, need, c);
    var zoneA := Elems(d.crew) - Elems(zoneB);
    (ZoneDay(d.day, d.crew, zoneA, zoneB), c1.(a := BumpSet(c1.a, zoneA)))
  }

  /** The zone-B list has the day's size, names nobody twice, and draws on
      the pool. */
  lemma PickZoneBShape(pool: seq<Worker>, need: nat, c: ZoneCounts)
    requires pool != []
    requires need == 1 || (need == 2 && |Elems(pool)| >= 2)
    ensures var zoneB := PickZoneB(pool, need, c).0;
      && |zoneB| == need
      && NoDup(zoneB)
      && Elems(zoneB) <= Elems(pool)
  {
  }

  /** The zone-B picks are the least members of the pool: by `(solo, b,
      name)` for one place; for two places by `(b, name)`, the second one
      among the others after the first was counted. */
  lemma PickZoneBLeast(pool: seq<Worker>, need: nat, c: ZoneCounts)
    requires pool != []
    requires need == 1 || (need == 2 && |Elems(pool)| >= 2)
    ensures var zoneB := PickZoneB(pool, need, c).0;
      && (need == 1 ==> LeastOf(Elems(pool), SoloOrder(c), zoneB[0]))
      && (need == 2 ==>
            && LeastOf(Elems(pool), PairOrder(c), zoneB[0])
            && LeastOf(Elems(pool) - {zoneB[0]}, PairOrder(c.(b := Bump(c.b, zoneB[0]))), zoneB[1]))
  {
    if need == 1 {
      SoloOrderStrictTotal(c);
      MinOfIsLeast(pool, SoloOrder(c));
    } else {
      var w1 := MinOf(pool, PairOrder(c));
      var c1 := c.(b := Bump(c.b, w1));
      OtherName(Elems(pool), w1);
      var rest := Without(pool, {w1});
      PairOrderStrictTotal(c);
      MinOfIsLeast(pool, PairOrder(c));
      PairOrderStrictTotal(c1);
      MinOfIsLeast(rest, PairOrder(c1));
      assert Elems(rest) == Elems(pool) - {w1};
    }
  }

  /** The pick raises the zone-B counter of each name picked, the solo
      counter of a lone pick, and leaves the zone-A counters alone. */
  lemma PickZoneBCounts(pool: seq<Worker>, need: nat, c: ZoneCounts, w: Worker)
    requires pool != []
    requires need == 1 || (need == 2 && |Elems(pool)| >= 2)
    ensures var (zoneB, c') := PickZoneB(pool, need, c);
      && Get(c'.b, w) == Get(c.b, w) + (if w in zoneB then 1 else 0)
      && Get(c'.solo, w) == Get(c.solo, w) + (if zoneB == [w] then 1 else 0)
      && c'.a == c.a
  {
    PickZoneBShape(pool, need, c);
  }

  /** One day's zone B is the pick from the day's pool, and zone A the
      rest of the day's names. */
  lemma AllocateDayUnfold(d: DayCrew, prev: seq<Worker>, c: ZoneCounts)
    requires Allocatable(d)
    ensures var need := Needed(|d.crew|);
            var pool := Pool(d.crew, prev, need);
            var z := AllocateDay(d, prev, c).0;
      && pool != []
      && (need == 1 || (need == 2 && |Elems(pool)| >= 2))
      && z.zoneB == PickZoneB(pool, need, c).0
      && z.zoneA == Elems(d.crew) - Elems(z.zoneB)
      && z.day == d.day && z.workers == d.crew
      && Elems(pool) == PoolSet(d.crew, prev, need)
  {
    PoolIsPoolSet(d.crew, prev, Needed(|d.crew|));
  }

  /** One day: zone B has one name on a day of at most three and two
      different names otherwise, all of them the day's workers, and zone A
      is everybody else of the day. */
  lemma AllocateDayZones(d: DayCrew, prev: seq<Worker>, c: ZoneCounts)
    requires Allocatable(d)
    ensures var z := AllocateDay(d, prev, c).0;
      && z.day == d.day && z.workers == d.crew
      && |z.zoneB| == Needed(|d.crew|)
      && NoDup(z.zoneB)
      && z.zoneA !! Elems(z.zoneB)
      && z.zoneA + Elems(z.zoneB) == Elems(d.crew)
  {
    var need := Needed(|d.crew|);
    var pool := Pool(d.crew, prev, need);
    AllocateDayUnfold(d, prev, c);
    PickZoneBShape(pool, need, c);
    assert PoolSet(d.crew, prev, need) <= Elems(d.crew);
  }

  /** When enough of the day's workers were not in zone B the day before,
      none of yesterday's zone-B workers is in zone B again. */
  lemma AllocateDayAvoids(d: DayCrew, prev: seq<Worker>, c: ZoneCounts)
    requires Allocatable(d)
    requires |Elems(d.crew) - Elems(prev)| >= Needed(|d.crew|)
    ensures Elems(AllocateDay(d, prev, c).0.zoneB) !! Elems(prev)
  {
    var need := Needed(|d.crew|);
    var pool := Pool(d.crew, prev, need);
    AllocateDayUnfold(d, prev, c);
    PickZoneBShape(pool, need, c);
  }

  /** The zone-B picks of a day are the least members of the candidate set
      the source builds: the workers not in zone B yesterday when there are
      enough of them, everybody of the day otherwise. */
  lemma AllocateDayLeast(d: DayCrew, prev: seq<Worker>, c: ZoneCounts)
    requires Allocatable(d)
    ensures var z := AllocateDay(d, prev, c).0;
            var pool := PoolSet(d.crew, prev, Needed(|d.crew|));
      && (|d.crew| <= 3 ==> LeastOf(pool, SoloOrder(c), z.zoneB[0]))
      && (|d.crew| > 3 ==>
            && LeastOf(pool, PairOrder(c), z.zoneB[0])
            && LeastOf(pool - {z.zoneB[0]}, PairOrder(c.(b := Bump(c.b, z.zoneB[0]))), z.zoneB[1]))
  {
    var need := Needed(|d.crew|);
    var pool := Pool(d.crew, prev, need);
    PoolIsPoolSet(d.crew, prev, need);
    PickZoneBShape(pool, need, c);
    PickZoneBLeast(pool, need, c);
  }

  /** A day raises `b` by one for each zone-B name, `solo` for the lone
      zone-B name of a small day, and `a` for each zone-A name. */
  lemma AllocateDayCounts(d: DayCrew, prev: seq<Worker>, c: ZoneCounts, w: Worker)
    requires Allocatable(d)
    ensures var (z, c') := AllocateDay(d, prev, c);
      && Get(c'.b, w) == Get(c.b, w) + (if w in z.zoneB then 1 else 0)
      && Get(c'.solo, w) == Get(c.solo, w) + (if z.zoneB == [w] then 1 else 0)
      && Get(c'.a, w) == Get(c.a, w) + (if w in z.zoneA then 1 else 0)
  {
    var need := Needed(|d.crew|);
    var pool := Pool(d.crew, prev, need);
    PoolIsPoolSet(d.crew, prev, need);
    PickZoneBCounts(pool, need, c, w);
  }

  /* ---------------- the whole schedule ---------------- */

  /** The allocator's result: the days in input order and the counters. */
  datatype ZonePlan = ZonePlan(days: seq<ZoneDay>, counts: ZoneCounts)

  /** One day's allocation from yesterday's zone B and the counters. */
  type DayStep = (DayCrew, seq<Worker>, ZoneCounts) --> (ZoneDay, ZoneCounts)

  /** `step` can allocate every day of `s`, whatever the state. */
  ghost predicate Steps(step: DayStep, s: seq<DayCrew>)
  {
    forall j, p, c | 0 <= j < |s| :: step.requires(s[j], p, c)
  }

  /** The days of the filtered schedule in input order, each allocated by
      `step` from the zone B of the day before it. */
  function AllocateDays(s: seq<DayCrew>, prev: seq<Worker>, c: ZoneCounts, step: DayStep): (r: ZonePlan)
    requires Steps(step, s)
    ensures |r.days| == |s|
    decreases |s|
  {
    if s == [] then ZonePlan([], c)
    else
      var first := step(s[0], prev, c);
      var rest := AllocateDays(s[1..], first.0.zoneB, first.1, step);
      ZonePlan([first.0] + rest.days, rest.counts)
  }

  /** What the source demands of the filtered schedule: every worker listed
      has counters (a name outside `workers` raises `KeyError`), and a day
      of four or more has two different names (`min` of an empty set
      otherwise). */
  predicate Staffable(s: seq<DayCrew>, workers: seq<Worker>)
  {
    forall i | 0 <= i < |s| :: Elems(s[i].crew) <= Elems(workers) && (|s[i].crew| >= 4 ==> |Elems(s[i].crew)| >= 2)
  }

  /** The greedy step can allocate every day whose crew it accepts. */
  lemma AllocatableSteps(s: seq<DayCrew>)
    requires forall j | 0 <= j < |s| :: Allocatable(s[j])
    ensures Steps(AllocateDay, s)
  {
  }

  /** `solve_cleaning_schedule_logic`: drop the vacationers and the empty
      days, then allocate from zero counters and an empty previous day. */
  function Allocate(schedule: seq<DayCrew>, workers: seq<Worker>, vacations: Vacations): (r: ZonePlan)
    requires Staffable(FilterSchedule(schedule, vacations), workers)
    ensures |r.days| == |FilterSchedule(schedule, vacations)|
  {
    var s := FilterSchedule(schedule, vacations);
    assert forall i | 0 <= i < |s| :: s[i] in s;
    AllocatableSteps(s);
    AllocateDays(s, [], ZoneCounts(Zeroes(workers), Zeroes(workers), Zeroes(workers)), AllocateDay)
  }

  /** Yesterday's zone B as seen by day `i`. */
  function PrevOf(days: seq<ZoneDay>, prev: seq<Worker>, i: nat): seq<Worker>
    requires i <= |days|
  {
    if i == 0 then prev else days[i - 1].zoneB
  }

  /** Yesterday's zone B and the counters when day `i` is reached. */
  function StateAt(s: seq<DayCrew>, prev: seq<Worker>, c: ZoneCounts, step: DayStep, i: nat): (seq<Worker>, ZoneCounts)
    requires Steps(step, s)
    requires i <= |s|
    decreases i
  {
    if i == 0 then (prev, c)
    else
      var first := step(s[0], prev, c);
      StateAt(s[1..], first.0.zoneB, first.1, step, i - 1)
  }

  /** Day `i` of the result is the allocation of input day `i` from the
      state reached by then. */
  lemma {:induction false} AllocateDaysAt(s: seq<DayCrew>, prev: seq<Worker>, c: ZoneCounts, step: DayStep, i: nat)
    requires Steps(step, s)
    requires i < |s|
    ensures var st := StateAt(s, prev, c, step, i);
            AllocateDays(s, prev, c, step).days[i] == step(s[i], st.0, st.1).0
    decreases |s|
  {
    if i > 0 {
      var first := step(s[0], prev, c);
      var rest := AllocateDays(s[1..], first.0.zoneB, first.1, step);
      assert AllocateDays(s, prev, c, step).days == [first.0] + rest.days;
      AllocateDaysAt(s[1..], first.0.zoneB, first.1, step, i - 1);
      assert s[1..][i - 1] == s[i];
    }
  }

  /** The state reached at day `i` holds the zone B of day `i - 1`. */
  lemma {:induction false} StateAtPrev(s: seq<DayCrew>, prev: seq<Worker>, c: ZoneCounts, step: DayStep, i: nat)
    requires Steps(step, s)
    requires i < |s|
    ensures StateAt(s, prev, c, step, i).0 == PrevOf(AllocateDays(s, prev, c, step).days, prev, i)
    decreases |s|
  {
    if i > 1 {
      var first := step(s[0], prev, c);
      StateAtPrev(s[1..], first.0.zoneB, first.1, step, i - 1);
    }
  }

  /** Day `i` of the result is the allocation of input day `i` with the
      zone B of the day before it and the counters reached by then. */
  lemma AllocateDaysRecord(s: seq<DayCrew>, prev: seq<Worker>, c: ZoneCounts, step: DayStep, i: nat)
    requires Steps(step, s)
    requires i < |s|
    ensures var r := AllocateDays(s, prev, c, step);
            var st := StateAt(s, prev, c, step, i);
      && st.0 == PrevOf(r.days, prev, i)
      && r.days[i] == step(s[i], st.0, st.1).0
  {
    AllocateDaysAt(s, prev, c, step, i);
    StateAtPrev(s, prev, c, step, i);
  }

  /** Days on which `w` is in zone B, alone in zone B, and in zone A. */
  function TimesInZoneB(days: seq<ZoneDay>, w: Worker): nat
  {
    if days == [] then 0 else (if w in days[0].zoneB then 1 else 0) + TimesInZoneB(days[1..], w)
  }

  function TimesAloneInZoneB(days: seq<ZoneDay>, w: Worker): nat
  {
    if days == [] then 0 else (if days[0].zoneB == [w] then 1 else 0) + TimesAloneInZoneB(days[1..], w)
  }

  function TimesInZoneA(days: seq<ZoneDay>, w: Worker): nat
  {
    if days == [] then 0 else (if w in days[0].zoneA then 1 else 0) + TimesInZoneA(days[1..], w)
  }

  /** The counters grow by the number of days in each role. */
  lemma {:induction false} AllocateDaysCounts(s: seq<DayCrew>, prev: seq<Worker>, c: ZoneCounts, w: Worker)
    requires forall i | 0 <= i < |s| :: Allocatable(s[i])
    ensures var r := AllocateDays(s, prev, c, AllocateDay);
      && Get(r.counts.b, w) == Get(c.b, w) + TimesInZoneB(r.days, w)
      && Get(r.counts.solo, w) == Get(c.solo, w) + TimesAloneInZoneB(r.days, w)
      && Get(r.counts.a, w) == Get(c.a, w) + TimesInZoneA(r.days, w)
    decreases |s|
  {
    if s != [] {
      var first := AllocateDay(s[0], prev, c);
      AllocateDayCounts(s[0], prev, c, w);
      AllocateDaysCounts(s[1..], first.0.zoneB, first.1, w);
      var r := AllocateDays(s, prev, c, AllocateDay);
      assert r.days[1..] == AllocateDays(s[1..], first.0.zoneB, first.1, AllocateDay).days;
    }
  }

  /** Since every weight is 1, the final counters are the number of days
      each worker spent in zone B, alone in zone B, and in zone A. */
  lemma AllocateCounts(schedule: seq<DayCrew>, workers: seq<Worker>, vacations: Vacations, w: Worker)
    requires Staffable(FilterSchedule(schedule, vacations), workers)
    ensures var r := Allocate(schedule, workers, vacations);
      && Get(r.counts.b, w) == TimesInZoneB(r.days, w)
      && Get(r.counts.solo, w) == TimesAloneInZoneB(r.days, w)
      && Get(r.counts.a, w) == TimesInZoneA(r.days, w)
  {
    var s := FilterSchedule(schedule, vacations);
    assert forall i | 0 <= i < |s| :: s[i] in s;
    AllocateDaysCounts(s, [], ZoneCounts(Zeroes(workers), Zeroes(workers), Zeroes(workers)), w);
  }

  /** Day `i` of a run: zone B holds one name on a day of at most three
      and two different names otherwise, zone A is everybody else of the
      day, and the day and its workers are those of input day `i`. */
  lemma AllocateDaysZones(s: seq<DayCrew>, prev: seq<Worker>, c: ZoneCounts, i: nat)
    requires forall j | 0 <= j < |s| :: Allocatable(s[j])
    requires i < |s|
    ensures var z := AllocateDays(s, prev, c, AllocateDay).days[i];
      && z.day == s[i].day && z.workers == s[i].crew
      && |z.zoneB| == Needed(|z.workers|) && NoDup(z.zoneB)
      && z.zoneA !! Elems(z.zoneB) && z.zoneA + Elems(z.zoneB) == Elems(z.workers)
  {
    var r := AllocateDays(s, prev, c, AllocateDay);
    AllocateDaysRecord(s, prev, c, AllocateDay, i);
    var st := StateAt(s, prev, c, AllocateDay, i);
    AllocateDayZones(s[i], st.0, st.1);
  }

  /** Day `i` of the result: its date and workers are those of filtered day
      `i`, so no empty day and no vacationer appears, and all its workers
      are listed ones; zone B holds one name on a day of at most three and
      two different names otherwise; zone A is everybody else of the day. */
  lemma AllocateZones(schedule: seq<DayCrew>, workers: seq<Worker>, vacations: Vacations, i: nat)
    requires Staffable(FilterSchedule(schedule, vacations), workers)
    requires i < |FilterSchedule(schedule, vacations)|
    ensures var s := FilterSchedule(schedule, vacations);
            var z := Allocate(schedule, workers, vacations).days[i];
      && z.day == s[i].day && z.workers == s[i].crew && z.workers != []
      && (forall w | w in z.workers :: w !in OffOn(vacations, z.day) && w in workers)
      && |z.zoneB| == Needed(|z.workers|) && NoDup(z.zoneB)
      && z.zoneA !! Elems(z.zoneB) && z.zoneA + Elems(z.zoneB) == Elems(z.workers)
  {
    var s := FilterSchedule(schedule, vacations);
    assert forall j | 0 <= j < |s| :: s[j] in s;
    AllocateDaysZones(s, [], ZoneCounts(Zeroes(workers), Zeroes(workers), Zeroes(workers)), i);
    FilterScheduleSound(schedule, vacations, s[i]);
    assert Elems(s[i].crew) <= Elems(workers);
  }

  /** From the second day on, when enough of the day's workers were not in
      zone B the day before, zone B repeats none of yesterday's zone-B
      workers. */
  lemma AllocateAvoidsYesterday(schedule: seq<DayCrew>, workers: seq<Worker>, vacations: Vacations, i: nat)
    requires Staffable(FilterSchedule(schedule, vacations), workers)
    requires 0 < i < |FilterSchedule(schedule, vacations)|
    ensures var days := Allocate(schedule, workers, vacations).days;
            |Elems(days[i].workers) - Elems(days[i - 1].zoneB)| >= Needed(|days[i].workers|) ==>
              Elems(days[i].zoneB) !! Elems(days[i - 1].zoneB)
  {
    var s := FilterSchedule(schedule, vacations);
    assert forall j | 0 <= j < |s| :: s[j] in s;
    var c0 := ZoneCounts(Zeroes(workers), Zeroes(workers), Zeroes(workers));
    AllocatableSteps(s);
    var r := AllocateDays(s, [], c0, AllocateDay);
    AllocateDaysRecord(s, [], c0, AllocateDay, i);
    var st := StateAt(s, [], c0, AllocateDay, i);
    AllocateDayZones(s[i], st.0, st.1);
    if |Elems(s[i].crew) - Elems(r.days[i - 1].zoneB)| >= Needed(|s[i].crew|) {
      AllocateDayAvoids(s[i], st.0, st.1);
    }
  }

  /** The first `i` days of a run are the run of the first `i` input days,
      which ends in the state reached at day `i`. */
  lemma {:induction false} AllocateDaysPrefix(s: seq<DayCrew>, prev: seq<Worker>, c: ZoneCounts, step: DayStep, i: nat)
    requires Steps(step, s)
    requires i <= |s|
    ensures Steps(step, s[..i])
    ensures AllocateDays(s[..i], prev, c, step).days == AllocateDays(s, prev, c, step).days[..i]
    ensures AllocateDays(s[..i], prev, c, step).counts == StateAt(s, prev, c, step, i).1
    decreases i
  {
    assert forall j | 0 <= j < i :: s[..i][j] == s[j];
    if i > 0 {
      var first := step(s[0], prev, c);
      AllocateDaysPrefix(s[1..], first.0.zoneB, first.1, step, i - 1);
      assert s[..i][1..] == s[1..][..i - 1];
    }
  }

  /** The counters when day `i` is reached are the starting counters plus
      the days before `i` spent in each role. */
  lemma StateAtCounts(s: seq<DayCrew>, prev: seq<Worker>, c: ZoneCounts, i: nat, w: Worker)
    requires forall j | 0 <= j < |s| :: Allocatable(s[j])
    requires i <= |s|
    ensures Steps(AllocateDay, s)
    ensures var st := StateAt(s, prev, c, AllocateDay, i);
            var before := AllocateDays(s, prev, c, AllocateDay).days[..i];
      && Get(st.1.b, w) == Get(c.b, w) + TimesInZoneB(before, w)
      && Get(st.1.solo, w) == Get(c.solo, w) + TimesAloneInZoneB(before, w)
      && Get(st.1.a, w) == Get(c.a, w) + TimesInZoneA(before, w)
  {
    AllocatableSteps(s);
    AllocateDaysPrefix(s, prev, c, AllocateDay, i);
    assert forall j | 0 <= j < i :: s[..i][j] == s[j];
    AllocateDaysCounts(s[..i], prev, c, w);
  }

  /** The solo key read off the days so far: days alone in zone B, days in
      zone B, name. */
  function HistorySoloOrder(days: seq<ZoneDay>): Order
  {
    (x: Worker, y: Worker) =>
      SoloLess(TimesAloneInZoneB(days, x), TimesInZoneB(days, x), x,
               TimesAloneInZoneB(days, y), TimesInZoneB(days, y), y)
  }

  /** The pair key read off the days so far: days in zone B, name. */
  function HistoryPairOrder(days: seq<ZoneDay>): Order
  {
    (x: Worker, y: Worker) => PairLess(TimesInZoneB(days, x), x, TimesInZoneB(days, y), y)
  }

  /** Counters that hold the appearance counts order the names as the
      appearance counts do. */
  lemma LeastBySoloHistory(pool: set<Worker>, c: ZoneCounts, days: seq<ZoneDay>, w: Worker)
    requires forall v | v in pool :: Get(c.b, v) == TimesInZoneB(days, v) && Get(c.solo, v) == TimesAloneInZoneB(days, v)
    requires LeastOf(pool, SoloOrder(c), w)
    ensures LeastOf(pool, HistorySoloOrder(days), w)
  {
    assert forall v | v in pool && v != w :: HistorySoloOrder(days)(w, v) == SoloOrder(c)(w, v);
  }

  lemma LeastByPairHistory(pool: set<Worker>, c: ZoneCounts, days: seq<ZoneDay>, w: Worker)
    requires forall v | v in pool :: Get(c.b, v) == TimesInZoneB(days, v)
    requires LeastOf(pool, PairOrder(c), w)
    ensures LeastOf(pool, HistoryPairOrder(days), w)
  {
    assert forall v | v in pool && v != w :: HistoryPairOrder(days)(w, v) == PairOrder(c)(w, v);
  }

  /** A day whose counters hold the appearance counts of `before` picks
      the least members of its pool by those counts. */
  lemma AllocateDayLeastByHistory(d: DayCrew, prev: seq<Worker>, c: ZoneCounts, before: seq<ZoneDay>)
    requires Allocatable(d)
    requires forall v :: Get(c.b, v) == TimesInZoneB(before, v) && Get(c.solo, v) == TimesAloneInZoneB(before, v)
    ensures var z := AllocateDay(d, prev, c).0;
            var pool := PoolSet(d.crew, prev, Needed(|d.crew|));
      && |z.zoneB| == Needed(|d.crew|)
      && (|d.crew| <= 3 ==> LeastOf(pool, HistorySoloOrder(before), z.zoneB[0]))
      && (|d.crew| > 3 ==>
            && LeastOf(pool, HistoryPairOrder(before), z.zoneB[0])
            && LeastOf(pool - {z.zoneB[0]}, HistoryPairOrder(before), z.zoneB[1]))
  {
    var z := AllocateDay(d, prev, c).0;
    var pool := PoolSet(d.crew, prev, Needed(|d.crew|));
    AllocateDayZones(d, prev, c);
    AllocateDayLeast(d, prev, c);
    if |d.crew| <= 3 {
      LeastBySoloHistory(pool, c, before, z.zoneB[0]);
    } else {
      LeastByPairHistory(pool, c, before, z.zoneB[0]);
      LeastByPairHistory(pool - {z.zoneB[0]}, c.(b := Bump(c.b, z.zoneB[0])), before, z.zoneB[1]);
    }
  }

  /** Every zone-B pick of the run is the least member of that day's pool
      by the days that came before it: on a day of at most three by (days
      alone in zone B, days in zone B, name); otherwise by (days in zone B,
      name), the second pick among the pool without the first. */
  lemma AllocateLeast(schedule: seq<DayCrew>, workers: seq<Worker>, vacations: Vacations, i: nat)
    requires Staffable(FilterSchedule(schedule, vacations), workers)
    requires i < |FilterSchedule(schedule, vacations)|
    ensures var days := Allocate(schedule, workers, vacations).days;
            var z := days[i];
            var pool := PoolSet(z.workers, PrevOf(days, [], i), Needed(|z.workers|));
      && |z.zoneB| == Needed(|z.workers|)
      && (|z.workers| <= 3 ==> LeastOf(pool, HistorySoloOrder(days[..i]), z.zoneB[0]))
      && (|z.workers| > 3 ==>
            && LeastOf(pool, HistoryPairOrder(days[..i]), z.zoneB[0])
            && LeastOf(pool - {z.zoneB[0]}, HistoryPairOrder(days[..i]), z.zoneB[1]))
  {
    var s := FilterSchedule(schedule, vacations);
    assert forall j | 0 <= j < |s| :: s[j] in s;
    var c0 := ZoneCounts(Zeroes(workers), Zeroes(workers), Zeroes(workers));
    AllocatableSteps(s);
    var days := AllocateDays(s, [], c0, AllocateDay).days;
    AllocateDaysRecord(s, [], c0, AllocateDay, i);
    var st := StateAt(s, [], c0, AllocateDay, i);
    forall v
      ensures Get(st.1.b, v) == TimesInZoneB(days[..i], v)
      ensures Get(st.1.solo, v) == TimesAloneInZoneB(days[..i], v)
    {
      StateAtCounts(s, [], c0, i, v);
    }
    AllocateDayLeastByHistory(s[i], st.0, st.1, days[..i]);
  }

  /* ---------------- output ---------------- */

  /** One entry of the returned dictionary: the day's workers, zone A and
      zone B joined with ", ", and the zone-B weight, which is 1 on every
      day. */
  datatype DayRecord = DayRecord(workers: string, zoneA: string, zoneB: string, weightB: nat)

  /** `listsA[i]` lists the zone-A set of day `i`, each name once, in some
      order. */
  predicate ListsZoneA(days: seq<ZoneDay>, listsA: seq<seq<Worker>>)
  {
    && |listsA| == |days|
    && forall i | 0 <= i < |days| :: Elems(listsA[i]) == days[i].zoneA && NoDup(listsA[i])
  }

  /** The returned dictionary as its entries in insertion order. Zone A is
      written in the iteration order of a Python set, which the model takes
      as the parameter `listsA`: one listing of each day's zone-A set. */
  function Render(days: seq<ZoneDay>, listsA: seq<seq<Worker>>): (r: seq<(Date, DayRecord)>)
    requires ListsZoneA(days, listsA)
    ensures |r| == |days|
  {
    seq(|days|, i requires 0 <= i < |days| =>
      (days[i].day, DayRecord(Join(days[i].workers), Join(listsA[i]), Join(days[i].zoneB), 1)))
  }

  /** An entry reads back as the day it was written from, when no name
      holds a comma and the lists are not empty: the zone-A field holds the
      day's zone-A set, each name once, and is empty when that set is. */
  lemma RenderReadsBack(days: seq<ZoneDay>, listsA: seq<seq<Worker>>, i: nat)
    requires ListsZoneA(days, listsA) && i < |days|
    requires days[i].workers != [] && days[i].zoneB != []
    requires forall w | w in days[i].workers :: Plain(w)
    requires forall w | w in days[i].zoneB :: Plain(w)
    ensures var e := Render(days, listsA)[i];
      && e.0 == days[i].day
      && Split(e.1.workers) == days[i].workers
      && Split(e.1.zoneB) == days[i].zoneB
      && (days[i].zoneA == {} ==> e.1.zoneA == "")
      && (days[i].zoneA != {} && (forall w | w in days[i].zoneA :: Plain(w)) ==>
            && Split(e.1.zoneA) == listsA[i]
            && Elems(Split(e.1.zoneA)) == days[i].zoneA
            && NoDup(Split(e.1.zoneA)))
      && e.1.weightB == 1
  {
    SplitJoin(days[i].workers);
    SplitJoin(days[i].zoneB);
    NoElems(listsA[i]);
    if days[i].zoneA != {} && forall w | w in days[i].zoneA :: Plain(w) {
      SplitJoin(listsA[i]);
    }
  }

  /** With names free of commas, entry `i` of the output reads back as the
      date of filtered day `i`, its workers in input order, its zone-B names
      in the order they were picked, and as zone A each of the day's other
      workers once (nothing when there is none); the weight is 1. */
  lemma OutputReadsBack(schedule: seq<DayCrew>, workers: seq<Worker>, vacations: Vacations, listsA: seq<seq<Worker>>, i: nat)
    requires Staffable(FilterSchedule(schedule, vacations), workers)
    requires forall w | w in workers :: Plain(w)
    requires ListsZoneA(Allocate(schedule, workers, vacations).days, listsA)
    requires i < |FilterSchedule(schedule, vacations)|
    ensures var s := FilterSchedule(schedule, vacations);
            var r := Allocate(schedule, workers, vacations);
            var e := Render(r.days, listsA)[i];
            var zoneA := Split(e.1.zoneA);
      && e.0 == s[i].day
      && Split(e.1.workers) == s[i].crew
      && Split(e.1.zoneB) == r.days[i].zoneB
      && (r.days[i].zoneA == {} ==> e.1.zoneA == "")
      && (r.days[i].zoneA != {} ==>
            NoDup(zoneA) && forall w :: w in zoneA <==> w in s[i].crew && w !in r.days[i].zoneB)
      && e.1.weightB == 1
  {
    var r := Allocate(schedule, workers, vacations);
    var z := r.days[i];
    AllocateZones(schedule, workers, vacations, i);
    forall w | w in z.zoneB
      ensures Plain(w)
    {
      assert w in Elems(z.workers);
    }
    RenderReadsBack(r.days, listsA, i);
    ZoneAReadsBack(z, listsA[i]);
  }

  /** A listing of a day's zone-A set, joined and read back, holds each of
      the day's workers outside zone B once, and is empty when there is
      none. */
  lemma ZoneAReadsBack(z: ZoneDay, listA: seq<Worker>)
    requires Elems(listA) == z.zoneA && NoDup(listA)
    requires z.zoneA !! Elems(z.zoneB) && z.zoneA + Elems(z.zoneB) == Elems(z.workers)
    requires forall w | w in z.workers :: Plain(w)
    ensures z.zoneA == {} ==> Join(listA) == ""
    ensures z.zoneA != {} ==>
              && NoDup(Split(Join(listA)))
              && forall w :: w in Split(Join(listA)) <==> w in z.workers && w !in z.zoneB
  {
    NoElems(listA);
    if z.zoneA != {} {
      forall w | w in listA
        ensures Plain(w)
      {
        assert w in Elems(listA);
        assert w in Elems(z.workers);
      }
      SplitJoin(listA);
      forall w
        ensures w in listA <==> w in z.workers && w !in z.zoneB
      {
        assert w in listA <==> w in Elems(listA);
        assert w in z.workers <==> w in Elems(z.workers);
        assert w in z.zoneB <==> w in Elems(z.zoneB);
      }
    }
  }
}
