# Fair allocation engine of ZoneCleaner, in Dafny

This project models the fair-allocation core of ZoneCleaner. The program
hands a small roster of workers daily duties over a date range. It respects
vacations and holidays and keeps the workload even. The model covers four
pieces, each a pure fold over the ordered list of days with per-worker
counters:

- **Calendar resolver** (`Calendar`). This gives the workdays of an inclusive
  date range. Dates are day ordinals and the weekday is arithmetic on the
  ordinal. The program has three holiday rules, one per file, and the model
  covers all three:
  - app.py: public holidays are off.
  - allocation.py: public holidays and selected holidays are off.
  - allocation_job.py: only selected holidays are off.
- **Availability filter** (`Availability`). This removes the vacationers from
  a roster or a day's crew and keeps roster order. It also builds the
  day-to-roster schedule of app.py and the filtered schedule of both zone
  planners, which drops the days on which nobody is left.
- **Greedy shift balancer** (`ShiftBalancer`, allocation.py). Each workday
  has a morning and an afternoon slot. Each slot goes to the available member
  with the least (count of that slot, total count), and a stable sort settles
  ties by roster order. The target is the floor of all assigned shifts per
  roster entry.
- **Greedy task-type balancer** (`TaskBalancer`, allocation_job.py). Each
  workday with at least three members available fills the quotas of chat,
  happy call and closing. Each place goes to the remaining member with the
  least key: (task ratio, total ratio, task count, never-done task count). A
  tie goes to the first in roster order. Ratios divide by the member's count
  of available days, which is also the `total_working_days` column of
  `calculate_work_stats`.
- **Zone allocation** (opt_clean_schedule.py and app.py):
  - `ZoneBand`: `get_b_zone_min_max`, the band of zone-B places per worker.
  - `ZoneGreedy`: `solve_cleaning_schedule_logic`, the greedy allocator that
    avoids yesterday's zone-B workers when it can.
  - `ZoneCheck`: the CP-SAT models of both files, as a check on a candidate
    solution. It holds the per-day constraints, the per-worker bounds, the
    objective and the rendered output.
  - `Text`: the `", ".join` used by every output, and its reading back.

`Basics` and `Names` hold shared helpers: sequences without repeats,
counters that read 0 for a missing key, and Python's code-point order on
strings.

Some behaviours of the code are worth stating plainly, because the model
follows them exactly:

- The fourth part of the task key is the live count of task types the member
  has never had, and `min` takes the member for whom it is *smallest*
  (allocation_job.py:150-160).
- The first three parts of the task key come from a snapshot taken at the
  start of the day (allocation_job.py:116-140). Only the never-done count is
  read live.
- On a day with more than five members available, the task balancer fills
  only `min(n, 5)` places and leaves the others without a task
  (allocation_job.py:112).
- The zone-B band divides by the size of the *last* day's crew
  (opt_clean_schedule.py:18), not by the roster size. Days of six or more
  contribute no zone-B places (opt_clean_schedule.py:9-17).
- In opt_clean_schedule.py's CP model, the per-worker totals are not tied to
  the assignment, because lines 89-93 are commented out. Only the per-day
  constraints bind the assignment there.
- app.py's CP output is `None` both when no solution is found and when the
  schedule has no days, because an empty solution list is falsy
  (app.py:129-140). opt_clean_schedule.py fails on an empty schedule before
  that point, in `get_b_zone_min_max` (opt_clean_schedule.py:50).

Dates are ordinals where 0001-01-01 is day 1, a Monday, so `Weekday(d) ==
(d + 6) % 7`. The holiday calendar is an input set of ordinals. The vacation
map goes from ordinal to a set of names, and a missing date means nobody is
off.

## Model

| member | source | states |
|---|---|---|
| Calendar.Workdays | allocation.py:75-77 | every date of the inclusive range that is a workday under the rule, each once and in increasing order, and nothing else; empty when start > end |
| Calendar.WorkdayPolicies | allocation.py:70-71 | Sunday is never a workday; allocation.py's rule is exactly the conjunction of the other two; the selected-only rule ignores the public calendar and app.py's rule ignores the selection |
| Calendar.CombinedRuleHasFewerWorkdays | allocation_job.py:68-71 | the workdays of allocation.py's rule are a subsequence of those of allocation_job.py's rule |
| Calendar.SevenDaysHoldSixWorkdays | app.py:21-22 | any seven consecutive days without holidays hold exactly six workdays under each rule |
| Calendar.WorkdaysStep | app.py:21-22 | without holidays, a date of the range adds one workday exactly when it is not a Sunday |
| Calendar.OneSundayAWeek | app.py:21 | among any seven consecutive dates exactly one is a Sunday |
| Availability.Available | allocation.py:84 | a name is available on a date iff it is on the roster and not on vacation that date |
| Availability.AvailableMultiplicity | allocation.py:84 | a member not on vacation keeps every one of their roster entries, and a vacationer keeps none |
| Availability.AvailableKeepsOrder | allocation_job.py:106 | the available members are a subsequence of the roster, and without repeats when the roster has none |
| Availability.GenerateSchedule | app.py:25-32 | one entry per workday of [start, end] under the public-holiday rule, each holding the whole roster, in increasing date order, covering every such workday; empty when start > end |
| Availability.FilterSchedule | app.py:39-42 | no kept day has an empty crew, and filtering never adds days |
| Availability.FilterScheduleSound | opt_clean_schedule.py:178-184 | every kept day is an input day with its vacationers removed, and no kept worker is on vacation that day |
| Availability.FilterScheduleComplete | app.py:39-42 | every input day on which somebody is left is kept |
| Availability.FilterScheduleKeepsOrder | opt_clean_schedule.py:178-184 | for any input order, the kept days are the input days with their vacationers removed, in input order, with some of them deleted |
| Availability.FilterScheduleChronological | opt_clean_schedule.py:178-184 | a schedule in increasing date order stays in increasing date order after filtering |
| ShiftBalancer.NoShifts | allocation.py:80 | the starting tallies have one key per roster member and every count is 0 |
| ShiftBalancer.PickIndex | allocation.py:91-97 | the pick is the first element of the stable sort: nobody has a smaller (slot count, total) key, and every earlier member has a larger one |
| ShiftBalancer.Pick | allocation.py:91-97 | the picked member is available, and it sits at a first-minimum position of the available list |
| ShiftBalancer.PlanDay | allocation.py:82-99 | both slots stay empty iff nobody is available; otherwise the morning is the pick for the morning key and the afternoon is the pick after the morning was counted; the tallies move by exactly those two picks |
| ShiftBalancer.PlanDayCounts | allocation.py:99 | a day raises a member's count of a slot kind by one exactly when it gives that slot to the member |
| ShiftBalancer.PlanDays | allocation.py:82-99 | one record per workday, each the day plan of that workday from the tallies the earlier days left; its contents are stated by PlanDaysPrefix, PlanDaysRecords, PlanDaysCountsServed and PlanDaysHistory |
| ShiftBalancer.PlanDaysPrefix | allocation.py:82-99 | the first i records of a pass are the pass over the first i workdays, and record i is the day plan of workday i for the tallies that shorter pass leaves |
| ShiftBalancer.PlanDaysRecords | allocation.py:82-99 | record i of the pass is dated workday i, and its slots come from the members available that day |
| ShiftBalancer.Solve | allocation.py:74-104 | one record per workday of allocation.py's rule, and tallies keyed by exactly the roster members |
| ShiftBalancer.SolveCoversWorkdays | allocation.py:75-79 | the records are exactly the workdays of [start, end] in increasing order; empty slots iff nobody is available; a filled slot holds an available member; a lone available member takes both slots |
| ShiftBalancer.SolveCountsServed | allocation.py:98-99 | after the run, each member's count of a slot kind is the number of days on which that slot went to the member |
| ShiftBalancer.SolveTarget | allocation.py:101-104 | the target is the number of filled slots divided by the roster length, rounded down |
| ShiftBalancer.PlanDaysCountsServed | allocation.py:82-99 | a pass adds to each count the number of days on which that slot went to that member |
| ShiftBalancer.PlanDaysKeys | allocation.py:80 | the pass adds no counter keys beyond the roster |
| ShiftBalancer.PlanDaysSumsFilled | allocation.py:101 | over the distinct roster members, the sum of totals grows by one per filled slot |
| ShiftBalancer.PlanDaysHistory | allocation.py:80-99 | a pass from zero tallies ends with tallies equal to the number of days each slot went to each roster member |
| ShiftBalancer.ServedTallies | allocation.py:80 | roster-keyed tallies that agree with a schedule's served counts are that schedule's tallies |
| ShiftBalancer.SolveRecord | allocation.py:82-99 | record i of the run is the day plan of its date, with that date's available members, for the tallies counted from records 0 to i - 1 |
| ShiftBalancer.SolvePicksLeast | allocation.py:91-99 | on a day with somebody available, the morning goes to a first-least member by the earlier days' (morning count, total), and the afternoon to a first-least member by (afternoon count, total) once that morning is counted |
| TaskBalancer.NoTasks | allocation_job.py:98 | every starting task count is 0 |
| TaskBalancer.Rule | allocation_job.py:77-81 | the quotas for a headcount of three or more add up to min(headcount, 5), with one or two chat places, one or two happy-call places and one closing place |
| TaskBalancer.BumpAll | allocation_job.py:93-95 | each counter grows by the number of times its name is in the list |
| TaskBalancer.WorkStats | allocation_job.py:212-238 | the work statistics have one entry per roster member |
| TaskBalancer.AvailableDaysCount | allocation_job.py:90-95 | a member's available-day count is the number of roster entries of that member times the number of workdays on which the member is not on vacation |
| TaskBalancer.AvailableDaysMatchWorkStats | allocation_job.py:225-238 | with a roster without repeats, the balancer's available days equal `total_working_days` of the work statistics |
| TaskBalancer.PriorityLessOrder | allocation_job.py:150-160 | the key order is irreflexive, asymmetric and transitive, and incomparability is transitive too (a strict weak order), so `min` is well defined |
| TaskBalancer.PriorityOf | allocation_job.py:116-160 | the key of a member for a task: its task ratio and total ratio from the counts at the start of the day, its count of the task, and its number of never-done tasks from the live counts; PickIndexIsFirstLeast and LeastIsFirstLeast state how `min` uses it |
| TaskBalancer.PickIndexIsFirstLeast | allocation_job.py:150-160 | the pick has no candidate with a smaller key, every earlier candidate has a larger key, and no earlier candidate has the same name |
| TaskBalancer.LeastIsFirstLeast | allocation_job.py:150-160 | the member `min` returns has the least key, and it is the first candidate with that key |
| TaskBalancer.RemoveFirst | allocation_job.py:162 | `list.remove` shortens the list by one |
| TaskBalancer.RecordAllCounts | allocation_job.py:164 | recording a list of picks for a task type adds to each counter of that type its number of picks, and changes no counter of any other type |
| TaskBalancer.MinBy | allocation_job.py:150-160 | the key's chooser always names a position of a non-empty candidate list |
| TaskBalancer.RemoveAtFirst | allocation_job.py:162 | removing at the first position of a name is `list.remove` of that name |
| TaskBalancer.FillTask | allocation_job.py:145-164 | min(quota, candidates) members are picked, and picked plus remaining is exactly the candidate multiset |
| TaskBalancer.FillTaskStep | allocation_job.py:145-164 | a round takes the first candidate of least key, removes it with `list.remove`, and counts it before the next round |
| TaskBalancer.FillDay | allocation_job.py:143-164 | the three task lists and the leftover members together are as long as the candidates; when the quotas fit, each task gets exactly its quota |
| TaskBalancer.FillDayPartition | allocation_job.py:143-163 | every member is handed out or left over exactly as often as it is a candidate |
| TaskBalancer.FillDayCounts | allocation_job.py:164 | a day raises a member's count for a task type by the number of times it is listed under that type, and nothing else |
| TaskBalancer.PlanDay | allocation_job.py:106-166 | the record carries its date |
| TaskBalancer.PlanDayQuotas | allocation_job.py:109-112 | a day is skipped iff fewer than three members are available; otherwise each task type gets exactly its quota, min(n, 5) places in all |
| TaskBalancer.SplitBound | allocation_job.py:143-163 | the three task lists together draw on the candidates, and use all of them when nobody is left over |
| TaskBalancer.PlanDayDrawsFromAvailable | allocation_job.py:143-163 | the day's places form a sub-multiset of its available members, and on a staffed day of at most five they are exactly the available members |
| TaskBalancer.PlanDayNoRepeats | allocation_job.py:143-163 | with distinct available members, nobody gets two places on a day |
| TaskBalancer.PlanDayCounts | allocation_job.py:162-164 | a day raises each count by the number of times that member is listed under that task type |
| TaskBalancer.PlanDays | allocation_job.py:104-166 | one record per workday, carrying that workday's date |
| TaskBalancer.PlanDaysCounts | allocation_job.py:104-166 | the pass adds to each count the number of times the member is listed under that task type |
| TaskBalancer.PlanDaysRecord | allocation_job.py:104-166 | the first i records are the pass over the first i workdays, and record i is the day plan of workday i, with that day's available members, for exactly the counts that shorter pass leaves |
| TaskBalancer.Solve | allocation_job.py:84-97 | one record per workday of the selected-only rule, in calendar order |
| TaskBalancer.SolveRecord | allocation_job.py:98-166 | record i is the day plan of its date, with that date's available members, for counts equal to how often each member was listed under each task type in records 0 to i - 1 |
| TaskBalancer.SolveDayQuotas | allocation_job.py:97-112 | each record is skipped iff fewer than three members are available that day, and otherwise meets each task type's quota |
| TaskBalancer.SolveDayDrawsFromAvailable | allocation_job.py:106 | every place goes to a member available and not on vacation that day; on a staffed day of at most five everyone available gets exactly one place |
| TaskBalancer.SolveDayNoRepeats | allocation_job.py:143-163 | with a roster without repeats, nobody gets two places on one day |
| TaskBalancer.SolveCountsListed | allocation_job.py:162-166 | after the run, each task count is the number of times the member is listed under that type, which is the number of such days when the roster has no repeats |
| TaskBalancer.ListedOnceCountsDays | allocation_job.py:162-166 | when no day lists a name twice under a type, counting listings is counting days |
| TaskBalancer.CandidatesHaveFiniteRatios | allocation_job.py:123-133 | every member available on a workday has a positive available-day count, so neither ratio of its key is `float("inf")` |
| Text.Join | app.py:133-135 | joining no names gives the empty string, and joining one name gives that name |
| Text.SplitJoin | app.py:133-135 | names without a comma read back from their ", " join, in order and with nothing lost |
| ZoneBand.UnitsAreSeats | opt_clean_schedule.py:9-17 | the zone-B unit count is the sum over days of 1 for a day of three, 2 for a day of four or five, and 0 otherwise |
| ZoneBand.ZoneBBand | opt_clean_schedule.py:5-21 | the floor and ceiling of the zone-B units over the size of the last crew iterated; UnitsAreSeats, BandBrackets and BandWidth state its contract |
| ZoneBand.BandBrackets | opt_clean_schedule.py:17-21 | the band's low end is the floor and its high end the ceiling of units divided by the size of the last crew |
| ZoneBand.BandWidth | opt_clean_schedule.py:18-21 | low <= high <= low + 1, and low == high iff the units divide evenly |
| ZoneCheck.InZone | app.py:124-127 | a zone list holds only names of the crew it was built from |
| ZoneCheck.DayValid | app.py:58-74 | the per-day constraints shared by both solver models: one or two zone-B places, each worker on duty in exactly one zone, zone sums adding up to the headcount, one zone-B place on a day of three and two on a day of four or more; DayValidSplit and ZonesSplit state what they imply |
| ZoneCheck.AppValid | app.py:58-108 | app.py's feasible assignments: every day valid, and for every roster member a zone-B total within 6..7 equal to their zone-B days, a solo count of at most 4 equal to their solo days, and deviations no larger than the number of days; AppNeedsSixDays and ZoneBDaysAtMostDuty state what follows |
| ZoneCheck.OptValid | opt_clean_schedule.py:58-116 | opt_clean_schedule.py's feasible assignments: every day valid, and for every roster member a zone-B total inside the band, a solo count of at most half the band's high end plus 1, and deviations no larger than the number of days, with neither count linked to the days; OptTotalsUnlinked states what follows |
| ZoneCheck.Objective | app.py:89-108 | the minimised sum, per roster entry, of the distance of the zone-B total from the average, the distance of the solo count from 3, and the shortfall of the solo count below 2; ObjectiveZero and ObjectiveSameTotals state its contract |
| ZoneCheck.Render | app.py:130-136 | a day's record: the crew, the zone-A list and the zone-B list, each joined with ", "; RenderReadsBack states what it reads back as |
| ZoneCheck.InZoneFilters | app.py:124-127 | a zone list is the crew filtered by the solution in crew order: a name is in it iff it is in the crew with value 1, each such name as often as in the crew, and the list is a subsequence of the crew |
| ZoneCheck.ZonesSplit | app.py:63-69 | when each name is in exactly one zone, the two zone lists split the crew as a multiset, and their lengths are the zone sums, which add up to the headcount |
| ZoneCheck.DayValidSplit | app.py:58-74 | on a valid day the zone lists split the crew; zone B has one or two names, one on a day of three and two on a day of four or more; a lone worker cleans zone B |
| ZoneCheck.ZoneBDaysAtMostDuty | app.py:82-83 | a worker's solo days are at most their zone-B days, which are at most their days on duty |
| ZoneCheck.AppNeedsSixDays | app.py:79-87 | app.py's model is infeasible unless every roster member is on duty at least six days, and solo days never exceed the zone-B total |
| ZoneCheck.ObjectiveZero | app.py:89-108 | the objective is zero iff every roster member has the average zone-B total and exactly three solo days |
| ZoneCheck.OptTotalsUnlinked | opt_clean_schedule.py:85-97 | any other assignment that meets the per-day constraints, with the same totals, is also valid and costs the same |
| ZoneCheck.ObjectiveSameTotals | opt_clean_schedule.py:99-118 | the objective depends only on the per-worker total and solo variables |
| ZoneCheck.Output | app.py:129-140 | no output iff no solution or no days; otherwise every day's date maps to its rendered record, and every key is a day's date |
| ZoneCheck.RenderReadsBack | app.py:124-136 | for a valid day whose names have no commas, the zone-B field reads back as the zone-B list, the workers field as the crew, and the zone-A field as the zone-A list, or as "" when nobody cleans zone A |
| ZoneGreedy.SoloOrderStrictTotal | opt_clean_schedule.py:223 | the (solo count, zone-B count, name) order is a strict total order on names |
| ZoneGreedy.PairOrderStrictTotal | opt_clean_schedule.py:230 | the (zone-B count, name) order is a strict total order on names |
| ZoneGreedy.MinOf | opt_clean_schedule.py:223 | `min` returns a member of the pool |
| ZoneGreedy.MinOfIsLeast | opt_clean_schedule.py:223 | under a strict total order, `min` returns the member that comes before every other member of the pool |
| ZoneGreedy.LeastOfUnique | opt_clean_schedule.py:212-215 | the least member of a set is unique, so `min` over a Python set does not depend on iteration order |
| ZoneGreedy.PoolIsPoolSet | opt_clean_schedule.py:212-218 | the candidate list holds exactly the source's candidate set: the workers not in zone B yesterday when there are enough of them, otherwise the whole day |
| ZoneGreedy.BumpSet | opt_clean_schedule.py:261-262 | each zone-A member's counter grows by one, and every other counter stays the same |
| ZoneGreedy.PickZoneB | opt_clean_schedule.py:218-249 | the zone-B pick of a day and the counters after it; PickZoneBShape, PickZoneBLeast and PickZoneBCounts state its contract |
| ZoneGreedy.PickZoneBShape | opt_clean_schedule.py:218-249 | the zone-B list has the required size, no repeated name, and only pool members |
| ZoneGreedy.PickZoneBLeast | opt_clean_schedule.py:218-249 | one place takes the least pool member by (solo, b, name); two places take the least by (b, name), then the least of the others after the first was counted |
| ZoneGreedy.PickZoneBCounts | opt_clean_schedule.py:224-231 | the pick raises the zone-B counter of each picked name and the solo counter of a lone pick, and leaves the zone-A counters unchanged |
| ZoneGreedy.AllocateDay | opt_clean_schedule.py:200-262 | one day of the greedy allocator: zone B picked from the pool, zone A the rest of the crew, counters raised; AllocateDayZones, AllocateDayAvoids, AllocateDayLeast and AllocateDayCounts state its contract |
| ZoneGreedy.AllocateDayZones | opt_clean_schedule.py:202-258 | zone B has one name on a day of at most three and two different names otherwise; zone A is the rest of the day's names, disjoint from zone B |
| ZoneGreedy.AllocateDayAvoids | opt_clean_schedule.py:214-233 | when enough of the day's workers were not in zone B yesterday, none of yesterday's zone-B workers is picked |
| ZoneGreedy.AllocateDayLeast | opt_clean_schedule.py:211-249 | the zone-B picks are the least members of the candidate set the source builds |
| ZoneGreedy.AllocateDayCounts | opt_clean_schedule.py:224-262 | a day raises the zone-B counter once per zone-B name, the solo counter for a lone zone-B name, and the zone-A counter once per zone-A name |
| ZoneGreedy.AllocateDays | opt_clean_schedule.py:200-252 | the run has one day per input day |
| ZoneGreedy.AllocateDaysRecord | opt_clean_schedule.py:200-252 | day i of the run is the allocation of input day i, from the zone B of day i - 1 (empty on the first day) and the counters reached by then |
| ZoneGreedy.AllocateDaysPrefix | opt_clean_schedule.py:200-252 | the first i days of a run are the run of the first i input days, and they end in the state reached at day i |
| ZoneGreedy.StateAtCounts | opt_clean_schedule.py:187-262 | the counters reached at day i are the starting counters plus the days before i spent in zone B, alone in zone B, and in zone A |
| ZoneGreedy.AllocateDaysCounts | opt_clean_schedule.py:187-262 | the final counters are the starting counters plus the days spent in zone B, alone in zone B, and in zone A |
| ZoneGreedy.AllocateCounts | opt_clean_schedule.py:187-262 | after the whole run, the counters are exactly those appearance counts |
| ZoneGreedy.Allocate | opt_clean_schedule.py:168-273 | the greedy zone allocator over the filtered schedule: one output day per filtered day; AllocateZones, AllocateLeast, AllocateCounts and AllocateAvoidsYesterday state the shape of each day, the least-count picks, the final counters and the avoidance of yesterday's zone B |
| ZoneGreedy.AllocateZones | opt_clean_schedule.py:178-258 | day i is filtered day i: it has a non-empty crew, no vacationer, only listed workers, zone B of the required size without repeats, and zone A as everyone else |
| ZoneGreedy.AllocateAvoidsYesterday | opt_clean_schedule.py:214-252 | from the second day on, when enough workers were not in zone B the day before, zone B repeats none of the day before's zone-B names |
| ZoneGreedy.AllocateDayLeastByHistory | opt_clean_schedule.py:223-249 | a day whose counters hold the appearance counts of earlier days picks the least pool members by those counts |
| ZoneGreedy.AllocateLeast | opt_clean_schedule.py:223-249 | every zone-B pick is the least member of its day's pool by the earlier days: by (days alone in zone B, days in zone B, name) on a day of at most three, otherwise by (days in zone B, name), the second pick among the rest |
| ZoneGreedy.Render | opt_clean_schedule.py:258-270 | the output has one entry per day, written from a listing of that day's zone-A set that holds each member once |
| ZoneGreedy.RenderReadsBack | opt_clean_schedule.py:258-270 | an entry reads back as its day's date, workers and zone-B list, and weight 1; its zone-A field is empty when zone A is, and otherwise reads back as the day's zone-A set with each member once |
| ZoneGreedy.OutputReadsBack | opt_clean_schedule.py:255-270 | when names have no commas, entry i of the output reads back as filtered day i's date and crew and its zone-B picks in pick order, with weight 1; its zone-A field is empty when zone A is, and otherwise reads back as exactly the crew minus zone B, each name once |
| ZoneGreedy.ZoneAReadsBack | opt_clean_schedule.py:255-266 | a listing of a day's zone A, joined and read back, names exactly the crew members outside zone B, each once, and is empty when zone A is |

## Left out

- The Streamlit UI, HTML and calendar rendering, SQLite persistence, the
  Flask server with its polling thread, CSV import and encoding detection,
  and the pandas statistics are presentation, I/O or concurrency code.
- The CP-SAT `Solve` call, its time limit and its status handling belong to a
  foreign solver. `ZoneCheck` states which candidates are valid and what they
  cost. It makes no claim that a solution exists or that one is optimal, and
  `ZoneCheck.Output` takes the solver's answer as an input.
- The `holidays` library lookup is replaced by an input set of holiday dates.
- `strptime`/`strftime` are left out: dates are ordinals, and the vacation map
  is keyed by ordinal rather than by date string.
- `print` calls are left out.
- The float targets `round(total_days / 3, 1)` of `calculate_work_stats` are
  left out; only `total_working_days` is modelled.
- TaskBalancer.Solve: does not model `target_ratios` (allocation_job.py:101-102).
  Its value is never used, but it raises `ZeroDivisionError` when the roster
  is non-empty and no member has an available day. The model returns the all-skipped plan in that case.
- TaskBalancer.RatioOf: ratios are exact rationals, not floats. The counts
  involved are small, so floats compare them the same way.
- ZoneGreedy.Render: the order of the zone-A list comes from a Python set,
  so it is a parameter. Its contents are not free: the parameter must list
  each day's zone-A set, each member once.
- ZoneGreedy.Allocate: requires every filtered day's names to be listed
  workers, and a day of four or more to hold two different names. The source
  raises `KeyError` or `ValueError` otherwise, and the model does not
  represent those exceptions.
- ShiftBalancer.Solve: requires a non-empty roster. The source divides by the
  roster length and raises `ZeroDivisionError` on an empty roster
  (allocation.py:102).
- ZoneBand.ZoneBBand: requires a non-empty schedule whose last crew is
  non-empty. The source raises on an empty schedule, because the loop
  variable is unbound.
- The output dictionaries are keyed by date. `ZoneCheck.Output` assumes the
  dates are distinct, as dictionary keys are. `ZoneGreedy.Render` returns the
  entries in insertion order. A schedule that mixes string and date keys for
  the same day is not modelled.
- Python's string order is modelled as code-point order (`Names.NameLess`).
