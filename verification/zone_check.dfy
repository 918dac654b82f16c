/** The zone-cleaning constraint models of app.py and opt_clean_schedule.py,
    stated as a check on a candidate solution rather than as a search: the
    per-day zone constraints both share, the per-worker bounds of each, the
    objective each minimises, and the output a solution is rendered to. */
module ZoneCheck {

  import opened Basics
  import opened Calendar
  import opened Availability
  import opened ZoneBand
  import opened Text

  /** Zone 1 (zone A) and zone 2 (zone B). */
  datatype Zone = ZoneA | ZoneB

  /** A candidate solution: the Boolean variables `clean_<w>_day<d>_zone<z>`
      that are 1, and the values of the integer variables `total_zone2_<w>`
      and `solo_zone2_<w>`. */
  datatype Candidate = Candidate(on: set<(Date, Worker, Zone)>, total: map<Worker, int>, solo: map<Worker, int>)
  {
    function TotalOf(w: Worker): int
    {
      if w in total then total[w] else 0
    }

    function SoloOf(w: Worker): int
    {
      if w in solo then solo[w] else 0
    }
  }

  /** The solution's value for `w` in zone `z` on a day: a worker not on
      duty that day has no variable and reads as 0. */
  function Value(c: Candidate, day: DayCrew, w: Worker, z: Zone): nat
  {
    if w in day.crew && (day.day, w, z) in c.on then 1 else 0
  }

  /** The sum of the day's variables for zone `z` over the names `ws`, one
      term per entry (a name listed twice counts twice). */
  function ZoneSum(c: Candidate, day: DayCrew, ws: seq<Worker>, z: Zone): nat
  {
    if ws == [] then 0 else Value(c, day, ws[0], z) + ZoneSum(c, day, ws[1..], z)
  }

  /** The names of `ws` the solution puts in zone `z`. */
  function InZone(c: Candidate, day: DayCrew, ws: seq<Worker>, z: Zone): (r: seq<Worker>)
    ensures forall w | w in r :: w in ws
  {
    if ws == [] then []
    else (if Value(c, day, ws[0], z) == 1 then [ws[0]] else []) + InZone(c, day, ws[1..], z)
  }

  /** A zone list is `ws` filtered by the solution, in the order of `ws`:
      every entry of a name in the zone is kept and every other entry is
      dropped. */
  lemma {:induction false} InZoneFilters(c: Candidate, day: DayCrew, ws: seq<Worker>, z: Zone)
    ensures var r := InZone(c, day, ws, z);
      && (forall w :: w in r <==> w in ws && Value(c, day, w, z) == 1)
      && (forall w :: multiset(r)[w] == if Value(c, day, w, z) == 1 then multiset(ws)[w] else 0)
      && IsSubseq(r, ws)
  {
    InZoneMembers(c, day, ws, z);
    InZoneKeepsOrder(c, day, ws, z);
  }

  lemma {:induction false} InZoneMembers(c: Candidate, day: DayCrew, ws: seq<Worker>, z: Zone)
    ensures var r := InZone(c, day, ws, z);
      && (forall w :: w in r <==> w in ws && Value(c, day, w, z) == 1)
      && (forall w :: multiset(r)[w] == if Value(c, day, w, z) == 1 then multiset(ws)[w] else 0)
  {
    if ws != [] {
      InZoneMembers(c, day, ws[1..], z);
      assert ws == [ws[0]] + ws[1..];
    }
  }

  lemma {:induction false} InZoneKeepsOrder(c: Candidate, day: DayCrew, ws: seq<Worker>, z: Zone)
    ensures IsSubseq(InZone(c, day, ws, z), ws)
  {
    if ws != [] {
      InZoneKeepsOrder(c, day, ws[1..], z);
      var rest := InZone(c, day, ws[1..], z);
      assert [ws[0]] + ws[1..] == ws;
      if Value(c, day, ws[0], z) == 1 {
        assert InZone(c, day, ws, z) == [ws[0]] + rest;
        SubseqCons(ws[0], rest, ws[1..]);
      } else {
        assert InZone(c, day, ws, z) == [] + rest == rest;
        InZoneMembers(c, day, ws[1..], z);
        SubseqSkip(rest, ws[1..], ws[0]);
      }
    }
  }

  /** The constraints on one day, the same in both files: between one and
      two zone-B places, every worker on duty in exactly one zone, the
      assignments adding up to the headcount, one zone-B place on a day of
      three and two on a day of four or more. */
  predicate DayValid(c: Candidate, day: DayCrew)
  {
    var n := |day.crew|;
    var b := ZoneSum(c, day, day.crew, ZoneB);
    && 1 <= b <= 2
    && ZoneSum(c, day, day.crew, ZoneA) + b == n
    && (forall w | w in day.crew :: Value(c, day, w, ZoneA) + Value(c, day, w, ZoneB) == 1)
    && (n == 3 ==> b == 1)
    && (n >= 4 ==> b == 2)
  }

  /** The number of days on which `w` is in zone B. */
  function ZoneBDays(c: Candidate, s: seq<DayCrew>, w: Worker): nat
  {
    if s == [] then 0 else Value(c, s[0], w, ZoneB) + ZoneBDays(c, s[1..], w)
  }

  /** The days of three on which `w` is in zone B. */
  function SoloDays(c: Candidate, s: seq<DayCrew>, w: Worker): nat
  {
    if s == [] then 0
    else (if |s[0].crew| == 3 then Value(c, s[0], w, ZoneB) else 0) + SoloDays(c, s[1..], w)
  }

  /** The number of days `w` is on duty. */
  function DutyDays(s: seq<DayCrew>, w: Worker): nat
  {
    if s == [] then 0 else (if w in s[0].crew then 1 else 0) + DutyDays(s[1..], w)
  }

  function Max0(x: int): nat
  {
    if x < 0 then 0 else x
  }

  /** The three deviation variables of a worker, each declared between 0
      and the number of days. */
  predicate DeviationsFit(c: Candidate, w: Worker, average: int, days: nat)
  {
    && Abs(c.TotalOf(w) - average) <= days
    && Abs(c.SoloOf(w) - 3) <= days
    && Max0(2 - c.SoloOf(w)) <= days
  }

  /** The sum minimised by both models, one term of each kind per roster
      entry: distance of the zone-B total from `average`, distance of the
      solo count from 3, and the shortfall of the solo count below 2. */
  function Objective(c: Candidate, roster: seq<Worker>, average: int): nat
  {
    if roster == [] then 0
    else
      var w := roster[0];
      Abs(c.TotalOf(w) - average) + Abs(c.SoloOf(w) - 3) + Max0(2 - c.SoloOf(w))
      + Objective(c, roster[1..], average)
  }

  /* ---------------- app.py ---------------- */

  const AppLow: int := 6
  const AppHigh: int := 7
  const AppSoloCap: int := 4

  /** app.py's per-worker constraints: the totals are tied to the
      assignment, zone-B total in [6, 7], solo count in [0, 4]. */
  predicate AppWorkerValid(c: Candidate, s: seq<DayCrew>, w: Worker)
  {
    && w in c.total && w in c.solo
    && 0 <= c.total[w] <= AppHigh
    && 0 <= c.solo[w] <= AppSoloCap
    && c.solo[w] == SoloDays(c, s, w)
    && c.total[w] == ZoneBDays(c, s, w)
    && AppLow <= c.total[w] <= AppHigh
    && DeviationsFit(c, w, (AppLow + AppHigh) / 2, |s|)
  }

  predicate AppValid(s: seq<DayCrew>, roster: seq<Worker>, c: Candidate)
  {
    && (forall day | day in s :: DayValid(c, day))
    && (forall w | w in roster :: AppWorkerValid(c, s, w))
  }

  function AppObjective(c: Candidate, roster: seq<Worker>): nat
  {
    Objective(c, roster, (AppLow + AppHigh) / 2)
  }

  /* ---------------- opt_clean_schedule.py ---------------- */

  /** opt_clean_schedule.py's per-worker constraints: the totals are only
      bounded by the zone-B band (the lines that tied them to the
      assignment are commented out), and the solo count by half the upper
      bound plus one. */
  predicate OptWorkerValid(c: Candidate, s: seq<DayCrew>, w: Worker, band: Band)
  {
    && w in c.total && w in c.solo
    && 0 <= c.total[w] <= band.high
    && 0 <= c.solo[w] <= band.high / 2 + 1
    && band.low <= c.total[w] <= band.high
    && DeviationsFit(c, w, (band.low + band.high) / 2, |s|)
  }

  predicate OptValid(s: seq<DayCrew>, roster: seq<Worker>, c: Candidate)
    requires s != [] && s[|s| - 1].crew != []
  {
    && (forall day | day in s :: DayValid(c, day))
    && (forall w | w in roster :: OptWorkerValid(c, s, w, ZoneBBand(s)))
  }

  function OptObjective(s: seq<DayCrew>, roster: seq<Worker>, c: Candidate): nat
    requires s != [] && s[|s| - 1].crew != []
  {
    var band := ZoneBBand(s);
    Objective(c, roster, (band.low + band.high) / 2)
  }

  /* ---------------- output ---------------- */

  /** One day of the output: all workers, zone A and zone B, each joined
      with ", ". */
  datatype ZoneRecord = ZoneRecord(workers: string, zoneA: string, zoneB: string)

  function Render(c: Candidate, day: DayCrew): ZoneRecord
  {
    ZoneRecord(Join(day.crew), Join(InZone(c, day, day.crew, ZoneA)), Join(InZone(c, day, day.crew, ZoneB)))
  }

  /** No date appears twice (the schedule is a dictionary keyed by date). */
  predicate DistinctDays(s: seq<DayCrew>)
  {
    forall i, j | 0 <= i < j < |s| :: s[i].day != s[j].day
  }

  /** The returned dictionary: nothing when the solver found no solution.
      In app.py it is also nothing when there are no days, since an empty
      solution list is falsy; opt_clean_schedule.py never gets that far on an
      empty schedule, because its zone-B band fails first. */
  function Output(s: seq<DayCrew>, found: Option<Candidate>): (r: Option<map<Date, ZoneRecord>>)
    requires DistinctDays(s)
    ensures r.Some? <==> found.Some? && s != []
    ensures r.Some? ==> forall i | 0 <= i < |s| :: s[i].day in r.value && r.value[s[i].day] == Render(found.value, s[i])
    ensures r.Some? ==> forall d | d in r.value :: exists i | 0 <= i < |s| :: s[i].day == d
  {
    if found.None? || s == [] then None
    else
      var m := map i | 0 <= i < |s| :: s[i].day := Render(found.value, s[i]);
      assert forall i | 0 <= i < |s| :: s[i].day in m && m[s[i].day] == Render(found.value, s[i]);
      Some(m)
  }

  /* ---------------- properties ---------------- */

  /** When every name of `ws` is in exactly one zone, the zone lists split
      `ws` and their lengths are the zone sums; so the headcount constraint
      follows from the per-worker ones. */
  lemma {:induction false} ZonesSplit(c: Candidate, day: DayCrew, ws: seq<Worker>)
    requires forall w | w in ws :: Value(c, day, w, ZoneA) + Value(c, day, w, ZoneB) == 1
    ensures multiset(InZone(c, day, ws, ZoneA)) + multiset(InZone(c, day, ws, ZoneB)) == multiset(ws)
    ensures |InZone(c, day, ws, ZoneA)| == ZoneSum(c, day, ws, ZoneA)
    ensures |InZone(c, day, ws, ZoneB)| == ZoneSum(c, day, ws, ZoneB)
    ensures ZoneSum(c, day, ws, ZoneA) + ZoneSum(c, day, ws, ZoneB) == |ws|
  {
    if ws != [] {
      ZonesSplit(c, day, ws[1..]);
      assert ws == [ws[0]] + ws[1..];
    }
  }

  /** A valid day's output lists split the crew between the zones, zone B
      holding one or two entries, one on a day of three, two on a day of
      four or more, and a lone worker cleaning zone B. */
  lemma DayValidSplit(c: Candidate, day: DayCrew)
    requires DayValid(c, day)
    ensures var a, b := InZone(c, day, day.crew, ZoneA), InZone(c, day, day.crew, ZoneB);
      && multiset(a) + multiset(b) == multiset(day.crew)
      && 1 <= |b| <= 2
      && (|day.crew| == 3 ==> |b| == 1)
      && (|day.crew| >= 4 ==> |b| == 2)
      && (|day.crew| == 1 ==> b == day.crew && a == [])
  {
    ZonesSplit(c, day, day.crew);
    if |day.crew| == 1 {
      var b := InZone(c, day, day.crew, ZoneB);
      assert b[0] in day.crew;
    }
  }

  /** Zone B on a day counts only workers on duty that day. */
  lemma {:induction false} ZoneBDaysAtMostDuty(c: Candidate, s: seq<DayCrew>, w: Worker)
    ensures SoloDays(c, s, w) <= ZoneBDays(c, s, w) <= DutyDays(s, w)
  {
    if s != [] {
      ZoneBDaysAtMostDuty(c, s[1..], w);
    }
  }

  /** app.py is infeasible unless every roster member is on duty on at
      least six days, and a roster member's solo days are within the
      totals. */
  lemma AppNeedsSixDays(s: seq<DayCrew>, roster: seq<Worker>, c: Candidate, w: Worker)
    requires AppValid(s, roster, c)
    requires w in roster
    ensures DutyDays(s, w) >= AppLow
    ensures c.solo[w] <= c.total[w]
  {
    ZoneBDaysAtMostDuty(c, s, w);
  }

  /** The objective is zero exactly when every roster member has the
      average zone-B total and three solo days. */
  lemma {:induction false} ObjectiveZero(c: Candidate, roster: seq<Worker>, average: int)
    ensures Objective(c, roster, average) == 0 <==>
            forall w | w in roster :: c.TotalOf(w) == average && c.SoloOf(w) == 3
  {
    if roster != [] {
      ObjectiveZero(c, roster[1..], average);
      assert forall w | w in roster :: w == roster[0] || w in roster[1..];
    }
  }

  /** In opt_clean_schedule.py the per-worker totals do not bind the
      assignment: any other assignment meeting the per-day constraints,
      with the same totals, is as valid and costs the same. */
  lemma OptTotalsUnlinked(s: seq<DayCrew>, roster: seq<Worker>, c: Candidate, other: set<(Date, Worker, Zone)>)
    requires s != [] && s[|s| - 1].crew != []
    requires OptValid(s, roster, c)
    requires forall day | day in s :: DayValid(Candidate(other, c.total, c.solo), day)
    ensures OptValid(s, roster, Candidate(other, c.total, c.solo))
    ensures OptObjective(s, roster, Candidate(other, c.total, c.solo)) == OptObjective(s, roster, c)
  {
    var c' := Candidate(other, c.total, c.solo);
    ObjectiveSameTotals(c, c', roster, (ZoneBBand(s).low + ZoneBBand(s).high) / 2);
  }

  /** The objective reads only the per-worker integer variables. */
  lemma {:induction false} ObjectiveSameTotals(c: Candidate, c': Candidate, roster: seq<Worker>, average: int)
    requires c.total == c'.total && c.solo == c'.solo
    ensures Objective(c, roster, average) == Objective(c', roster, average)
  {
    if roster != [] {
      ObjectiveSameTotals(c, c', roster[1..], average);
    }
  }

  /** The rendered fields read back when no name holds a comma: zone B as
      the zone-B list, the workers field as the crew, and zone A as the
      zone-A list, or as the empty string when nobody cleans zone A. */
  lemma RenderReadsBack(c: Candidate, day: DayCrew)
    requires DayValid(c, day)
    requires forall w | w in day.crew :: Plain(w)
    ensures Split(Render(c, day).zoneB) == InZone(c, day, day.crew, ZoneB)
    ensures day.crew != [] ==> Split(Render(c, day).workers) == day.crew
    ensures InZone(c, day, day.crew, ZoneA) == [] ==> Render(c, day).zoneA == ""
    ensures InZone(c, day, day.crew, ZoneA) != [] ==>
              Split(Render(c, day).zoneA) == InZone(c, day, day.crew, ZoneA)
  {
    DayValidSplit(c, day);
    SplitJoin(InZone(c, day, day.crew, ZoneB));
    if day.crew != [] {
      SplitJoin(day.crew);
    }
    if InZone(c, day, day.crew, ZoneA) != [] {
      SplitJoin(InZone(c, day, day.crew, ZoneA));
    }
  }
}
