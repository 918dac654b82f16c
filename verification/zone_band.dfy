/** The zone-B band of opt_clean_schedule.py (`get_b_zone_min_max`): how
    many zone-B places the schedule holds, and the floor and ceiling of that
    number shared out over the size of the last day's crew. */
module ZoneBand {

  import opened Availability

  /** Zone-B places a day of `headcount` workers needs: one on a day of
      three, two on a day of four or five, none otherwise. */
  function Seats(headcount: nat): nat
  {
    if headcount == 3 then 1 else if headcount == 4 || headcount == 5 then 2 else 0
  }

  /** The number of days whose crew has exactly `n` workers. */
  function DaysOfSize(s: seq<DayCrew>, n: nat): (r: nat)
    ensures r <= |s|
  {
    if s == [] then 0
    else (if |s[0].crew| == n then 1 else 0) + DaysOfSize(s[1..], n)
  }

  /** `total_b_count`: the days of three once, the days of four and of five twice. */
  function Units(s: seq<DayCrew>): nat
  {
    DaysOfSize(s, 3) + 2 * (DaysOfSize(s, 4) + DaysOfSize(s, 5))
  }

  /** The per-day reading of the same number: every day brings its `Seats`. */
  function SeatTotal(s: seq<DayCrew>): nat
  {
    if s == [] then 0 else Seats(|s[0].crew|) + SeatTotal(s[1..])
  }

  lemma {:induction false} UnitsAreSeats(s: seq<DayCrew>)
    ensures Units(s) == SeatTotal(s)
  {
    if s != [] {
      UnitsAreSeats(s[1..]);
    }
  }

  /** Lower and upper bound on a worker's zone-B count. */
  datatype Band = Band(low: nat, high: nat)

  /** The floor and the ceiling of the zone-B units over `k`, with `k` the size of the crew of
      the last day iterated (the variable the loop leaves behind), not the
      number of workers. The source fails on an empty schedule (the loop
      variable is unbound) and on an empty last crew (division by zero). */
  function ZoneBBand(s: seq<DayCrew>): (b: Band)
    requires s != [] && s[|s| - 1].crew != []
  {
    var k := |s[|s| - 1].crew|;
    var total := Units(s);
    Band(total / k, (total + k - 1) / k)
  }

  /** The band is the floor and the ceiling of the share of zone-B places
      per member of the last crew. */
  lemma BandBrackets(s: seq<DayCrew>)
    requires s != [] && s[|s| - 1].crew != []
    ensures var b, k := ZoneBBand(s), |s[|s| - 1].crew|;
      && b.low * k <= Units(s) < (b.low + 1) * k
      && (b.high - 1) * k < Units(s) <= b.high * k
  {
    var k := |s[|s| - 1].crew|;
    FloorCeil(Units(s), k);
  }

  lemma FloorCeil(n: nat, k: nat)
    requires k > 0
    ensures (n / k) * k <= n < (n / k + 1) * k
    ensures ((n + k - 1) / k - 1) * k < n <= ((n + k - 1) / k) * k
  {
    var q, r := n / k, n % k;
    assert n == q * k + r;
    assert (q + 1) * k == q * k + k;
    var q', r' := (n + k - 1) / k, (n + k - 1) % k;
    assert n + k - 1 == q' * k + r';
    assert (q' - 1) * k == q' * k - k;
  }

  /** The band is one value wide when the share is not whole, and a single
      value when it is. */
  lemma BandWidth(s: seq<DayCrew>)
    requires s != [] && s[|s| - 1].crew != []
    ensures var b := ZoneBBand(s);
      && b.low <= b.high <= b.low + 1
      && (b.low == b.high <==> Units(s) % |s[|s| - 1].crew| == 0)
  {
    CeilWidth(Units(s), |s[|s| - 1].crew|);
  }

  lemma CeilWidth(n: nat, k: nat)
    requires k > 0
    ensures n / k <= (n + k - 1) / k <= n / k + 1
    ensures (n + k - 1) / k == n / k <==> n % k == 0
  {
    var q, r := n / k, n % k;
    assert n == k * q + r;
    if r == 0 {
      DivUnique(n + k - 1, k, q);
    } else {
      DivUnique(n + k - 1, k, q + 1);
    }
  }

  /** The quotient is the one multiple bracketing the dividend. */
  lemma DivUnique(n: nat, k: nat, q: nat)
    requires k > 0
    requires k * q <= n < k * q + k
    ensures n / k == q
  {
    var d, m := n / k, n % k;
    assert n == k * d + m;
    if d < q {
      MulStep(k, d, q - d);
    } else if d > q {
      MulStep(k, q, d - q);
    }
  }

  lemma MulStep(k: nat, a: nat, e: nat)
    requires e >= 1
    ensures k * (a + e) >= k * a + k
  {
    assert k * (a + e) == k * a + k * e;
    assert k * e == k + k * (e - 1);
  }
}
