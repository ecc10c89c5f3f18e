/** The RPC rate limiter, `rateLimitTransport` in apps/amm-indexer/ponder.config.ts. */
module RateLimiter {
  import opened Results

  /** `maxRps` as parsed from the environment; `None` is a number that is not finite. */
  function Rps(maxRps: Option<real>): (rps: real)
    ensures rps > 0.0
    ensures maxRps == Some(rps) || (rps == 5.0 && (maxRps.None? || maxRps.value <= 0.0))
  {
    if maxRps.Some? && maxRps.value > 0.0 then maxRps.value else 5.0
  }

  function Ceil(x: real): int {
    if x.Floor as real == x then x.Floor else x.Floor + 1
  }

  function MinIntervalMs(rps: real): int
    requires rps > 0.0
  {
    Ceil(1000.0 / rps)
  }

  /** The clock as one start sees it: on entry, and again after sleeping. */
  datatype Readings = Readings(now: int, later: int)

  /** Neighbouring starts are at least the interval apart. */
  ghost predicate Spaced(starts: seq<int>, interval: int) {
    forall i :: 0 < i < |starts| ==> starts[i] - starts[i - 1] >= interval
  }

  /**
   * The closure state of one limited transport. `queue` are the requests whose start is still
   * chained behind others; what becomes of a request after its start does not matter here.
   */
  class Limiter {
    const rps: real
    const minIntervalMs: int
    var lastAtMs: int
    var queue: seq<int>
    ghost var arrived: seq<int>
    ghost var started: seq<int>
    ghost var starts: seq<int>

    constructor (maxRps: Option<real>)
      ensures Valid() && lastAtMs == 0
      ensures rps == if maxRps.None? || maxRps.value <= 0.0 then 5.0 else maxRps.value
      ensures queue == [] && arrived == [] && started == [] && starts == []
    {
      rps := Rps(maxRps);
      minIntervalMs := MinIntervalMs(Rps(maxRps));
      lastAtMs := 0;
      queue, arrived, started, starts := [], [], [], [];
    }

    /** How long a start that finds the clock at `now` has to sleep: up to one interval after the last. */
    function WaitMs(now: int): (wait: int)
      reads this`lastAtMs
      ensures wait >= 0 && now + wait >= lastAtMs + minIntervalMs
      ensures wait > 0 ==> now + wait == lastAtMs + minIntervalMs
    {
      if lastAtMs + minIntervalMs - now > 0 then lastAtMs + minIntervalMs - now else 0
    }

    /** Starts follow the order of arrival, one interval apart at least. */
    ghost predicate Valid()
      reads this
    {
      && rps > 0.0 && minIntervalMs == MinIntervalMs(rps)
      && arrived == started + queue && |started| == |starts|
      && Spaced(starts, minIntervalMs) && (starts != [] ==> lastAtMs == starts[|starts| - 1])
    }

    method Request(id: int)
      requires Valid()
      modifies this`queue, this`arrived
      ensures Valid() && queue == old(queue) + [id] && arrived == old(arrived) + [id]
    {
      queue := queue + [id];
      arrived := arrived + [id];
    }

    /** The next start in line, on a monotone clock and with a sleep no shorter than asked. */
    method Start(clock: Readings) returns (id: int)
      requires Valid() && queue != []
      requires clock.now >= lastAtMs && clock.later >= clock.now + WaitMs(clock.now)
      modifies this`lastAtMs, this`queue, this`started, this`starts
      ensures Valid() && id == old(queue)[0] && queue == old(queue)[1..]
      ensures started == old(started) + [id] && starts == old(starts) + [clock.later] && lastAtMs == clock.later
    {
      id := queue[0];
      queue := queue[1..];
      lastAtMs := clock.later;
      started := started + [id];
      starts := starts + [clock.later];
    }
  }

  // ---- Starts in a window -----------------------------------------------------------------

  lemma {:induction false} StartsFarApart(starts: seq<int>, interval: int, i: nat, j: nat)
    requires Spaced(starts, interval) && i <= j < |starts|
    ensures starts[j] - starts[i] >= (j - i) * interval
  {
    if i < j {
      StartsFarApart(starts, interval, i, j - 1);
      assert (j - i) * interval == (j - 1 - i) * interval + interval;
    }
  }

  lemma IntervalTimesRate(rps: real)
    requires rps > 0.0
    ensures rps * (MinIntervalMs(rps) as real) >= 1000.0
  {
    var exact := 1000.0 / rps;
    assert rps * exact == 1000.0;
    CeilAbove(exact);
    RealMulMono(exact, Ceil(exact) as real, rps);
  }

  lemma CeilAbove(x: real)
    ensures x <= Ceil(x) as real < x + 1.0
  {
  }

  /** The interval is the shortest whole number of milliseconds that keeps the rate. */
  lemma IntervalIsLeast(rps: real, interval: int)
    requires rps > 0.0
    ensures MinIntervalMs(rps) <= interval <==> rps * (interval as real) >= 1000.0
  {
    var exact := 1000.0 / rps;
    assert rps * exact == 1000.0;
    CeilAbove(exact);
    if exact <= interval as real {
      RealMulMono(exact, interval as real, rps);
    } else {
      RealMulStrict(interval as real, exact, rps);
    }
  }

  lemma RealMulStrict(a: real, b: real, c: real)
    requires a < b && c > 0.0
    ensures c * a < c * b
  {
  }

  lemma IntervalCoversRate(rps: real, n: nat)
    requires rps > 0.0 && n as real >= rps
    ensures n * MinIntervalMs(rps) >= 1000
  {
    hide MinIntervalMs;
    var interval := MinIntervalMs(rps);
    IntervalTimesRate(rps);
    IntervalPositive(rps);
    RealMulMono(rps, n as real, interval as real);
    ProductAsReal(n, interval);
  }

  lemma IntervalPositive(rps: real)
    requires rps > 0.0
    ensures MinIntervalMs(rps) > 0
  {
    CeilAbove(1000.0 / rps);
  }

  lemma ProductAsReal(a: int, b: int)
    ensures (a * b) as real == (a as real) * (b as real)
  {
  }

  lemma RealMulMono(a: real, b: real, c: real)
    requires a <= b && c >= 0.0
    ensures c * a <= c * b && a * c <= b * c
  {
  }

  /** Two starts less than a second apart have fewer than `rps` starts from one to the other. */
  lemma FewStartsWithinASecond(starts: seq<int>, rps: real, i: nat, j: nat)
    requires rps > 0.0 && Spaced(starts, MinIntervalMs(rps)) && i <= j < |starts| && starts[j] - starts[i] < 1000
    ensures ((j - i) as real) < rps
  {
    StartsFarApart(starts, MinIntervalMs(rps), i, j);
    if (j - i) as real >= rps {
      IntervalCoversRate(rps, j - i);
    }
  }

  lemma {:induction false} CardinalityOfRange(s: set<int>, lo: int, hi: int)
    requires forall x :: x in s ==> lo <= x < hi
    ensures |s| <= if lo <= hi then hi - lo else 0
    decreases hi - lo
  {
    if lo < hi {
      CardinalityOfRange(s - {hi - 1}, lo, hi - 1);
      assert |s| <= |s - {hi - 1}| + 1 by {
        if hi - 1 in s { assert s == (s - {hi - 1}) + {hi - 1}; } else { assert s == s - {hi - 1}; }
      }
    } else {
      assert forall x :: x !in s;
      assert s == {};
    }
  }

  /** Any half-open window of one second holds at most `rps` starts, rounded up. */
  lemma WindowHoldsRate(starts: seq<int>, rps: real, from: int)
    requires rps > 0.0 && Spaced(starts, MinIntervalMs(rps))
    ensures |set i | 0 <= i < |starts| && from <= starts[i] < from + 1000| <= Ceil(rps)
  {
    var s := set i | 0 <= i < |starts| && from <= starts[i] < from + 1000;
    var first := 0;
    while first < |starts| && !(from <= starts[first] < from + 1000)
      invariant first <= |starts| && forall i :: 0 <= i < first ==> !(from <= starts[i] < from + 1000)
    {
      first := first + 1;
    }
    forall i | i in s ensures first <= i < first + Ceil(rps) {
      FewStartsWithinASecond(starts, rps, first, i);
    }
    CeilAbove(rps);
    CardinalityOfRange(s, first, first + Ceil(rps));
  }

  /** So does every limiter in every state it can get to, whatever its requests do after starting. */
  lemma LimiterHoldsRate(limiter: Limiter, from: int)
    requires limiter.Valid()
    ensures var starts := limiter.starts;
      var inWindow := |set i | 0 <= i < |starts| && from <= starts[i] < from + 1000|;
      inWindow <= Ceil(limiter.rps) && (limiter.rps.Floor as real == limiter.rps ==> inWindow as real <= limiter.rps)
    ensures |limiter.starts| == |limiter.started| && limiter.started <= limiter.arrived
  {
    WindowHoldsRate(limiter.starts, limiter.rps, from);
  }
}
