/** Statistics of healing strategies: counters and a mean repair time that is rounded at every update. */
module HealingStats {
  import opened Records
  import opened Rounding

  /** One healing attempt of a strategy. */
  datatype Attempt = Attempt(strategyId: string, success: bool, durationMs: real)

  datatype Stat = Stat(strategyId: string, attempts: nat, successes: nat, successRate: real, avgRepairTimeMs: real)

  // ---- What the attempts of a strategy amount to ----

  function Attempts(history: seq<Attempt>, id: string): nat
    decreases |history|
  {
    if history == [] then 0
    else Attempts(history[..|history| - 1], id) + if history[|history| - 1].strategyId == id then 1 else 0
  }

  function Successes(history: seq<Attempt>, id: string): (n: nat)
    ensures n <= Attempts(history, id)
    decreases |history|
  {
    if history == [] then 0
    else
      var last := history[|history| - 1];
      Successes(history[..|history| - 1], id) + if last.strategyId == id && last.success then 1 else 0
  }

  function Total(history: seq<Attempt>, id: string): real
    decreases |history|
  {
    if history == [] then 0.0
    else
      var last := history[|history| - 1];
      Total(history[..|history| - 1], id) + if last.strategyId == id then last.durationMs else 0.0
  }

  // ---- The accumulated rounding error ----

  /** `x` added up `n` times, and the sum of the numbers up to `n`. */
  function Times(n: nat, x: real): real {
    if n == 0 then 0.0 else Times(n - 1, x) + x
  }

  function Triangle(n: nat): nat {
    if n == 0 then 0 else Triangle(n - 1) + n
  }

  /** Every rounding after the first attempt adds at most half a hundredth per attempt so far. */
  predicate MeanWithin(avg: real, total: real, n: nat) {
    var bound := 0.005 * Triangle(n) as real - 0.005;
    -bound <= Times(n, avg) - total <= bound
  }

  /** The mean after one more duration. */
  function NextMean(avg: real, n: nat, duration: real): real {
    Fixed2((avg * n as real + duration) / (n + 1) as real)
  }

  lemma Distribute(x: real, y: real, m: real)
    ensures (x + y) * m == x * m + y * m
  {
  }

  lemma {:induction false} TimesIsProduct(n: nat, x: real)
    ensures Times(n, x) == x * n as real
  {
    if n > 0 {
      TimesIsProduct(n - 1, x);
      Distribute((n - 1) as real, 1.0, x);
    }
  }

  lemma {:induction false} TriangleIsProduct(n: nat)
    ensures 2 * Triangle(n) == n * (n + 1)
  {
    if n > 0 {
      TriangleIsProduct(n - 1);
    }
  }

  /** `exact` is replaced by a value that is at most half a hundredth off. */
  lemma ErrorsAdd(sum: real, total: real, m: real, exact: real, error: real, bound: real)
    requires m > 0.0 && exact * m == sum && -0.005 <= error <= 0.005
    requires -bound <= sum - total <= bound
    ensures -(bound + 0.005 * m) <= (exact + error) * m - total <= bound + 0.005 * m
  {
    Scale(m, error, 0.005);
    Distribute(exact, error, m);
  }

  lemma NextMeanWithin(avg: real, total: real, n: nat, duration: real)
    requires n > 0 && MeanWithin(avg, total, n)
    ensures MeanWithin(NextMean(avg, n, duration), total + duration, n + 1)
  {
    var m, sum := (n + 1) as real, avg * n as real + duration;
    var exact, next := sum / m, NextMean(avg, n, duration);
    TimesIsProduct(n, avg);
    TimesIsProduct(n + 1, next);
    Quotient(sum, m);
    ErrorsAdd(sum, total + duration, m, exact, next - exact, 0.005 * Triangle(n) as real - 0.005);
    assert exact + (next - exact) == next;
  }

  lemma CloseBy(d: real, r: real, h: real, bound: real)
    requires r > 0.0 && -bound <= d * r <= bound && bound <= h * r
    ensures -h <= d <= h
  {
  }

  /** The stored mean is within 0.0025 (n + 1) of the exact one. */
  lemma MeanIsClose(avg: real, total: real, n: nat)
    requires n > 0 && MeanWithin(avg, total, n)
    ensures var h := 0.0025 * (n + 1) as real; -h <= avg - total / n as real <= h
  {
    var r, mean, h := n as real, total / n as real, 0.0025 * (n + 1) as real;
    Quotient(total, r);
    TimesIsProduct(n, avg);
    TriangleIsProduct(n);
    Distribute(avg, -mean, r);
    Halves(n);
    CloseBy(avg - mean, r, h, 0.005 * Triangle(n) as real - 0.005);
  }

  lemma Halves(n: nat)
    ensures 0.005 * Triangle(n) as real == 0.0025 * (n + 1) as real * n as real
  {
    TriangleIsProduct(n);
    assert (2 * Triangle(n)) as real == (n * (n + 1)) as real;
    assert (n * (n + 1)) as real == n as real * (n + 1) as real;
  }

  // ---- The stored statistics ----

  function Rate(successes: nat, attempts: nat): real
    requires attempts > 0
  {
    Fixed3(successes as real / attempts as real)
  }

  function KeyOf(s: Stat): string { s.strategyId }

  /** A record agrees with all attempts of its strategy. */
  ghost predicate Agrees(stat: Stat, history: seq<Attempt>) {
    && stat.attempts == Attempts(history, stat.strategyId) > 0
    && stat.successes == Successes(history, stat.strategyId)
    && stat.successRate == Rate(stat.successes, stat.attempts)
    && MeanWithin(stat.avgRepairTimeMs, Total(history, stat.strategyId), stat.attempts)
  }

  /** There is exactly one record for each strategy that was attempted, and it agrees with the attempts. */
  ghost predicate Summarises(stats: seq<Stat>, history: seq<Attempt>) {
    && Distinct(stats, KeyOf)
    && (forall i | 0 <= i < |stats| :: Agrees(stats[i], history))
    && (forall k | 0 <= k < |history| :: history[k].strategyId in Keys(stats, KeyOf))
  }

  function NewStat(a: Attempt): Stat {
    Stat(a.strategyId, 1, if a.success then 1 else 0, if a.success then 1.0 else 0.0, a.durationMs)
  }

  function NextStat(stat: Stat, a: Attempt): Stat {
    var attempts := stat.attempts + 1;
    var successes := if a.success then stat.successes + 1 else stat.successes;
    Stat(stat.strategyId, attempts, successes, Rate(successes, attempts),
         NextMean(stat.avgRepairTimeMs, stat.attempts, a.durationMs))
  }

  lemma HistorySnoc(history: seq<Attempt>, a: Attempt, id: string)
    ensures var same := a.strategyId == id;
      && Attempts(history + [a], id) == Attempts(history, id) + (if same then 1 else 0)
      && Successes(history + [a], id) == Successes(history, id) + (if same && a.success then 1 else 0)
      && Total(history + [a], id) == Total(history, id) + (if same then a.durationMs else 0.0)
  {
    assert (history + [a])[..|history|] == history;
  }

  lemma {:induction false} NeverAttempted(history: seq<Attempt>, id: string)
    requires forall k | 0 <= k < |history| :: history[k].strategyId != id
    ensures Attempts(history, id) == 0 && Total(history, id) == 0.0
    decreases |history|
  {
    if history != [] {
      NeverAttempted(history[..|history| - 1], id);
    }
  }

  lemma NextStatAgrees(stat: Stat, history: seq<Attempt>, a: Attempt)
    requires Agrees(stat, history) && a.strategyId == stat.strategyId
    ensures Agrees(NextStat(stat, a), history + [a])
  {
    HistorySnoc(history, a, a.strategyId);
    NextMeanWithin(stat.avgRepairTimeMs, Total(history, a.strategyId), stat.attempts, a.durationMs);
  }

  lemma NewStatAgrees(history: seq<Attempt>, a: Attempt)
    requires forall k | 0 <= k < |history| :: history[k].strategyId != a.strategyId
    ensures Agrees(NewStat(a), history + [a])
  {
    HistorySnoc(history, a, a.strategyId);
    NeverAttempted(history, a.strategyId);
    Fixed3Keeps(0);
    Fixed3Keeps(1000);
    assert 1.0 / 1.0 == 1.0 && 0.0 / 1.0 == 0.0;
  }

  lemma OthersAgree(stat: Stat, history: seq<Attempt>, a: Attempt)
    requires Agrees(stat, history) && a.strategyId != stat.strategyId
    ensures Agrees(stat, history + [a])
  {
    HistorySnoc(history, a, stat.strategyId);
  }

  /** What the statistics say of a strategy: its successes never exceed its attempts, the rate is a share,
      and the mean is within a quarter of a hundredth per attempt of the exact one. */
  lemma StatisticsAreClose(stats: seq<Stat>, history: seq<Attempt>, i: nat)
    requires Summarises(stats, history) && i < |stats|
    ensures var s := stats[i];
      && 0 < s.attempts == Attempts(history, s.strategyId) && s.successes <= s.attempts && 0.0 <= s.successRate <= 1.0
      && -0.0025 * (s.attempts + 1) as real
           <= s.avgRepairTimeMs - Total(history, s.strategyId) / s.attempts as real <= 0.0025 * (s.attempts + 1) as real
      && -0.0005 <= s.successRate - s.successes as real / s.attempts as real <= 0.0005
  {
    var s := stats[i];
    assert Agrees(s, history);
    MeanIsClose(s.avgRepairTimeMs, Total(history, s.strategyId), s.attempts);
    ShareWithin(s.successes as real, s.attempts as real);
  }

  function NextRecord(stats: seq<Stat>, n: nat, a: Attempt): Stat
    requires n <= |stats|
  {
    if n == |stats| then NewStat(a) else NextStat(stats[n], a)
  }

  function Updated(stats: seq<Stat>, a: Attempt): seq<Stat> {
    var n := IndexOf(stats, KeyOf, a.strategyId, 0);
    Put(stats, n, NextRecord(stats, n, a))
  }

  lemma NextRecordAgrees(stats: seq<Stat>, history: seq<Attempt>, a: Attempt)
    requires Summarises(stats, history)
    ensures var n := IndexOf(stats, KeyOf, a.strategyId, 0);
      var r := NextRecord(stats, n, a);
      KeyOf(r) == a.strategyId && Agrees(r, history + [a])
  {
    var n := IndexOf(stats, KeyOf, a.strategyId, 0);
    if n == |stats| {
      forall k | 0 <= k < |history| ensures history[k].strategyId != a.strategyId {
        assert history[k].strategyId in Keys(stats, KeyOf);
      }
      NewStatAgrees(history, a);
    } else {
      NextStatAgrees(stats[n], history, a);
    }
  }

  /** Every update keeps the statistics in agreement with all attempts so far. */
  lemma UpdatedSummarises(stats: seq<Stat>, history: seq<Attempt>, a: Attempt)
    requires Summarises(stats, history)
    ensures Summarises(Updated(stats, a), history + [a])
  {
    var n := IndexOf(stats, KeyOf, a.strategyId, 0);
    var r, after := NextRecord(stats, n, a), Updated(stats, a);
    NextRecordAgrees(stats, history, a);
    PutKeeps(stats, KeyOf, r);
    PutCovers(stats, KeyOf, r);
    forall i | 0 <= i < |after| ensures Agrees(after[i], history + [a]) {
      if i != n {
        assert KeyOf(stats[i]) != KeyOf(r);
        OthersAgree(stats[i], history, a);
      }
    }
  }

  /** The statistics after any series of attempts. */
  function StatsAfter(history: seq<Attempt>): seq<Stat>
    decreases |history|
  {
    if history == [] then [] else Updated(StatsAfter(history[..|history| - 1]), history[|history| - 1])
  }

  lemma {:induction false} StatsAfterSummarise(history: seq<Attempt>)
    ensures Summarises(StatsAfter(history), history)
    decreases |history|
  {
    if history != [] {
      var n := |history| - 1;
      StatsAfterSummarise(history[..n]);
      UpdatedSummarises(StatsAfter(history[..n]), history[..n], history[n]);
      assert history == history[..n] + [history[n]];
    }
  }

  class HealingStatsStore {
    var stats: seq<Stat>
    ghost var history: seq<Attempt>

    ghost predicate Valid()
      reads this
    {
      Summarises(stats, history)
    }

    constructor ()
      ensures Valid() && stats == [] && history == []
    {
      stats, history := [], [];
    }

    /** Counts one more attempt of a strategy that has a record. */
    method CountAttempt(s: Stat, success: bool, durationMs: real) returns (t: Stat)
      ensures t == NextStat(s, Attempt(s.strategyId, success, durationMs))
    {
      var attempts := s.attempts + 1;
      var successes := s.successes;
      if success {
        successes := successes + 1;
      }
      t := Stat(s.strategyId, attempts, successes, Rate(successes, attempts),
                NextMean(s.avgRepairTimeMs, s.attempts, durationMs));
    }

    method UpdateHealingStats(strategyId: string, success: bool, durationMs: real)
      requires Valid()
      modifies this
      ensures Valid() && history == old(history) + [Attempt(strategyId, success, durationMs)]
      ensures stats == Updated(old(stats), Attempt(strategyId, success, durationMs))
    {
      ghost var a := Attempt(strategyId, success, durationMs);
      UpdatedSummarises(stats, history, a);
      history := history + [a];
      var n := IndexOf(stats, KeyOf, strategyId, 0);
      if n == |stats| {
        stats := stats + [Stat(strategyId, 1, if success then 1 else 0, if success then 1.0 else 0.0, durationMs)];
      } else {
        var s := CountAttempt(stats[n], success, durationMs);
        stats := stats[n := s];
      }
    }
  }
}
