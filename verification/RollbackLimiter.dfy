/** Automatic rollbacks of deployments, limited by a cooldown and by a number per hour. */
module RollbackLimiter {
  import opened Automation
  import opened Options
  import opened Priorities

  /** One hour in milliseconds; clock readings are in milliseconds. */
  const HOUR := 3600000

  /** The priority from which a failed action is critical. */
  const CRITICAL := 90

  datatype Trigger = Trigger(metric: string, threshold: real, operator: Operator)

  /** `cooldownPeriod` is in seconds. */
  datatype Strategy = Strategy(
    id: string, enabled: bool, priority: int, triggers: seq<Trigger>, actions: seq<Action>,
    cooldownPeriod: nat, maxRollbacksPerHour: nat)

  // ---- The full history of a strategy ----

  /** A successful rollback: the clock readings that were stored as its time for the cooldown and for the limit. */
  datatype Record = Record(mark: int, counted: int)

  /** The successful rollbacks of one strategy, oldest first. */
  type History = seq<Record>

  /** How many rollbacks were counted later than `cut` and not later than `end`. */
  function Within(h: History, cut: int, end: int): nat
    decreases |h|
  {
    if h == [] then 0
    else
      var last := h[|h| - 1];
      Within(h[..|h| - 1], cut, end) + if cut < last.counted <= end then 1 else 0
  }

  function Since(h: History, cut: int): nat
    decreases |h|
  {
    if h == [] then 0
    else Since(h[..|h| - 1], cut) + if cut < h[|h| - 1].counted then 1 else 0
  }

  predicate CoolingDown(h: History, now: int, cooldown: nat) {
    h != [] && now - h[|h| - 1].mark < cooldown * 1000
  }

  predicate Ordered(h: History, now: int) {
    && (forall i | 0 <= i < |h| :: h[i].mark <= h[i].counted <= now)
    && (forall i | 0 < i < |h| :: h[i - 1].counted <= h[i].mark)
  }

  /** A decision by the full history; `a` and `b` are the readings for the cooldown and for the limit. */
  predicate Allowed(s: Strategy, h: History, a: int, b: int) {
    !CoolingDown(h, a, s.cooldownPeriod) && Since(h, b - HOUR) < s.maxRollbacksPerHour
  }

  /** Successive rollbacks are at least the cooldown apart. */
  ghost predicate Spaced(h: History, cooldown: nat) {
    forall i | 0 < i < |h| :: h[i].mark - h[i - 1].mark >= cooldown * 1000
  }

  /** The rollbacks of the hour that ends at `t`. */
  function LastHour(h: History, t: int): nat { Within(h, t - HOUR, t) }

  /** No hour holds more than `max` rollbacks. */
  ghost predicate Limited(h: History, max: nat) {
    forall t: int :: LastHour(h, t) <= max
  }

  lemma {:induction false} WithinSince(h: History, cut: int, end: int, earlier: int)
    requires earlier <= cut
    ensures Within(h, cut, end) <= Since(h, cut) <= Since(h, earlier)
    decreases |h|
  {
    if h != [] {
      WithinSince(h[..|h| - 1], cut, end, earlier);
    }
  }

  /** A rollback that was allowed by the full history, and that was carried out afterwards, keeps both limits. */
  lemma AllowedKeepsLimits(s: Strategy, h: History, a: int, b: int, r: Record)
    requires Allowed(s, h, a, b) && a <= b <= r.mark <= r.counted
    requires Spaced(h, s.cooldownPeriod) && Limited(h, s.maxRollbacksPerHour)
    ensures Spaced(h + [r], s.cooldownPeriod) && Limited(h + [r], s.maxRollbacksPerHour)
  {
    var g := h + [r];
    assert g[..|g| - 1] == h;
    forall i | 0 < i < |g| ensures g[i].mark - g[i - 1].mark >= s.cooldownPeriod * 1000 {
      if i < |h| { assert g[i] == h[i] && g[i - 1] == h[i - 1]; }
    }
    forall t: int ensures LastHour(g, t) <= s.maxRollbacksPerHour {
      assert LastHour(h, t) <= s.maxRollbacksPerHour;
      if r.counted <= t {
        WithinSince(h, t - HOUR, t, b - HOUR);
      }
    }
  }

  /** Both limits are sharp: a decision against the full history lets a rollback through whenever neither
      limit would be broken by it. */
  lemma RefusedWouldBreak(s: Strategy, h: History, now: int)
    requires Ordered(h, now) && !Allowed(s, h, now, now)
    ensures !Spaced(h + [Record(now, now)], s.cooldownPeriod) || !Limited(h + [Record(now, now)], s.maxRollbacksPerHour)
  {
    var g := h + [Record(now, now)];
    assert g[..|g| - 1] == h;
    if CoolingDown(h, now, s.cooldownPeriod) {
      assert g[|h|].mark - g[|h| - 1].mark < s.cooldownPeriod * 1000;
    } else {
      WithinNow(h, now - HOUR, now);
      assert LastHour(g, now) > s.maxRollbacksPerHour;
    }
  }

  lemma {:induction false} WithinNow(h: History, cut: int, now: int)
    requires forall i | 0 <= i < |h| :: h[i].counted <= now
    ensures Within(h, cut, now) == Since(h, cut)
    decreases |h|
  {
    if h != [] {
      WithinNow(h[..|h| - 1], cut, now);
    }
  }

  // ---- The pruned list of times ----

  /** The times later than `cut`. */
  function After(times: seq<int>, cut: int): seq<int>
    decreases |times|
  {
    if times == [] then []
    else After(times[..|times| - 1], cut) + if times[|times| - 1] > cut then [times[|times| - 1]] else []
  }

  /** The counted times of a history that are later than `cut`; without a cut, all of them. */
  function Counted(h: History, cut: Option<int>): seq<int>
    decreases |h|
  {
    if h == [] then []
    else
      var t := h[|h| - 1].counted;
      Counted(h[..|h| - 1], cut) + if cut.None? || t > cut.value then [t] else []
  }

  lemma {:induction false} PruneCounted(h: History, cut: Option<int>, later: int)
    requires cut.Some? ==> cut.value <= later
    ensures After(Counted(h, cut), later) == Counted(h, Some(later))
    decreases |h|
  {
    if h != [] {
      var g, t := h[..|h| - 1], h[|h| - 1].counted;
      PruneCounted(g, cut, later);
      if cut.None? || t > cut.value {
        var times := Counted(g, cut) + [t];
        assert times[..|times| - 1] == Counted(g, cut);
        assert Counted(h, cut) == times;
      } else {
        assert Counted(g, cut) + [] == Counted(g, cut);
      }
    }
  }

  lemma {:induction false} CountedLength(h: History, cut: int)
    ensures |Counted(h, Some(cut))| == Since(h, cut)
    decreases |h|
  {
    if h != [] {
      CountedLength(h[..|h| - 1], cut);
    }
  }

  /** Pruning never changes a decision: what is left of the list of times after any earlier pruning and
      the present one is as long as the count over the full history. */
  lemma PruningKeepsCount(h: History, cut: Option<int>, now: int)
    requires cut.Some? ==> cut.value <= now - HOUR
    ensures |After(Counted(h, cut), now - HOUR)| == Since(h, now - HOUR)
  {
    PruneCounted(h, cut, now - HOUR);
    CountedLength(h, now - HOUR);
  }

  /** The stored values of one strategy agree with its history: the time of the last rollback, and what
      prunings up to `cut` have left of the counted times. */
  ghost predicate Tracked(h: History, last: Option<int>, times: seq<int>, cut: Option<int>, now: int) {
    && Ordered(h, now)
    && last == (if h == [] then None else Some(h[|h| - 1].mark))
    && times == Counted(h, cut)
    && (cut.Some? ==> cut.value <= now - HOUR)
  }

  lemma TrackedPruned(h: History, last: Option<int>, times: seq<int>, cut: Option<int>, now: int, reading: int)
    requires Tracked(h, last, times, cut, now) && now <= reading
    ensures Tracked(h, last, times, cut, reading)
    ensures Tracked(h, last, After(times, reading - HOUR), Some(reading - HOUR), reading)
    ensures |After(times, reading - HOUR)| == Since(h, reading - HOUR)
  {
    PruneCounted(h, cut, reading - HOUR);
    CountedLength(h, reading - HOUR);
  }

  lemma TrackedLater(h: History, last: Option<int>, times: seq<int>, cut: Option<int>, now: int, later: int)
    requires Tracked(h, last, times, cut, now) && now <= later
    ensures Tracked(h, last, times, cut, later)
  {
  }

  lemma TrackedRecorded(h: History, last: Option<int>, times: seq<int>, cut: Option<int>, now: int, r: Record)
    requires Tracked(h, last, times, cut, now) && now <= r.mark <= r.counted
    ensures Tracked(h + [r], Some(r.mark), times + [r.counted], cut, r.counted)
  {
    assert (h + [r])[..|h|] == h;
  }

  // ---- Decisions ----

  predicate Fires(metrics: Metrics, t: Trigger) {
    match t.operator
    case GreaterThan => metrics(t.metric) > t.threshold
    case LessThan => metrics(t.metric) < t.threshold
    case Equals => false
  }

  function FirstFiring(metrics: Metrics, triggers: seq<Trigger>): Option<Trigger> {
    if triggers == [] then None
    else if Fires(metrics, triggers[0]) then Some(triggers[0])
    else FirstFiring(metrics, triggers[1..])
  }

  function PriorityOf(s: Strategy): int { s.priority }

  function Enabled(strategies: seq<Strategy>): seq<Strategy> {
    if strategies == [] then []
    else (if strategies[0].enabled then [strategies[0]] else []) + Enabled(strategies[1..])
  }

  /** The order in which the strategies are tried. */
  function Ranked(strategies: seq<Strategy>): seq<Strategy> {
    ByPriority(Enabled(strategies), PriorityOf)
  }

  lemma {:induction false} EnabledMembers(strategies: seq<Strategy>, s: Strategy)
    ensures s in Enabled(strategies) <==> s in strategies && s.enabled
    decreases |strategies|
  {
    if strategies != [] {
      EnabledMembers(strategies[1..], s);
      assert strategies == [strategies[0]] + strategies[1..];
    }
  }

  lemma RankedMembers(strategies: seq<Strategy>, s: Strategy)
    ensures s in Ranked(strategies) <==> s in strategies && s.enabled
  {
    EnabledMembers(strategies, s);
    SameMembers(Enabled(strategies), PriorityOf, s);
  }

  type Histories = map<string, History>

  function HistoryOf(hs: Histories, id: string): History {
    if id in hs then hs[id] else []
  }

  datatype Decision = Decision(strategy: Strategy, trigger: Trigger, index: nat)

  /** What the check of one strategy gives: the first trigger that fires, if the full history allows it. */
  function Checked(s: Strategy, metrics: Metrics, h: History, a: int, b: int): Option<Trigger> {
    if Allowed(s, h, a, b) then FirstFiring(metrics, s.triggers) else None
  }

  /** The first strategy from `i` on that the full histories allow and one of whose triggers fires.
      The checks of strategy `i` take the clock readings 2i and 2i + 1. */
  function Decide(metrics: Metrics, ranked: seq<Strategy>, hs: Histories, clock: nat -> int, i: nat): Option<Decision>
    decreases |ranked| - i
  {
    if i >= |ranked| then None
    else match Checked(ranked[i], metrics, HistoryOf(hs, ranked[i].id), clock(2 * i), clock(2 * i + 1))
      case Some(fired) => Some(Decision(ranked[i], fired, i))
      case None => Decide(metrics, ranked, hs, clock, i + 1)
  }

  lemma NextDecision(metrics: Metrics, ranked: seq<Strategy>, hs: Histories, clock: nat -> int, i: nat)
    requires i < |ranked|
    ensures Decide(metrics, ranked, hs, clock, i) ==
      match Checked(ranked[i], metrics, HistoryOf(hs, ranked[i].id), clock(2 * i), clock(2 * i + 1))
      case Some(fired) => Some(Decision(ranked[i], fired, i))
      case None => Decide(metrics, ranked, hs, clock, i + 1)
  {
  }

  lemma {:induction false} DecidedIsAllowed(metrics: Metrics, ranked: seq<Strategy>, hs: Histories, clock: nat -> int, i: nat)
    ensures match Decide(metrics, ranked, hs, clock, i)
      case None => forall k | i <= k < |ranked| ::
        !Allowed(ranked[k], HistoryOf(hs, ranked[k].id), clock(2 * k), clock(2 * k + 1)) || FirstFiring(metrics, ranked[k].triggers) == None
      case Some(d) => (
        && d.index < |ranked| && d.strategy == ranked[d.index]
        && Allowed(d.strategy, HistoryOf(hs, d.strategy.id), clock(2 * d.index), clock(2 * d.index + 1)))
    decreases |ranked| - i
  {
    if i < |ranked| {
      DecidedIsAllowed(metrics, ranked, hs, clock, i + 1);
    }
  }

  /** The metric has gone beyond the trigger's threshold; a missing one counts as 0, and an operator other than
      these two never fires. */
  predicate Crossed(metrics: Metrics, t: Trigger) {
    || (t.operator == GreaterThan && metrics(t.metric) - t.threshold > 0.0)
    || (t.operator == LessThan && t.threshold - metrics(t.metric) > 0.0)
  }

  predicate FirstCrossed(metrics: Metrics, triggers: seq<Trigger>, i: nat)
    requires i < |triggers|
  {
    Crossed(metrics, triggers[i]) && forall j | 0 <= j < i :: !Crossed(metrics, triggers[j])
  }

  lemma {:induction false} FiringMeans(metrics: Metrics, triggers: seq<Trigger>)
    ensures match FirstFiring(metrics, triggers)
      case None => forall i | 0 <= i < |triggers| :: !Crossed(metrics, triggers[i])
      case Some(t) => exists i :: 0 <= i < |triggers| && triggers[i] == t && FirstCrossed(metrics, triggers, i)
    decreases |triggers|
  {
    if triggers != [] {
      if Crossed(metrics, triggers[0]) {
        assert FirstFiring(metrics, triggers) == Some(triggers[0]);
      } else {
        FiringMeans(metrics, triggers[1..]);
        if FirstFiring(metrics, triggers[1..]).Some? {
          var t := FirstFiring(metrics, triggers[1..]).value;
          var i :| 0 <= i < |triggers[1..]| && triggers[1..][i] == t && FirstCrossed(metrics, triggers[1..], i);
          forall j | 0 <= j < i + 1 ensures !Crossed(metrics, triggers[j]) {
            if j > 0 { assert triggers[j] == triggers[1..][j - 1]; }
          }
          assert triggers[i + 1] == t && FirstCrossed(metrics, triggers, i + 1);
        }
      }
    }
  }

  /** The strategy is turned down: its limits refuse it, or none of its metrics has gone beyond a threshold. */
  predicate TurnedDown(metrics: Metrics, s: Strategy, h: History, a: int, b: int) {
    !Allowed(s, h, a, b) || forall t | t in s.triggers :: !Crossed(metrics, t)
  }

  lemma {:induction false} DecidedFrom(metrics: Metrics, ranked: seq<Strategy>, hs: Histories, clock: nat -> int, i: nat)
    requires i <= |ranked|
    ensures var decision := Decide(metrics, ranked, hs, clock, i);
      var end := if decision.Some? then decision.value.index else |ranked|;
      && i <= end <= |ranked|
      && (forall k | i <= k < end :: TurnedDown(metrics, ranked[k], HistoryOf(hs, ranked[k].id), clock(2 * k), clock(2 * k + 1)))
      && (decision.Some? ==> var d := decision.value;
            && end < |ranked| && d.strategy == ranked[end] && d.trigger in d.strategy.triggers && Crossed(metrics, d.trigger)
            && Allowed(d.strategy, HistoryOf(hs, d.strategy.id), clock(2 * end), clock(2 * end + 1)))
    decreases |ranked| - i
  {
    if i < |ranked| {
      FiringMeans(metrics, ranked[i].triggers);
      DecidedFrom(metrics, ranked, hs, clock, i + 1);
    }
  }

  /** The decision takes the first strategy, by falling priority, that is enabled and not turned down, and a
      trigger of it whose metric has gone beyond its threshold; it takes none only if all are turned down. */
  lemma DecisionIsFirst(metrics: Metrics, strategies: seq<Strategy>, hs: Histories, clock: nat -> int)
    ensures var ranked := Ranked(strategies);
      var decision := Decide(metrics, ranked, hs, clock, 0);
      var end := if decision.Some? then decision.value.index else |ranked|;
      && end <= |ranked| && Falling(ranked, PriorityOf)
      && (forall k | 0 <= k < end :: TurnedDown(metrics, ranked[k], HistoryOf(hs, ranked[k].id), clock(2 * k), clock(2 * k + 1)))
      && (decision.Some? ==> var d := decision.value;
            d.strategy in strategies && d.strategy.enabled && d.trigger in d.strategy.triggers && Crossed(metrics, d.trigger))
  {
    var ranked := Ranked(strategies);
    DecidedFrom(metrics, ranked, hs, clock, 0);
    Sorts(Enabled(strategies), PriorityOf);
    var decision := Decide(metrics, ranked, hs, clock, 0);
    if decision.Some? {
      RankedMembers(strategies, decision.value.strategy);
    }
  }

  // ---- Executing ----

  /** Every action works or is not critical; `works` says which of them succeed. */
  predicate Succeeds(s: Strategy, works: nat -> bool) {
    forall k | 0 <= k < |s.actions| :: works(k) || s.actions[k].priority < CRITICAL
  }

  ghost predicate DistinctIds(strategies: seq<Strategy>) {
    forall i, j | 0 <= i < j < |strategies| :: strategies[i].id != strategies[j].id
  }

  function TimesOf(counts: map<string, seq<int>>, id: string): seq<int> {
    if id in counts then counts[id] else []
  }

  function ReadingOf(readings: map<string, int>, id: string): Option<int> {
    if id in readings then Some(readings[id]) else None
  }

  /** The stored maps agree with the histories of all strategies. */
  ghost predicate AllTracked(
    hs: Histories, last: map<string, int>, counts: map<string, seq<int>>, cuts: map<string, int>, now: int)
  {
    forall id: string :: Tracked(HistoryOf(hs, id), ReadingOf(last, id), TimesOf(counts, id), ReadingOf(cuts, id), now)
  }

  lemma AllPruned(
      hs: Histories, last: map<string, int>, counts: map<string, seq<int>>, cuts: map<string, int>, now: int,
      id: string, reading: int)
    requires AllTracked(hs, last, counts, cuts, now) && now <= reading
    ensures var times := After(TimesOf(counts, id), reading - HOUR);
      && |times| == Since(HistoryOf(hs, id), reading - HOUR)
      && AllTracked(hs, last, counts[id := times], cuts[id := reading - HOUR], reading)
  {
    var times := After(TimesOf(counts, id), reading - HOUR);
    var counts', cuts' := counts[id := times], cuts[id := reading - HOUR];
    TrackedPruned(HistoryOf(hs, id), ReadingOf(last, id), TimesOf(counts, id), ReadingOf(cuts, id), now, reading);
    forall other: string
      ensures Tracked(HistoryOf(hs, other), ReadingOf(last, other), TimesOf(counts', other), ReadingOf(cuts', other), reading)
    {
      if other != id {
        TrackedLater(HistoryOf(hs, other), ReadingOf(last, other), TimesOf(counts, other), ReadingOf(cuts, other), now, reading);
      }
    }
  }

  lemma AllRecorded(
      hs: Histories, last: map<string, int>, counts: map<string, seq<int>>, cuts: map<string, int>, now: int,
      id: string, r: Record)
    requires AllTracked(hs, last, counts, cuts, now) && now <= r.mark <= r.counted
    ensures AllTracked(WithRecord(hs, id, r), last[id := r.mark],
                       counts[id := TimesOf(counts, id) + [r.counted]], cuts, r.counted)
  {
    var hs', last' := WithRecord(hs, id, r), last[id := r.mark];
    var counts' := counts[id := TimesOf(counts, id) + [r.counted]];
    forall other: string
      ensures Tracked(HistoryOf(hs', other), ReadingOf(last', other), TimesOf(counts', other), ReadingOf(cuts, other), r.counted)
    {
      var h, l, ts, cut := HistoryOf(hs, other), ReadingOf(last, other), TimesOf(counts, other), ReadingOf(cuts, other);
      assert Tracked(h, l, ts, cut, now);
      if other == id {
        TrackedRecorded(h, l, ts, cut, now, r);
        assert HistoryOf(hs', other) == h + [r] && TimesOf(counts', other) == ts + [r.counted];
      } else {
        TrackedLater(h, l, ts, cut, now, r.counted);
        assert HistoryOf(hs', other) == h && TimesOf(counts', other) == ts;
      }
    }
  }

  function WithRecord(hs: Histories, id: string, r: Record): Histories {
    hs[id := HistoryOf(hs, id) + [r]]
  }

  /** A strategy has kept its cooldown and its hourly limit. */
  ghost predicate KeepsLimits(s: Strategy, h: History) {
    Spaced(h, s.cooldownPeriod) && Limited(h, s.maxRollbacksPerHour)
  }

  ghost predicate AllKeepLimits(strategies: seq<Strategy>, hs: Histories) {
    forall i | 0 <= i < |strategies| :: KeepsLimits(strategies[i], HistoryOf(hs, strategies[i].id))
  }

  /** Carrying out what was decided keeps every strategy within its limits. */
  lemma DecisionKeepsLimits(
      strategies: seq<Strategy>, metrics: Metrics, hs: Histories, clock: nat -> int, r: Record)
    requires AllKeepLimits(strategies, hs) && DistinctIds(strategies)
    requires Readings(clock, clock(0)) && clock(2 * |Ranked(strategies)|) <= r.mark <= r.counted
    requires Decide(metrics, Ranked(strategies), hs, clock, 0).Some?
    ensures var s := Decide(metrics, Ranked(strategies), hs, clock, 0).value.strategy;
      AllKeepLimits(strategies, WithRecord(hs, s.id, r))
  {
    var d := Decide(metrics, Ranked(strategies), hs, clock, 0).value;
    var s, after := d.strategy, WithRecord(hs, d.strategy.id, r);
    DecidedIsAllowed(metrics, Ranked(strategies), hs, clock, 0);
    assert s in Ranked(strategies);
    RankedMembers(strategies, s);
    var k :| 0 <= k < |strategies| && strategies[k] == s;
    assert clock(2 * d.index) <= clock(2 * d.index + 1) <= clock(2 * |Ranked(strategies)|);
    assert KeepsLimits(strategies[k], HistoryOf(hs, strategies[k].id));
    AllowedKeepsLimits(s, HistoryOf(hs, s.id), clock(2 * d.index), clock(2 * d.index + 1), r);
    forall i | 0 <= i < |strategies| ensures KeepsLimits(strategies[i], HistoryOf(after, strategies[i].id)) {
      if i != k {
        assert strategies[i].id != s.id && HistoryOf(after, strategies[i].id) == HistoryOf(hs, strategies[i].id);
      }
    }
  }

  /** One decide-then-execute cycle: its clock readings, which actions of the rollback that it carries out
      succeed, and the two readings with which a success is recorded. */
  datatype Cycle = Cycle(metrics: Metrics, clock: nat -> int, works: nat -> bool, first: int, second: int)

  ghost predicate InTime(strategies: seq<Strategy>, c: Cycle) {
    && Readings(c.clock, c.clock(0))
    && c.clock(2 * |Ranked(strategies)|) <= c.first <= c.second
  }

  function AfterCycle(strategies: seq<Strategy>, hs: Histories, c: Cycle): Histories {
    match Decide(c.metrics, Ranked(strategies), hs, c.clock, 0)
    case Some(d) => if Succeeds(d.strategy, c.works) then WithRecord(hs, d.strategy.id, Record(c.first, c.second)) else hs
    case None => hs
  }

  function HistoriesAfter(strategies: seq<Strategy>, cycles: seq<Cycle>): Histories
    decreases |cycles|
  {
    if cycles == [] then map[]
    else
      AfterCycle(strategies, HistoriesAfter(strategies, cycles[..|cycles| - 1]), cycles[|cycles| - 1])
  }

  /** Over any sequence of cycles, one after the other, every strategy stays within its limits. */
  lemma {:induction false} EveryRunKeepsLimits(strategies: seq<Strategy>, cycles: seq<Cycle>)
    requires DistinctIds(strategies) && forall i | 0 <= i < |cycles| :: InTime(strategies, cycles[i])
    ensures AllKeepLimits(strategies, HistoriesAfter(strategies, cycles))
    decreases |cycles|
  {
    if cycles == [] {
      NothingKeepsLimits(strategies);
    } else {
      var n := |cycles| - 1;
      var hs, c := HistoriesAfter(strategies, cycles[..n]), cycles[n];
      EveryRunKeepsLimits(strategies, cycles[..n]);
      assert InTime(strategies, c);
      if Decide(c.metrics, Ranked(strategies), hs, c.clock, 0).Some? {
        DecisionKeepsLimits(strategies, c.metrics, hs, c.clock, Record(c.first, c.second));
      }
    }
  }

  /** The rollbacks of the hour that ends at `t`, an hour being 3,600,000 milliseconds. */
  function HourBefore(h: History, t: int): set<int> {
    set i | 0 <= i < |h| && t - 3600000 < h[i].counted <= t
  }

  lemma {:induction false} HourIsCounted(h: History, t: int)
    ensures |HourBefore(h, t)| == LastHour(h, t)
    decreases |h|
  {
    if h != [] {
      var n := |h| - 1;
      HourIsCounted(h[..n], t);
      assert HourBefore(h, t) == HourBefore(h[..n], t) + if t - 3600000 < h[n].counted <= t then {n} else {};
    }
  }

  /** So over any sequence of cycles no hour sees more than the maximum of a strategy's rollbacks, and successive
      ones lie at least its cooldown in seconds apart. */
  lemma EveryHourIsLimited(strategies: seq<Strategy>, cycles: seq<Cycle>, i: nat, t: int)
    requires DistinctIds(strategies) && i < |strategies| && forall k | 0 <= k < |cycles| :: InTime(strategies, cycles[k])
    ensures var h := HistoryOf(HistoriesAfter(strategies, cycles), strategies[i].id);
      && |HourBefore(h, t)| <= strategies[i].maxRollbacksPerHour
      && forall k | 0 < k < |h| :: h[k].mark - h[k - 1].mark >= strategies[i].cooldownPeriod * 1000
  {
    EveryRunKeepsLimits(strategies, cycles);
    var h := HistoryOf(HistoriesAfter(strategies, cycles), strategies[i].id);
    assert KeepsLimits(strategies[i], h);
    HourIsCounted(h, t);
  }

  lemma NothingKeepsLimits(strategies: seq<Strategy>)
    ensures AllKeepLimits(strategies, map[])
  {
    forall i | 0 <= i < |strategies| ensures KeepsLimits(strategies[i], []) {
      forall t: int ensures LastHour([], t) <= strategies[i].maxRollbacksPerHour {}
    }
  }

  class RollbackAutomationService {
    const strategies: seq<Strategy>
    var lastRollbacks: map<string, int>
    var rollbackCounts: map<string, seq<int>>
    /** All successful rollbacks so far, the latest pruning of each list, and the latest clock reading. */
    ghost var history: Histories
    ghost var cuts: map<string, int>
    ghost var now: int

    ghost predicate Valid()
      reads this
    {
      AllTracked(history, lastRollbacks, rollbackCounts, cuts, now)
    }

    /** Every strategy has kept its cooldown and its hourly limit. */
    ghost predicate WithinLimits()
      reads this
    {
      AllKeepLimits(strategies, history)
    }

    constructor (strategies: seq<Strategy>, start: int)
      requires DistinctIds(strategies)
      ensures Valid() && WithinLimits() && this.strategies == strategies && history == map[] && now == start
    {
      this.strategies := strategies;
      lastRollbacks, rollbackCounts, history, cuts, now := map[], map[], map[], map[], start;
      new;
      NothingKeepsLimits(strategies);
    }

    method IsInCooldown(id: string, cooldown: nat, reading: int) returns (cooling: bool)
      requires Valid() && now <= reading
      ensures cooling == CoolingDown(HistoryOf(history, id), reading, cooldown)
    {
      assert Tracked(HistoryOf(history, id), ReadingOf(lastRollbacks, id), TimesOf(rollbackCounts, id), ReadingOf(cuts, id), now);
      if id !in lastRollbacks {
        return false;
      }
      var elapsed := reading - lastRollbacks[id];
      cooling := elapsed < cooldown * 1000;
    }

    /** Prunes the stored times; the answer is the one that the full history gives. */
    method HasExceededRollbackLimit(id: string, maxPerHour: nat, reading: int) returns (exceeded: bool)
      requires Valid() && now <= reading
      modifies this`rollbackCounts, this`cuts, this`now
      ensures Valid() && now == reading
      ensures exceeded == (Since(HistoryOf(history, id), reading - HOUR) >= maxPerHour)
    {
      AllPruned(history, lastRollbacks, rollbackCounts, cuts, now, id, reading);
      var times := After(TimesOf(rollbackCounts, id), reading - HOUR);
      rollbackCounts := rollbackCounts[id := times];
      cuts, now := cuts[id := reading - HOUR], reading;
      exceeded := |times| >= maxPerHour;
    }

    /** Checks one strategy at the clock readings `a` and `b`: the trigger that fires, unless the strategy is
        cooling down or has used up its rollbacks of the hour. */
    method CheckStrategy(s: Strategy, metrics: Metrics, a: int, b: int) returns (fired: Option<Trigger>)
      requires Valid() && now <= a <= b
      modifies this`rollbackCounts, this`cuts, this`now
      ensures Valid() && old(now) <= now <= b
      ensures fired == Checked(s, metrics, HistoryOf(history, s.id), a, b)
    {
      var cooling := IsInCooldown(s.id, s.cooldownPeriod, a);
      if cooling {
        return None;
      }
      var exceeded := HasExceededRollbackLimit(s.id, s.maxRollbacksPerHour, b);
      if exceeded {
        return None;
      }
      fired := FirstFiring(metrics, s.triggers);
    }

    /** Tries the strategies by falling priority.  Although the stored times are pruned on the way, the
        decision is the one that the full histories give. */
    method ShouldRollback(metrics: Metrics, clock: nat -> int) returns (decision: Option<Decision>)
      requires Valid() && Readings(clock, now)
      modifies this`rollbackCounts, this`cuts, this`now
      ensures Valid() && old(now) <= now <= clock(2 * |Ranked(strategies)|)
      ensures decision == Decide(metrics, Ranked(strategies), history, clock, 0)
      ensures decision.Some? ==> now <= clock(2 * decision.value.index + 1)
    {
      var ranked := Ranked(strategies);
      ghost var hs := history;
      ghost var whole := Decide(metrics, ranked, hs, clock, 0);
      var i := 0;
      while i < |ranked|
        invariant 0 <= i <= |ranked| && Valid() && history == hs
        invariant old(now) <= now <= clock(2 * i)
        invariant Decide(metrics, ranked, hs, clock, i) == whole
      {
        assert clock(2 * i) <= clock(2 * i + 1) <= clock(2 * i + 2);
        NextDecision(metrics, ranked, hs, clock, i);
        var fired := CheckStrategy(ranked[i], metrics, clock(2 * i), clock(2 * i + 1));
        if fired.Some? {
          assert clock(2 * i + 1) <= clock(2 * |ranked|);
          return Some(Decision(ranked[i], fired.value, i));
        }
        i := i + 1;
      }
      decision := None;
    }

    /** Stores a successful rollback; `first` and `second` are the two clock readings that it takes. */
    method RecordRollback(id: string, first: int, second: int)
      requires Valid() && now <= first <= second
      modifies this`lastRollbacks, this`rollbackCounts, this`history, this`now
      ensures Valid() && now == second
      ensures history == WithRecord(old(history), id, Record(first, second))
    {
      ghost var r := Record(first, second);
      ghost var hs := WithRecord(history, id, r);
      var last := lastRollbacks[id := first];
      var counts := rollbackCounts[id := TimesOf(rollbackCounts, id) + [second]];
      AllRecorded(history, lastRollbacks, rollbackCounts, cuts, now, id, r);
      assert AllTracked(hs, last, counts, cuts, second);
      lastRollbacks, rollbackCounts := last, counts;
      history, now := hs, second;
    }

    /** Performs the actions in order; `works` says which of them succeed.  A critical action that fails
        ends the rollback, which then counts neither for the cooldown nor for the limit. */
    method ExecuteRollback(strategy: Strategy, works: nat -> bool, first: int, second: int)
      returns (success: bool, performed: seq<(Action, bool)>)
      requires Valid() && now <= first <= second
      modifies this`lastRollbacks, this`rollbackCounts, this`history, this`now
      ensures Valid() && now <= second
      ensures success <==> forall k | 0 <= k < |strategy.actions| :: works(k) || strategy.actions[k].priority < 90
      ensures |performed| == CriticalFailure(strategy.actions, works, CRITICAL, 0)
      ensures forall k | 0 <= k < |performed| :: performed[k] == (strategy.actions[k], works(k))
      ensures history == if success then WithRecord(old(history), strategy.id, Record(first, second)) else old(history)
    {
      performed := [];
      var i := 0;
      while i < |strategy.actions|
        invariant 0 <= i <= |strategy.actions| && |performed| == i
        invariant forall k | 0 <= k < i :: performed[k] == (strategy.actions[k], works(k))
        invariant forall k | 0 <= k < i :: works(k) || strategy.actions[k].priority < CRITICAL
        invariant CriticalFailure(strategy.actions, works, CRITICAL, i) == CriticalFailure(strategy.actions, works, CRITICAL, 0)
      {
        var action := strategy.actions[i];
        if !works(i) && action.priority >= CRITICAL {
          return false, performed;
        }
        performed := performed + [(action, works(i))];
        i := i + 1;
      }
      RecordRollback(strategy.id, first, second);
      success := true;
    }

    /** One automation cycle: decide, then execute.  The histories move on as in one cycle of a run, and every
        strategy stays within its limits. */
    method EvaluateRollbackStrategies(metrics: Metrics, clock: nat -> int, works: nat -> bool, first: int, second: int)
      returns (decision: Option<Decision>, count: nat)
      requires Valid() && WithinLimits() && DistinctIds(strategies)
      requires Readings(clock, now) && clock(2 * |Ranked(strategies)|) <= first <= second
      modifies this
      ensures Valid() && WithinLimits()
      ensures decision == Decide(metrics, Ranked(strategies), old(history), clock, 0)
      ensures count == if decision.Some? && Succeeds(decision.value.strategy, works) then 1 else 0
      ensures history == AfterCycle(strategies, old(history), Cycle(metrics, clock, works, first, second))
    {
      decision := ShouldRollback(metrics, clock);
      count := 0;
      if decision.Some? {
        assert now <= first by {
          assert clock(0) <= clock(2 * |Ranked(strategies)|);
        }
        DecisionKeepsLimits(strategies, metrics, history, clock, Record(first, second));
        var success, _ := ExecuteRollback(decision.value.strategy, works, first, second);
        if success {
          count := 1;
        }
      }
    }
  }
}
