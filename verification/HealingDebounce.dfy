/** Automated healing: strategies are offered only after their condition has persisted, and a critical
    failure while one is carried out reverses what it has done. */
module HealingDebounce {
  import opened Automation
  import opened Options
  import opened Priorities

  /** `duration` is in seconds. */
  datatype Condition = Condition(metric: string, operator: Operator, threshold: real, duration: nat)

  /** The priority from which a failed action is critical. */
  const CRITICAL := 80

  datatype Strategy = Strategy(id: string, priority: int, enabled: bool, condition: Condition, actions: seq<Action>)

  predicate Met(metrics: Metrics, c: Condition) {
    match c.operator
    case GreaterThan => metrics(c.metric) > c.threshold
    case LessThan => metrics(c.metric) < c.threshold
    case Equals => metrics(c.metric) == c.threshold
  }

  function KeyOf(s: Strategy): string { s.id + "-" + s.condition.metric }

  // ---- The history of a condition ----

  /** An evaluation of a condition at a time in milliseconds. */
  datatype Evaluation = Evaluation(at: int, met: bool)

  type History = seq<Evaluation>

  predicate Ordered(h: History, now: int) {
    && (forall i | 0 <= i < |h| :: h[i].at <= now)
    && (forall i, j | 0 <= i < j < |h| :: h[i].at <= h[j].at)
  }

  /** The condition was met at every evaluation from the one with index `i` on. */
  predicate MetFrom(h: History, i: nat) {
    forall j | i <= j < |h| :: h[j].met
  }

  /** The condition was met at every evaluation since one that lies at least `duration` seconds back. */
  predicate Persisted(h: History, now: int, duration: nat) {
    exists i | 0 <= i < |h| :: MetFrom(h, i) && now - h[i].at >= duration * 1000
  }

  /** When the unbroken run of met evaluations that ends the history began. */
  function RunStart(h: History): Option<int>
    decreases |h|
  {
    if h == [] || !h[|h| - 1].met then None
    else match RunStart(h[..|h| - 1])
      case None => Some(h[|h| - 1].at)
      case Some(t) => Some(t)
  }

  /** The tracked time is that of the first evaluation of the unbroken run. */
  lemma {:induction false} RunStartIsFirst(h: History) returns (i: nat)
    ensures RunStart(h) == None <==> h == [] || !h[|h| - 1].met
    ensures RunStart(h).Some? ==>
      i < |h| && RunStart(h) == Some(h[i].at) && MetFrom(h, i) && (i == 0 || !h[i - 1].met)
    decreases |h|
  {
    i := 0;
    if h != [] && h[|h| - 1].met {
      var n := |h| - 1;
      i := RunStartIsFirst(h[..n]);
      if RunStart(h[..n]) == None {
        i := n;
        assert n > 0 ==> h[..n][n - 1] == h[n - 1];
      } else {
        forall j | i <= j < |h| ensures h[j].met {
          if j < n { assert h[..n][j].met; }
        }
        assert i > 0 ==> h[..n][i - 1] == h[i - 1];
      }
    }
  }

  /** Asking the tracker how long the condition has held is asking whether it has persisted. */
  lemma {:induction false} TrackerDecides(h: History, now: int, duration: nat)
    requires Ordered(h, now)
    ensures Persisted(h, now, duration) <==> RunStart(h).Some? && now - RunStart(h).value >= duration * 1000
  {
    var i := RunStartIsFirst(h);
    if Persisted(h, now, duration) {
      var k :| 0 <= k < |h| && MetFrom(h, k) && now - h[k].at >= duration * 1000;
      assert h[|h| - 1].met;
      assert i <= k;
    }
  }

  /** The tracker agrees with the history of a condition. */
  ghost predicate Follows(tracked: Option<int>, h: History, now: int) {
    Ordered(h, now) && tracked == RunStart(h)
  }

  /** One more evaluation: the tracker starts a run, keeps the start of the run, or forgets it. */
  lemma FollowsEvaluation(tracked: Option<int>, h: History, now: int, reading: int, met: bool)
    requires Follows(tracked, h, now) && now <= reading
    ensures var after := if !met then None else if tracked.None? then Some(reading) else tracked;
      Follows(after, h + [Evaluation(reading, met)], reading)
  {
    assert (h + [Evaluation(reading, met)])[..|h|] == h;
  }

  lemma FollowsLater(tracked: Option<int>, h: History, now: int, reading: int)
    requires Follows(tracked, h, now) && now <= reading
    ensures Follows(tracked, h, reading)
  {
  }

  // ---- Finding strategies ----

  type Histories = map<string, History>

  function HistoryOf(hs: Histories, key: string): History {
    if key in hs then hs[key] else []
  }

  /** The strategy is offered: it is enabled, its condition is met now, and it has persisted. */
  predicate Offered(s: Strategy, metrics: Metrics, h: History, now: int) {
    s.enabled && Met(metrics, s.condition) && Persisted(h, now, s.condition.duration)
  }

  /** The histories after one strategy has been evaluated, if it is enabled. */
  function Considered(s: Strategy, metrics: Metrics, hs: Histories, reading: int): Histories {
    if s.enabled then hs[KeyOf(s) := HistoryOf(hs, KeyOf(s)) + [Evaluation(reading, Met(metrics, s.condition))]] else hs
  }

  /** An enabled strategy's key gains one evaluation, which says how the metric stands to the threshold; nothing else
      changes, and for a disabled one nothing at all. */
  lemma EvaluationIsRecorded(s: Strategy, metrics: Metrics, hs: Histories, reading: int, key: string)
    ensures var value, threshold := metrics(s.condition.metric), s.condition.threshold;
      var met := match s.condition.operator
        case GreaterThan => threshold < value case LessThan => value < threshold case Equals => value == threshold;
      HistoryOf(Considered(s, metrics, hs, reading), key) ==
        if s.enabled && key == s.id + "-" + s.condition.metric then HistoryOf(hs, key) + [Evaluation(reading, met)]
        else HistoryOf(hs, key)
  {
  }

  /** The histories after the first `n` strategies have been evaluated. */
  function Evaluated(strategies: seq<Strategy>, metrics: Metrics, hs: Histories, clock: nat -> int, n: nat): Histories
    requires n <= |strategies|
  {
    if n == 0 then hs
    else
      Considered(strategies[n - 1], metrics, Evaluated(strategies, metrics, hs, clock, n - 1), clock(n - 1))
  }

  /** The offered ones of the first `n` strategies; strategy `i` is evaluated at `clock(i)`, by the history
      of its key at that turn. */
  function OfferedOf(strategies: seq<Strategy>, metrics: Metrics, hs: Histories, clock: nat -> int, n: nat): seq<Strategy>
    requires n <= |strategies|
  {
    if n == 0 then []
    else
      var s, turn := strategies[n - 1], Evaluated(strategies, metrics, hs, clock, n - 1);
      OfferedOf(strategies, metrics, hs, clock, n - 1) +
      if Offered(s, metrics, HistoryOf(turn, KeyOf(s)), clock(n - 1)) then [s] else []
  }

  lemma NextTurn(strategies: seq<Strategy>, metrics: Metrics, hs: Histories, clock: nat -> int, i: nat)
    requires i < |strategies|
    ensures var s, turn := strategies[i], Evaluated(strategies, metrics, hs, clock, i);
      && OfferedOf(strategies, metrics, hs, clock, i + 1) ==
         OfferedOf(strategies, metrics, hs, clock, i) +
         (if Offered(s, metrics, HistoryOf(turn, KeyOf(s)), clock(i)) then [s] else [])
      && Evaluated(strategies, metrics, hs, clock, i + 1) == Considered(s, metrics, turn, clock(i))
  {
  }

  /** The tracker's keys tell the strategies apart. */
  ghost predicate DistinctKeys(strategies: seq<Strategy>) {
    forall i, j | 0 <= i < j < |strategies| :: KeyOf(strategies[i]) != KeyOf(strategies[j])
  }

  /** At its turn the strategy is enabled, its metric stands to its threshold as its operator says, and it did so at
      every evaluation since one at least its duration, in seconds, ago. */
  predicate OfferedAt(strategies: seq<Strategy>, metrics: Metrics, hs: Histories, clock: nat -> int, i: nat)
    requires i < |strategies|
  {
    var s := strategies[i];
    var h := HistoryOf(Evaluated(strategies, metrics, hs, clock, i), s.id + "-" + s.condition.metric);
    var value, threshold := metrics(s.condition.metric), s.condition.threshold;
    && s.enabled
    && (match s.condition.operator
        case GreaterThan => threshold < value case LessThan => value < threshold case Equals => value == threshold)
    && exists k | 0 <= k < |h| :: h[k].at + 1000 * s.condition.duration <= clock(i) && forall j | k <= j < |h| :: h[j].met
  }

  /** Exactly the strategies of which this holds at their turn are offered. */
  lemma {:induction false} OfferedMembers(
      strategies: seq<Strategy>, metrics: Metrics, hs: Histories, clock: nat -> int, n: nat, s: Strategy)
    requires n <= |strategies|
    ensures s in OfferedOf(strategies, metrics, hs, clock, n) <==>
      exists i: nat :: i < n && strategies[i] == s && OfferedAt(strategies, metrics, hs, clock, i)
    decreases n
  {
    if n > 0 {
      OfferedMembers(strategies, metrics, hs, clock, n - 1, s);
      assert OfferedAt(strategies, metrics, hs, clock, n - 1) <==>
        Offered(strategies[n - 1], metrics, HistoryOf(Evaluated(strategies, metrics, hs, clock, n - 1), KeyOf(strategies[n - 1])), clock(n - 1));
    }
  }

  /** With distinct keys the evaluation of one strategy leaves the histories of the others alone, so every
      strategy is offered by the history that its condition had before the cycle. */
  lemma {:induction false} OthersUntouched(
      strategies: seq<Strategy>, metrics: Metrics, hs: Histories, clock: nat -> int, n: nat, k: nat)
    requires DistinctKeys(strategies) && n <= k < |strategies|
    ensures HistoryOf(Evaluated(strategies, metrics, hs, clock, n), KeyOf(strategies[k])) == HistoryOf(hs, KeyOf(strategies[k]))
    decreases n
  {
    if n > 0 {
      OthersUntouched(strategies, metrics, hs, clock, n - 1, k);
      assert KeyOf(strategies[n - 1]) != KeyOf(strategies[k]);
    }
  }

  // ---- Carrying out a strategy ----

  datatype Outcome = Success | RolledBack

  /** An action that was performed, and whether it succeeded. */
  datatype Performed = Performed(action: Action, success: bool)

  /** Every action works or is not critical; `works` says which of them succeed. */
  predicate Succeeds(s: Strategy, works: nat -> bool) {
    forall k | 0 <= k < |s.actions| :: works(k) || s.actions[k].priority < CRITICAL
  }

  /** What carrying out the strategies gives, where `works(i, k)` says whether action k of strategy i succeeds. */
  predicate Carried(tried: seq<Strategy>, works: (nat, nat) -> bool, outcomes: seq<Outcome>) {
    |outcomes| == |tried| && forall i: nat | i < |tried| :: outcomes[i] == OutcomeOf(tried[i], Of(works, i))
  }

  function Of(works: (nat, nat) -> bool, i: nat): nat -> bool { (k: nat) => works(i, k) }

  function OutcomeOf(s: Strategy, works: nat -> bool): Outcome {
    if Succeeds(s, works) then Success else RolledBack
  }

  lemma CarriedSnoc(tried: seq<Strategy>, works: (nat, nat) -> bool, outcomes: seq<Outcome>, s: Strategy, o: Outcome)
    requires Carried(tried, works, outcomes) && o == OutcomeOf(s, Of(works, |tried|))
    ensures Carried(tried + [s], works, outcomes + [o])
  {
  }

  /** The actions that a rollback reverses: the successful ones, last first. */
  function Reversals(performed: seq<Performed>): seq<Action>
    decreases |performed|
  {
    if performed == [] then []
    else
      var last := performed[|performed| - 1];
      (if last.success then [last.action] else []) + Reversals(performed[..|performed| - 1])
  }

  /** Only an action that succeeded is reversed, and what was performed later is reversed earlier. */
  lemma {:induction false} ReversalsTurnAround(a: seq<Performed>, b: seq<Performed>, last: Performed)
    ensures Reversals(a + b) == Reversals(b) + Reversals(a)
    ensures Reversals([last]) == if last.success then [last.action] else []
    decreases |b|
  {
    assert [last][..0] == [];
    if b == [] {
      assert a + b == a;
    } else {
      var n := |b| - 1;
      assert (a + b)[..|a + b| - 1] == a + b[..n] && (a + b)[|a + b| - 1] == b[n];
      ReversalsTurnAround(a, b[..n], last);
    }
  }

  function PriorityOf(s: Strategy): int { s.priority }

  class HealingEngine {
    const strategies: seq<Strategy>
    var conditionTracker: map<string, int>
    /** All evaluations of each condition so far, and the latest clock reading. */
    ghost var history: Histories
    ghost var now: int

    function Tracked(key: string): Option<int>
      reads this
    {
      if key in conditionTracker then Some(conditionTracker[key]) else None
    }

    ghost predicate Tracks(key: string)
      reads this
    {
      Follows(Tracked(key), HistoryOf(history, key), now)
    }

    /** The tracker always holds, for each condition that was met at its last evaluation, the time at which
        the unbroken run began, and nothing for the others. */
    ghost predicate Valid()
      reads this
    {
      forall key: string :: Tracks(key)
    }

    constructor (strategies: seq<Strategy>, start: int)
      ensures Valid() && this.strategies == strategies && history == map[] && now == start
    {
      this.strategies := strategies;
      conditionTracker, history, now := map[], map[], start;
    }

    /** Evaluates the condition of one enabled strategy. */
    method Evaluate(s: Strategy, metrics: Metrics, reading: int) returns (persisted: bool)
      requires Valid() && now <= reading
      modifies this`conditionTracker, this`history, this`now
      ensures Valid() && now == reading
      ensures persisted == (Met(metrics, s.condition) &&
                            Persisted(HistoryOf(old(history), KeyOf(s)), reading, s.condition.duration))
      ensures history == old(history)[KeyOf(s) :=
                HistoryOf(old(history), KeyOf(s)) + [Evaluation(reading, Met(metrics, s.condition))]]
    {
      var key := KeyOf(s);
      var met := Met(metrics, s.condition);
      assert Tracks(key);
      ghost var h := HistoryOf(history, key);
      TrackerDecides(h, reading, s.condition.duration);
      FollowsEvaluation(Tracked(key), h, now, reading, met);
      persisted := false;
      if met {
        if key !in conditionTracker {
          conditionTracker := conditionTracker[key := reading];
        } else {
          var elapsed := reading - conditionTracker[key];
          persisted := elapsed >= s.condition.duration * 1000;
        }
      } else {
        conditionTracker := conditionTracker - {key};
      }
      history, now := history[key := h + [Evaluation(reading, met)]], reading;
      forall other: string ensures Tracks(other) {
        if other != key {
          assert old(Tracks(other));
          FollowsLater(old(Tracked(other)), HistoryOf(old(history), other), old(now), reading);
        }
      }
    }

    /** Evaluates the condition of one strategy if it is enabled. */
    method Consider(s: Strategy, metrics: Metrics, reading: int) returns (offered: bool)
      requires Valid() && now <= reading
      modifies this`conditionTracker, this`history, this`now
      ensures Valid() && old(now) <= now <= reading
      ensures offered == Offered(s, metrics, HistoryOf(old(history), KeyOf(s)), reading)
      ensures history == Considered(s, metrics, old(history), reading)
    {
      offered := false;
      if s.enabled {
        offered := Evaluate(s, metrics, reading);
      }
    }

    /** Evaluates every enabled strategy.  A strategy is offered exactly when its condition is met now and
        was met at every evaluation since one at least its duration ago. */
    method FindApplicableStrategies(metrics: Metrics, clock: nat -> int) returns (applicable: seq<Strategy>)
      requires Valid() && Readings(clock, now)
      modifies this`conditionTracker, this`history, this`now
      ensures Valid() && old(now) <= now <= clock(|strategies|)
      ensures applicable == OfferedOf(strategies, metrics, old(history), clock, |strategies|)
      ensures history == Evaluated(strategies, metrics, old(history), clock, |strategies|)
    {
      ghost var hs := history;
      applicable := [];
      var i := 0;
      while i < |strategies|
        invariant 0 <= i <= |strategies| && Valid() && old(now) <= now <= clock(i)
        invariant applicable == OfferedOf(strategies, metrics, hs, clock, i)
        invariant history == Evaluated(strategies, metrics, hs, clock, i)
      {
        var s := strategies[i];
        assert clock(i) <= clock(i + 1);
        NextTurn(strategies, metrics, hs, clock, i);
        var offered := Consider(s, metrics, clock(i));
        if offered {
          applicable := applicable + [s];
        }
        i := i + 1;
      }
    }

    /** Performs the actions in order; `works` says which of them succeed.  When a critical one fails, the
        successful ones before it are reversed, last first; `reversed` lists them. */
    method ExecuteStrategy(s: Strategy, works: nat -> bool)
      returns (outcome: Outcome, performed: seq<Performed>, reversed: seq<Action>)
      ensures outcome == OutcomeOf(s, works)
      ensures outcome == Success <==> forall k | 0 <= k < |s.actions| :: works(k) || s.actions[k].priority < 80
      ensures |performed| == CriticalFailure(s.actions, works, CRITICAL, 0)
      ensures forall k | 0 <= k < |performed| :: performed[k] == Performed(s.actions[k], works(k))
      ensures reversed == if outcome == Success then [] else Reversals(performed)
    {
      performed, reversed := [], [];
      var i := 0;
      while i < |s.actions|
        invariant 0 <= i <= |s.actions| && |performed| == i && reversed == []
        invariant forall k | 0 <= k < i :: performed[k] == Performed(s.actions[k], works(k))
        invariant forall k | 0 <= k < i :: works(k) || s.actions[k].priority < CRITICAL
        invariant CriticalFailure(s.actions, works, CRITICAL, i) == CriticalFailure(s.actions, works, CRITICAL, 0)
      {
        if !works(i) && s.actions[i].priority >= CRITICAL {
          reversed := Rollback(performed);
          return RolledBack, performed, reversed;
        }
        performed := performed + [Performed(s.actions[i], works(i))];
        i := i + 1;
      }
      outcome := Success;
    }

    method Rollback(performed: seq<Performed>) returns (reversed: seq<Action>)
      ensures reversed == Reversals(performed)
    {
      reversed := [];
      var i := |performed|;
      assert performed[..i] == performed;
      while i > 0
        invariant 0 <= i <= |performed|
        invariant reversed + Reversals(performed[..i]) == Reversals(performed)
      {
        i := i - 1;
        assert performed[..i + 1][..i] == performed[..i];
        ghost var rest := Reversals(performed[..i]);
        if performed[i].success {
          var action := performed[i].action;
          assert reversed + ([action] + rest) == (reversed + [action]) + rest;
          reversed := reversed + [action];
        } else {
          assert [] + rest == rest;
        }
      }
      assert reversed + [] == reversed;
    }

    /** Carries out the strategies in order until one succeeds. */
    method TryInOrder(ranked: seq<Strategy>, works: (nat, nat) -> bool)
      returns (tried: seq<Strategy>, outcomes: seq<Outcome>)
      ensures Carried(tried, works, outcomes) && tried <= ranked
      ensures forall k | 0 <= k < |outcomes| - 1 :: outcomes[k] == RolledBack
      ensures tried == ranked || (outcomes != [] && outcomes[|outcomes| - 1] == Success)
    {
      tried, outcomes := [], [];
      var i := 0;
      while i < |ranked|
        invariant 0 <= i <= |ranked| && tried == ranked[..i] && Carried(tried, works, outcomes)
        invariant forall k | 0 <= k < i :: outcomes[k] == RolledBack
      {
        var s := ranked[i];
        var outcome, _, _ := ExecuteStrategy(s, Of(works, i));
        CarriedSnoc(tried, works, outcomes, s, outcome);
        assert ranked[..i + 1] == tried + [s];
        tried, outcomes := tried + [s], outcomes + [outcome];
        if outcome == Success {
          return;
        }
        i := i + 1;
      }
    }

    /** Carries out the offered strategies by falling priority until one succeeds. */
    method EvaluateAndHeal(metrics: Metrics, clock: nat -> int, works: (nat, nat) -> bool)
      returns (tried: seq<Strategy>, outcomes: seq<Outcome>)
      requires Valid() && Readings(clock, now)
      modifies this`conditionTracker, this`history, this`now
      ensures Valid()
      ensures history == Evaluated(strategies, metrics, old(history), clock, |strategies|)
      ensures Carried(tried, works, outcomes) && forall k | 0 <= k < |outcomes| - 1 :: outcomes[k] == RolledBack
      ensures var ranked := ByPriority(OfferedOf(strategies, metrics, old(history), clock, |strategies|), PriorityOf);
        tried <= ranked && (tried == ranked || (outcomes != [] && outcomes[|outcomes| - 1] == Success))
    {
      var applicable := FindApplicableStrategies(metrics, clock);
      tried, outcomes := TryInOrder(ByPriority(applicable, PriorityOf), works);
    }
  }
}
