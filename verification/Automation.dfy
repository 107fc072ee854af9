/** What the automation services share: clock readings, metrics, and series of prioritised actions. */
module Automation {
  /** Successive readings in milliseconds never go back, and none lies before `from`. */
  ghost predicate Readings(clock: nat -> int, from: int) {
    from <= clock(0) && forall i: nat, j: nat | i <= j :: clock(i) <= clock(j)
  }

  /** The values of the metrics; a missing one reads as 0. */
  type Metrics = string -> real

  datatype Operator = GreaterThan | LessThan | Equals

  datatype Action = Action(kind: string, priority: int)

  /** How many actions are performed before the first that fails with a priority of `critical` or more;
      `works` says which of them succeed. */
  function CriticalFailure(actions: seq<Action>, works: nat -> bool, critical: int, i: nat): (n: nat)
    requires i <= |actions|
    ensures i <= n <= |actions|
    ensures forall k | i <= k < n :: works(k) || actions[k].priority < critical
    ensures n < |actions| ==> !works(n) && actions[n].priority >= critical
    decreases |actions| - i
  {
    if i == |actions| || (!works(i) && actions[i].priority >= critical) then i
    else CriticalFailure(actions, works, critical, i + 1)
  }
}
