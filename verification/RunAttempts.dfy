/** Attempts, healing and automatic rollback inside the execution of one task, and how an execution ends. */
module RunAttempts {
  import opened Options
  import opened RunModel
  import opened RunSafety

  /** What an observer of a trace has seen so far.  `inOrder` says that every adapter call carried the
      number following that of the call before it, starting from 1, that the n-th logged failure carried the
      number n and followed the n-th call, and that no call or failure came after a rollback. */
  datatype Tally = Tally(calls: nat, failures: nat, healed: nat, rollbacks: nat, inOrder: bool)

  function See(t: Tally, e: Effect): Tally {
    match e
    case CallExecute(_, attempt, _, _, _) =>
      t.(calls := t.calls + 1, inOrder := t.inOrder && t.rollbacks == 0 && attempt == t.calls + 1 && t.failures == t.calls)
    case CallHeal(answer) => if answer == Verified then t.(healed := t.healed + 1) else t
    case CallRollback(_) => t.(rollbacks := t.rollbacks + 1)
    case PutStep(entry) =>
      if entry.status == StepFailed
      then t.(failures := t.failures + 1,
              inOrder := t.inOrder && t.rollbacks == 0 && entry.attempt == t.failures + 1 == t.calls)
      else t
    case _ => t
  }

  function Watch(t: Tally, effects: seq<Effect>): Tally
    decreases |effects|
  {
    if effects == [] then t else Watch(See(t, effects[0]), effects[1..])
  }

  function Observe(effects: seq<Effect>): Tally {
    Watch(Tally(0, 0, 0, 0, true), effects)
  }

  lemma {:induction false} WatchConcat(t: Tally, a: seq<Effect>, b: seq<Effect>)
    ensures Watch(t, a + b) == Watch(Watch(t, a), b)
    decreases |a|
  {
    if a == [] {
      assert a + b == b;
    } else {
      assert (a + b)[1..] == a[1..] + b;
      WatchConcat(See(t, a[0]), a[1..], b);
    }
  }

  lemma WatchShort(t: Tally, e: seq<Effect>)
    ensures |e| == 1 ==> Watch(t, e) == See(t, e[0])
    ensures |e| == 2 ==> Watch(t, e) == See(See(t, e[0]), e[1])
    ensures |e| == 3 ==> Watch(t, e) == See(See(See(t, e[0]), e[1]), e[2])
    ensures |e| == 4 ==> Watch(t, e) == See(See(See(See(t, e[0]), e[1]), e[2]), e[3])
    decreases |e|
  {
    if 0 < |e| <= 4 {
      WatchShort(See(t, e[0]), e[1..]);
    }
  }

  /** Failed attempts are numbered from 1, and those at or beyond the retry limit were all healed. */
  lemma {:induction false} FailedAttemptsTally(task: Task, st: RunState, o: Answers, n: nat)
    requires task.maxAttempts >= 1
    requires forall j: nat | 1 <= j <= n :: !Stops(o, task.maxAttempts, j)
    ensures Observe(FailedAttempts(task, st, o, n)) ==
      Tally(n, n, if n >= task.maxAttempts then n - task.maxAttempts + 1 else 0, 0, true)
  {
    if n > 0 {
      assert !Stops(o, task.maxAttempts, n);
      FailedAttemptsTally(task, st, o, n - 1);
      var before := FailedAttempts(task, st, o, n - 1);
      WatchConcat(Tally(0, 0, 0, 0, true), before, FailedAttempt(task, st, o, n));
      WatchShort(Observe(before), FailedAttempt(task, st, o, n));
    }
  }

  /** The answers of a world in which no attempt succeeds and every healing is verified. */
  function AlwaysHealed(): Answers {
    Answers(true, false, true, None, None, true, (k: nat) => false, (k: nat) => false, (k: nat) => Verified, 0, false)
  }

  /** Without a bound on verified healings the retry loop need not end: no attempt is the last one, and however
      many have been made, each was logged as a failure and each from the limit on was healed. */
  lemma HealingWithoutEnd(task: Task, st: RunState, n: nat)
    requires task.maxAttempts >= 1
    ensures forall j: nat :: !Stops(AlwaysHealed(), task.maxAttempts, j)
    ensures Observe(FailedAttempts(task, st, AlwaysHealed(), n)) ==
      Tally(n, n, if n >= task.maxAttempts then n - task.maxAttempts + 1 else 0, 0, true)
  {
    FailedAttemptsTally(task, st, AlwaysHealed(), n);
  }

  function Max(a: int, b: int): int { if a > b then a else b }

  /** The trace of a task that passes its gates and completes in attempt n. */
  lemma CompletedTally(task: Task, index: nat, st: RunState, o: Oracle)
    requires TaskCompletes(task, st, o)
    ensures var n := LastAttempt(task, o);
      Observe(TaskEffects(task, index, st, o)) == Tally(n, n - 1, Max(n - task.maxAttempts, 0), 0, true)
  {
    var n := LastAttempt(task, o);
    FailedAttemptsTally(task, st, o, n - 1);
    var before := FailedAttempts(task, st, o, n - 1);
    WatchConcat(Tally(0, 0, 0, 0, true), before, SuccessEffects(task, index, st, o, n));
    WatchShort(Observe(before), SuccessEffects(task, index, st, o, n));
  }

  /** The trace of a task that passes its gates and gives up after attempt n. */
  lemma GivenUpTally(task: Task, index: nat, st: RunState, o: Oracle)
    requires GateOf(task, st, o).Cleared? && task.maxAttempts > 0 && !TaskCompletes(task, st, o)
    ensures var n := LastAttempt(task, o);
      Observe(TaskEffects(task, index, st, o)) == Tally(n, n, n - task.maxAttempts,
        if o.heals(n) != AwaitingApproval && task.rollbackPayload && o.rollbackHook then 1 else 0, true)
  {
    var n := LastAttempt(task, o);
    FailedAttemptsTally(task, st, o, n - 1);
    var t0 := Tally(0, 0, 0, 0, true);
    var before, last := FailedAttempts(task, st, o, n - 1), FailedAttempt(task, st, o, n);
    WatchConcat(t0, before, last);
    WatchShort(Observe(before), last);
    WatchConcat(t0, before + last, GiveUpEffects(task, index, st, o, n));
    WatchShort(Observe(before + last), GiveUpEffects(task, index, st, o, n));
  }

  /** A task that is refused, or that waits for approval, makes no call at all. */
  lemma GatedTally(task: Task, index: nat, st: RunState, o: Oracle)
    requires !GateOf(task, st, o).Cleared? || task.maxAttempts <= 0
    ensures var t := Observe(TaskEffects(task, index, st, o));
      t.calls == 0 && t.healed == 0 && t.rollbacks == 0
  {
    WatchShort(Tally(0, 0, 0, 0, true), TaskEffects(task, index, st, o));
  }

  /** One execution of a task that passes its gates: its attempts and its logged failures are numbered
      1, 2, 3, ... in step; there are at most as many attempts as the retry limit plus the verified
      healings; only a successful last attempt is not logged as a failure; an automatic rollback
      happens at most once, after the last attempt and its logged failure, only when the task ends as
      failed, and always then if the task and its adapter have one. */
  lemma TaskAttempts(task: Task, index: nat, st: RunState, o: Oracle)
    requires GateOf(task, st, o).Cleared?
    ensures var t := Observe(TaskEffects(task, index, st, o));
      var end := TaskState(task, index, st, o);
      var completes := TaskCompletes(task, st, o);
      && t.calls <= Max(task.maxAttempts, 0) + t.healed
      && (task.maxAttempts > 0 ==> t.inOrder && t.calls >= 1 && t.failures == if completes then t.calls - 1 else t.calls)
      && t.rollbacks <= 1
      && (t.rollbacks == 1 ==> end == FailedState(st, index) && t.calls >= task.maxAttempts)
      && (task.maxAttempts > 0 && !completes && end.status == Failed ==>
            t.rollbacks == if task.rollbackPayload && o.rollbackHook then 1 else 0)
  {
    if task.maxAttempts <= 0 {
      GatedTally(task, index, st, o);
    } else if TaskCompletes(task, st, o) {
      CompletedTally(task, index, st, o);
    } else {
      GivenUpTally(task, index, st, o);
    }
  }

  // ---- How an execution ends ----

  predicate Settled(status: RunStatus) {
    status == Completed || status == Paused || status == Failed
  }

  lemma {:induction false} LoopSettles(tasks: seq<Task>, img: Image, env: nat -> Oracle)
    ensures var end := Replay(img, LoopEffects(tasks, img.state, env)).state;
      Settled(end.status) && (end.status == Completed ==> end.currentStepIndex == |tasks|)
    decreases |tasks| - img.state.currentStepIndex
  {
    var st := img.state;
    var index := st.currentStepIndex;
    if index >= |tasks| {
      var e := LoopEffects(tasks, st, env);
      assert e[1..][0] == RecordOutcome(true) && e[1..][1..] == [];
      var fin := Apply(img, e[0]);
      assert Replay(fin, e[1..]) == Replay(Apply(fin, RecordOutcome(true)), []);
    } else {
      var o := env(index);
      var effects := TaskEffects(tasks[index], index, st, o);
      TaskEndState(img, tasks[index], index, o);
      var next := Replay(img, effects);
      if TaskCompletes(tasks[index], st, o) {
        LoopSettles(tasks, next, env);
        ReplayConcat(img, effects, LoopEffects(tasks, next.state, env));
      } else {
        var rest := if HaltedState(tasks[index], index, st, o).status == Failed then [RecordOutcome(false)] else [];
        ReplayConcat(img, effects, rest);
        KeepsStateReplay(next, rest);
      }
    }
  }

  /** An execution that is not cut off leaves the run completed, paused or failed, for every plan,
      every state it starts from and every answer of the outside world. */
  lemma ExecuteSettles(plan: seq<Task>, img: Image, limits: Limits, env: nat -> Oracle)
    ensures var end := Replay(img, ExecuteEffects(plan, img.state, limits, env)).state;
      Settled(end.status) && (end.status == Completed ==> end.currentStepIndex == |plan|)
  {
    var s := StartedState(img.state);
    ReplayConcat(img, [PutState(s)], LoopEffects(Optimize(plan, limits), s, env));
    assert [PutState(s)][1..] == [];
    assert Replay(img, [PutState(s)]) == img.(state := s);
    LoopSettles(Optimize(plan, limits), img.(state := s), env);
  }
}
