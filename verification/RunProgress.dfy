/** What a run gets done: where retries and rollbacks go, what an approval brings about, and when a run completes. */
module RunProgress {
  import opened Options
  import opened RunModel
  import opened RunSafety
  import opened RunWarrants

  /** How often the step may be attempted without healing: the learned limit of its adapter, or the plan's. */
  function RetryLimit(task: Task, limits: Limits): int {
    if task.adapterId in limits then limits[task.adapterId] else task.maxAttempts
  }

  /** Nothing keeps the step from its adapter: the policy allows it, the adapter is found and takes its payload,
      an attempt is allowed, and any approval that somebody asks for is there. */
  predicate Unhindered(task: Task, o: Answers, limits: Limits, approved: bool) {
    && o.policyAllowed && o.adapterFound && o.valid && RetryLimit(task, limits) > 0
    && (Harmless(task, o) || approved)
  }

  /** One of the attempts that are allowed without healing works. */
  ghost predicate Succeeding(task: Task, o: Answers, limits: Limits) {
    exists n: nat :: 1 <= n <= RetryLimit(task, limits) && Worked(o, n)
  }

  lemma UnhinderedIsCleared(task: Task, o: Answers, limits: Limits, st: RunState)
    requires Unhindered(task, o, limits, st.approved)
    ensures GateOf(Limit(task, limits), st, o).Cleared? && Limit(task, limits).maxAttempts > 0
  {
  }

  lemma {:induction false} FirstAttempt(task: Task, st: RunState, o: Answers, n: nat)
    requires n > 0
    ensures FailedAttempts(task, st, o, n) != [] && FailedAttempts(task, st, o, n)[0] == Call(task, st, o, 1)
  {
    if n > 1 { FirstAttempt(task, st, o, n - 1); }
  }

  /** An unhindered task begins with a call of its adapter. */
  lemma UnhinderedTaskCalls(task: Task, index: nat, o: Oracle, limits: Limits, st: RunState)
    requires Unhindered(task, o, limits, st.approved)
    ensures var e := TaskEffects(Limit(task, limits), index, st, o);
      e != [] && e[0] == CallExecute(task.id, 1, !Harmless(task, o), st.approved, Worked(o, 1))
  {
    UnhinderedIsCleared(task, o, limits, st);
    var limited := Limit(task, limits);
    var n := LastAttempt(limited, o);
    if n > 1 { FirstAttempt(limited, st, o, n - 1); }
    FirstAttempt(limited, st, o, n);
  }

  lemma SucceedingCompletes(task: Task, o: Oracle, limits: Limits, st: RunState)
    requires Unhindered(task, o, limits, st.approved) && Succeeding(task, o, limits)
    ensures TaskCompletes(Limit(task, limits), st, o)
  {
    UnhinderedIsCleared(task, o, limits, st);
    var n: nat :| 1 <= n <= RetryLimit(task, limits) && Worked(o, n);
    var limited := Limit(task, limits);
    assert Stops(o, limited.maxAttempts, n);
    assert LastAttempt(limited, o) <= n;
  }

  /** A task leaves the run in one of four ways: past the step, with its approval used up; failed at the step; or
      waiting at it for an approval, of the step or of its healing.  All else in the state stays as it was. */
  lemma TaskLeaves(img: Image, task: Task, index: nat, o: Oracle)
    ensures var st, end := img.state, Replay(img, TaskEffects(task, index, img.state, o)).state;
      || end == st.(currentStepIndex := index + 1, approved := false, approvalRequired := false)
      || end == st.(currentStepIndex := index, status := Failed)
      || end == st.(currentStepIndex := index, status := Paused, approvalRequired := true, pauseReason := Some(StepApproval))
      || end == st.(currentStepIndex := index, status := Paused, approvalRequired := true, pauseReason := Some(HealingApproval))
  {
    TaskEndState(img, task, index, o);
  }

  // ---- What an approval brings about ----

  lemma {:induction false} LoopForward(tasks: seq<Task>, img: Image, env: nat -> Oracle)
    requires img.state.currentStepIndex <= |tasks|
    ensures img.state.currentStepIndex <= Replay(img, LoopEffects(tasks, img.state, env)).state.currentStepIndex <= |tasks|
    decreases |tasks| - img.state.currentStepIndex
  {
    var st := img.state;
    var i := st.currentStepIndex;
    var e := LoopEffects(tasks, st, env);
    if i == |tasks| {
      LoopEnd(tasks, img, env);
    } else {
      var task := TaskEffects(tasks[i], i, st, env(i));
      TaskEndState(img, tasks[i], i, env(i));
      var next := Replay(img, task);
      if TaskCompletes(tasks[i], st, env(i)) {
        LoopForward(tasks, next, env);
        ReplayConcat(img, task, LoopEffects(tasks, next.state, env));
      } else {
        ReplayConcat(img, task, e[|task|..]);
        assert e == task + e[|task|..];
        KeepsStateReplay(next, e[|task|..]);
      }
    }
  }

  /** An unhindered step is called first in the loop, and the loop moves past it when an attempt works. */
  lemma LoopTakesStep(plan: seq<Task>, img: Image, limits: Limits, env: nat -> Oracle)
    requires var i := img.state.currentStepIndex;
      i < |plan| && Unhindered(plan[i], env(i), limits, img.state.approved)
    ensures var i := img.state.currentStepIndex;
      var e := LoopEffects(Optimize(plan, limits), img.state, env);
      && e != [] && e[0] == CallExecute(plan[i].id, 1, !Harmless(plan[i], env(i)), img.state.approved, Worked(env(i), 1))
      && (Succeeding(plan[i], env(i), limits) ==> Replay(img, e).state.currentStepIndex > i)
  {
    var st, i, tasks := img.state, img.state.currentStepIndex, Optimize(plan, limits);
    assert tasks[i] == Limit(plan[i], limits);
    UnhinderedTaskCalls(plan[i], i, env(i), limits, st);
    var e := TaskEffects(tasks[i], i, st, env(i));
    if Succeeding(plan[i], env(i), limits) {
      SucceedingCompletes(plan[i], env(i), limits, st);
      TaskEndState(img, tasks[i], i, env(i));
      LoopForward(tasks, Replay(img, e), env);
      ReplayConcat(img, e, LoopEffects(tasks, AdvancedState(st, i), env));
    }
  }

  /** A granting resume stores the approval, starts the run and goes on with its steps. */
  lemma GrantedTrace(plan: seq<Task>, img: Image, limits: Limits, env: nat -> Oracle)
    requires img.state.status != Completed
    ensures var approved := ApprovedState(img.state);
      var s := StartedState(approved);
      var e, loop := OpEffects(plan, img, Resume(true, limits, env)), LoopEffects(Optimize(plan, limits), s, env);
      && (forall x :: x in loop ==> x in e) && Replay(img, e) == Replay(img.(state := s), loop)
  {
    var approved := ApprovedState(img.state);
    var s := StartedState(approved);
    var e, loop := OpEffects(plan, img, Resume(true, limits, env)), LoopEffects(Optimize(plan, limits), s, env);
    assert e == [PutState(approved)] + ([PutState(s)] + loop);
    StartReplay(img, approved, [PutState(s)] + loop);
    StartReplay(img.(state := approved), s, loop);
  }

  /** Resuming a run with an approval carries out the step at which it stands, gated or not: its adapter is
      called under the approval, and when an attempt works the run moves past the step. */
  lemma ApprovedResumeCarriesOut(plan: seq<Task>, img: Image, limits: Limits, env: nat -> Oracle)
    requires img.state.status != Completed && img.state.currentStepIndex < |plan|
    requires var i := img.state.currentStepIndex; Unhindered(plan[i], env(i), limits, true)
    ensures var i, e := img.state.currentStepIndex, OpEffects(plan, img, Resume(true, limits, env));
      && CallExecute(plan[i].id, 1, !Harmless(plan[i], env(i)), true, Worked(env(i), 1)) in e
      && (Succeeding(plan[i], env(i), limits) ==> Replay(img, e).state.currentStepIndex > i)
  {
    var approved := ApprovedState(img.state);
    var s := StartedState(approved);
    LoopTakesStep(plan, img.(state := s), limits, env);
    GrantedTrace(plan, img, limits, env);
  }

  // ---- When a run completes ----

  /** Nothing hinders the steps from `cur` on, and each has an attempt that works; an approval held at the
      beginning serves the first of them. */
  ghost predicate Smooth(plan: seq<Task>, limits: Limits, env: nat -> Oracle, cur: nat, approved: bool) {
    forall i | cur <= i < |plan| :: Unhindered(plan[i], env(i), limits, approved && i == cur) && Succeeding(plan[i], env(i), limits)
  }

  lemma SmoothNext(plan: seq<Task>, limits: Limits, env: nat -> Oracle, cur: nat, approved: bool)
    requires Smooth(plan, limits, env, cur, approved)
    ensures Smooth(plan, limits, env, cur + 1, false)
  {
  }

  lemma {:induction false} SmoothLoop(plan: seq<Task>, img: Image, limits: Limits, env: nat -> Oracle)
    requires img.state.currentStepIndex <= |plan| && Smooth(plan, limits, env, img.state.currentStepIndex, img.state.approved)
    ensures var end := Replay(img, LoopEffects(Optimize(plan, limits), img.state, env));
      && end.state.status == Completed && end.state.currentStepIndex == |plan|
      && !end.state.approvalRequired && end.state.pauseReason == None
      && |end.steps| >= |img.steps| && end.steps[..|img.steps|] == img.steps
      && forall i | img.state.currentStepIndex <= i < |plan| :: Succeeded(end.steps, plan[i].id)
    decreases |plan| - img.state.currentStepIndex
  {
    var st, i, tasks := img.state, img.state.currentStepIndex, Optimize(plan, limits);
    if i == |plan| {
      LoopEnd(tasks, img, env);
    } else {
      assert tasks[i] == Limit(plan[i], limits);
      SucceedingCompletes(plan[i], env(i), limits, st);
      var e := TaskEffects(tasks[i], i, st, env(i));
      var next := Replay(img, e);
      TaskEndState(img, tasks[i], i, env(i));
      SmoothNext(plan, limits, env, i, st.approved);
      SmoothLoop(plan, next, limits, env);
      ReplayConcat(img, e, LoopEffects(tasks, next.state, env));
      StepsGrow(img, e);
      CompletedIsLogged(img, tasks[i], i, env(i));
      var end := Replay(next, LoopEffects(tasks, next.state, env));
      SucceededStays(next.steps, end.steps, plan[i].id);
    }
  }

  lemma {:induction false} StepsGrow(img: Image, effects: seq<Effect>)
    ensures img.steps <= Replay(img, effects).steps
    decreases |effects|
  {
    if effects != [] { StepsGrow(Apply(img, effects[0]), effects[1..]); }
  }

  lemma SucceededStays(steps: seq<StepLog>, more: seq<StepLog>, id: string)
    requires Succeeded(steps, id) && steps <= more
    ensures Succeeded(more, id)
  {
    var k :| 0 <= k < |steps| && steps[k].stepId == id && steps[k].status == StepSucceeded;
    assert more[k] == steps[k];
  }

  lemma CompletedIsLogged(img: Image, task: Task, index: nat, o: Oracle)
    requires TaskCompletes(task, img.state, o)
    ensures Succeeded(Replay(img, TaskEffects(task, index, img.state, o)).steps, task.id)
  {
    var st := img.state;
    TaskShape(task, index, st, o);
    BodyLogsSuccess(img, task, o);
    var body, rest := TaskBody(task, st, o), [PutState(TaskState(task, index, st, o))] + TaskTail(task, st, o);
    assert TaskEffects(task, index, st, o) == body + rest;
    ReplayConcat(img, body, rest);
    StepsGrow(Replay(img, body), rest);
    SucceededStays(Replay(img, body).steps, Replay(Replay(img, body), rest).steps, task.id);
  }

  /** A smooth run completes: executed without being cut off, it ends completed behind its last step, with a
      success logged for every step from the current one on. */
  lemma SmoothRunCompletes(plan: seq<Task>, img: Image, limits: Limits, env: nat -> Oracle)
    requires img.state.currentStepIndex <= |plan| && Smooth(plan, limits, env, img.state.currentStepIndex, img.state.approved)
    ensures var end := Replay(img, OpEffects(plan, img, Execute(limits, env)));
      && end.state.status == Completed && end.state.currentStepIndex == |plan|
      && !end.state.approvalRequired && end.state.pauseReason == None
      && forall i | img.state.currentStepIndex <= i < |plan| :: Succeeded(end.steps, plan[i].id)
  {
    var s := StartedState(img.state);
    SmoothLoop(plan, img.(state := s), limits, env);
    StartReplay(img, s, LoopEffects(Optimize(plan, limits), s, env));
  }

  /** An execution begins by clearing the reason of a pause; a planned run becomes running, any other run keeps its
      status until a step settles it, and so does a resume after storing its approval. */
  lemma ExecutionBegins(plan: seq<Task>, img: Image, limits: Limits, env: nat -> Oracle)
    ensures var e := OpEffects(plan, img, Execute(limits, env));
      e != [] && e[0] == PutState(img.state.(pauseReason := None, status := if img.state.status == Planned then Running else img.state.status))
    ensures var e := OpEffects(plan, img, Resume(true, limits, env));
      && e != [] && e[0] == PutState(img.state.(approved := true, approvalRequired := false))
      && (img.state.status == Completed ==> |e| == 1)
    ensures img.state.status == Completed ==> OpEffects(plan, img, Resume(false, limits, env)) == []
  {
  }

  ghost predicate RecordsNothing(effects: seq<Effect>) {
    forall b: bool :: RecordOutcome(b) !in effects
  }

  lemma TaskRecordsNothing(task: Task, index: nat, st: RunState, o: Oracle)
    ensures RecordsNothing(TaskEffects(task, index, st, o))
  {
    TaskIsWarranted(task, index, st, o);
    forall b: bool ensures RecordOutcome(b) !in TaskEffects(task, index, st, o) {
      assert !Warranted(task, o, RecordOutcome(b));
    }
  }

  lemma InLatter(a: seq<Effect>, b: seq<Effect>)
    requires RecordsNothing(a)
    ensures forall success: bool :: RecordOutcome(success) in a + b <==> RecordOutcome(success) in b
  {
  }

  lemma {:induction false} LoopOutcome(tasks: seq<Task>, img: Image, env: nat -> Oracle)
    ensures var e := LoopEffects(tasks, img.state, env);
      var end := Replay(img, e).state;
      && (RecordOutcome(true) in e <==> end.status == Completed)
      && (RecordOutcome(false) in e <==> end.status == Failed)
    decreases |tasks| - img.state.currentStepIndex
  {
    var st, i := img.state, img.state.currentStepIndex;
    if i >= |tasks| {
      LoopEnd(tasks, img, env);
    } else {
      var e := TaskEffects(tasks[i], i, st, env(i));
      TaskEndState(img, tasks[i], i, env(i));
      TaskRecordsNothing(tasks[i], i, st, env(i));
      var next := Replay(img, e);
      if TaskCompletes(tasks[i], st, env(i)) {
        LoopOutcome(tasks, next, env);
        InLatter(e, LoopEffects(tasks, next.state, env));
        ReplayConcat(img, e, LoopEffects(tasks, next.state, env));
      } else {
        var rest := if HaltedState(tasks[i], i, st, env(i)).status == Failed then [RecordOutcome(false)] else [];
        InLatter(e, rest);
        ReplayConcat(img, e, rest);
        KeepsStateReplay(next, rest);
      }
    }
  }

  /** An execution that is not cut off records a success exactly when it leaves the run completed, a failure exactly
      when it leaves it failed, and so nothing when the run waits. */
  lemma OutcomeIsRecorded(plan: seq<Task>, img: Image, limits: Limits, env: nat -> Oracle)
    ensures var e := OpEffects(plan, img, Execute(limits, env));
      var end := Replay(img, e).state;
      && (RecordOutcome(true) in e <==> end.status == Completed)
      && (RecordOutcome(false) in e <==> end.status == Failed)
  {
    var s := StartedState(img.state);
    var loop := LoopEffects(Optimize(plan, limits), s, env);
    LoopOutcome(Optimize(plan, limits), img.(state := s), env);
    StartReplay(img, s, loop);
    assert forall b: bool :: RecordOutcome(b) in [PutState(s)] + loop <==> RecordOutcome(b) in loop;
  }

  // ---- Where retries and rollbacks go ----

  /** A retry of a step that the plan has, or of the current one when none is given, makes that step the current
      one of a running run and takes it; it calls no adapter for any other.  Otherwise it does nothing. */
  lemma RetryTakesStep(plan: seq<Task>, img: Image, target: Option<string>, o: Oracle, i: nat)
    requires DistinctIds(plan) && i < |plan|
    requires match target case Some(id) => plan[i].id == id case None => i == img.state.currentStepIndex
    ensures var e := OpEffects(plan, img, Retry(target, o));
      && e != [] && e[0] == PutState(img.state.(currentStepIndex := i, status := Running, pauseReason := None))
      && (forall k | 0 <= k < |e| && e[k].CallExecute? :: e[k].stepId == plan[i].id)
      && (Unhindered(plan[i], o, map[], img.state.approved) ==> |e| > 1 && e[1].CallExecute? && e[1].attempt == 1)
  {
    var s := img.state.(currentStepIndex := i, status := Running, pauseReason := None);
    assert RetryIndex(plan, img, target) == i;
    TaskIsWarranted(plan[i], i, s, o);
    if Unhindered(plan[i], o, map[], img.state.approved) {
      assert Limit(plan[i], map[]) == plan[i];
      UnhinderedTaskCalls(plan[i], i, o, map[], s);
    }
  }

  lemma UnknownRetryDoesNothing(plan: seq<Task>, img: Image, target: Option<string>, o: Oracle)
    requires match target
      case Some(id) => forall i | 0 <= i < |plan| :: plan[i].id != id
      case None => img.state.currentStepIndex >= |plan|
    ensures OpEffects(plan, img, Retry(target, o)) == []
  {
  }

  /** A rollback of a step that the plan has, or of the last logged one when none is given, calls the adapter's
      rollback for that step and steps back by one, and nothing else; without a hook or a payload, or for a step
      that the plan does not have, it does nothing. */
  lemma RollbackTakesStep(plan: seq<Task>, img: Image, target: Option<string>, hook: bool, i: nat)
    requires DistinctIds(plan) && i < |plan|
    requires match target
      case Some(id) => plan[i].id == id
      case None => img.steps != [] && img.steps[|img.steps| - 1].stepId == plan[i].id
    ensures var e := OpEffects(plan, img, Rollback(target, hook));
      var end := Replay(img, e);
      if hook && plan[i].rollbackPayload then
        && |e| == 4 && e[0] == CallRollback(plan[i].id)
        && end.steps == img.steps + [StepLog(plan[i].id, 1, StepRolledBack, true)]
        && end.state == img.state.(currentStepIndex := if img.state.currentStepIndex == 0 then 0 else img.state.currentStepIndex - 1)
      else e == []
  {
    assert RollbackIndex(plan, img, target) == i;
    if hook && plan[i].rollbackPayload {
      var e := RollbackEffects(plan[i], img.state);
      assert e[..4] == e;
      RollbackPrefix(img, plan[i], 4);
    }
  }

  lemma UnknownRollbackDoesNothing(plan: seq<Task>, img: Image, target: Option<string>, hook: bool)
    requires match target
      case Some(id) => forall i | 0 <= i < |plan| :: plan[i].id != id
      case None => img.steps == [] || forall i | 0 <= i < |plan| :: plan[i].id != img.steps[|img.steps| - 1].stepId
    ensures OpEffects(plan, img, Rollback(target, hook)) == []
  {
  }

  // ---- The summaries ----

  ghost predicate OneEach(executions: seq<Summary>) {
    forall i, j | 0 <= i < j < |executions| :: executions[i].taskId != executions[j].taskId
  }

  /** Storing a summary keeps one summary for each task, the newest one, and leaves those of other tasks alone. */
  lemma SummaryIsNewest(img: Image, s: Summary)
    requires OneEach(img.executions)
    ensures var after := Apply(img, PutExecution(s)).executions;
      && OneEach(after) && s in after
      && forall t: Summary :: t.taskId != s.taskId ==> (t in after <==> t in img.executions)
  {
    var before, n := img.executions, FindSummary(img.executions, s.taskId);
    var after := Upsert(before, s);
    if n < |before| {
      assert after[n] == s;
      forall t: Summary | t.taskId != s.taskId ensures t in after <==> t in before {
        if t in before { var k :| 0 <= k < |before| && before[k] == t; assert after[k] == t; }
        if t in after { var k :| 0 <= k < |after| && after[k] == t; assert before[k] == t; }
      }
    } else {
      assert after[|before|] == s;
    }
  }

  /** Over every run there is at most one summary for each task. */
  lemma {:induction false} RunsKeepOneEach(img: Image, effects: seq<Effect>)
    requires OneEach(img.executions)
    ensures OneEach(Replay(img, effects).executions)
    decreases |effects|
  {
    if effects != [] {
      if effects[0].PutExecution? { SummaryIsNewest(img, effects[0].summary); }
      RunsKeepOneEach(Apply(img, effects[0]), effects[1..]);
    }
  }
}
