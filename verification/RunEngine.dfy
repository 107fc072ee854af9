/** The execution engine as the program runs it: a bundle in memory, and the files it is saved to. */
module RunEngine {
  import opened Options
  import opened Risks
  import opened RunModel

  datatype TaskResult = TaskDone | TaskNotDone
  datatype OpResult = Finished | StepNotFound | RollbackUnavailable

  lemma RegroupEffects(a: seq<Effect>, b: seq<Effect>, c: seq<Effect>)
    ensures a + b + c == a + (b + c)
  {}

  lemma FourSteps(t: seq<Effect>, a: Effect, b: Effect, c: Effect, d: Effect)
    ensures t + [a] + [b] + [c] + [d] == t + [a, b, c, d]
  {}

  /** What the loop over the tasks still has to do, one task at a time. */
  lemma LoopUnfolds(tasks: seq<Task>, st: RunState, env: nat -> Oracle, r: TaskResult)
    requires st.currentStepIndex < |tasks|
    requires r == TaskDone <==> TaskCompletes(tasks[st.currentStepIndex], st, env(st.currentStepIndex))
    ensures var index := st.currentStepIndex;
      var effects := TaskEffects(tasks[index], index, st, env(index));
      var end := TaskState(tasks[index], index, st, env(index));
      LoopEffects(tasks, st, env) == effects +
        if r == TaskDone then LoopEffects(tasks, end, env)
        else if end.status == Failed then [RecordOutcome(false)] else []
  {}

  class Engine {
    // the files of the run
    const planFile: seq<Task>
    var stateFile: RunState
    var logFile: seq<StepLog>
    var adaptersFile: seq<Summary>

    // the bundle that the current operation works on
    var tasks: seq<Task>
    var state: RunState
    var steps: seq<StepLog>
    var executions: seq<Summary>

    /** Everything the engine has done to the outside world, in order, and what the files held first. */
    ghost var trace: seq<Effect>
    ghost const start: Image

    ghost function Files(): Image
      reads this
    {
      Image(stateFile, logFile, adaptersFile)
    }

    /** The files hold exactly what the trace has written, one write after the other. */
    ghost predicate Recorded()
      reads this
    {
      Files() == Replay(start, trace)
    }

    /** Moreover the bundle in memory is the one on disk. */
    ghost predicate Valid()
      reads this
    {
      Recorded() && state == stateFile && steps == logFile && executions == adaptersFile
    }

    constructor (plan: seq<Task>, approved: bool)
      ensures planFile == plan == tasks && Files() == start == Created(approved) && trace == []
      ensures Valid()
    {
      planFile := plan;
      stateFile := RunState(0, Planned, false, approved, None);
      logFile, adaptersFile := [], [];
      tasks := plan;
      state := RunState(0, Planned, false, approved, None);
      steps, executions := [], [];
      trace := [];
      start := Created(approved);
    }

    // ---- The outside world ----

    method CallAdapter(task: Task, gated: bool, o: Oracle, attempt: nat) returns (ok: bool)
      requires Valid()
      modifies this`trace
      ensures Valid()
      ensures ok == Succeeds(o, attempt)
      ensures trace == old(trace) + [CallExecute(task.id, attempt, gated, state.approved, ok)]
    {
      ok := o.executes(attempt);
      if ok {
        ok := o.verifies(attempt);
      }
      ReplaySnoc(start, trace, CallExecute(task.id, attempt, gated, state.approved, ok));
      trace := trace + [CallExecute(task.id, attempt, gated, state.approved, ok)];
    }

    method HealFailedStep(o: Oracle, attempt: nat) returns (answer: HealAnswer)
      requires Valid()
      modifies this`trace
      ensures Valid()
      ensures answer == o.heals(attempt)
      ensures trace == old(trace) + [CallHeal(answer)]
    {
      answer := o.heals(attempt);
      ReplaySnoc(start, trace, CallHeal(answer));
      trace := trace + [CallHeal(answer)];
    }

    method CallRollbackHook(task: Task)
      requires Valid()
      modifies this`trace
      ensures Valid()
      ensures trace == old(trace) + [CallRollback(task.id)]
    {
      ReplaySnoc(start, trace, CallRollback(task.id));
      trace := trace + [CallRollback(task.id)];
    }

    method ReportOutcome(success: bool)
      requires Valid()
      modifies this`trace
      ensures Valid()
      ensures trace == old(trace) + [RecordOutcome(success)]
    {
      ReplaySnoc(start, trace, RecordOutcome(success));
      trace := trace + [RecordOutcome(success)];
    }

    // ---- Writes ----

    method PushStepLog(entry: StepLog)
      requires Valid()
      modifies this`steps, this`logFile, this`trace
      ensures Valid() && trace == old(trace) + [PutStep(entry)]
      ensures Files() == Apply(old(Files()), PutStep(entry))
    {
      steps := steps + [entry];
      logFile := steps;
      ReplaySnoc(start, trace, PutStep(entry));
      trace := trace + [PutStep(entry)];
    }

    method UpsertAdapterSummary(summary: Summary)
      requires Valid()
      modifies this`executions, this`adaptersFile, this`trace
      ensures Valid() && trace == old(trace) + [PutExecution(summary)]
      ensures Files() == Apply(old(Files()), PutExecution(summary))
    {
      var i := FindSummary(executions, summary.taskId);
      if i < |executions| {
        executions := executions[i := summary];
      } else {
        executions := executions + [summary];
      }
      adaptersFile := executions;
      ReplaySnoc(start, trace, PutExecution(summary));
      trace := trace + [PutExecution(summary)];
    }

    method UpdateRunState(s: RunState)
      requires Valid()
      modifies this`state, this`stateFile, this`trace
      ensures Valid() && state == s && trace == old(trace) + [PutState(s)]
      ensures Files() == Apply(old(Files()), PutState(s))
    {
      state := s;
      stateFile := state;
      ReplaySnoc(start, trace, PutState(s));
      trace := trace + [PutState(s)];
    }

    method LoadRunBundle()
      requires Recorded()
      modifies this`tasks, this`state, this`steps, this`executions
      ensures Valid() && tasks == planFile
    {
      tasks, state, steps, executions := planFile, stateFile, logFile, adaptersFile;
    }

    // ---- Executing one task ----

    /** A task that is refused before its first attempt. */
    method Refuse(task: Task, index: nat)
      requires Valid()
      modifies this`state, this`stateFile, this`steps, this`logFile, this`executions, this`adaptersFile, this`trace
      ensures Valid() && state == FailedState(old(state), index)
      ensures trace == old(trace) +
        [PutStep(Entry(task, 1, StepFailed)), PutExecution(Summary(task.id, StepFailed, 1)), PutState(FailedState(old(state), index))]
    {
      PushStepLog(StepLog(task.id, 1, StepFailed, task.rollbackPayload));
      UpsertAdapterSummary(Summary(task.id, StepFailed, 1));
      UpdateRunState(state.(status := Failed, currentStepIndex := index));
    }

    /** What follows the last failed attempt when it was not healed. */
    method GiveUp(task: Task, index: nat, o: Oracle, attempt: nat, answer: HealAnswer)
      requires Valid() && answer == o.heals(attempt) && answer != Verified
      modifies this`state, this`stateFile, this`steps, this`logFile, this`executions, this`adaptersFile, this`trace
      ensures Valid()
      ensures trace == old(trace) + GiveUpEffects(task, index, old(state), o, attempt)
      ensures state == if answer == AwaitingApproval then PausedState(old(state), index, HealingApproval)
                       else FailedState(old(state), index)
    {
      if answer == AwaitingApproval {
        UpdateRunState(state.(status := Paused, currentStepIndex := index, approvalRequired := true,
                              pauseReason := Some(HealingApproval)));
        return;
      }
      if task.rollbackPayload && o.rollbackHook {
        CallRollbackHook(task);
        PushStepLog(StepLog(task.id, attempt, StepRolledBack, true));
      }
      UpsertAdapterSummary(Summary(task.id, StepFailed, attempt));
      UpdateRunState(state.(status := Failed, currentStepIndex := index));
    }

    /** One attempt: the call, its log entry, and the healing when the retries are used up. */
    method TryOnce(task: Task, index: nat, o: Oracle, attempt: nat, last: bool) returns (ok: bool, answer: HealAnswer)
      requires Valid() && last == (attempt >= task.maxAttempts)
      modifies this`state, this`stateFile, this`steps, this`logFile, this`executions, this`adaptersFile, this`trace
      ensures Valid() && ok == Succeeds(o, attempt)
      ensures !ok && last ==> answer == o.heals(attempt)
      ensures state == if ok then AdvancedState(old(state), index) else old(state)
      ensures trace == old(trace) +
        if ok then SuccessEffects(task, index, old(state), o, attempt) else FailedAttempt(task, old(state), o, attempt)
    {
      answer := Escalated;
      ok := CallAdapter(task, NeedsApproval(task, o), o, attempt);
      if ok {
        PushStepLog(StepLog(task.id, attempt, StepSucceeded, task.rollbackPayload));
        UpsertAdapterSummary(Summary(task.id, StepSucceeded, attempt));
        UpdateRunState(state.(currentStepIndex := index + 1, approved := false, approvalRequired := false));
        FourSteps(old(trace), Call(task, old(state), o, attempt), PutStep(Entry(task, attempt, StepSucceeded)),
                  PutExecution(Summary(task.id, StepSucceeded, attempt)), PutState(AdvancedState(old(state), index)));
      } else {
        PushStepLog(StepLog(task.id, attempt, StepFailed, task.rollbackPayload));
        if last {
          answer := HealFailedStep(o, attempt);
        }
      }
    }

    /** The retry loop.  `limit` grows by one for every verified healing. */
    method Attempt(task: Task, index: nat, o: Oracle) returns (r: TaskResult)
      requires Valid()
      modifies this`state, this`stateFile, this`steps, this`logFile, this`executions, this`adaptersFile, this`trace
      ensures Valid()
      ensures trace == old(trace) + AttemptEffects(task, index, old(state), o)
      ensures r == if task.maxAttempts > 0 && Succeeds(o, LastAttempt(task, o)) then TaskDone else TaskNotDone
      ensures r == TaskDone ==> state == AdvancedState(old(state), index)
      ensures r == TaskNotDone ==> state == GivenUpState(task, index, old(state), o)
    {
      ghost var st, t0, n := state, trace, LastAttempt(task, o);
      ghost var failed: seq<Effect> := [];
      var limit := task.maxAttempts;
      var attempt := 1;
      while attempt <= limit
        invariant 1 <= attempt && (if task.maxAttempts > 0 then attempt <= n else attempt == 1)
        invariant limit == if attempt > task.maxAttempts > 0 then attempt else task.maxAttempts
        invariant Valid() && state == st
        invariant failed == FailedAttempts(task, st, o, attempt - 1) && trace == t0 + failed
        decreases n - attempt
      {
        var ok, answer := TryOnce(task, index, o, attempt, attempt == limit);
        if ok {
          assert Stops(o, task.maxAttempts, attempt);
          RegroupEffects(t0, failed, SuccessEffects(task, index, st, o, n));
          return TaskDone;
        }
        RegroupEffects(t0, failed, FailedAttempt(task, st, o, attempt));
        failed := failed + FailedAttempt(task, st, o, attempt);
        if attempt == limit {
          if answer == Verified {
            limit := limit + 1;
          } else {
            assert Stops(o, task.maxAttempts, attempt);
            GiveUp(task, index, o, attempt, answer);
            RegroupEffects(t0, failed, GiveUpEffects(task, index, st, o, n));
            return TaskNotDone;
          }
        }
        assert !Stops(o, task.maxAttempts, attempt);
        attempt := attempt + 1;
      }
      UpdateRunState(state.(status := Failed, currentStepIndex := index));
      r := TaskNotDone;
    }

    method ExecuteTask(task: Task, index: nat, o: Oracle) returns (r: TaskResult)
      requires Valid()
      modifies this`state, this`stateFile, this`steps, this`logFile, this`executions, this`adaptersFile, this`trace
      ensures Valid()
      ensures trace == old(trace) + TaskEffects(task, index, old(state), o)
      ensures r == if TaskCompletes(task, old(state), o) then TaskDone else TaskNotDone
      ensures state == TaskState(task, index, old(state), o)
    {
      if !o.policyAllowed {
        Refuse(task, index);
        return TaskNotDone;
      }
      if !o.adapterFound {
        Refuse(task, index);
        return TaskNotDone;
      }
      var risk := match o.simulation
        case Some(s) => s.risk
        case None => match o.estimate case Some(e) => e case None => Medium;
      var needed := task.requiresApproval || o.policyApproval ||
                    (o.simulation.Some? && o.simulation.value.requiresApproval) || risk == High;
      if needed && !state.approved {
        UpdateRunState(state.(status := Paused, currentStepIndex := index, approvalRequired := true,
                              pauseReason := Some(StepApproval)));
        PushStepLog(StepLog(task.id, 0, StepPaused, task.rollbackPayload));
        return TaskNotDone;
      }
      if !o.valid {
        Refuse(task, index);
        return TaskNotDone;
      }
      r := Attempt(task, index, o);
    }

    // ---- The operations ----

    method ApplyRetryLimits(limits: Limits)
      modifies this`tasks
      ensures tasks == Optimize(old(tasks), limits)
    {
      var i := 0;
      while i < |tasks|
        invariant 0 <= i <= |tasks| == |old(tasks)|
        invariant forall j | 0 <= j < i :: tasks[j] == Limit(old(tasks)[j], limits)
        invariant forall j | i <= j < |tasks| :: tasks[j] == old(tasks)[j]
      {
        if tasks[i].adapterId in limits {
          tasks := tasks[i := tasks[i].(maxAttempts := limits[tasks[i].adapterId])];
        }
        i := i + 1;
      }
    }

    /** The loop over the tasks, from the current step on. */
    method RunTasks(env: nat -> Oracle)
      requires Valid()
      modifies this`state, this`stateFile, this`steps, this`logFile, this`executions, this`adaptersFile, this`trace
      ensures Valid()
      ensures trace == old(trace) + LoopEffects(tasks, old(state), env)
    {
      ghost var t0 := trace;
      ghost var done: seq<Effect> := [];
      var index := state.currentStepIndex;
      while index < |tasks|
        invariant index == state.currentStepIndex && Valid()
        invariant trace == t0 + done
        invariant LoopEffects(tasks, old(state), env) == done + LoopEffects(tasks, state, env)
      {
        ghost var st := state;
        ghost var effects := TaskEffects(tasks[index], index, st, env(index));
        var r := ExecuteTask(tasks[index], index, env(index));
        LoopUnfolds(tasks, st, env, r);
        RegroupEffects(t0, done, effects);
        if r == TaskNotDone {
          if state.status == Failed {
            ReportOutcome(false);
            RegroupEffects(t0, done + effects, [RecordOutcome(false)]);
            RegroupEffects(done, effects, [RecordOutcome(false)]);
          }
          return;
        }
        RegroupEffects(done, effects, LoopEffects(tasks, state, env));
        done := done + effects;
        index := index + 1;
      }
      RegroupEffects(t0, done, LoopEffects(tasks, state, env));
      UpdateRunState(state.(status := Completed, currentStepIndex := |tasks|, approvalRequired := false, pauseReason := None));
      ReportOutcome(true);
    }

    method ExecuteRunBundle(limits: Limits, env: nat -> Oracle)
      requires Valid()
      modifies this
      ensures Valid()
      ensures trace == old(trace) + ExecuteEffects(old(tasks), old(state), limits, env)
    {
      UpdateRunState(state.(status := if state.status == Planned then Running else state.status, pauseReason := None));
      ghost var started := state;
      ApplyRetryLimits(limits);
      RunTasks(env);
      RegroupEffects(old(trace), [PutState(started)], LoopEffects(tasks, started, env));
    }

    /** Executes the stored run, as the building phase does. */
    method ExecuteStored(limits: Limits, env: nat -> Oracle)
      requires Recorded()
      modifies this
      ensures Valid()
      ensures trace == old(trace) + OpEffects(planFile, old(Files()), Execute(limits, env))
    {
      LoadRunBundle();
      ExecuteRunBundle(limits, env);
    }

    method ResumeRun(approve: bool, limits: Limits, env: nat -> Oracle)
      requires Recorded()
      modifies this
      ensures Valid()
      ensures trace == old(trace) + OpEffects(planFile, old(Files()), Resume(approve, limits, env))
    {
      LoadRunBundle();
      ghost var first: seq<Effect> := [];
      if approve {
        UpdateRunState(state.(approved := true, approvalRequired := false));
        first := [PutState(state)];
      }
      if state.status == Completed {
        assert first == first + [];
        return;
      }
      ghost var st := state;
      ExecuteRunBundle(limits, env);
      RegroupEffects(old(trace), first, ExecuteEffects(planFile, st, limits, env));
    }

    /** The index of the step to retry, or the number of tasks when there is none. */
    method FindRetryStep(target: Option<string>) returns (index: nat)
      requires Valid()
      ensures index == RetryIndex(tasks, Files(), target)
    {
      index := |tasks|;
      if target.Some? {
        index := FindTask(tasks, target.value);
      } else if state.currentStepIndex < |tasks| {
        index := FindTask(tasks, tasks[state.currentStepIndex].id);
      }
    }

    method RetryTask(target: Option<string>, o: Oracle) returns (r: OpResult)
      requires Recorded()
      modifies this
      ensures Valid()
      ensures trace == old(trace) + OpEffects(planFile, old(Files()), Retry(target, o))
      ensures r == if RetryIndex(planFile, old(Files()), target) == |planFile| then StepNotFound else Finished
    {
      LoadRunBundle();
      var index := FindRetryStep(target);
      if index == |tasks| {
        return StepNotFound;
      }
      UpdateRunState(state.(currentStepIndex := index, status := Running, pauseReason := None));
      ghost var st := state;
      var _ := ExecuteTask(tasks[index], index, o);
      RegroupEffects(old(trace), [PutState(st)], TaskEffects(planFile[index], index, st, o));
      r := Finished;
    }

    /** The index of the step to roll back, or the number of tasks when there is none. */
    method FindRollbackStep(target: Option<string>) returns (index: nat)
      requires Valid()
      ensures index == RollbackIndex(tasks, Files(), target)
    {
      index := |tasks|;
      if target.Some? {
        index := FindTask(tasks, target.value);
      } else if |steps| > 0 {
        index := FindTask(tasks, steps[|steps| - 1].stepId);
      }
    }

    /** The rollback itself, once its step is known to have one. */
    method RollBack(task: Task)
      requires Valid()
      modifies this`state, this`stateFile, this`steps, this`logFile, this`executions, this`adaptersFile, this`trace
      ensures Valid()
      ensures trace == old(trace) + RollbackEffects(task, old(state))
    {
      ghost var st := state;
      CallRollbackHook(task);
      PushStepLog(StepLog(task.id, 1, StepRolledBack, true));
      UpsertAdapterSummary(Summary(task.id, StepRolledBack, 1));
      if state.currentStepIndex > 0 {
        UpdateRunState(state.(currentStepIndex := state.currentStepIndex - 1));
      } else {
        UpdateRunState(state);
      }
      FourSteps(old(trace), CallRollback(task.id), PutStep(StepLog(task.id, 1, StepRolledBack, true)),
                PutExecution(Summary(task.id, StepRolledBack, 1)), PutState(SteppedBack(st)));
    }

    method RollbackTask(target: Option<string>, hook: bool) returns (r: OpResult)
      requires Recorded()
      modifies this
      ensures Valid()
      ensures trace == old(trace) + OpEffects(planFile, old(Files()), Rollback(target, hook))
      ensures r == (if RollbackIndex(planFile, old(Files()), target) == |planFile| then StepNotFound
                    else if CanRollback(planFile, old(Files()), target, hook) then Finished else RollbackUnavailable)
    {
      LoadRunBundle();
      var index := FindRollbackStep(target);
      if index == |tasks| {
        return StepNotFound;
      }
      if !hook || !tasks[index].rollbackPayload {
        return RollbackUnavailable;
      }
      RollBack(tasks[index]);
      r := Finished;
    }
  }
}
