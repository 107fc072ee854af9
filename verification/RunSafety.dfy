/** What every run of the execution engine keeps, whatever the adapters answer and wherever it is cut off. */
module RunSafety {
  import opened Options
  import opened RunModel

  // ---- Properties of every prefix of a trace ----

  /** `p` holds of the files before, between and after the given effects. */
  ghost predicate Throughout(p: Image -> bool, img: Image, effects: seq<Effect>)
    decreases |effects|
  {
    p(img) && (effects != [] ==> Throughout(p, Apply(img, effects[0]), effects[1..]))
  }

  lemma {:induction false} ThroughoutConcat(p: Image -> bool, img: Image, a: seq<Effect>, b: seq<Effect>)
    requires Throughout(p, img, a) && Throughout(p, Replay(img, a), b)
    ensures Throughout(p, img, a + b)
    decreases |a|
  {
    if a == [] {
      assert a + b == b;
    } else {
      assert (a + b)[1..] == a[1..] + b;
      ThroughoutConcat(p, Apply(img, a[0]), a[1..], b);
    }
  }

  lemma {:induction false} ThroughoutAtCut(p: Image -> bool, img: Image, effects: seq<Effect>, cut: nat)
    requires Throughout(p, img, effects) && cut <= |effects|
    ensures p(Replay(img, effects[..cut]))
    decreases cut
  {
    if cut > 0 {
      assert effects[..cut][1..] == effects[1..][..cut - 1];
      ThroughoutAtCut(p, Apply(img, effects[0]), effects[1..], cut - 1);
    }
  }

  // ---- The shape of a task's trace ----

  ghost predicate KeepsState(effects: seq<Effect>) {
    forall k | 0 <= k < |effects| :: !effects[k].PutState?
  }

  lemma {:induction false} KeepsStateReplay(img: Image, effects: seq<Effect>)
    requires KeepsState(effects)
    ensures Replay(img, effects).state == img.state
    decreases |effects|
  {
    if effects != [] { KeepsStateReplay(Apply(img, effects[0]), effects[1..]); }
  }

  lemma {:induction false} FailedAttemptsKeepState(task: Task, st: RunState, o: Answers, n: nat)
    ensures KeepsState(FailedAttempts(task, st, o, n))
  {
    if n > 0 { FailedAttemptsKeepState(task, st, o, n - 1); }
  }

  /** The part of a task's trace before its one write of the run state. */
  function TaskBody(task: Task, st: RunState, o: Oracle): seq<Effect> {
    match GateOf(task, st, o)
    case Refused =>
      [ PutStep(Entry(task, 1, StepFailed)), PutExecution(Summary(task.id, StepFailed, 1)) ]
    case NeedsConsent => []
    case Cleared =>
      if task.maxAttempts <= 0 then []
      else
        var n := LastAttempt(task, o);
        if Succeeds(o, n) then
          FailedAttempts(task, st, o, n - 1) +
          [Call(task, st, o, n), PutStep(Entry(task, n, StepSucceeded)), PutExecution(Summary(task.id, StepSucceeded, n))]
        else if o.heals(n) == AwaitingApproval then FailedAttempts(task, st, o, n)
        else
          FailedAttempts(task, st, o, n) +
          (if task.rollbackPayload && o.rollbackHook
           then [CallRollback(task.id), PutStep(Entry(task, n, StepRolledBack))] else []) +
          [PutExecution(Summary(task.id, StepFailed, n))]
  }

  function TaskTail(task: Task, st: RunState, o: Oracle): seq<Effect> {
    if GateOf(task, st, o).NeedsConsent? then [PutStep(Entry(task, 0, StepPaused))] else []
  }

  lemma TaskShape(task: Task, index: nat, st: RunState, o: Oracle)
    ensures TaskEffects(task, index, st, o)
         == TaskBody(task, st, o) + [PutState(TaskState(task, index, st, o))] + TaskTail(task, st, o)
    ensures KeepsState(TaskBody(task, st, o)) && KeepsState(TaskTail(task, st, o))
  {
    if GateOf(task, st, o).Cleared? && task.maxAttempts > 0 {
      var n := LastAttempt(task, o);
      FailedAttemptsKeepState(task, st, o, n);
      FailedAttemptsKeepState(task, st, o, n - 1);
    }
  }

  lemma TaskEndState(img: Image, task: Task, index: nat, o: Oracle)
    ensures Replay(img, TaskEffects(task, index, img.state, o)).state == TaskState(task, index, img.state, o)
  {
    var st := img.state;
    TaskShape(task, index, st, o);
    var body, put, tail := TaskBody(task, st, o), [PutState(TaskState(task, index, st, o))], TaskTail(task, st, o);
    ReplayConcat(img, body + put, tail);
    ReplayConcat(img, body, put);
    var mid := Replay(img, body);
    assert Replay(mid, put) == Replay(Apply(mid, put[0]), put[1..]);
    KeepsStateReplay(Replay(img, body + put), tail);
  }

  // ---- Recorded successes ----

  ghost predicate Succeeded(steps: seq<StepLog>, id: string) {
    exists i :: 0 <= i < |steps| && steps[i].stepId == id && steps[i].status == StepSucceeded
  }

  /** The newest log entry of the step is a success. */
  ghost predicate LatestSucceeded(steps: seq<StepLog>, id: string) {
    exists i :: 0 <= i < |steps| && steps[i].stepId == id && steps[i].status == StepSucceeded &&
      forall j | i < j < |steps| :: steps[j].stepId != id
  }

  /** The newest entry of the whole log is a success of the step. */
  ghost predicate JustSucceeded(steps: seq<StepLog>, id: string) {
    steps != [] && steps[|steps| - 1].stepId == id && steps[|steps| - 1].status == StepSucceeded
  }

  ghost predicate AllSucceeded(plan: seq<Task>, steps: seq<StepLog>, n: int) {
    forall k | 0 <= k < n && k < |plan| :: Succeeded(steps, plan[k].id)
  }

  /** The files agree: every step before the current one has a success in the log, and so has every
      step of a run that is marked completed. */
  ghost predicate Consistent(plan: seq<Task>, img: Image) {
    && img.state.currentStepIndex <= |plan|
    && AllSucceeded(plan, img.steps, img.state.currentStepIndex)
    && (img.state.status == Completed ==> AllSucceeded(plan, img.steps, |plan|))
  }

  /** The stronger agreement for a run that stands at step `n`: the newest entry of every step before it is a
      success. */
  ghost predicate UpToDateAt(plan: seq<Task>, steps: seq<StepLog>, n: nat) {
    n <= |plan| && forall k | 0 <= k < n :: LatestSucceeded(steps, plan[k].id)
  }

  ghost predicate UpToDate(plan: seq<Task>, img: Image) {
    UpToDateAt(plan, img.steps, img.state.currentStepIndex)
  }

  ghost predicate DistinctIds(plan: seq<Task>) {
    forall i, j | 0 <= i < j < |plan| :: plan[i].id != plan[j].id
  }

  lemma SucceededGrows(steps: seq<StepLog>, e: StepLog, id: string)
    requires Succeeded(steps, id)
    ensures Succeeded(steps + [e], id)
  {
    var i :| 0 <= i < |steps| && steps[i].stepId == id && steps[i].status == StepSucceeded;
    assert (steps + [e])[i] == steps[i];
  }

  lemma LatestSucceededGrows(steps: seq<StepLog>, e: StepLog, id: string)
    requires LatestSucceeded(steps, id) && e.stepId != id
    ensures LatestSucceeded(steps + [e], id)
  {
    var i :| 0 <= i < |steps| && steps[i].stepId == id && steps[i].status == StepSucceeded &&
      forall j | i < j < |steps| :: steps[j].stepId != id;
    assert (steps + [e])[i] == steps[i];
  }

  // ---- Properties that executing tasks keeps ----

  /** The effect leaves the run state alone and logs nothing but the given step. */
  predicate About(e: Effect, id: string) {
    !e.PutState? && (e.PutStep? ==> e.entry.stepId == id)
  }

  /** What makes `p` a property that the engine keeps while it executes tasks: it survives whatever is
      logged about the current step, a change of the run state that stays at the step, moving past a
      step whose success was just logged, and completing the run after the last step. */
  ghost predicate KeptByTasks(plan: seq<Task>, p: Image -> bool) {
    && (forall i: Image | p(i) :: i.state.currentStepIndex <= |plan|)
    && (forall i: Image, e: Effect {:trigger Apply(i, e)} |
          p(i) && i.state.currentStepIndex < |plan| && About(e, plan[i.state.currentStepIndex].id) :: p(Apply(i, e)))
    && (forall i: Image, s: RunState {:trigger Apply(i, PutState(s))} |
          p(i) && s.currentStepIndex == i.state.currentStepIndex &&
          (s.status == Completed ==> i.state.status == Completed || s.currentStepIndex == |plan|) :: p(Apply(i, PutState(s))))
    && (forall i: Image, s: RunState {:trigger Apply(i, PutState(s))} |
          p(i) && i.state.currentStepIndex < |plan| && JustSucceeded(i.steps, plan[i.state.currentStepIndex].id) &&
          s.currentStepIndex == i.state.currentStepIndex + 1 && s.status == i.state.status :: p(Apply(i, PutState(s))))
  }

  lemma ConsistentIsKept(plan: seq<Task>)
    ensures KeptByTasks(plan, i => Consistent(plan, i))
  {
    forall i: Image, e: Effect | Consistent(plan, i) && !e.PutState?
      ensures Consistent(plan, Apply(i, e))
    {
      if e.PutStep? {
        forall id | Succeeded(i.steps, id) ensures Succeeded(i.steps + [e.entry], id) {
          SucceededGrows(i.steps, e.entry, id);
        }
      }
    }
  }

  lemma UpToDateIsKept(plan: seq<Task>)
    requires DistinctIds(plan)
    ensures KeptByTasks(plan, i => UpToDate(plan, i))
  {
    forall i: Image, e: Effect | UpToDate(plan, i) && i.state.currentStepIndex < |plan| && About(e, plan[i.state.currentStepIndex].id)
      ensures UpToDate(plan, Apply(i, e))
    {
      if e.PutStep? {
        forall k | 0 <= k < i.state.currentStepIndex ensures LatestSucceeded(i.steps + [e.entry], plan[k].id) {
          LatestSucceededGrows(i.steps, e.entry, plan[k].id);
        }
      }
    }
  }

  lemma {:induction false} KeptByBody(plan: seq<Task>, p: Image -> bool, img: Image, effects: seq<Effect>, id: string)
    requires KeptByTasks(plan, p) && p(img)
    requires img.state.currentStepIndex < |plan| && plan[img.state.currentStepIndex].id == id
    requires forall k | 0 <= k < |effects| :: About(effects[k], id)
    ensures Throughout(p, img, effects) && p(Replay(img, effects))
    ensures Replay(img, effects).state == img.state
    decreases |effects|
  {
    if effects != [] {
      var next := Apply(img, effects[0]);
      assert About(effects[0], id) && p(next);
      KeptByBody(plan, p, next, effects[1..], id);
    }
  }

  lemma OneWrite(p: Image -> bool, img: Image, s: RunState)
    requires p(img) && p(Apply(img, PutState(s)))
    ensures Throughout(p, img, [PutState(s)])
    ensures Replay(img, [PutState(s)]) == Apply(img, PutState(s)) == img.(state := s)
  {
    var e := [PutState(s)];
    assert Throughout(p, Apply(img, e[0]), e[1..]);
    assert Replay(Apply(img, e[0]), e[1..]) == Apply(img, e[0]);
  }

  lemma {:induction false} FailedAttemptsAbout(task: Task, st: RunState, o: Answers, n: nat)
    ensures forall k | 0 <= k < |FailedAttempts(task, st, o, n)| :: About(FailedAttempts(task, st, o, n)[k], task.id)
  {
    if n > 0 { FailedAttemptsAbout(task, st, o, n - 1); }
  }

  lemma BodyAbout(task: Task, st: RunState, o: Oracle)
    ensures forall k | 0 <= k < |TaskBody(task, st, o)| :: About(TaskBody(task, st, o)[k], task.id)
    ensures forall k | 0 <= k < |TaskTail(task, st, o)| :: About(TaskTail(task, st, o)[k], task.id)
  {
    if GateOf(task, st, o).Cleared? && task.maxAttempts > 0 {
      FailedAttemptsAbout(task, st, o, LastAttempt(task, o));
      FailedAttemptsAbout(task, st, o, LastAttempt(task, o) - 1);
    }
  }

  /** When a task completes, its success is the newest entry of the log before the run state moves on. */
  lemma BodyLogsSuccess(img: Image, task: Task, o: Oracle)
    requires TaskCompletes(task, img.state, o)
    ensures JustSucceeded(Replay(img, TaskBody(task, img.state, o)).steps, task.id)
  {
    var st := img.state;
    var n := LastAttempt(task, o);
    var before := FailedAttempts(task, st, o, n - 1);
    var last := [Call(task, st, o, n), PutStep(Entry(task, n, StepSucceeded)), PutExecution(Summary(task.id, StepSucceeded, n))];
    ReplayConcat(img, before, last);
    var i0 := Replay(img, before);
    var i1 := Apply(i0, last[0]);
    var i2 := Apply(i1, last[1]);
    var i3 := Apply(i2, last[2]);
    calc {
      Replay(i0, last);
      Replay(i1, last[1..]);
      { assert last[1..][0] == last[1]; }
      Replay(i2, last[1..][1..]);
      { assert last[1..][1..][0] == last[2]; }
      Replay(i3, last[1..][1..][1..]);
      { assert last[1..][1..][1..] == []; }
      i3;
    }
    assert i3.steps == i0.steps + [Entry(task, n, StepSucceeded)];
  }

  lemma KeptByTask(plan: seq<Task>, p: Image -> bool, img: Image, task: Task, o: Oracle)
    requires KeptByTasks(plan, p) && p(img)
    requires img.state.currentStepIndex < |plan| && task.id == plan[img.state.currentStepIndex].id
    ensures var effects := TaskEffects(task, img.state.currentStepIndex, img.state, o);
      Throughout(p, img, effects) && p(Replay(img, effects))
  {
    var st := img.state;
    var index := st.currentStepIndex;
    TaskShape(task, index, st, o);
    BodyAbout(task, st, o);
    var body, s, tail := TaskBody(task, st, o), TaskState(task, index, st, o), TaskTail(task, st, o);
    KeptByBody(plan, p, img, body, task.id);
    var mid := Replay(img, body);
    if TaskCompletes(task, st, o) {
      BodyLogsSuccess(img, task, o);
    }
    assert p(Apply(mid, PutState(s)));
    OneWrite(p, mid, s);
    ThroughoutConcat(p, img, body, [PutState(s)]);
    ReplayConcat(img, body, [PutState(s)]);
    var late := Replay(img, body + [PutState(s)]);
    if tail != [] {
      KeptByBody(plan, p, late, tail, task.id);
    }
    ThroughoutConcat(p, img, body + [PutState(s)], tail);
    ReplayConcat(img, body + [PutState(s)], tail);
  }

  lemma OutcomeOnly(p: Image -> bool, img: Image, success: bool)
    requires p(img)
    ensures Throughout(p, img, [RecordOutcome(success)])
  {
    var e := [RecordOutcome(success)];
    assert Throughout(p, Apply(img, e[0]), e[1..]);
  }

  lemma {:induction false} KeptByLoop(plan: seq<Task>, p: Image -> bool, tasks: seq<Task>, img: Image, env: nat -> Oracle)
    requires KeptByTasks(plan, p) && p(img) && |tasks| == |plan|
    requires forall i | 0 <= i < |plan| :: tasks[i].id == plan[i].id
    ensures Throughout(p, img, LoopEffects(tasks, img.state, env))
    decreases |plan| - img.state.currentStepIndex
  {
    var st := img.state;
    var index := st.currentStepIndex;
    assert index <= |plan|;
    if index == |tasks| {
      var s := CompletedState(st, tasks);
      assert p(Apply(img, PutState(s)));
      OneWrite(p, img, s);
      OutcomeOnly(p, img.(state := s), true);
      ThroughoutConcat(p, img, [PutState(s)], [RecordOutcome(true)]);
      assert LoopEffects(tasks, st, env) == [PutState(s)] + [RecordOutcome(true)];
    } else {
      var o := env(index);
      var effects := TaskEffects(tasks[index], index, st, o);
      KeptByTask(plan, p, img, tasks[index], o);
      TaskEndState(img, tasks[index], index, o);
      var next := Replay(img, effects);
      if TaskCompletes(tasks[index], st, o) {
        KeptByLoop(plan, p, tasks, next, env);
        ThroughoutConcat(p, img, effects, LoopEffects(tasks, next.state, env));
      } else if HaltedState(tasks[index], index, st, o).status == Failed {
        OutcomeOnly(p, next, false);
        ThroughoutConcat(p, img, effects, [RecordOutcome(false)]);
      } else {
        assert LoopEffects(tasks, st, env) == effects + [];
        ThroughoutConcat(p, img, effects, []);
      }
    }
  }

  lemma KeptByExecute(plan: seq<Task>, p: Image -> bool, img: Image, limits: Limits, env: nat -> Oracle)
    requires KeptByTasks(plan, p) && p(img)
    ensures Throughout(p, img, ExecuteEffects(plan, img.state, limits, env))
  {
    var s := StartedState(img.state);
    assert p(Apply(img, PutState(s)));
    OneWrite(p, img, s);
    KeptByLoop(plan, p, Optimize(plan, limits), img.(state := s), env);
    ThroughoutConcat(p, img, [PutState(s)], LoopEffects(Optimize(plan, limits), s, env));
  }

  /** Executing, resuming, and retrying a step to which the run may move, keep `p` at every point. */
  lemma KeptByForwardOp(plan: seq<Task>, p: Image -> bool, img: Image, op: Op)
    requires KeptByTasks(plan, p) && p(img) && !op.Rollback?
    requires op.Retry? && RetryIndex(plan, img, op.target) < |plan| ==>
      p(Apply(img, PutState(RetriedState(img.state, RetryIndex(plan, img, op.target)))))
    ensures Throughout(p, img, OpEffects(plan, img, op))
  {
    match op
    case Execute(limits, env) => KeptByExecute(plan, p, img, limits, env);
    case Resume(approve, limits, env) =>
      if !approve {
        if img.state.status != Completed { KeptByExecute(plan, p, img, limits, env); }
        assert OpEffects(plan, img, op) ==
          if img.state.status == Completed then [] else ExecuteEffects(plan, img.state, limits, env);
      } else {
        var st := ApprovedState(img.state);
        assert p(Apply(img, PutState(st)));
        OneWrite(p, img, st);
        if st.status != Completed { KeptByExecute(plan, p, img.(state := st), limits, env); }
        ThroughoutConcat(p, img, [PutState(st)],
          if st.status == Completed then [] else ExecuteEffects(plan, st, limits, env));
      }
    case Retry(target, o) =>
      var i := RetryIndex(plan, img, target);
      if i < |plan| {
        var s := RetriedState(img.state, i);
        OneWrite(p, img, s);
        KeptByTask(plan, p, img.(state := s), plan[i], o);
        ThroughoutConcat(p, img, [PutState(s)], TaskEffects(plan[i], i, s, o));
      }
  }

  // ---- Main result 1: consistency over every run ----

  /** A retry may go to a step when every step before it has succeeded. */
  ghost predicate RetryReady(plan: seq<Task>, img: Image, op: Op) {
    op.Retry? ==>
      var i := RetryIndex(plan, img, op.target);
      i == |plan| || AllSucceeded(plan, img.steps, i)
  }

  lemma OpConsistent(plan: seq<Task>, img: Image, op: Op)
    requires Consistent(plan, img) && RetryReady(plan, img, op)
    ensures Throughout(i => Consistent(plan, i), img, OpEffects(plan, img, op))
  {
    var p := i => Consistent(plan, i);
    ConsistentIsKept(plan);
    if !op.Rollback? {
      KeptByForwardOp(plan, p, img, op);
    } else if CanRollback(plan, img, op.target, op.hook) {
      var task := plan[RollbackIndex(plan, img, op.target)];
      forall id | Succeeded(img.steps, id) ensures Succeeded(RollbackImage(img, task, 2).steps, id) {
        SucceededGrows(img.steps, RollbackEffects(task, img.state)[1].entry, id);
      }
      RollbackThroughout(p, img, task);
    }
  }

  /** The files after the first `n` effects of a rollback. */
  function RollbackImage(img: Image, task: Task, n: nat): Image {
    if n <= 1 then img
    else
      var logged := img.(steps := img.steps + [StepLog(task.id, 1, StepRolledBack, true)]);
      if n == 2 then logged
      else
        var summed := logged.(executions := Upsert(img.executions, Summary(task.id, StepRolledBack, 1)));
        if n == 3 then summed else summed.(state := SteppedBack(img.state))
  }

  lemma {:induction false} RollbackPrefix(img: Image, task: Task, n: nat)
    requires n <= 4
    ensures Replay(img, RollbackEffects(task, img.state)[..n]) == RollbackImage(img, task, n)
    decreases n
  {
    var all := RollbackEffects(task, img.state);
    if n > 0 {
      assert all[..n] == all[..n - 1] + [all[n - 1]];
      ReplaySnoc(img, all[..n - 1], all[n - 1]);
      RollbackPrefix(img, task, n - 1);
    }
  }

  lemma RollbackThroughout(p: Image -> bool, img: Image, task: Task)
    requires forall n: nat | n <= 4 :: p(RollbackImage(img, task, n))
    ensures Throughout(p, img, RollbackEffects(task, img.state))
  {
    var all := RollbackEffects(task, img.state);
    var i1, i2, i3, i4 := RollbackImage(img, task, 1), RollbackImage(img, task, 2), RollbackImage(img, task, 3), RollbackImage(img, task, 4);
    assert Throughout(p, i4, all[1..][1..][1..][1..]);
    assert all[1..][1..][1..][0] == all[3] && Apply(i3, all[3]) == i4;
    assert Throughout(p, i3, all[1..][1..][1..]);
    assert all[1..][1..][0] == all[2] && Apply(i2, all[2]) == i3;
    assert Throughout(p, i2, all[1..][1..]);
    assert all[1..][0] == all[1] && Apply(i1, all[1]) == i2;
    assert Throughout(p, i1, all[1..]);
  }

  /** Every retry in the run goes to a step that is ready at that moment. */
  ghost predicate RetriesReady(plan: seq<Task>, img: Image, events: seq<Event>)
    decreases |events|
  {
    events != [] ==>
      && RetryReady(plan, img, events[0].op)
      && RetriesReady(plan, Replay(img, EventEffects(plan, img, events[0])), events[1..])
  }

  /** What holds throughout an operation's trace holds wherever the operation is cut off. */
  lemma ThroughoutEvent(p: Image -> bool, plan: seq<Task>, img: Image, e: Event)
    requires Throughout(p, img, OpEffects(plan, img, e.op))
    ensures p(Replay(img, EventEffects(plan, img, e)))
  {
    var all := OpEffects(plan, img, e.op);
    var cut := if e.cut < |all| then e.cut else |all|;
    assert all[..cut] == EventEffects(plan, img, e);
    ThroughoutAtCut(p, img, all, cut);
  }

  /** Over any sequence of operations, each cut off anywhere, the files stay consistent. */
  lemma {:induction false} RunsStayConsistent(plan: seq<Task>, img: Image, events: seq<Event>)
    requires Consistent(plan, img) && RetriesReady(plan, img, events)
    ensures Consistent(plan, After(plan, img, events))
    decreases |events|
  {
    if events != [] {
      OpConsistent(plan, img, events[0].op);
      ThroughoutEvent(i => Consistent(plan, i), plan, img, events[0]);
      RunsStayConsistent(plan, Replay(img, EventEffects(plan, img, events[0])), events[1..]);
    }
  }

  /** The readiness of a retry is exactly what is needed: a retry keeps the files consistent at every
      point where it can be cut off if and only if its target is ready. */
  lemma RetryConsistentIffReady(plan: seq<Task>, img: Image, target: Option<string>, o: Oracle)
    requires Consistent(plan, img)
    ensures RetryReady(plan, img, Retry(target, o)) <==>
      forall cut: nat :: Consistent(plan, Replay(img, EventEffects(plan, img, Event(Retry(target, o), cut))))
  {
    var op := Retry(target, o);
    if RetryReady(plan, img, op) {
      OpConsistent(plan, img, op);
      forall cut: nat ensures Consistent(plan, Replay(img, EventEffects(plan, img, Event(op, cut)))) {
        ThroughoutEvent(i => Consistent(plan, i), plan, img, Event(op, cut));
      }
    } else {
      var s := RetriedState(img.state, RetryIndex(plan, img, target));
      TaskShape(plan[RetryIndex(plan, img, target)], RetryIndex(plan, img, target), s, o);
      var e := EventEffects(plan, img, Event(op, 1));
      assert e == [PutState(s)];
      assert Replay(img, e) == Replay(Apply(img, e[0]), e[1..]);
      assert !Consistent(plan, Replay(img, e));
    }
  }

  // ---- Main result 2: no step before the current one is left rolled back ----

  /** A retry may go to a step when the newest entry of every step before it is a success. */
  ghost predicate RetryCurrent(plan: seq<Task>, img: Image, op: Op) {
    op.Retry? ==>
      var i := RetryIndex(plan, img, op.target);
      i == |plan| || UpToDateAt(plan, img.steps, i)
  }

  /** The step to roll back, given or by default, lies far enough ahead for where the rollback is cut off:
      anywhere before the log is written, at the current step or later between the log write and the state
      write, and at the step before the current one or later when the rollback is whole. */
  predicate RollbackHarmless(plan: seq<Task>, img: Image, e: Event) {
    e.op.Rollback? && CanRollback(plan, img, e.op.target, e.op.hook) ==>
      var i := RollbackIndex(plan, img, e.op.target);
      if e.cut <= 1 then true
      else if e.cut <= 3 then i >= img.state.currentStepIndex
      else i + 1 >= img.state.currentStepIndex
  }

  /** After the log entry of a rollback of step `i` the log is up to date exactly for the steps up to `i`. */
  lemma RolledBackUpToDate(plan: seq<Task>, steps: seq<StepLog>, i: nat, n: nat, cur: nat)
    requires DistinctIds(plan) && UpToDateAt(plan, steps, cur) && n <= cur && i < |plan|
    ensures UpToDateAt(plan, steps + [StepLog(plan[i].id, 1, StepRolledBack, true)], n) <==> n <= i
  {
    var e := StepLog(plan[i].id, 1, StepRolledBack, true);
    var more := steps + [e];
    assert more[|steps|] == e;
    if n <= i {
      forall k | 0 <= k < n ensures LatestSucceeded(more, plan[k].id) {
        LatestSucceededGrows(steps, e, plan[k].id);
      }
    } else {
      assert !LatestSucceeded(more, plan[i].id);
    }
  }

  /** A rollback, of the given step or by default, whole or cut off anywhere, keeps the files up to date
      exactly when it is harmless. */
  lemma RollbackUpToDateIff(plan: seq<Task>, img: Image, e: Event)
    requires DistinctIds(plan) && UpToDate(plan, img) && e.op.Rollback?
    ensures UpToDate(plan, Replay(img, EventEffects(plan, img, e))) <==> RollbackHarmless(plan, img, e)
  {
    if CanRollback(plan, img, e.op.target, e.op.hook) {
      var i, cur := RollbackIndex(plan, img, e.op.target), img.state.currentStepIndex;
      var n := if e.cut < 4 then e.cut else 4;
      assert EventEffects(plan, img, e) == RollbackEffects(plan[i], img.state)[..n];
      RollbackPrefix(img, plan[i], n);
      RolledBackUpToDate(plan, img.steps, i, cur, cur);
      RolledBackUpToDate(plan, img.steps, i, if cur > 0 then cur - 1 else 0, cur);
    }
  }

  /** A retry keeps the files up to date at every point where it can be cut off if and only if the newest
      entry of every step before its target is a success. */
  lemma RetryUpToDateIff(plan: seq<Task>, img: Image, target: Option<string>, o: Oracle)
    requires DistinctIds(plan) && UpToDate(plan, img)
    ensures RetryCurrent(plan, img, Retry(target, o)) <==>
      forall cut: nat :: UpToDate(plan, Replay(img, EventEffects(plan, img, Event(Retry(target, o), cut))))
  {
    var op := Retry(target, o);
    if RetryCurrent(plan, img, op) {
      forall cut: nat ensures UpToDate(plan, Replay(img, EventEffects(plan, img, Event(op, cut)))) {
        EventUpToDate(plan, img, Event(op, cut));
      }
    } else {
      var s := RetriedState(img.state, RetryIndex(plan, img, target));
      TaskShape(plan[RetryIndex(plan, img, target)], RetryIndex(plan, img, target), s, o);
      var e := EventEffects(plan, img, Event(op, 1));
      assert e == [PutState(s)];
      assert Replay(img, e) == Replay(Apply(img, e[0]), e[1..]);
      assert !UpToDate(plan, Replay(img, e));
    }
  }

  lemma EventUpToDate(plan: seq<Task>, img: Image, e: Event)
    requires DistinctIds(plan) && UpToDate(plan, img) && RetryCurrent(plan, img, e.op) && RollbackHarmless(plan, img, e)
    ensures UpToDate(plan, Replay(img, EventEffects(plan, img, e)))
  {
    if e.op.Rollback? {
      RollbackUpToDateIff(plan, img, e);
    } else {
      var p := i => UpToDate(plan, i);
      UpToDateIsKept(plan);
      KeptByForwardOp(plan, p, img, e.op);
      ThroughoutEvent(p, plan, img, e);
    }
  }

  ghost predicate CarefulRun(plan: seq<Task>, img: Image, events: seq<Event>)
    decreases |events|
  {
    events != [] ==>
      && RetryCurrent(plan, img, events[0].op) && RollbackHarmless(plan, img, events[0])
      && CarefulRun(plan, Replay(img, EventEffects(plan, img, events[0])), events[1..])
  }

  /** Over any run whose retries and rollbacks keep to these two conditions, the newest log entry of every
      step before the current one is a success, wherever the operations are cut off. */
  lemma {:induction false} RunsStayUpToDate(plan: seq<Task>, img: Image, events: seq<Event>)
    requires DistinctIds(plan) && UpToDate(plan, img) && CarefulRun(plan, img, events)
    ensures UpToDate(plan, After(plan, img, events))
    decreases |events|
  {
    if events != [] {
      EventUpToDate(plan, img, events[0]);
      RunsStayUpToDate(plan, Replay(img, EventEffects(plan, img, events[0])), events[1..]);
    }
  }

  // ---- Ordinary runs ----

  /** The newest entry of the whole log belongs to a step no earlier than the one before the current step. */
  ghost predicate LogsNearby(plan: seq<Task>, img: Image) {
    && img.state.currentStepIndex <= |plan|
    && (img.steps != [] ==> exists j :: 0 <= j < |plan| && InLog(plan, img, j))
  }

  predicate InLog(plan: seq<Task>, img: Image, j: nat)
    requires j < |plan| && img.steps != []
  {
    img.state.currentStepIndex <= j + 1 && plan[j].id == img.steps[|img.steps| - 1].stepId
  }

  /** A retry that does not go ahead of the current step; and a rollback that takes
      the last logged step and is not cut off between its log write and its state write. */
  predicate Ordinary(plan: seq<Task>, img: Image, e: Event) {
    match e.op
    case Retry(target, _) =>
      var i := RetryIndex(plan, img, target);
      i == |plan| || i <= img.state.currentStepIndex
    case Rollback(target, _) => target.None? && (e.cut <= 1 || e.cut >= 4)
    case _ => true
  }

  lemma NearbyIsKept(plan: seq<Task>)
    ensures KeptByTasks(plan, i => LogsNearby(plan, i))
  {
    forall i: Image, e: Effect | LogsNearby(plan, i) && i.state.currentStepIndex < |plan| && About(e, plan[i.state.currentStepIndex].id)
      ensures LogsNearby(plan, Apply(i, e))
    {
      if e.PutStep? {
        assert InLog(plan, Apply(i, e), i.state.currentStepIndex);
      } else {
        NearbySame(plan, i, Apply(i, e));
      }
    }
    forall i: Image, s: RunState | LogsNearby(plan, i) && s.currentStepIndex <= i.state.currentStepIndex
      ensures LogsNearby(plan, Apply(i, PutState(s)))
    {
      NearbyBack(plan, i, s);
    }
    forall i: Image, s: RunState |
        LogsNearby(plan, i) && i.state.currentStepIndex < |plan| && s.currentStepIndex == i.state.currentStepIndex + 1 &&
        JustSucceeded(i.steps, plan[i.state.currentStepIndex].id)
      ensures LogsNearby(plan, Apply(i, PutState(s)))
    {
      assert InLog(plan, Apply(i, PutState(s)), i.state.currentStepIndex);
    }
  }

  lemma NearbySame(plan: seq<Task>, img: Image, next: Image)
    requires LogsNearby(plan, img) && next.steps == img.steps && next.state == img.state
    ensures LogsNearby(plan, next)
  {
    if img.steps != [] {
      var j :| 0 <= j < |plan| && InLog(plan, img, j);
      assert InLog(plan, next, j);
    }
  }

  lemma NearbyBack(plan: seq<Task>, img: Image, s: RunState)
    requires LogsNearby(plan, img) && s.currentStepIndex <= img.state.currentStepIndex
    ensures LogsNearby(plan, img.(state := s))
  {
    if img.steps != [] {
      var j :| 0 <= j < |plan| && InLog(plan, img, j);
      assert InLog(plan, img.(state := s), j);
    }
  }

  /** The default target of a rollback is the current step or the one before it, or a later one. */
  lemma DefaultTarget(plan: seq<Task>, img: Image)
    requires DistinctIds(plan) && LogsNearby(plan, img)
    ensures var i := RollbackIndex(plan, img, None); i < |plan| ==> InLog(plan, img, i) && img.steps != []
  {
    if img.steps != [] {
      var j :| 0 <= j < |plan| && InLog(plan, img, j);
      assert RollbackIndex(plan, img, None) == j;
    }
  }

  /** Ordinary events meet the conditions of both main results. */
  lemma OrdinaryIsCareful(plan: seq<Task>, img: Image, e: Event)
    requires DistinctIds(plan) && Consistent(plan, img) && UpToDate(plan, img) && LogsNearby(plan, img) && Ordinary(plan, img, e)
    ensures RetryReady(plan, img, e.op) && RetryCurrent(plan, img, e.op) && RollbackHarmless(plan, img, e)
  {
    DefaultTarget(plan, img);
  }

  lemma OrdinaryStaysNearby(plan: seq<Task>, img: Image, e: Event)
    requires DistinctIds(plan) && LogsNearby(plan, img) && Ordinary(plan, img, e)
    ensures LogsNearby(plan, Replay(img, EventEffects(plan, img, e)))
  {
    if !e.op.Rollback? {
      var p := i => LogsNearby(plan, i);
      NearbyIsKept(plan);
      if e.op.Retry? && RetryIndex(plan, img, e.op.target) < |plan| {
        NearbyBackRetry(plan, img, e.op);
      }
      KeptByForwardOp(plan, p, img, e.op);
      ThroughoutEvent(p, plan, img, e);
    } else if CanRollback(plan, img, None, e.op.hook) {
      var i := RollbackIndex(plan, img, None);
      DefaultTarget(plan, img);
      var n := if e.cut < 4 then e.cut else 4;
      assert EventEffects(plan, img, e) == RollbackEffects(plan[i], img.state)[..n];
      RollbackPrefix(img, plan[i], n);
      assert n == 4 ==> InLog(plan, RollbackImage(img, plan[i], 4), i);
    }
  }

  lemma NearbyBackRetry(plan: seq<Task>, img: Image, op: Op)
    requires LogsNearby(plan, img) && op.Retry? && RetryIndex(plan, img, op.target) <= img.state.currentStepIndex
    ensures LogsNearby(plan, Apply(img, PutState(RetriedState(img.state, RetryIndex(plan, img, op.target)))))
  {
    NearbyBack(plan, img, RetriedState(img.state, RetryIndex(plan, img, op.target)));
  }

  ghost predicate OrdinaryRun(plan: seq<Task>, img: Image, events: seq<Event>)
    decreases |events|
  {
    events != [] ==>
      && Ordinary(plan, img, events[0])
      && OrdinaryRun(plan, Replay(img, EventEffects(plan, img, events[0])), events[1..])
  }

  lemma {:induction false} OrdinaryRunsKeep(plan: seq<Task>, img: Image, events: seq<Event>)
    requires DistinctIds(plan) && OrdinaryRun(plan, img, events)
    requires Consistent(plan, img) && UpToDate(plan, img) && LogsNearby(plan, img)
    ensures var end := After(plan, img, events); Consistent(plan, end) && UpToDate(plan, end) && LogsNearby(plan, end)
    decreases |events|
  {
    if events != [] {
      var e := events[0];
      OrdinaryIsCareful(plan, img, e);
      OpConsistent(plan, img, e.op);
      ThroughoutEvent(i => Consistent(plan, i), plan, img, e);
      EventUpToDate(plan, img, e);
      OrdinaryStaysNearby(plan, img, e);
      OrdinaryRunsKeep(plan, Replay(img, EventEffects(plan, img, e)), events[1..]);
    }
  }

  /** After any run of ordinary operations on a created run, wherever the executions, resumes and retries are
      cut off, the files are consistent and up to date, and a rollback of the last logged step would roll back
      the current one, the one before it, or a later one. */
  lemma OrdinaryRunsAreSafe(plan: seq<Task>, approved: bool, events: seq<Event>)
    requires DistinctIds(plan) && OrdinaryRun(plan, Created(approved), events)
    ensures var end := After(plan, Created(approved), events);
      && Consistent(plan, end) && UpToDate(plan, end)
      && RollbackIndex(plan, end, None) + 1 >= end.state.currentStepIndex
  {
    OrdinaryRunsKeep(plan, Created(approved), events);
    DefaultTarget(plan, After(plan, Created(approved), events));
  }

  // ---- Concrete runs ----

  /** The answers of a world in which everything is allowed and every attempt succeeds. */
  function AllGood(): Oracle {
    Answers(true, false, true, None, None, true, (k: nat) => true, (k: nat) => true, (k: nat) => Escalated, 0, true)
  }

  function TwoTasks(): seq<Task> {
    [Task("a", "terminal", false, 1, true), Task("b", "terminal", false, 1, true)]
  }

  /** With such answers a task costs one call, and the run moves on. */
  lemma CleanTask(task: Task, index: nat, st: RunState)
    requires !task.requiresApproval && task.maxAttempts == 1
    ensures TaskEffects(task, index, st, AllGood()) == SuccessEffects(task, index, st, AllGood(), 1)
    ensures TaskCompletes(task, st, AllGood())
  {
    assert LastAttempt(task, AllGood()) == 1;
    assert FailedAttempts(task, st, AllGood(), 0) == [];
  }

  lemma SuccessReplay(img: Image, task: Task, index: nat)
    ensures Replay(img, SuccessEffects(task, index, img.state, AllGood(), 1)) ==
      Image(AdvancedState(img.state, index), img.steps + [Entry(task, 1, StepSucceeded)],
            Upsert(img.executions, Summary(task.id, StepSucceeded, 1)))
  {
    var e := SuccessEffects(task, index, img.state, AllGood(), 1);
    var i1 := Apply(img, e[0]);
    var i2 := Apply(i1, e[1]);
    var i3 := Apply(i2, e[2]);
    assert e[1..][0] == e[1];
    assert e[1..][1..][0] == e[2];
    assert e[1..][1..][1..] == [e[3]];
    assert Replay(i3, [e[3]]) == Apply(i3, e[3]) by { assert [e[3]][1..] == []; }
    assert Replay(i2, e[1..][1..]) == Replay(i3, [e[3]]);
    assert Replay(i1, e[1..]) == Replay(i2, e[1..][1..]);
  }

  /** The plan has tasks that need no approval and one attempt. */
  predicate Clean(plan: seq<Task>) {
    forall i | 0 <= i < |plan| :: !plan[i].requiresApproval && plan[i].maxAttempts == 1
  }

  lemma LoopTurn(plan: seq<Task>, st: RunState, env: nat -> Oracle)
    requires Clean(plan) && st.currentStepIndex < |plan| && env(st.currentStepIndex) == AllGood()
    ensures var i := st.currentStepIndex;
      LoopEffects(plan, st, env) ==
      SuccessEffects(plan[i], i, st, AllGood(), 1) + LoopEffects(plan, AdvancedState(st, i), env)
  {
    CleanTask(plan[st.currentStepIndex], st.currentStepIndex, st);
  }

  lemma LoopEnd(plan: seq<Task>, img: Image, env: nat -> Oracle)
    requires img.state.currentStepIndex >= |plan|
    ensures |LoopEffects(plan, img.state, env)| == 2
    ensures Replay(img, LoopEffects(plan, img.state, env)) == img.(state := CompletedState(img.state, plan))
  {
    var e := LoopEffects(plan, img.state, env);
    assert e[1..] == [RecordOutcome(true)] && e[1..][1..] == [];
    var fin := Apply(img, e[0]);
    assert Replay(fin, e[1..]) == Replay(Apply(fin, RecordOutcome(true)), e[1..][1..]);
  }

  lemma StartReplay(img: Image, s: RunState, rest: seq<Effect>)
    ensures Replay(img, [PutState(s)] + rest) == Replay(img.(state := s), rest)
  {
    assert ([PutState(s)] + rest)[1..] == rest;
  }

  lemma NoLimits(plan: seq<Task>)
    ensures Optimize(plan, map[]) == plan
  {
  }

  /** A first execution, cut off when it has stored the success of the first task. */
  lemma FirstTaskDone(plan: seq<Task>, env: nat -> Oracle)
    requires plan == TwoTasks() && env == (k => AllGood())
    ensures Replay(Created(false), EventEffects(plan, Created(false), Event(Execute(map[], env), 5))) ==
      Image(RunState(1, Running, false, false, None), [Entry(plan[0], 1, StepSucceeded)], [Summary("a", StepSucceeded, 1)])
  {
    var i0 := Created(false);
    var s0 := StartedState(i0.state);
    NoLimits(plan);
    LoopTurn(plan, s0, env);
    LoopTurn(plan, AdvancedState(s0, 0), env);
    var a, rest := SuccessEffects(plan[0], 0, s0, AllGood(), 1), LoopEffects(plan, AdvancedState(s0, 0), env);
    assert |a| == 4 && |rest| > 0;
    assert ([PutState(s0)] + (a + rest))[..5] == [PutState(s0)] + a;
    StartReplay(i0, s0, a);
    SuccessReplay(i0.(state := s0), plan[0], 0);
    assert FindSummary([], "a") == 0;
  }

  /** The second execution, from files whose current step is the second task. */
  lemma SecondTaskDone(plan: seq<Task>, env: nat -> Oracle, img: Image)
    requires Clean(plan) && |plan| == 2 && env(1) == AllGood() && img.state == RunState(1, Running, false, false, None)
    ensures var end := Replay(img, OpEffects(plan, img, Execute(map[], env)));
      end.state.status == Completed && end.steps == img.steps + [Entry(plan[1], 1, StepSucceeded)]
    ensures |OpEffects(plan, img, Execute(map[], env))| < 100
  {
    var s1 := img.state;
    NoLimits(plan);
    LoopTurn(plan, s1, env);
    var b, done := SuccessEffects(plan[1], 1, s1, AllGood(), 1), LoopEffects(plan, AdvancedState(s1, 1), env);
    assert StartedState(s1) == s1 && img.(state := s1) == img;
    StartReplay(img, s1, b + done);
    ReplayConcat(img, b, done);
    SuccessReplay(img, plan[1], 1);
    LoopEnd(plan, Replay(img, b), env);
  }

  lemma ThreeEvents(plan: seq<Task>, img: Image, e1: Event, e2: Event, e3: Event)
    ensures var i1 := Replay(img, EventEffects(plan, img, e1));
      var i2 := Replay(i1, EventEffects(plan, i1, e2));
      After(plan, img, [e1, e2, e3]) == Replay(i2, EventEffects(plan, i2, e3))
  {
    assert [e1, e2, e3][1..] == [e2, e3] && [e2, e3][1..] == [e3] && [e3][1..] == [];
    var i1 := Replay(img, EventEffects(plan, img, e1));
    var i2 := Replay(i1, EventEffects(plan, i1, e2));
    assert After(plan, i2, [e3]) == After(plan, Replay(i2, EventEffects(plan, i2, e3)), []);
    assert After(plan, i1, [e2, e3]) == After(plan, i2, [e3]);
  }

  /** The rollback that is cut off when it has called the adapter and written the log. */
  lemma RollbackTorn(i1: Image)
    requires i1 == Image(RunState(1, Running, false, false, None), [Entry(TwoTasks()[0], 1, StepSucceeded)], [Summary("a", StepSucceeded, 1)])
    ensures var i2 := Replay(i1, EventEffects(TwoTasks(), i1, Event(Rollback(None, true), 2)));
      i2.state == i1.state && |i2.steps| == 2 && i2.steps[0] == i1.steps[0] &&
      i2.steps[1].stepId == "a" && i2.steps[1].status == StepRolledBack
  {
    var plan, e := TwoTasks(), Event(Rollback(None, true), 2);
    assert CanRollback(plan, i1, None, true) && RollbackIndex(plan, i1, None) == 0;
    assert EventEffects(plan, i1, e) == RollbackEffects(plan[0], i1.state)[..2];
    RollbackPrefix(i1, plan[0], 2);
  }

  /** A torn rollback is forgotten: the next execution completes the run past the step that the log
      shows as rolled back. */
  lemma TornRollbackIsForgotten(env: nat -> Oracle)
    requires env == (k => AllGood())
    ensures var run := [Event(Execute(map[], env), 5), Event(Rollback(None, true), 2), Event(Execute(map[], env), 100)];
      var end := After(TwoTasks(), Created(false), run);
      end.state.status == Completed && Succeeded(end.steps, "a") && !LatestSucceeded(end.steps, "a")
  {
    var plan := TwoTasks();
    var e1, e2, e3 := Event(Execute(map[], env), 5), Event(Rollback(None, true), 2), Event(Execute(map[], env), 100);
    FirstTaskDone(plan, env);
    var i1 := Replay(Created(false), EventEffects(plan, Created(false), e1));
    RollbackTorn(i1);
    var i2 := Replay(i1, EventEffects(plan, i1, e2));
    SecondTaskDone(plan, env, i2);
    assert EventEffects(plan, i2, e3) == OpEffects(plan, i2, Execute(map[], env));
    ThreeEvents(plan, Created(false), e1, e2, e3);
    var end := Replay(i2, EventEffects(plan, i2, e3));
    assert end.steps == i2.steps + [Entry(plan[1], 1, StepSucceeded)];
    ForgottenLog(end.steps);
  }

  lemma ForgottenLog(steps: seq<StepLog>)
    requires |steps| == 3 && steps[0].stepId == steps[1].stepId == "a" && steps[2].stepId != "a"
    requires steps[0].status == StepSucceeded && steps[1].status == StepRolledBack
    ensures Succeeded(steps, "a") && !LatestSucceeded(steps, "a")
  {
  }
}
