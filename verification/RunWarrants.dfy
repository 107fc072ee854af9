/** Why each effect of a run takes place: what the outside world must have answered for it. */
module RunWarrants {
  import opened Options
  import opened Risks
  import opened RunModel
  import opened RunSafety
  import opened RunApproval

  /** Neither the plan nor the policy nor the adapter's simulation asks for an approval, and nothing rates the
      step as a high risk: not the simulation, nor the adapter's estimate when there is no simulation. */
  predicate Harmless(task: Task, o: Answers) {
    && !task.requiresApproval && !o.policyApproval
    && match o.simulation
       case Some(s) => !s.requiresApproval && s.risk != High
       case None => o.estimate != Some(High)
  }

  /** The attempt was carried out, and its outcome was verified. */
  predicate Worked(o: Answers, attempt: nat) { o.executes(attempt) && o.verifies(attempt) }

  predicate CallWarranted(task: Task, o: Answers, e: Effect)
    requires e.CallExecute?
  {
    && e.stepId == task.id && e.attempt >= 1
    && o.policyAllowed && o.adapterFound && o.valid
    && (e.gated <==> !Harmless(task, o)) && (e.gated ==> e.approved)
    && (e.ok <==> Worked(o, e.attempt))
  }

  predicate EntryWarranted(task: Task, o: Answers, entry: StepLog) {
    && entry.stepId == task.id
    && (entry.rollbackAvailable <==> task.rollbackPayload)
    && match entry.status
       case StepSucceeded => o.policyAllowed && o.adapterFound && o.valid && entry.attempt >= 1 && Worked(o, entry.attempt)
       case StepFailed =>
         if o.policyAllowed && o.adapterFound && o.valid then entry.attempt >= 1 && !Worked(o, entry.attempt)
         else entry.attempt == 1
       case StepPaused => entry.attempt == 0 && o.policyAllowed && o.adapterFound && !Harmless(task, o)
       case StepRolledBack => task.rollbackPayload && o.rollbackHook && entry.attempt >= 1
  }

  /** The failed attempt was brought before the healing engine. */
  predicate Healed(o: Answers, k: nat, answer: HealAnswer) { k >= 1 && !Worked(o, k) && o.heals(k) == answer }

  /** What the effect, performed for the task, says about the answers. */
  ghost predicate Warranted(task: Task, o: Answers, e: Effect) {
    match e
    case CallExecute(_, _, _, _, _) => CallWarranted(task, o, e)
    case CallHeal(answer) => o.policyAllowed && o.adapterFound && o.valid && exists k: nat :: Healed(o, k, answer)
    case CallRollback(id) => id == task.id && task.rollbackPayload && o.rollbackHook
    case PutStep(entry) => EntryWarranted(task, o, entry)
    case PutExecution(s) =>
      s.taskId == task.id && s.attempts >= 1 && if s.status == StepSucceeded then Worked(o, s.attempts) else s.status == StepFailed
    case PutState(_) => true
    case RecordOutcome(_) => false
  }

  ghost predicate AllWarranted(task: Task, o: Answers, effects: seq<Effect>) {
    forall k | 0 <= k < |effects| :: Warranted(task, o, effects[k])
  }

  lemma {:induction false} FailedWarranted(task: Task, st: RunState, o: Answers, n: nat)
    requires GateOf(task, st, o).Cleared? && forall j: nat | 1 <= j <= n :: !Succeeds(o, j)
    ensures AllWarranted(task, o, FailedAttempts(task, st, o, n))
  {
    if n > 0 {
      FailedWarranted(task, st, o, n - 1);
      assert !Succeeds(o, n) && Healed(o, n, o.heals(n));
    }
  }

  lemma GivenUpWarranted(task: Task, index: nat, st: RunState, o: Oracle, n: nat)
    requires GateOf(task, st, o).Cleared? && n >= 1
    ensures AllWarranted(task, o, GiveUpEffects(task, index, st, o, n))
  {
  }

  lemma AttemptsWarranted(task: Task, index: nat, st: RunState, o: Oracle)
    requires GateOf(task, st, o).Cleared?
    ensures AllWarranted(task, o, AttemptEffects(task, index, st, o))
  {
    if task.maxAttempts > 0 {
      var n := LastAttempt(task, o);
      forall j: nat | 1 <= j < n ensures !Succeeds(o, j) { assert !Stops(o, task.maxAttempts, j); }
      if Succeeds(o, n) {
        FailedWarranted(task, st, o, n - 1);
      } else {
        FailedWarranted(task, st, o, n);
        GivenUpWarranted(task, index, st, o, n);
      }
    }
  }

  /** Every effect of a task is warranted by what the policy, the adapter and the healing answered: above all,
      no adapter is called without approval unless nobody asked for one and nothing rated the step as a high
      risk, and no success is logged of an attempt that was not carried out and verified. */
  lemma TaskIsWarranted(task: Task, index: nat, st: RunState, o: Oracle)
    ensures AllWarranted(task, o, TaskEffects(task, index, st, o))
    ensures forall k | 0 <= k < |TaskEffects(task, index, st, o)| && TaskEffects(task, index, st, o)[k].CallExecute? ::
      TaskEffects(task, index, st, o)[k].approved == st.approved
  {
    if GateOf(task, st, o).Cleared? {
      AttemptsWarranted(task, index, st, o);
      if task.maxAttempts > 0 {
        CallsCarryApproval(task, st, o, LastAttempt(task, o));
        CallsCarryApproval(task, st, o, LastAttempt(task, o) - 1);
      }
    }
  }

  lemma {:induction false} CallsCarryApproval(task: Task, st: RunState, o: Answers, n: nat)
    ensures forall k | 0 <= k < |FailedAttempts(task, st, o, n)| && FailedAttempts(task, st, o, n)[k].CallExecute? ::
      FailedAttempts(task, st, o, n)[k].approved == st.approved
  {
    if n > 0 { CallsCarryApproval(task, st, o, n - 1); }
  }

  /** The other way round: a task that is allowed, for which an adapter is found and for which somebody asks for
      an approval that the run does not have, makes no call, and the run waits at it for the approval. */
  lemma UnapprovedTaskWaits(img: Image, task: Task, index: nat, o: Oracle)
    requires o.policyAllowed && o.adapterFound && !Harmless(task, o) && !img.state.approved
    ensures var e := TaskEffects(task, index, img.state, o);
      && (forall k | 0 <= k < |e| :: e[k].PutState? || e[k].PutStep?)
      && Replay(img, e).state ==
         img.state.(status := Paused, currentStepIndex := index, approvalRequired := true, pauseReason := Some(StepApproval))
    ensures !TaskCompletes(task, img.state, o)
  {
    TaskEndState(img, task, index, o);
  }

  // ---- Whole runs ----

  /** What the operation's answers about step `i` are. */
  function AnswersAt(op: Op, i: nat): Answers
    requires !op.Rollback?
  {
    match op
    case Execute(_, env) => env(i)
    case Resume(_, _, env) => env(i)
    case Retry(_, o) => o
  }

  /** A manual rollback touches one task, which has a rollback payload and whose adapter has a hook. */
  predicate RollbackWarranted(task: Task, hook: bool, e: Effect) {
    && task.rollbackPayload && hook
    && match e
       case CallRollback(id) => id == task.id
       case PutStep(entry) => entry == StepLog(task.id, 1, StepRolledBack, true)
       case PutExecution(s) => s == Summary(task.id, StepRolledBack, 1)
       case _ => false
  }

  ghost predicate WarrantedIn(plan: seq<Task>, op: Op, e: Effect) {
    || e.PutState? || e.RecordOutcome?
    || exists i: nat :: i < |plan| && StepWarranted(plan, op, i, e)
  }

  ghost predicate StepWarranted(plan: seq<Task>, op: Op, i: nat, e: Effect)
    requires i < |plan|
  {
    if op.Rollback? then RollbackWarranted(plan[i], op.hook, e) else Warranted(plan[i], AnswersAt(op, i), e)
  }

  ghost predicate AllWarrantedIn(plan: seq<Task>, op: Op, effects: seq<Effect>) {
    forall k | 0 <= k < |effects| :: WarrantedIn(plan, op, effects[k])
  }

  /** A learned retry limit changes nothing that matters here. */
  lemma LimitedWarranted(task: Task, limits: Limits, o: Answers, e: Effect)
    ensures Warranted(Limit(task, limits), o, e) == Warranted(task, o, e)
  {
  }

  lemma StepIsWarranted(plan: seq<Task>, op: Op, limits: Limits, i: nat, st: RunState, o: Oracle)
    requires i < |plan| && !op.Rollback? && AnswersAt(op, i) == o
    ensures AllWarrantedIn(plan, op, TaskEffects(Limit(plan[i], limits), i, st, o))
  {
    var e := TaskEffects(Limit(plan[i], limits), i, st, o);
    TaskIsWarranted(Limit(plan[i], limits), i, st, o);
    forall k | 0 <= k < |e| ensures WarrantedIn(plan, op, e[k]) {
      LimitedWarranted(plan[i], limits, o, e[k]);
      assert StepWarranted(plan, op, i, e[k]);
    }
  }

  lemma {:induction false} LoopWarranted(plan: seq<Task>, op: Op, limits: Limits, st: RunState, env: nat -> Oracle)
    requires !op.Rollback? && forall i: nat :: AnswersAt(op, i) == env(i)
    ensures AllWarrantedIn(plan, op, LoopEffects(Optimize(plan, limits), st, env))
    decreases |plan| - st.currentStepIndex
  {
    var i := st.currentStepIndex;
    if i < |plan| {
      StepIsWarranted(plan, op, limits, i, st, env(i));
      LoopWarranted(plan, op, limits, AdvancedState(st, i), env);
    }
  }

  lemma OpWarranted(plan: seq<Task>, img: Image, op: Op)
    ensures AllWarrantedIn(plan, op, OpEffects(plan, img, op))
  {
    match op
    case Execute(limits, env) => LoopWarranted(plan, op, limits, StartedState(img.state), env);
    case Resume(approve, limits, env) =>
      LoopWarranted(plan, op, limits, StartedState(if approve then ApprovedState(img.state) else img.state), env);
    case Retry(target, o) =>
      var i := RetryIndex(plan, img, target);
      if i < |plan| {
        assert Limit(plan[i], map[]) == plan[i];
        StepIsWarranted(plan, op, map[], i, RetriedState(img.state, i), o);
      }
    case Rollback(target, hook) => ManualWarranted(plan, img, op);
  }

  lemma ManualWarranted(plan: seq<Task>, img: Image, op: Op)
    requires op.Rollback?
    ensures AllWarrantedIn(plan, op, OpEffects(plan, img, op))
  {
    if CanRollback(plan, img, op.target, op.hook) {
      var i := RollbackIndex(plan, img, op.target);
      var e := RollbackEffects(plan[i], img.state);
      forall k | 0 <= k < |e| ensures WarrantedIn(plan, op, e[k]) {
        assert e[k].PutState? || StepWarranted(plan, op, i, e[k]);
      }
    }
  }

  ghost predicate WarrantedBy(plan: seq<Task>, events: seq<Event>, e: Effect) {
    exists j :: 0 <= j < |events| && WarrantedIn(plan, events[j].op, e)
  }

  ghost predicate AllWarrantedBy(plan: seq<Task>, events: seq<Event>, effects: seq<Effect>) {
    forall k | 0 <= k < |effects| :: WarrantedBy(plan, events, effects[k])
  }

  lemma FirstWarranted(plan: seq<Task>, img: Image, events: seq<Event>)
    requires events != []
    ensures AllWarrantedBy(plan, events, EventEffects(plan, img, events[0]))
  {
    var effects := EventEffects(plan, img, events[0]);
    OpWarranted(plan, img, events[0].op);
    forall k | 0 <= k < |effects| ensures WarrantedBy(plan, events, effects[k]) {
      assert effects[k] == OpEffects(plan, img, events[0].op)[k];
      assert WarrantedIn(plan, events[0].op, effects[k]);
    }
  }

  lemma LaterWarranted(plan: seq<Task>, events: seq<Event>, effects: seq<Effect>)
    requires events != [] && AllWarrantedBy(plan, events[1..], effects)
    ensures AllWarrantedBy(plan, events, effects)
  {
    forall k | 0 <= k < |effects| ensures WarrantedBy(plan, events, effects[k]) {
      var j :| 0 <= j < |events[1..]| && WarrantedIn(plan, events[1..][j].op, effects[k]);
      assert WarrantedIn(plan, events[j + 1].op, effects[k]);
    }
  }

  lemma BothWarranted(plan: seq<Task>, events: seq<Event>, a: seq<Effect>, b: seq<Effect>)
    requires AllWarrantedBy(plan, events, a) && AllWarrantedBy(plan, events, b)
    ensures AllWarrantedBy(plan, events, a + b)
  {
  }

  /** Over every run, wherever its operations are cut off, every effect is warranted by the answers that one of
      the operations got. */
  lemma {:induction false} RunsAreWarranted(plan: seq<Task>, img: Image, events: seq<Event>)
    ensures AllWarrantedBy(plan, events, Trace(plan, img, events))
    decreases |events|
  {
    if events != [] {
      var effects := EventEffects(plan, img, events[0]);
      var rest := Trace(plan, Replay(img, effects), events[1..]);
      FirstWarranted(plan, img, events);
      RunsAreWarranted(plan, Replay(img, effects), events[1..]);
      LaterWarranted(plan, events, rest);
      BothWarranted(plan, events, effects, rest);
    }
  }

  /** An execution, or a resume that grants nothing, in which the policy allows step `i`, its adapter is found, and
      somebody asks for an approval of it. */
  predicate AsksFor(plan: seq<Task>, op: Op, i: nat)
    requires i < |plan|
  {
    && (op.Execute? || (op.Resume? && !op.approve))
    && AnswersAt(op, i).policyAllowed && AnswersAt(op, i).adapterFound && !Harmless(plan[i], AnswersAt(op, i))
  }

  /** Without approval and before step `i`. */
  predicate WaitsAt(img: Image, i: nat) {
    !img.state.approved && img.state.currentStepIndex == i && img.state.status != Completed
  }

  lemma HarmlessLimited(task: Task, limits: Limits, o: Answers)
    ensures Harmless(Limit(task, limits), o) == Harmless(task, o)
  {
  }

  /** The trace of such an operation: the run is started, and then it waits. */
  lemma WaitingOp(plan: seq<Task>, img: Image, op: Op, i: nat)
    requires i < |plan| && AsksFor(plan, op, i) && WaitsAt(img, i)
    ensures var e := OpEffects(plan, img, op);
      && |e| == 3 && e[0].PutState? && e[1].PutState? && e[2].PutStep?
      && e[0].state == StartedState(img.state) && e[1].state == PausedState(StartedState(img.state), i, StepApproval)
  {
    var limits, o := op.limits, op.env(i);
    var s := StartedState(img.state);
    HarmlessLimited(plan[i], limits, o);
    UnapprovedTaskWaits(img.(state := s), Limit(plan[i], limits), i, o);
    var task := Optimize(plan, limits)[i];
    assert task == Limit(plan[i], limits);
    assert GateOf(task, s, o).NeedsConsent?;
    assert LoopEffects(Optimize(plan, limits), s, op.env) == TaskEffects(task, i, s, o) + [];
    assert OpEffects(plan, img, op) == ExecuteEffects(plan, img.state, limits, op.env);
  }

  lemma WaitingEvent(plan: seq<Task>, img: Image, e: Event, i: nat)
    requires i < |plan| && AsksFor(plan, e.op, i) && WaitsAt(img, i)
    ensures forall k | 0 <= k < |EventEffects(plan, img, e)| :: !EventEffects(plan, img, e)[k].CallExecute?
    ensures var next := Replay(img, EventEffects(plan, img, e));
      WaitsAt(next, i) && (e.cut >= 2 ==> next.state.status == Paused && next.state.pauseReason == Some(StepApproval))
  {
    WaitingOp(plan, img, e.op, i);
    var all, f := OpEffects(plan, img, e.op), EventEffects(plan, img, e);
    if |f| > 0 {
      assert f[0] == all[0];
      var i1 := Apply(img, f[0]);
      if |f| > 1 {
        assert f[1..][0] == all[1];
        var i2 := Apply(i1, f[1..][0]);
        assert Replay(img, f) == Replay(i2, f[1..][1..]);
        KeepsStateReplay(i2, f[1..][1..]);
      } else {
        assert f[1..] == [];
      }
    }
  }

  /** However often a run that nobody approves is executed or resumed, and wherever it is cut off: as long as
      somebody asks for an approval of the step at which it stands, it stays at that step, no adapter is called,
      and once an operation gets as far as its second write, the run waits for the approval. */
  lemma {:induction false} UnapprovedRunWaits(plan: seq<Task>, img: Image, events: seq<Event>, i: nat)
    requires i < |plan| && WaitsAt(img, i) && forall j | 0 <= j < |events| :: AsksFor(plan, events[j].op, i)
    ensures forall k | 0 <= k < |Trace(plan, img, events)| :: !Trace(plan, img, events)[k].CallExecute?
    ensures WaitsAt(After(plan, img, events), i)
    ensures events != [] && events[|events| - 1].cut >= 2 ==>
      After(plan, img, events).state.status == Paused && After(plan, img, events).state.pauseReason == Some(StepApproval)
    decreases |events|
  {
    if events != [] {
      var effects := EventEffects(plan, img, events[0]);
      var next := Replay(img, effects);
      WaitingEvent(plan, img, events[0], i);
      UnapprovedRunWaits(plan, next, events[1..], i);
      if |events| == 1 {
        assert events[1..] == [];
      } else {
        assert events[1..][|events| - 2] == events[|events| - 1];
      }
    }
  }

  // ---- What becomes of approvals ----

  predicate StepWorks(e: Effect) { e.CallExecute? && e.ok }

  /** Some step worked before the k-th effect. */
  predicate WorkedBefore(effects: seq<Effect>, k: nat)
    requires k <= |effects|
  {
    exists j | 0 <= j < k :: StepWorks(effects[j])
  }

  /** The effect is made under approval `b` and leaves it as it is. */
  predicate Under(b: bool, e: Effect) {
    (e.CallExecute? ==> e.approved == b) && (e.PutState? ==> e.state.approved == b)
  }

  /** An approval lasts until a step works, and a missing one stays missing. */
  ghost predicate Lasting(b: bool, effects: seq<Effect>) {
    forall k | 0 <= k < |effects| :: (b && WorkedBefore(effects, k)) || Under(b, effects[k])
  }

  lemma LastingConcat(b: bool, first: seq<Effect>, c: bool, rest: seq<Effect>)
    requires Lasting(b, first) && Lasting(c, rest)
    requires b == c || (b && WorkedBefore(first, |first|))
    ensures Lasting(b, first + rest)
  {
    var all := first + rest;
    forall k | 0 <= k < |all| ensures (b && WorkedBefore(all, k)) || Under(b, all[k]) {
      if k < |first| {
        if j :| 0 <= j < k && StepWorks(first[j]) { assert StepWorks(all[j]); }
        assert all[k] == first[k];
      } else {
        assert all[k] == rest[k - |first|];
        if j :| 0 <= j < |first| && StepWorks(first[j]) { assert StepWorks(all[j]); }
        if j :| 0 <= j < k - |first| && StepWorks(rest[j]) { assert StepWorks(all[|first| + j]); }
      }
    }
  }

  lemma {:induction false} FailedUnder(task: Task, st: RunState, o: Answers, n: nat)
    ensures forall k | 0 <= k < |FailedAttempts(task, st, o, n)| :: Under(st.approved, FailedAttempts(task, st, o, n)[k])
  {
    if n > 0 { FailedUnder(task, st, o, n - 1); }
  }

  lemma TaskLasting(task: Task, index: nat, st: RunState, o: Oracle)
    ensures var e := TaskEffects(task, index, st, o);
      Lasting(st.approved, e) && (TaskCompletes(task, st, o) ==> WorkedBefore(e, |e|))
  {
    if GateOf(task, st, o).Cleared? && task.maxAttempts > 0 {
      var n := LastAttempt(task, o);
      FailedUnder(task, st, o, n);
      FailedUnder(task, st, o, n - 1);
      if Succeeds(o, n) {
        var before := FailedAttempts(task, st, o, n - 1);
        assert TaskEffects(task, index, st, o)[|before|] == Call(task, st, o, n);
        assert StepWorks(Call(task, st, o, n));
      }
    }
  }

  lemma {:induction false} LoopLasting(tasks: seq<Task>, st: RunState, env: nat -> Oracle)
    ensures Lasting(st.approved, LoopEffects(tasks, st, env))
    decreases |tasks| - st.currentStepIndex
  {
    var i := st.currentStepIndex;
    if i < |tasks| {
      var e := TaskEffects(tasks[i], i, st, env(i));
      TaskLasting(tasks[i], i, st, env(i));
      if TaskCompletes(tasks[i], st, env(i)) {
        LoopLasting(tasks, AdvancedState(st, i), env);
        LastingConcat(st.approved, e, false, LoopEffects(tasks, AdvancedState(st, i), env));
      } else {
        var rest := if HaltedState(tasks[i], i, st, env(i)).status == Failed then [RecordOutcome(false)] else [];
        LastingConcat(st.approved, e, st.approved, rest);
      }
    }
  }

  lemma ExecuteLasting(plan: seq<Task>, st: RunState, limits: Limits, env: nat -> Oracle)
    ensures Lasting(st.approved, ExecuteEffects(plan, st, limits, env))
  {
    LoopLasting(Optimize(plan, limits), StartedState(st), env);
    LastingConcat(st.approved, [PutState(StartedState(st))], st.approved, LoopEffects(Optimize(plan, limits), StartedState(st), env));
  }

  /** An operation leaves the approval as it is until a step works, unless it grants one. */
  lemma OpLasting(plan: seq<Task>, img: Image, op: Op)
    ensures Lasting(img.state.approved || Grants(op), OpEffects(plan, img, op))
  {
    match op
    case Execute(limits, env) => ExecuteLasting(plan, img.state, limits, env);
    case Resume(approve, limits, env) =>
      var st := if approve then ApprovedState(img.state) else img.state;
      var first := if approve then [PutState(st)] else [];
      var rest := if st.status == Completed then [] else ExecuteEffects(plan, st, limits, env);
      ExecuteLasting(plan, st, limits, env);
      LastingConcat(st.approved, first, st.approved, rest);
    case Retry(target, o) =>
      var i := RetryIndex(plan, img, target);
      if i < |plan| {
        var s := RetriedState(img.state, i);
        TaskLasting(plan[i], i, s, o);
        LastingConcat(s.approved, [PutState(s)], s.approved, TaskEffects(plan[i], i, s, o));
      }
    case Rollback(target, hook) =>
  }

  lemma {:induction false} UnderReplay(img: Image, b: bool, effects: seq<Effect>)
    requires forall k | 0 <= k < |effects| :: Under(b, effects[k])
    requires img.state.approved == b || (effects != [] && effects[0].PutState?)
    ensures Replay(img, effects).state.approved == b
    decreases |effects|
  {
    if effects != [] {
      assert Under(b, effects[0]);
      UnderReplay(Apply(img, effects[0]), b, effects[1..]);
    }
  }

  /** The event grants an approval, and gets as far as storing it. */
  predicate Granting(e: Event) { Grants(e.op) && e.cut > 0 }

  lemma EventApproval(plan: seq<Task>, img: Image, e: Event)
    requires var f := EventEffects(plan, img, e); !WorkedBefore(f, |f|) || !(img.state.approved || Grants(e.op))
    ensures Replay(img, EventEffects(plan, img, e)).state.approved == (img.state.approved || Granting(e))
    ensures forall k | 0 <= k < |EventEffects(plan, img, e)| :: Under(img.state.approved || Grants(e.op), EventEffects(plan, img, e)[k])
  {
    var all, f := OpEffects(plan, img, e.op), EventEffects(plan, img, e);
    var b := img.state.approved || Grants(e.op);
    OpLasting(plan, img, e.op);
    forall k | 0 <= k < |f| ensures Under(b, f[k]) {
      assert f[k] == all[k];
      if j :| 0 <= j < k && StepWorks(all[j]) { assert StepWorks(f[j]); }
    }
    if Grants(e.op) {
      assert all[0].PutState?;
      if e.cut == 0 { assert f == []; } else { UnderReplay(img, true, f); }
    } else {
      UnderReplay(img, img.state.approved, f);
    }
  }

  ghost predicate SomeGranting(events: seq<Event>) {
    exists j :: 0 <= j < |events| && Granting(events[j])
  }

  lemma SomeGrantingCons(events: seq<Event>)
    requires events != []
    ensures SomeGranting(events) <==> Granting(events[0]) || SomeGranting(events[1..])
  {
    if SomeGranting(events) {
      var j :| 0 <= j < |events| && Granting(events[j]);
      if j > 0 { assert events[1..][j - 1] == events[j]; }
    }
    if SomeGranting(events[1..]) {
      var j :| 0 <= j < |events[1..]| && Granting(events[1..][j]);
      assert Granting(events[j + 1]);
    }
  }

  /** Over every run in which no step works, an approval is held at the end exactly when the run was created with
      one or an operation stored one: nothing else grants an approval, and only a step that works uses it up. */
  lemma {:induction false} ApprovalsLast(plan: seq<Task>, img: Image, events: seq<Event>)
    requires var t := Trace(plan, img, events); !WorkedBefore(t, |t|)
    ensures After(plan, img, events).state.approved == (img.state.approved || SomeGranting(events))
    decreases |events|
  {
    if events != [] {
      var f := EventEffects(plan, img, events[0]);
      var rest := Trace(plan, Replay(img, f), events[1..]);
      assert forall j | 0 <= j < |f| :: (f + rest)[j] == f[j];
      assert forall j | 0 <= j < |rest| :: (f + rest)[|f| + j] == rest[j];
      EventApproval(plan, img, events[0]);
      SomeGrantingCons(events);
      ApprovalsLast(plan, Replay(img, f), events[1..]);
    }
  }

  ghost predicate HarmlessIn(plan: seq<Task>, events: seq<Event>, id: string) {
    exists i, j :: 0 <= i < |plan| && 0 <= j < |events| && HarmlessAt(plan, events, i, j, id)
  }

  predicate HarmlessAt(plan: seq<Task>, events: seq<Event>, i: nat, j: nat, id: string)
    requires i < |plan| && j < |events|
  {
    plan[i].id == id && !events[j].op.Rollback? && Harmless(plan[i], AnswersAt(events[j].op, i))
  }

  lemma {:induction false} NeverApproved(plan: seq<Task>, img: Image, events: seq<Event>)
    requires !img.state.approved && forall j | 0 <= j < |events| :: !Grants(events[j].op)
    ensures forall k | 0 <= k < |Trace(plan, img, events)| :: Under(false, Trace(plan, img, events)[k])
    ensures !After(plan, img, events).state.approved
    decreases |events|
  {
    if events != [] {
      EventApproval(plan, img, events[0]);
      NeverApproved(plan, Replay(img, EventEffects(plan, img, events[0])), events[1..]);
    }
  }

  /** A run that is never approved calls adapters only for steps of which nobody asked for an approval and
      which nothing rated as a high risk. */
  lemma UnapprovedRunsAreHarmless(plan: seq<Task>, img: Image, events: seq<Event>, k: nat)
    requires !img.state.approved && forall j | 0 <= j < |events| :: !Grants(events[j].op)
    requires k < |Trace(plan, img, events)| && Trace(plan, img, events)[k].CallExecute?
    ensures HarmlessIn(plan, events, Trace(plan, img, events)[k].stepId)
  {
    var e := Trace(plan, img, events)[k];
    NeverApproved(plan, img, events);
    RunsAreWarranted(plan, img, events);
    assert Under(false, e) && WarrantedBy(plan, events, e);
    var j :| 0 <= j < |events| && WarrantedIn(plan, events[j].op, e);
    var i: nat :| i < |plan| && StepWarranted(plan, events[j].op, i, e);
    assert HarmlessAt(plan, events, i, j, e.stepId);
  }
}
