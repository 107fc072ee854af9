/**
 The run execution engine, as a specification.

 A run is a list of plan tasks and three files: the run state, the step log and the adapter
 summaries.  Every operation of the engine is described by its trace: the calls it makes to an
 adapter and the file writes it performs, in order.  A crash, or an exception thrown by an
 adapter, cuts the trace of an operation at any point; the next operation starts from whatever
 the files hold by then.
 */
module RunModel {
  import opened Options
  import opened Risks

  datatype RunStatus = Planned | Running | Paused | Completed | Failed | Cancelled
  datatype StepStatus = StepSucceeded | StepFailed | StepPaused | StepRolledBack
  datatype PauseReason = StepApproval | HealingApproval

  datatype Task = Task(
    id: string, adapterId: string, requiresApproval: bool, maxAttempts: int, rollbackPayload: bool)

  datatype RunState = RunState(
    currentStepIndex: nat, status: RunStatus, approvalRequired: bool, approved: bool,
    pauseReason: Option<PauseReason>)

  datatype StepLog = StepLog(stepId: string, attempt: nat, status: StepStatus, rollbackAvailable: bool)

  datatype Summary = Summary(taskId: string, status: StepStatus, attempts: nat)

  /** What the three files of a run hold at one moment. */
  datatype Image = Image(state: RunState, steps: seq<StepLog>, executions: seq<Summary>)

  // ---- What the outside world answers ----

  datatype Simulation = Simulation(risk: Risk, requiresApproval: bool)
  datatype HealAnswer = Verified | AwaitingApproval | Escalated | Threw

  /** The answers of the policy, the adapter and the healing engine while one task is executed.
      `executes`, `verifies` and `heals` are indexed by the attempt number. */
  datatype Answers = Answers(
    policyAllowed: bool, policyApproval: bool, adapterFound: bool,
    simulation: Option<Simulation>, estimate: Option<Risk>, valid: bool,
    executes: nat -> bool, verifies: nat -> bool,
    heals: nat -> HealAnswer, healingBound: nat, rollbackHook: bool)

  ghost predicate FiniteHealing(a: Answers) {
    forall k: nat | k >= a.healingBound :: a.heals(k) != Verified
  }

  /** Answers in which healing is verified only finitely often. */
  type Oracle = a: Answers | FiniteHealing(a)
    witness Answers(true, false, true, None, None, true, (k: nat) => true, (k: nat) => true, (k: nat) => Escalated, 0, false)

  // ---- Traces ----

  datatype Effect =
    | CallExecute(stepId: string, attempt: nat, gated: bool, approved: bool, ok: bool)
    | CallHeal(answer: HealAnswer)
    | CallRollback(taskId: string)
    | PutStep(entry: StepLog)
    | PutExecution(summary: Summary)
    | PutState(state: RunState)
    | RecordOutcome(success: bool)

  function FindSummary(executions: seq<Summary>, taskId: string): (i: nat)
    ensures i <= |executions|
    ensures i < |executions| ==> executions[i].taskId == taskId
    ensures forall j | 0 <= j < i :: executions[j].taskId != taskId
  {
    if executions == [] || executions[0].taskId == taskId then 0
    else 1 + FindSummary(executions[1..], taskId)
  }

  function Upsert(executions: seq<Summary>, s: Summary): seq<Summary> {
    var i := FindSummary(executions, s.taskId);
    if i < |executions| then executions[i := s] else executions + [s]
  }

  function Apply(img: Image, e: Effect): Image {
    match e
    case PutStep(entry) => img.(steps := img.steps + [entry])
    case PutExecution(s) => img.(executions := Upsert(img.executions, s))
    case PutState(s) => img.(state := s)
    case _ => img
  }

  function Replay(img: Image, effects: seq<Effect>): Image
    decreases |effects|
  {
    if effects == [] then img else Replay(Apply(img, effects[0]), effects[1..])
  }

  lemma {:induction false} ReplayConcat(img: Image, a: seq<Effect>, b: seq<Effect>)
    ensures Replay(img, a + b) == Replay(Replay(img, a), b)
    decreases |a|
  {
    if a == [] {
      assert a + b == b;
    } else {
      assert (a + b)[1..] == a[1..] + b;
      ReplayConcat(Apply(img, a[0]), a[1..], b);
    }
  }

  lemma ReplaySnoc(img: Image, a: seq<Effect>, e: Effect)
    ensures Replay(img, a + [e]) == Apply(Replay(img, a), e)
  {
    ReplayConcat(img, a, [e]);
    assert [e][1..] == [];
  }

  // ---- One task ----

  function EstimatedRisk(o: Answers): Risk {
    match o.simulation
    case Some(s) => s.risk
    case None => match o.estimate case Some(r) => r case None => Medium
  }

  predicate NeedsApproval(task: Task, o: Answers) {
    || task.requiresApproval
    || o.policyApproval
    || (o.simulation.Some? && o.simulation.value.requiresApproval)
    || EstimatedRisk(o) == High
  }

  predicate Succeeds(o: Answers, attempt: nat) {
    o.executes(attempt) && o.verifies(attempt)
  }

  /** The attempt is the last one: it succeeds, or it exhausts the retries and is not healed. */
  predicate Stops(o: Answers, maxAttempts: int, attempt: nat) {
    Succeeds(o, attempt) || (attempt >= maxAttempts && o.heals(attempt) != Verified)
  }

  /** The first attempt, from `k` on, that is the last one. */
  function FirstStop(o: Oracle, maxAttempts: int, k: nat): (n: nat)
    ensures n >= k && Stops(o, maxAttempts, n)
    ensures forall j: nat | k <= j < n :: !Stops(o, maxAttempts, j)
    decreases if maxAttempts > o.healingBound then maxAttempts - k else o.healingBound - k
  {
    if Stops(o, maxAttempts, k) then k else FirstStop(o, maxAttempts, k + 1)
  }

  function LastAttempt(task: Task, o: Oracle): nat {
    FirstStop(o, task.maxAttempts, 1)
  }

  datatype Gate = Refused | NeedsConsent | Cleared

  /** The checks made before the first attempt, in the order the engine makes them. */
  function GateOf(task: Task, st: RunState, o: Answers): Gate {
    if !o.policyAllowed || !o.adapterFound then Refused
    else if NeedsApproval(task, o) && !st.approved then NeedsConsent
    else if !o.valid then Refused
    else Cleared
  }

  function Entry(task: Task, attempt: nat, status: StepStatus): StepLog {
    StepLog(task.id, attempt, status, task.rollbackPayload || status == StepRolledBack)
  }

  function FailedState(st: RunState, index: nat): RunState {
    st.(status := Failed, currentStepIndex := index)
  }

  function PausedState(st: RunState, index: nat, why: PauseReason): RunState {
    st.(status := Paused, currentStepIndex := index, approvalRequired := true, pauseReason := Some(why))
  }

  function AdvancedState(st: RunState, index: nat): RunState {
    st.(currentStepIndex := index + 1, approved := false, approvalRequired := false)
  }

  function Call(task: Task, st: RunState, o: Answers, attempt: nat): Effect {
    CallExecute(task.id, attempt, NeedsApproval(task, o), st.approved, Succeeds(o, attempt))
  }

  /** An attempt that fails: the call, its log entry and, once the retries are used up, the healing. */
  function FailedAttempt(task: Task, st: RunState, o: Answers, k: nat): seq<Effect> {
    [Call(task, st, o, k), PutStep(Entry(task, k, StepFailed))] +
    if k >= task.maxAttempts then [CallHeal(o.heals(k))] else []
  }

  function FailedAttempts(task: Task, st: RunState, o: Answers, n: nat): seq<Effect> {
    if n == 0 then [] else FailedAttempts(task, st, o, n - 1) + FailedAttempt(task, st, o, n)
  }

  function SuccessEffects(task: Task, index: nat, st: RunState, o: Answers, n: nat): seq<Effect> {
    [ Call(task, st, o, n),
      PutStep(Entry(task, n, StepSucceeded)),
      PutExecution(Summary(task.id, StepSucceeded, n)),
      PutState(AdvancedState(st, index)) ]
  }

  function GiveUpEffects(task: Task, index: nat, st: RunState, o: Answers, n: nat): seq<Effect> {
    if o.heals(n) == AwaitingApproval then [PutState(PausedState(st, index, HealingApproval))]
    else
      (if task.rollbackPayload && o.rollbackHook
       then [CallRollback(task.id), PutStep(Entry(task, n, StepRolledBack))] else []) +
      [PutExecution(Summary(task.id, StepFailed, n)), PutState(FailedState(st, index))]
  }

  function AttemptEffects(task: Task, index: nat, st: RunState, o: Oracle): seq<Effect> {
    if task.maxAttempts <= 0 then [PutState(FailedState(st, index))]
    else
      var n := LastAttempt(task, o);
      if Succeeds(o, n)
      then FailedAttempts(task, st, o, n - 1) + SuccessEffects(task, index, st, o, n)
      else FailedAttempts(task, st, o, n) + GiveUpEffects(task, index, st, o, n)
  }

  function TaskEffects(task: Task, index: nat, st: RunState, o: Oracle): seq<Effect> {
    match GateOf(task, st, o)
    case Refused =>
      [ PutStep(Entry(task, 1, StepFailed)),
        PutExecution(Summary(task.id, StepFailed, 1)),
        PutState(FailedState(st, index)) ]
    case NeedsConsent =>
      [ PutState(PausedState(st, index, StepApproval)), PutStep(Entry(task, 0, StepPaused)) ]
    case Cleared => AttemptEffects(task, index, st, o)
  }

  predicate TaskCompletes(task: Task, st: RunState, o: Oracle) {
    GateOf(task, st, o).Cleared? && task.maxAttempts > 0 && Succeeds(o, LastAttempt(task, o))
  }

  /** The state after the last attempt of a task was given up. */
  function GivenUpState(task: Task, index: nat, st: RunState, o: Oracle): RunState {
    if task.maxAttempts > 0 && o.heals(LastAttempt(task, o)) == AwaitingApproval
    then PausedState(st, index, HealingApproval)
    else FailedState(st, index)
  }

  /** The state that the run is left in when a task does not complete. */
  function HaltedState(task: Task, index: nat, st: RunState, o: Oracle): RunState {
    match GateOf(task, st, o)
    case Refused => FailedState(st, index)
    case NeedsConsent => PausedState(st, index, StepApproval)
    case Cleared => GivenUpState(task, index, st, o)
  }

  /** The state that executing a task leaves behind. */
  function TaskState(task: Task, index: nat, st: RunState, o: Oracle): RunState {
    if TaskCompletes(task, st, o) then AdvancedState(st, index) else HaltedState(task, index, st, o)
  }

  // ---- The operations on a run ----

  /** The retry limits that the learning optimizer imposes, by adapter. */
  type Limits = map<string, int>

  function Limit(task: Task, limits: Limits): Task {
    if task.adapterId in limits then task.(maxAttempts := limits[task.adapterId]) else task
  }

  function Optimize(tasks: seq<Task>, limits: Limits): (r: seq<Task>)
    ensures |r| == |tasks|
    ensures forall i | 0 <= i < |tasks| :: r[i] == Limit(tasks[i], limits)
  {
    seq(|tasks|, i requires 0 <= i < |tasks| => Limit(tasks[i], limits))
  }

  function CompletedState(st: RunState, tasks: seq<Task>): RunState {
    st.(status := Completed, currentStepIndex := |tasks|, approvalRequired := false, pauseReason := None)
  }

  function LoopEffects(tasks: seq<Task>, st: RunState, env: nat -> Oracle): seq<Effect>
    decreases |tasks| - st.currentStepIndex
  {
    var index := st.currentStepIndex;
    if index >= |tasks| then [PutState(CompletedState(st, tasks)), RecordOutcome(true)]
    else
      TaskEffects(tasks[index], index, st, env(index)) +
      if TaskCompletes(tasks[index], st, env(index)) then LoopEffects(tasks, AdvancedState(st, index), env)
      else if HaltedState(tasks[index], index, st, env(index)).status == Failed then [RecordOutcome(false)]
      else []
  }

  function StartedState(st: RunState): RunState {
    st.(status := if st.status == Planned then Running else st.status, pauseReason := None)
  }

  function ExecuteEffects(plan: seq<Task>, st: RunState, limits: Limits, env: nat -> Oracle): seq<Effect> {
    [PutState(StartedState(st))] + LoopEffects(Optimize(plan, limits), StartedState(st), env)
  }

  datatype Op =
    | Execute(limits: Limits, env: nat -> Oracle)
    | Resume(approve: bool, limits: Limits, env: nat -> Oracle)
    | Retry(target: Option<string>, answers: Oracle)
    | Rollback(target: Option<string>, hook: bool)

  function FindTask(plan: seq<Task>, id: string): (i: nat)
    ensures i <= |plan|
    ensures i < |plan| ==> plan[i].id == id
    ensures forall j | 0 <= j < i :: plan[j].id != id
  {
    if plan == [] || plan[0].id == id then 0 else 1 + FindTask(plan[1..], id)
  }

  /** The step a retry works on; the plan's length stands for "step not found". */
  function RetryIndex(plan: seq<Task>, img: Image, target: Option<string>): (i: nat)
    ensures i <= |plan|
  {
    match target
    case Some(id) => FindTask(plan, id)
    case None =>
      var cur := img.state.currentStepIndex;
      if cur < |plan| then FindTask(plan, plan[cur].id) else |plan|
  }

  function RollbackIndex(plan: seq<Task>, img: Image, target: Option<string>): (i: nat)
    ensures i <= |plan|
  {
    match target
    case Some(id) => FindTask(plan, id)
    case None => if img.steps == [] then |plan| else FindTask(plan, img.steps[|img.steps| - 1].stepId)
  }

  predicate CanRollback(plan: seq<Task>, img: Image, target: Option<string>, hook: bool) {
    var i := RollbackIndex(plan, img, target);
    i < |plan| && hook && plan[i].rollbackPayload
  }

  function RetriedState(st: RunState, index: nat): RunState {
    st.(currentStepIndex := index, status := Running, pauseReason := None)
  }

  function ApprovedState(st: RunState): RunState {
    st.(approved := true, approvalRequired := false)
  }

  function SteppedBack(st: RunState): RunState {
    if st.currentStepIndex > 0 then st.(currentStepIndex := st.currentStepIndex - 1) else st
  }

  function RollbackEffects(task: Task, st: RunState): seq<Effect> {
    [ CallRollback(task.id),
      PutStep(StepLog(task.id, 1, StepRolledBack, true)),
      PutExecution(Summary(task.id, StepRolledBack, 1)),
      PutState(SteppedBack(st)) ]
  }

  /** The whole trace of an operation that starts from the files `img` and is not interrupted. */
  function OpEffects(plan: seq<Task>, img: Image, op: Op): seq<Effect> {
    match op
    case Execute(limits, env) => ExecuteEffects(plan, img.state, limits, env)
    case Resume(approve, limits, env) =>
      var st := if approve then ApprovedState(img.state) else img.state;
      (if approve then [PutState(st)] else []) +
      (if st.status == Completed then [] else ExecuteEffects(plan, st, limits, env))
    case Retry(target, o) =>
      var i := RetryIndex(plan, img, target);
      if i == |plan| then []
      else [PutState(RetriedState(img.state, i))] + TaskEffects(plan[i], i, RetriedState(img.state, i), o)
    case Rollback(target, hook) =>
      if CanRollback(plan, img, target, hook)
      then RollbackEffects(plan[RollbackIndex(plan, img, target)], img.state) else []
  }

  // ---- Whole runs ----

  /** An operation together with the number of its effects that took place before it was cut off. */
  datatype Event = Event(op: Op, cut: nat)

  function EventEffects(plan: seq<Task>, img: Image, e: Event): seq<Effect> {
    var all := OpEffects(plan, img, e.op);
    if e.cut < |all| then all[..e.cut] else all
  }

  predicate Interrupted(plan: seq<Task>, img: Image, e: Event) {
    e.cut < |OpEffects(plan, img, e.op)|
  }

  function Trace(plan: seq<Task>, img: Image, events: seq<Event>): seq<Effect>
    decreases |events|
  {
    if events == [] then []
    else
      var effects := EventEffects(plan, img, events[0]);
      effects + Trace(plan, Replay(img, effects), events[1..])
  }

  function After(plan: seq<Task>, img: Image, events: seq<Event>): Image
    decreases |events|
  {
    if events == [] then img else After(plan, Replay(img, EventEffects(plan, img, events[0])), events[1..])
  }

  /** The files of a run that has just been created. */
  function Created(approved: bool): Image {
    Image(RunState(0, Planned, false, approved, None), [], [])
  }
}
