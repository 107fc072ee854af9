/** The phases of a run report, and the loop that drives a report through them. */
module PhaseLoop {
  import opened Options
  import opened RunModel
  import opened RunAttempts

  datatype Phase = Intake | Planning | Skills | Gating | Building | Testing | Reviewing | Deployment

  const PHASES: seq<Phase> := [Intake, Planning, Skills, Gating, Building, Testing, Reviewing, Deployment]

  function Index(p: Phase): (i: nat)
    ensures i < |PHASES| && PHASES[i] == p
  {
    match p
    case Intake => 0 case Planning => 1 case Skills => 2 case Gating => 3
    case Building => 4 case Testing => 5 case Reviewing => 6 case Deployment => 7
  }

  datatype ReportStatus = InProgress | Success | Blocked | NeedsApproval

  /** Whether a report holds an intake result and a plan. */
  datatype Holdings = Holdings(intake: bool, plan: bool)

  datatype Report = Report(currentPhase: Phase, completedPhases: seq<Phase>, status: ReportStatus, data: Holdings)

  /** A report begins with an empty plan, which counts as one. */
  const FRESH := Report(Intake, [], InProgress, Holdings(false, true))

  datatype GateStatus = Pass | Fail | NeedsReview | GateBlocked | Pending

  /** A run of the execution engine on the stored bundle. */
  datatype Build = Build(plan: seq<Task>, image: Image, limits: Limits, env: nat -> Oracle)

  /** What the gates and the engine would do when a step of the pipeline asks them.  `build` is None when
      something that the building handler calls throws; `fails` says the same of the handlers before it. */
  datatype World = World(gates: GateStatus, build: Option<Build>, fails: bool)

  /** What they answer; `engine` is the status that the engine leaves. */
  datatype Answer = Answer(gates: GateStatus, engine: Option<RunStatus>, fails: bool)

  // ---- Handlers ----

  datatype HandlerStatus = Succeeded | HandlerBlocked | Waiting | HandlerFailed

  datatype HandlerResult = Throws | Result(nextPhase: Option<Phase>, status: HandlerStatus, data: Holdings)

  function EngineStatus(b: Build): RunStatus {
    Replay(b.image, ExecuteEffects(b.plan, b.image.state, b.limits, b.env)).state.status
  }

  /** What the building handler makes of the status that the engine leaves. */
  function AfterEngine(status: RunStatus, data: Holdings): HandlerResult {
    Result(if status == Completed then Some(Testing) else Some(Building),
           if status == Paused then Waiting else if status == Failed then HandlerFailed else Succeeded,
           data)
  }

  function AnswerOf(world: World): Answer {
    Answer(world.gates, match world.build case None => None case Some(b) => Some(EngineStatus(b)), world.fails)
  }

  /** An engine that does not throw leaves the run completed, paused or failed. */
  predicate SettledAnswer(a: Answer) {
    a.engine.Some? ==> Settled(a.engine.value)
  }

  lemma AnswersSettle(world: World)
    ensures SettledAnswer(AnswerOf(world))
  {
    if world.build.Some? {
      var b := world.build.value;
      ExecuteSettles(b.plan, b.image, b.limits, b.env);
    }
  }

  /** Something that the handler of the phase calls throws; the last three handlers call nothing. */
  predicate CallThrows(phase: Phase, a: Answer) {
    match phase
    case Intake | Planning | Skills | Gating => a.fails
    case Building => a.engine.None?
    case _ => false
  }

  /** A handler throws when data that it needs are missing, and when something that it calls throws. */
  function Handle(report: Report, a: Answer): HandlerResult {
    var data := report.data;
    match report.currentPhase
    case Intake => if a.fails then Throws else Result(Some(Planning), Succeeded, data.(intake := true))
    case Planning => if !data.intake || a.fails then Throws else Result(Some(Skills), Succeeded, data.(plan := true))
    case Skills => if !data.intake || !data.plan || a.fails then Throws else Result(Some(Gating), Succeeded, data)
    case Gating =>
      if a.fails then Throws
      else if a.gates == Pass then Result(Some(Building), Succeeded, data)
      else Result(Some(Gating), if a.gates == GateBlocked then HandlerBlocked else Waiting, data)
    case Building => if a.engine.None? then Throws else AfterEngine(a.engine.value, data)
    case Testing => Result(Some(Reviewing), Succeeded, data)
    case Reviewing => Result(Some(Deployment), Succeeded, data)
    case Deployment => Result(None, Succeeded, data)
  }

  datatype StepResult = StepResult(report: Report, isFinished: bool)

  function Advance(report: Report, r: HandlerResult): StepResult
    requires r.Result?
  {
    var updated := report.(data := r.data);
    if r.status == Succeeded then
      if r.nextPhase.Some? then
        StepResult(updated.(completedPhases := report.completedPhases + [report.currentPhase],
                            currentPhase := r.nextPhase.value, status := InProgress), false)
      else StepResult(updated.(status := Success), true)
    else StepResult(updated.(status := if r.status == HandlerBlocked then Blocked else NeedsApproval), false)
  }

  /** One step of the pipeline; None when its handler throws. */
  function Step(report: Report, a: Answer): Option<StepResult> {
    var r := Handle(report, a);
    if r.Throws? then None else Some(Advance(report, r))
  }

  // ---- What every step keeps ----

  /** The completed phases are exactly those before the current one, in order. */
  predicate InOrder(report: Report) {
    report.completedPhases == PHASES[..Index(report.currentPhase)]
  }

  /** After a successful step that is not the last one the report stands at the next phase; otherwise it
      stays where it is, finished or waiting. */
  predicate Forward(report: Report, s: StepResult) {
    if s.isFinished then s.report.currentPhase == report.currentPhase == Deployment && s.report.status == Success
    else if s.report.status == InProgress then Index(s.report.currentPhase) == Index(report.currentPhase) + 1
    else s.report.currentPhase == report.currentPhase && s.report.status in {Blocked, NeedsApproval}
  }

  /** Every step moves forward: the building phase is left only because the engine settles the run. */
  lemma StepGoesForward(report: Report, a: Answer)
    requires Step(report, a).Some? && SettledAnswer(a)
    ensures Forward(report, Step(report, a).value)
  {
  }

  lemma StepKeepsOrder(report: Report, a: Answer)
    requires Step(report, a).Some? && SettledAnswer(a) && InOrder(report)
    ensures InOrder(Step(report, a).value.report)
  {
    StepGoesForward(report, a);
    var next := Step(report, a).value.report;
    if next.status == InProgress {
      assert PHASES[..Index(report.currentPhase)] + [report.currentPhase] == PHASES[..Index(next.currentPhase)];
    }
  }

  /** The report holds what the phases before the current one have left. */
  predicate Equipped(report: Report) {
    && (Index(report.currentPhase) > Index(Intake) ==> report.data.intake)
    && (Index(report.currentPhase) > Index(Planning) ==> report.data.plan)
  }

  lemma StepKeepsEquipped(report: Report, a: Answer)
    requires Equipped(report) && SettledAnswer(a)
    ensures Step(report, a).None? <==> CallThrows(report.currentPhase, a)
    ensures Step(report, a).Some? ==> Equipped(Step(report, a).value.report)
  {
  }

  /** The building phase is left exactly when the engine completes the run; a failed run does not fail the
      report but leaves it waiting for approval, like a paused one. */
  lemma BuildingOutcome(report: Report, world: World)
    requires report.currentPhase == Building && world.build.Some?
    ensures Step(report, AnswerOf(world)).Some?
    ensures var s := Step(report, AnswerOf(world)).value.report;
      if EngineStatus(world.build.value) == Completed then s.currentPhase == Testing && s.status == InProgress
      else s.currentPhase == Building && s.status == NeedsApproval
  {
    AnswersSettle(world);
  }

  /** The gating phase is left exactly when the gates pass; blocked gates block the report, any other answer leaves it
      waiting for approval. */
  lemma GatingOutcome(report: Report, a: Answer)
    requires report.currentPhase == Gating && !a.fails
    ensures Step(report, a).Some?
    ensures var s := Step(report, a).value.report;
      match a.gates
      case Pass => s.currentPhase == Building && s.status == InProgress && s.completedPhases == report.completedPhases + [Gating]
      case GateBlocked => s == report.(status := Blocked)
      case _ => s == report.(status := NeedsApproval)
  {
  }

  /** The handler itself does not ensure progress: any status other than those three that the engine could
      leave would count as a success of the building phase and repeat it without end. */
  lemma UnsettledWouldRepeat(report: Report, status: RunStatus)
    requires report.currentPhase == Building
    ensures var s := Advance(report, AfterEngine(status, report.data));
      s.report.currentPhase == Building && s.report.status == InProgress && !s.isFinished <==> !Settled(status)
  {
  }

  // ---- The driving loop ----

  /** A report at which the loop stops. */
  predicate Stopped(s: StepResult) {
    s.isFinished || s.report.status != InProgress
  }

  /** The result of step number `n` of the pipeline, counted from 0; None when a handler throws or the
      loop has stopped before. */
  function After(start: Report, answers: nat -> Answer, n: nat): Option<StepResult> {
    if n == 0 then Step(start, answers(0))
    else match After(start, answers, n - 1)
      case None => None
      case Some(s) => if Stopped(s) then None else Step(s.report, answers(n))
  }

  ghost predicate AllSettled(answers: nat -> Answer) {
    forall n: nat :: SettledAnswer(answers(n))
  }

  function Remaining(s: StepResult): nat {
    if Stopped(s) then 0 else |PHASES| - Index(s.report.currentPhase)
  }

  /** Drives a report: one step in expert mode, otherwise as long as the report is in progress.  The loop
      ends because each turn leaves one phase behind.  `steps` counts the steps; None is a thrown error. */
  method Drive(expert: bool, start: Report, answers: nat -> Answer) returns (r: Option<StepResult>, steps: nat)
    requires InOrder(start) && AllSettled(answers)
    ensures 1 <= steps <= |PHASES| - Index(start.currentPhase)
    ensures r == After(start, answers, steps - 1)
    ensures r.Some? ==> InOrder(r.value.report)
    ensures expert ==> steps == 1
    ensures r.Some? && !expert ==> Stopped(r.value)
  {
    r, steps := Step(start, answers(0)), 1;
    if r.None? {
      return;
    }
    assert SettledAnswer(answers(0));
    StepKeepsOrder(start, answers(0));
    StepGoesForward(start, answers(0));
    if !expert {
      while !r.value.isFinished && r.value.report.status == InProgress
        invariant r.Some? && InOrder(r.value.report)
        invariant 1 <= steps <= |PHASES| - Index(start.currentPhase) && r == After(start, answers, steps - 1)
        invariant !Stopped(r.value) ==> Index(r.value.report.currentPhase) == Index(start.currentPhase) + steps
        decreases Remaining(r.value)
      {
        var report := r.value.report;
        var answer := answers(steps);
        assert SettledAnswer(answer);
        steps := steps + 1;
        var next := Step(report, answer);
        if next.None? {
          return None, steps;
        }
        StepKeepsOrder(report, answer);
        StepGoesForward(report, answer);
        r := next;
      }
    }
  }

  /** The answers that a series of worlds gives. */
  function Asked(worlds: nat -> World): nat -> Answer { (n: nat) => AnswerOf(worlds(n)) }

  lemma AskedSettle(worlds: nat -> World)
    ensures AllSettled(Asked(worlds))
  {
    forall n: nat ensures SettledAnswer(Asked(worlds)(n)) {
      AnswersSettle(worlds(n));
    }
  }

  /** For every engine and every gate the driving loop ends, after at most one step per phase that is left;
      the phases completed by then are those before the current one, in order. */
  method RunVerticalSlice(expert: bool, start: Report, worlds: nat -> World) returns (r: Option<StepResult>, steps: nat)
    requires InOrder(start)
    ensures 1 <= steps <= |PHASES| - Index(start.currentPhase)
    ensures r == After(start, Asked(worlds), steps - 1)
    ensures r.Some? ==> InOrder(r.value.report)
    ensures expert ==> steps == 1
    ensures r.Some? && !expert ==> Stopped(r.value)
  {
    AskedSettle(worlds);
    r, steps := Drive(expert, start, Asked(worlds));
  }

  /** Each further step of an autonomous run works on the next phase. */
  lemma {:induction false} PhaseOfStep(start: Report, answers: nat -> Answer, n: nat)
    requires After(start, answers, n).Some? && AllSettled(answers)
    ensures var s := After(start, answers, n).value;
      Index(s.report.currentPhase) == Index(start.currentPhase) + if Stopped(s) then n else n + 1
    ensures var s := After(start, answers, n).value; s.isFinished ==> s.report.currentPhase == Deployment
    decreases n
  {
    assert SettledAnswer(answers(n));
    if n == 0 {
      StepGoesForward(start, answers(0));
    } else {
      PhaseOfStep(start, answers, n - 1);
      StepGoesForward(After(start, answers, n - 1).value.report, answers(n));
    }
  }

  lemma {:induction false} StaysEquipped(start: Report, answers: nat -> Answer, n: nat)
    requires Equipped(start) && AllSettled(answers) && After(start, answers, n).Some?
    ensures Equipped(After(start, answers, n).value.report)
    decreases n
  {
    assert SettledAnswer(answers(n));
    if n == 0 {
      StepKeepsEquipped(start, answers(0));
    } else {
      StaysEquipped(start, answers, n - 1);
      StepKeepsEquipped(After(start, answers, n - 1).value.report, answers(n));
    }
  }

  /** In a run from a report that holds what its phase needs, a step throws exactly when something that its
      handler calls throws: the handlers' own checks for missing data never fail. */
  lemma RunThrowsIff(start: Report, answers: nat -> Answer, n: nat)
    requires Equipped(start) && AllSettled(answers) && After(start, answers, n).Some?
    requires !Stopped(After(start, answers, n).value)
    ensures After(start, answers, n + 1).None? <==>
      CallThrows(After(start, answers, n).value.report.currentPhase, answers(n + 1))
  {
    StaysEquipped(start, answers, n);
    assert SettledAnswer(answers(n + 1));
    StepKeepsEquipped(After(start, answers, n).value.report, answers(n + 1));
  }

  /** The steps before a step have not stopped the run. */
  lemma {:induction false} Earlier(start: Report, answers: nat -> Answer, n: nat, m: nat)
    requires After(start, answers, n).Some? && m < n
    ensures After(start, answers, m).Some? && !Stopped(After(start, answers, m).value)
    decreases n
  {
    if m < n - 1 {
      Earlier(start, answers, n - 1, m);
    }
  }

  /** A run that begins afresh and succeeds has taken eight steps, has passed its gates, and has been built
      by a completed engine run. */
  lemma SuccessPassedEverything(answers: nat -> Answer, n: nat)
    requires AllSettled(answers)
    requires After(FRESH, answers, n).Some? && After(FRESH, answers, n).value.isFinished
    ensures n == 7 && answers(3).gates == Pass && answers(4).engine == Some(Completed)
  {
    PhaseOfStep(FRESH, answers, n);
    Earlier(FRESH, answers, n, 2);
    Earlier(FRESH, answers, n, 3);
    Earlier(FRESH, answers, n, 4);
    PhaseOfStep(FRESH, answers, 2);
    PhaseOfStep(FRESH, answers, 3);
    PhaseOfStep(FRESH, answers, 4);
    assert After(FRESH, answers, 3) == Step(After(FRESH, answers, 2).value.report, answers(3));
    assert After(FRESH, answers, 4) == Step(After(FRESH, answers, 3).value.report, answers(4));
  }
}
