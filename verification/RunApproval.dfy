/** Approvals are spent: a run never carries out more gated steps than it was given approvals for. */
module RunApproval {
  import opened Options
  import opened RunModel
  import opened RunSafety

  function Bit(b: bool): nat { if b then 1 else 0 }

  /** The number of successful executions of steps that needed approval. */
  function GatedSuccesses(effects: seq<Effect>): nat
    decreases |effects|
  {
    if effects == [] then 0
    else Bit(GatedSuccess(effects[0])) + GatedSuccesses(effects[1..])
  }

  lemma {:induction false} GatedSuccessesConcat(a: seq<Effect>, b: seq<Effect>)
    ensures GatedSuccesses(a + b) == GatedSuccesses(a) + GatedSuccesses(b)
    decreases |a|
  {
    if a == [] {
      assert a + b == b;
    } else {
      assert (a + b)[1..] == a[1..] + b;
      GatedSuccessesConcat(a[1..], b);
    }
  }

  /** Every adapter call of a gated step is made while the run is approved. */
  ghost predicate CallsApproved(effects: seq<Effect>) {
    forall k | 0 <= k < |effects| && effects[k].CallExecute? && effects[k].gated :: effects[k].approved
  }

  predicate GatedSuccess(e: Effect) { e.CallExecute? && e.gated && e.ok }

  /** The latest gated success of the trace has not been followed by a write of the run state. */
  ghost predicate Unsaved(effects: seq<Effect>) {
    exists i: nat :: UnsavedAt(effects, i)
  }

  /** The gated successes of a trace together with an approval still held are at most `budget`, plus one
      exactly while a success is unsaved; the approval that it used is then still held. */
  ghost predicate Within(img: Image, effects: seq<Effect>, budget: nat) {
    && GatedSuccesses(effects) + Bit(Replay(img, effects).state.approved) <= budget + Bit(Unsaved(effects))
    && (Unsaved(effects) ==> Replay(img, effects).state.approved)
  }

  /** The budget is kept at every point of the trace, and nothing is unsaved at its end. */
  ghost predicate Spends(img: Image, effects: seq<Effect>, budget: nat) {
    !Unsaved(effects) && forall cut | 0 <= cut <= |effects| :: Within(img, effects[..cut], budget)
  }

  lemma SpendsAll(img: Image, effects: seq<Effect>, budget: nat)
    requires Spends(img, effects, budget)
    ensures GatedSuccesses(effects) + Bit(Replay(img, effects).state.approved) <= budget
  {
    assert effects[..|effects|] == effects;
    assert Within(img, effects[..|effects|], budget);
  }

  /** The effect is a gated success that no state write follows. */
  predicate UnsavedAt(effects: seq<Effect>, i: nat) {
    i < |effects| && GatedSuccess(effects[i]) && forall j | i < j < |effects| :: !effects[j].PutState?
  }

  lemma UnsavedShifts(a: seq<Effect>, b: seq<Effect>, i: nat)
    ensures UnsavedAt(a + b, |a| + i) == UnsavedAt(b, i)
    ensures i < |a| && UnsavedAt(a + b, i) ==> UnsavedAt(a, i)
  {
    var all := a + b;
    assert forall k | 0 <= k < |a| :: all[k] == a[k];
    assert forall k | 0 <= k < |b| :: all[|a| + k] == b[k];
    if i < |b| && UnsavedAt(all, |a| + i) {
      forall j | i < j < |b| ensures !b[j].PutState? {
        assert !all[|a| + j].PutState?;
      }
    }
    if UnsavedAt(b, i) {
      forall j | |a| + i < j < |all| ensures !all[j].PutState? {
        assert all[j] == b[j - |a|];
      }
    }
  }

  lemma UnsavedConcat(a: seq<Effect>, b: seq<Effect>)
    requires !Unsaved(a)
    ensures Unsaved(a + b) == Unsaved(b)
  {
    if Unsaved(a + b) {
      var i: nat :| UnsavedAt(a + b, i);
      UnsavedShifts(a, b, i);
      UnsavedShifts(a, b, if i < |a| then 0 else i - |a|);
    }
    if Unsaved(b) {
      var i: nat :| UnsavedAt(b, i);
      UnsavedShifts(a, b, i);
    }
  }

  lemma SpendsConcat(img: Image, a: seq<Effect>, b: seq<Effect>, budget: nat)
    requires Spends(img, a, budget)
    requires GatedSuccesses(a) <= budget && Spends(Replay(img, a), b, budget - GatedSuccesses(a))
    ensures Spends(img, a + b, budget)
  {
    UnsavedConcat(a, b);
    forall cut | 0 <= cut <= |a + b| ensures Within(img, (a + b)[..cut], budget) {
      if cut <= |a| {
        assert (a + b)[..cut] == a[..cut];
      } else {
        var k := cut - |a|;
        assert (a + b)[..cut] == a + b[..k];
        assert Within(Replay(img, a), b[..k], budget - GatedSuccesses(a));
        UnsavedConcat(a, b[..k]);
        GatedSuccessesConcat(a, b[..k]);
        ReplayConcat(img, a, b[..k]);
      }
    }
  }

  /** Effects with no gated success and no change to the approval. */
  predicate Neutral(st: RunState, e: Effect) {
    && !GatedSuccess(e)
    && (e.PutState? ==> e.state.approved == st.approved)
  }

  lemma {:induction false} NeutralSpends(img: Image, effects: seq<Effect>)
    requires forall k | 0 <= k < |effects| :: Neutral(img.state, effects[k])
    ensures GatedSuccesses(effects) == 0 && Replay(img, effects).state.approved == img.state.approved
    ensures Spends(img, effects, Bit(img.state.approved))
    decreases |effects|
  {
    NeutralTotal(img, effects);
    forall cut | 0 <= cut <= |effects| ensures Within(img, effects[..cut], Bit(img.state.approved)) {
      NeutralTotal(img, effects[..cut]);
    }
  }

  lemma {:induction false} NeutralTotal(img: Image, effects: seq<Effect>)
    requires forall k | 0 <= k < |effects| :: Neutral(img.state, effects[k])
    ensures GatedSuccesses(effects) == 0 && Replay(img, effects).state.approved == img.state.approved
    decreases |effects|
  {
    if effects != [] {
      assert Neutral(img.state, effects[0]);
      NeutralTotal(Apply(img, effects[0]), effects[1..]);
    }
  }

  lemma {:induction false} FailedAttemptsNeutral(task: Task, st: RunState, o: Oracle, n: nat)
    requires forall j: nat | 1 <= j <= n :: !Succeeds(o, j)
    requires NeedsApproval(task, o) ==> st.approved
    ensures forall k | 0 <= k < |FailedAttempts(task, st, o, n)| :: Neutral(st, FailedAttempts(task, st, o, n)[k])
    ensures CallsApproved(FailedAttempts(task, st, o, n))
  {
    if n > 0 {
      assert !Succeeds(o, n);
      FailedAttemptsNeutral(task, st, o, n - 1);
    }
  }

  lemma CompletedTaskSpends(img: Image, task: Task, index: nat, o: Oracle)
    requires TaskCompletes(task, img.state, o)
    ensures var e := TaskEffects(task, index, img.state, o);
      Spends(img, e, Bit(img.state.approved)) && CallsApproved(e)
  {
    var st := img.state;
    var n := LastAttempt(task, o);
    forall j: nat | 1 <= j <= n - 1 ensures !Succeeds(o, j) { assert !Stops(o, task.maxAttempts, j); }
    var before, last := FailedAttempts(task, st, o, n - 1), SuccessEffects(task, index, st, o, n);
    FailedAttemptsNeutral(task, st, o, n - 1);
    NeutralSpends(img, before);
    KeepsStateReplay(img, before) by { FailedAttemptsKeepState(task, st, o, n - 1); }
    SuccessSpends(Replay(img, before), task, index, st, o, n);
    SpendsConcat(img, before, last, Bit(st.approved));
  }

  lemma HaltedTaskSpends(img: Image, task: Task, index: nat, o: Oracle)
    requires !TaskCompletes(task, img.state, o)
    ensures var e := TaskEffects(task, index, img.state, o);
      Spends(img, e, Bit(img.state.approved)) && CallsApproved(e)
  {
    var st := img.state;
    if GateOf(task, st, o).Cleared? && task.maxAttempts > 0 {
      var n := LastAttempt(task, o);
      forall j: nat | 1 <= j <= n ensures !Succeeds(o, j) { if j < n { assert !Stops(o, task.maxAttempts, j); } }
      FailedAttemptsNeutral(task, st, o, n);
    }
    NeutralSpends(img, TaskEffects(task, index, st, o));
  }

  /** A task never spends more than the approval it holds, and never calls a gated adapter without one. */
  lemma TaskSpends(img: Image, task: Task, index: nat, o: Oracle)
    ensures var e := TaskEffects(task, index, img.state, o);
      Spends(img, e, Bit(img.state.approved)) && CallsApproved(e)
  {
    if TaskCompletes(task, img.state, o) {
      CompletedTaskSpends(img, task, index, o);
    } else {
      HaltedTaskSpends(img, task, index, o);
    }
  }

  lemma SuccessSpends(img: Image, task: Task, index: nat, st: RunState, o: Oracle, n: nat)
    requires img.state == st && GateOf(task, st, o).Cleared? && Succeeds(o, n)
    ensures Spends(img, SuccessEffects(task, index, st, o, n), Bit(st.approved))
  {
    var e := SuccessEffects(task, index, st, o, n);
    var quiet := e[..3];
    assert e == quiet + [e[3]];
    ReplayConcat(img, quiet, [e[3]]);
    assert [e[3]][1..] == [];
    GatedSuccessesConcat(quiet, [e[3]]);
    forall cut | 0 <= cut <= 3 ensures Within(img, e[..cut], Bit(st.approved)) {
      var part := e[..cut];
      KeepsStateReplay(img, part);
      if cut > 0 {
        NeutralTotal(img, part[1..]);
        assert GatedSuccess(part[0]) ==> UnsavedAt(part, 0);
      }
    }
    assert e[3].PutState? && !GatedSuccess(e[3]);
    assert e[..4] == e;
    NeutralTotal(img, quiet[1..]);
    KeepsStateReplay(img, quiet);
  }

  lemma {:induction false} LoopSpends(tasks: seq<Task>, img: Image, env: nat -> Oracle)
    ensures var e := LoopEffects(tasks, img.state, env);
      Spends(img, e, Bit(img.state.approved)) && CallsApproved(e)
    decreases |tasks| - img.state.currentStepIndex
  {
    var st := img.state;
    var index := st.currentStepIndex;
    if index >= |tasks| {
      NeutralSpends(img, LoopEffects(tasks, st, env));
    } else {
      var o := env(index);
      var effects := TaskEffects(tasks[index], index, st, o);
      TaskSpends(img, tasks[index], index, o);
      SpendsAll(img, effects, Bit(st.approved));
      TaskEndState(img, tasks[index], index, o);
      var next := Replay(img, effects);
      if TaskCompletes(tasks[index], st, o) {
        LoopSpends(tasks, next, env);
        SpendsMore(next, LoopEffects(tasks, next.state, env), Bit(next.state.approved), Bit(st.approved) - GatedSuccesses(effects));
        SpendsConcat(img, effects, LoopEffects(tasks, next.state, env), Bit(st.approved));
      } else {
        var rest := if HaltedState(tasks[index], index, st, o).status == Failed then [RecordOutcome(false)] else [];
        NeutralSpends(next, rest);
        SpendsMore(next, rest, Bit(next.state.approved), Bit(st.approved) - GatedSuccesses(effects));
        SpendsConcat(img, effects, rest, Bit(st.approved));
      }
    }
  }

  lemma SpendsMore(img: Image, effects: seq<Effect>, budget: nat, more: nat)
    requires Spends(img, effects, budget) && budget <= more
    ensures Spends(img, effects, more)
  {
    forall cut | 0 <= cut <= |effects| ensures Within(img, effects[..cut], more) {
      assert Within(img, effects[..cut], budget);
    }
  }

  lemma ExecuteSpends(plan: seq<Task>, img: Image, limits: Limits, env: nat -> Oracle)
    ensures var e := ExecuteEffects(plan, img.state, limits, env);
      Spends(img, e, Bit(img.state.approved)) && CallsApproved(e)
  {
    PutThen(img, StartedState(img.state), LoopEffects(Optimize(plan, limits), StartedState(img.state), env)) by {
      LoopSpends(Optimize(plan, limits), img.(state := StartedState(img.state)), env);
    }
  }

  /** A first write that keeps the approval, and then the rest of the trace. */
  lemma PutThen(img: Image, s: RunState, rest: seq<Effect>)
    requires s.approved == img.state.approved
    requires Spends(img.(state := s), rest, Bit(s.approved)) && CallsApproved(rest)
    ensures Spends(img, [PutState(s)] + rest, Bit(img.state.approved)) && CallsApproved([PutState(s)] + rest)
  {
    NeutralSpends(img, [PutState(s)]);
    assert [PutState(s)][1..] == [];
    assert Replay(img, [PutState(s)]) == img.(state := s);
    SpendsConcat(img, [PutState(s)], rest, Bit(img.state.approved));
  }

  predicate Grants(op: Op) { op.Resume? && op.approve }

  /** An operation spends at most the approval that the run holds and the one that it grants. */
  lemma OpSpends(plan: seq<Task>, img: Image, op: Op)
    ensures var e := OpEffects(plan, img, op);
      Spends(img, e, Bit(img.state.approved) + Bit(Grants(op))) && CallsApproved(e)
  {
    match op
    case Execute(limits, env) => ExecuteSpends(plan, img, limits, env);
    case Resume(approve, limits, env) =>
      if !approve {
        if img.state.status == Completed { NeutralSpends(img, []); } else { ExecuteSpends(plan, img, limits, env); }
        assert OpEffects(plan, img, op) ==
          if img.state.status == Completed then [] else ExecuteEffects(plan, img.state, limits, env);
      } else {
        GrantSpends(plan, img, limits, env);
      }
    case Retry(target, o) =>
      var i := RetryIndex(plan, img, target);
      if i == |plan| {
        NeutralSpends(img, []);
      } else {
        var s := RetriedState(img.state, i);
        TaskSpends(img.(state := s), plan[i], i, o);
        PutThen(img, s, TaskEffects(plan[i], i, s, o));
      }
    case Rollback(target, hook) => NeutralSpends(img, OpEffects(plan, img, op));
  }

  /** Granting an approval makes it one, however many were held before. */
  lemma GrantSpends(plan: seq<Task>, img: Image, limits: Limits, env: nat -> Oracle)
    ensures var st := ApprovedState(img.state);
      var rest := if st.status == Completed then [] else ExecuteEffects(plan, st, limits, env);
      && OpEffects(plan, img, Resume(true, limits, env)) == [PutState(st)] + rest
      && Spends(img.(state := st), rest, 1) && CallsApproved(rest)
    ensures var e := OpEffects(plan, img, Resume(true, limits, env));
      Spends(img, e, Bit(img.state.approved) + 1) && CallsApproved(e)
  {
    var st := ApprovedState(img.state);
    var first := [PutState(st)];
    var rest := if st.status == Completed then [] else ExecuteEffects(plan, st, limits, env);
    assert first[1..] == [];
    assert Replay(img, first) == img.(state := st);
    forall cut | 0 <= cut <= 1 ensures Within(img, first[..cut], Bit(img.state.approved) + 1) {
      assert first[..cut] == if cut == 0 then [] else first;
    }
    if st.status == Completed {
      NeutralSpends(img.(state := st), rest);
    } else {
      ExecuteSpends(plan, img.(state := st), limits, env);
    }
    SpendsMore(img.(state := st), rest, 1, Bit(img.state.approved) + 1);
    SpendsConcat(img, first, rest, Bit(img.state.approved) + 1);
  }

  // ---- Operations that are cut off ----

  /** The approval that an event used is still there for the next one to use: a gated success of the event
      has not reached the run state, and the event had no further approval that it let go to waste. */
  ghost predicate Reusable(plan: seq<Task>, img: Image, e: Event) {
    Unsaved(EventEffects(plan, img, e)) && !(Grants(e.op) && img.state.approved)
  }

  /** An event, whole or cut off anywhere, spends more than the approvals that the run held and that it
      granted exactly when it leaves its approval reusable, and then by one. */
  lemma OverspendsIff(plan: seq<Task>, img: Image, e: Event)
    ensures var effects := EventEffects(plan, img, e);
      var spent := GatedSuccesses(effects) + Bit(Replay(img, effects).state.approved);
      var budget := Bit(img.state.approved) + Bit(Grants(e.op));
      && (spent > budget <==> Reusable(plan, img, e))
      && spent <= budget + Bit(Reusable(plan, img, e))
  {
    var all, effects := OpEffects(plan, img, e.op), EventEffects(plan, img, e);
    var cut := if e.cut < |all| then e.cut else |all|;
    assert effects == all[..cut];
    OpSpends(plan, img, e.op);
    assert Within(img, all[..cut], Bit(img.state.approved) + Bit(Grants(e.op)));
    if Unsaved(effects) {
      UnsavedCounts(effects);
    }
    if Grants(e.op) && cut > 0 {
      GrantSpends(plan, img, e.op.limits, e.op.env);
      var st := ApprovedState(img.state);
      var rest := all[1..];
      assert all == [PutState(st)] + rest && effects == [PutState(st)] + rest[..cut - 1];
      assert Within(img.(state := st), rest[..cut - 1], 1);
      UnsavedConcat([PutState(st)], rest[..cut - 1]);
      assert effects[1..] == rest[..cut - 1];
    }
  }

  lemma {:induction false} UnsavedCounts(effects: seq<Effect>)
    requires Unsaved(effects)
    ensures GatedSuccesses(effects) > 0
    decreases |effects|
  {
    var i: nat :| UnsavedAt(effects, i);
    if i > 0 {
      assert effects == [effects[0]] + effects[1..];
      UnsavedShifts([effects[0]], effects[1..], i - 1);
      UnsavedCounts(effects[1..]);
    }
  }

  // ---- Whole runs ----

  /** The approvals granted by the operations of a run. */
  function Granted(events: seq<Event>): nat {
    if events == [] then 0 else Bit(Grants(events[0].op)) + Granted(events[1..])
  }

  /** The events of a run that left their approval reusable. */
  ghost function Reuses(plan: seq<Task>, img: Image, events: seq<Event>): nat
    decreases |events|
  {
    if events == [] then 0
    else
      Bit(Reusable(plan, img, events[0])) +
      Reuses(plan, Replay(img, EventEffects(plan, img, events[0])), events[1..])
  }

  /** Over every run, the gated steps carried out are at most the approvals granted, plus the one the run
      may be created with, plus one for each event that was cut off between a gated success and its state
      write; and no gated adapter call is ever made without approval. */
  lemma {:induction false} ApprovalsAreConserved(plan: seq<Task>, img: Image, events: seq<Event>)
    ensures GatedSuccesses(Trace(plan, img, events)) + Bit(After(plan, img, events).state.approved)
         <= Bit(img.state.approved) + Granted(events) + Reuses(plan, img, events)
    ensures CallsApproved(Trace(plan, img, events))
    decreases |events|
  {
    if events != [] {
      var all := OpEffects(plan, img, events[0].op);
      var effects := EventEffects(plan, img, events[0]);
      var next := Replay(img, effects);
      OpSpends(plan, img, events[0].op);
      OverspendsIff(plan, img, events[0]);
      assert effects == all[..|effects|];
      ApprovalsAreConserved(plan, next, events[1..]);
      GatedSuccessesConcat(effects, Trace(plan, next, events[1..]));
    }
  }

  /** An event that is not cut off leaves nothing reusable. */
  lemma WholeEventSaves(plan: seq<Task>, img: Image, e: Event)
    requires !Interrupted(plan, img, e)
    ensures !Reusable(plan, img, e)
  {
    OpSpends(plan, img, e.op);
  }

  // ---- An approval used twice ----

  function GatedTask(): Task { Task("a", "terminal", true, 1, true) }

  /** The first two effects of an execution of one approved gated task: the run is started, and the step is
      carried out. */
  lemma FirstTwo(plan: seq<Task>, img: Image, env: nat -> Oracle)
    requires plan == [GatedTask()] && env == (k => AllGood())
    requires img.state.currentStepIndex == 0 && img.state.approved
    ensures var e := EventEffects(plan, img, Event(Execute(map[], env), 2));
      e == [PutState(StartedState(img.state)), CallExecute("a", 1, true, true, true)]
  {
    var s := StartedState(img.state);
    NoLimits(plan);
    assert LastAttempt(plan[0], AllGood()) == 1;
    assert FailedAttempts(plan[0], s, AllGood(), 0) == [];
    assert TaskEffects(plan[0], 0, s, AllGood()) == SuccessEffects(plan[0], 0, s, AllGood(), 1);
    assert TaskCompletes(plan[0], s, AllGood());
    var all := ExecuteEffects(plan, img.state, map[], env);
    assert all[0] == PutState(s) && all[1] == SuccessEffects(plan[0], 0, s, AllGood(), 1)[0];
  }

  lemma TwoEffects(plan: seq<Task>, img: Image, env: nat -> Oracle)
    requires plan == [GatedTask()] && env == (k => AllGood())
    requires img.state.currentStepIndex == 0 && img.state.approved
    ensures var cutOff := Event(Execute(map[], env), 2);
      var e := EventEffects(plan, img, cutOff);
      && GatedSuccesses(e) == 1 && Reusable(plan, img, cutOff)
      && Replay(img, e).state.currentStepIndex == 0 && Replay(img, e).state.approved
  {
    FirstTwo(plan, img, env);
    var e := EventEffects(plan, img, Event(Execute(map[], env), 2));
    assert e[1..][1..] == [] && e[1..][0] == e[1];
    assert GatedSuccess(e[1]) && !GatedSuccess(e[0]) && UnsavedAt(e, 1);
    assert GatedSuccesses(e[1..]) == 1 + GatedSuccesses(e[1..][1..]);
    var next := Apply(img, e[0]);
    assert Replay(next, e[1..]) == Replay(Apply(next, e[1]), e[1..][1..]);
  }

  lemma TwoEvents(plan: seq<Task>, img: Image, a: Event, b: Event)
    ensures var next := Replay(img, EventEffects(plan, img, a));
      && GatedSuccesses(Trace(plan, img, [a, b])) ==
         GatedSuccesses(EventEffects(plan, img, a)) + GatedSuccesses(EventEffects(plan, next, b))
      && Reuses(plan, img, [a, b]) == Bit(Reusable(plan, img, a)) + Bit(Reusable(plan, next, b))
      && Granted([a, b]) == Bit(Grants(a.op)) + Bit(Grants(b.op))
  {
    var e := EventEffects(plan, img, a);
    var next := Replay(img, e);
    var f := EventEffects(plan, next, b);
    assert [a, b][1..] == [b] && [b][1..] == [];
    assert Trace(plan, next, [b]) == f + Trace(plan, Replay(next, f), []);
    assert f + [] == f;
    assert Trace(plan, img, [a, b]) == e + f;
    GatedSuccessesConcat(e, f);
    assert Reuses(plan, next, [b]) == Bit(Reusable(plan, next, b)) + Reuses(plan, Replay(next, f), []);
    assert Granted([b]) == Bit(Grants(b.op)) + Granted([]);
  }

  /** A run that is created with one approval, is granted none, and carries out its gated step twice. */
  lemma ApprovalUsedTwice(env: nat -> Oracle)
    requires env == (k => AllGood())
    ensures var plan, cutOff := [GatedTask()], Event(Execute(map[], env), 2);
      && GatedSuccesses(Trace(plan, Created(true), [cutOff, cutOff])) == 2
      && Granted([cutOff, cutOff]) == 0 && Reuses(plan, Created(true), [cutOff, cutOff]) == 2
  {
    var plan, cutOff := [GatedTask()], Event(Execute(map[], env), 2);
    TwoEffects(plan, Created(true), env);
    TwoEffects(plan, Replay(Created(true), EventEffects(plan, Created(true), cutOff)), env);
    TwoEvents(plan, Created(true), cutOff, cutOff);
  }
}
