/** Running a batch of builder actions in a workspace, and the undo log it leaves behind. */
module ActionBatch {
  import opened Options
  import opened Risks

  /** A path inside the workspace, as its list of names; [] is the workspace itself. */
  type Path = seq<string>

  datatype Node = Dir | File(content: string)

  /** The workspace outside `.ck`, where the program keeps its own records. */
  type Tree = map<Path, Node>

  function Parent(p: Path): Path
    requires p != []
  {
    p[..|p| - 1]
  }

  predicate IsDir(t: Tree, p: Path) { p in t && t[p].Dir? }

  /** The workspace is a directory and everything in it lies in a directory. */
  ghost predicate WellFormed(t: Tree) {
    IsDir(t, []) && forall p | p in t && p != [] :: IsDir(t, Parent(p))
  }

  // ---- File system calls; None stands for a thrown error ----

  function MakeDirs(t: Tree, p: Path): Option<Tree>
    decreases |p|
  {
    if p in t then if t[p].Dir? then Some(t) else None
    else if p == [] then None
    else match MakeDirs(t, Parent(p)) case None => None case Some(t') => Some(t'[p := Dir])
  }

  function EnsureParent(t: Tree, p: Path): Option<Tree>
    requires p != []
  {
    if Parent(p) in t then Some(t) else MakeDirs(t, Parent(p))
  }

  function PutFile(t: Tree, p: Path, content: string): Option<Tree> {
    if p == [] then None
    else match EnsureParent(t, p)
      case None => None
      case Some(t') => if IsDir(t', Parent(p)) && !IsDir(t', p) then Some(t'[p := File(content)]) else None
  }

  function FileText(t: Tree, p: Path): string {
    if p in t && t[p].File? then t[p].content else ""
  }

  // ---- Actions ----

  datatype Action =
    | CreateDir(path: Path)
    | WriteFile(path: Path, content: string)
    | AppendFile(path: Path, content: string)
    | RunCommand(command: string)

  datatype Assessment = Assessment(allowed: bool, risk: Risk)

  /** What a shell command did: whether it succeeded, and the workspace it left behind. */
  datatype ShellResult = ShellResult(ok: bool, tree: Tree)

  /** The rules under which a batch runs.  `assess` is the action policy and `shell` runs commands. */
  datatype Rules = Rules(
    assess: Action -> Assessment, gateApproved: bool,
    approveHighRisk: bool, approveMediumRisk: bool, allowCommands: bool, dryRun: bool,
    shell: (Tree, string) -> ShellResult)

  datatype Status = Executed | Blocked | ApprovalRequired | DryRun

  datatype UndoEntry = FileWrite(target: Path) | FileAppend(target: Path) | DirCreate(target: Path) | CommandRun(command: string)

  function EntryOf(a: Action): UndoEntry {
    match a
    case CreateDir(p) => DirCreate(p)
    case WriteFile(p, _) => FileWrite(p)
    case AppendFile(p, _) => FileAppend(p)
    case RunCommand(c) => CommandRun(c)
  }

  /** The effect of a file system action. */
  function Perform(t: Tree, a: Action): Option<Tree>
    requires !a.RunCommand?
  {
    match a
    case CreateDir(p) => MakeDirs(t, p)
    case WriteFile(p, content) => PutFile(t, p, content)
    case AppendFile(p, content) => PutFile(t, p, FileText(t, p) + content)
  }

  datatype StepResult = StepResult(status: Status, tree: Tree)

  function Step(rules: Rules, t: Tree, a: Action): StepResult {
    var s := rules.assess(a);
    if !s.allowed then StepResult(Blocked, t)
    else if s.risk == High && rules.approveHighRisk && !rules.gateApproved then StepResult(ApprovalRequired, t)
    else if s.risk == Medium && rules.approveMediumRisk && !rules.gateApproved then StepResult(ApprovalRequired, t)
    else if rules.dryRun then StepResult(DryRun, t)
    else if a.RunCommand? then
      if !rules.allowCommands then StepResult(Blocked, t)
      else var r := rules.shell(t, a.command); StepResult(if r.ok then Executed else Blocked, r.tree)
    else match Perform(t, a)
      case Some(t') => StepResult(Executed, t')
      case None => StepResult(Blocked, t)
  }

  /** What one action adds to the undo log. */
  function Logged(a: Action, status: Status): seq<UndoEntry> {
    if status == Executed then [EntryOf(a)] else []
  }

  datatype BatchResult = BatchResult(results: seq<Status>, entries: seq<UndoEntry>, tree: Tree)

  /** The actions are taken in order; an entry is added to the undo log for each executed one. */
  function RunBatch(rules: Rules, t: Tree, actions: seq<Action>): BatchResult
    decreases |actions|
  {
    if actions == [] then BatchResult([], [], t)
    else
      var n := |actions| - 1;
      var before := RunBatch(rules, t, actions[..n]);
      var r := Step(rules, before.tree, actions[n]);
      BatchResult(before.results + [r.status],
                  before.entries + Logged(actions[n], r.status), r.tree)
  }

  /** The undo entries of the actions whose result is "executed". */
  function ExecutedEntries(actions: seq<Action>, results: seq<Status>): seq<UndoEntry>
    requires |actions| == |results|
    decreases |actions|
  {
    if actions == [] then []
    else Logged(actions[0], results[0]) + ExecutedEntries(actions[1..], results[1..])
  }

  lemma {:induction false} ExecutedEntriesSnoc(actions: seq<Action>, results: seq<Status>, a: Action, r: Status)
    requires |actions| == |results|
    ensures ExecutedEntries(actions + [a], results + [r]) == ExecutedEntries(actions, results) + Logged(a, r)
    decreases |actions|
  {
    var more, marks := actions + [a], results + [r];
    if actions == [] {
      assert more[1..] == [] && marks[1..] == [];
    } else {
      assert more[1..] == actions[1..] + [a] && marks[1..] == results[1..] + [r];
      ExecutedEntriesSnoc(actions[1..], results[1..], a, r);
      assert more[0] == actions[0] && marks[0] == results[0];
    }
  }

  /** The undo log lists exactly the executed actions, in the order in which they were taken. */
  lemma {:induction false} LogListsExecuted(rules: Rules, t: Tree, actions: seq<Action>)
    ensures var b := RunBatch(rules, t, actions);
      |b.results| == |actions| && b.entries == ExecutedEntries(actions, b.results)
    decreases |actions|
  {
    if actions != [] {
      var n := |actions| - 1;
      var before := RunBatch(rules, t, actions[..n]);
      LogListsExecuted(rules, t, actions[..n]);
      ExecutedEntriesSnoc(actions[..n], before.results, actions[n], Step(rules, before.tree, actions[n]).status);
      assert actions == actions[..n] + [actions[n]];
    }
  }

  /** The action's risk needs an approval that its phase does not have. */
  predicate LacksApproval(rules: Rules, a: Action) {
    var s := rules.assess(a);
    !rules.gateApproved && ((s.risk == High && rules.approveHighRisk) || (s.risk == Medium && rules.approveMediumRisk))
  }

  /** The action may be executed: the policy allows it, its risk needs no missing approval, this is no dry
      run, and commands are allowed if it is one. */
  predicate Permitted(rules: Rules, a: Action) {
    && rules.assess(a).allowed && !LacksApproval(rules, a) && !rules.dryRun
    && (a.RunCommand? ==> rules.allowCommands)
  }

  /** Taken in the workspace `t`, the action does not throw. */
  predicate Works(rules: Rules, t: Tree, a: Action) {
    if a.RunCommand? then rules.shell(t, a.command).ok else Perform(t, a).Some?
  }

  lemma StepPermitted(rules: Rules, t: Tree, a: Action)
    ensures Step(rules, t, a).status == Executed <==> Permitted(rules, a) && Works(rules, t, a)
    ensures Step(rules, t, a).status == ApprovalRequired <==> rules.assess(a).allowed && LacksApproval(rules, a)
    ensures !Permitted(rules, a) ==> Step(rules, t, a).tree == t
  {
  }

  lemma ResultsLast(rules: Rules, t: Tree, actions: seq<Action>)
    requires actions != []
    ensures var n := |actions| - 1;
      var before := RunBatch(rules, t, actions[..n]);
      RunBatch(rules, t, actions).results == before.results + [Step(rules, before.tree, actions[n]).status]
  {
  }

  lemma {:induction false} ResultOf(rules: Rules, t: Tree, actions: seq<Action>, i: nat)
    requires i < |actions|
    ensures |RunBatch(rules, t, actions).results| == |actions|
    ensures RunBatch(rules, t, actions).results[i] == Step(rules, RunBatch(rules, t, actions[..i]).tree, actions[i]).status
    decreases |actions|
  {
    var n := |actions| - 1;
    ResultsLast(rules, t, actions);
    LogListsExecuted(rules, t, actions[..n]);
    if i < n {
      ResultOf(rules, t, actions[..n], i);
      assert actions[..n][..i] == actions[..i] && actions[..n][i] == actions[i];
    }
  }

  /** An action is executed exactly when it is permitted and does not throw in the workspace that the
      actions before it left; it waits for approval exactly when the policy allows it but its risk lacks one. */
  lemma ExecutedIffPermitted(rules: Rules, t: Tree, actions: seq<Action>, i: nat)
    requires i < |actions|
    ensures |RunBatch(rules, t, actions).results| == |actions|
    ensures RunBatch(rules, t, actions).results[i] == Executed <==>
      Permitted(rules, actions[i]) && Works(rules, RunBatch(rules, t, actions[..i]).tree, actions[i])
    ensures RunBatch(rules, t, actions).results[i] == ApprovalRequired <==>
      rules.assess(actions[i]).allowed && LacksApproval(rules, actions[i])
  {
    ResultOf(rules, t, actions, i);
    StepPermitted(rules, RunBatch(rules, t, actions[..i]).tree, actions[i]);
  }

  /** A batch of which nothing is permitted leaves the workspace as it was and logs nothing. */
  lemma {:induction false} UnpermittedBatchDoesNothing(rules: Rules, t: Tree, actions: seq<Action>)
    requires forall i | 0 <= i < |actions| :: !Permitted(rules, actions[i])
    ensures RunBatch(rules, t, actions).tree == t && RunBatch(rules, t, actions).entries == []
    decreases |actions|
  {
    if actions != [] {
      var n := |actions| - 1;
      UnpermittedBatchDoesNothing(rules, t, actions[..n]);
      StepPermitted(rules, t, actions[n]);
    }
  }

  lemma {:induction false} MakeDirsWellFormed(t: Tree, p: Path)
    requires WellFormed(t)
    ensures match MakeDirs(t, p) case None => true case Some(t') => WellFormed(t') && IsDir(t', p)
    decreases |p|
  {
    if p !in t && p != [] {
      MakeDirsWellFormed(t, Parent(p));
    }
  }

  lemma PutFileWellFormed(t: Tree, p: Path, content: string)
    requires WellFormed(t)
    ensures match PutFile(t, p, content) case None => true case Some(t') => WellFormed(t')
  {
    if PutFile(t, p, content).Some? {
      MakeDirsWellFormed(t, Parent(p));
      var t' := EnsureParent(t, p).value;
      assert forall q | q in t' && q != [] :: IsDir(t', Parent(q));
    }
  }

  /** File system actions keep the workspace well formed. */
  lemma PerformWellFormed(t: Tree, a: Action)
    requires WellFormed(t) && !a.RunCommand?
    ensures match Perform(t, a) case None => true case Some(t') => WellFormed(t')
  {
    match a
    case CreateDir(p) => MakeDirsWellFormed(t, p);
    case WriteFile(p, content) => PutFileWellFormed(t, p, content);
    case AppendFile(p, content) => PutFileWellFormed(t, p, FileText(t, p) + content);
  }
}
