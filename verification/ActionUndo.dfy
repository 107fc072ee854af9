/** Undoing action batches by replaying their undo logs backwards. */
module ActionUndo {
  import opened Options
  import opened Risks
  import opened ActionBatch

  /** The state of a rollback: the workspace and the counters.  `aborted` means that a file system call
      threw, which ends the rollback. */
  datatype Undo = Undo(tree: Tree, attempted: nat, reverted: nat, skipped: nat, aborted: bool)

  /** The directory has nothing in it.  The workspace itself always holds `.ck`. */
  predicate IsEmptyDir(t: Tree, p: Path) {
    p != [] && IsDir(t, p) && forall q | q in t && q != [] :: Parent(q) != p
  }

  function Remove(t: Tree, p: Path): Tree { t - {p} }

  function UndoStep(u: Undo, e: UndoEntry): Undo {
    if u.aborted then u
    else
      var v := u.(attempted := u.attempted + 1);
      match e
      case FileWrite(p) =>
        if p !in v.tree then v.(skipped := v.skipped + 1)
        else if v.tree[p].Dir? then v.(aborted := true)
        else v.(tree := Remove(v.tree, p), reverted := v.reverted + 1)
      case DirCreate(p) =>
        if p in v.tree && v.tree[p].File? then v.(aborted := true)
        else if IsEmptyDir(v.tree, p) then v.(tree := Remove(v.tree, p), reverted := v.reverted + 1)
        else v.(skipped := v.skipped + 1)
      case FileAppend(_) => v.(skipped := v.skipped + 1)
      case CommandRun(_) => v.(skipped := v.skipped + 1)
  }

  /** The entries are undone from the last to the first. */
  function UndoEntries(u: Undo, entries: seq<UndoEntry>): Undo
    decreases |entries|
  {
    if entries == [] then u
    else UndoEntries(UndoStep(u, entries[|entries| - 1]), entries[..|entries| - 1])
  }

  lemma {:induction false} UndoConcat(u: Undo, a: seq<UndoEntry>, b: seq<UndoEntry>)
    ensures UndoEntries(u, a + b) == UndoEntries(UndoEntries(u, b), a)
    decreases |b|
  {
    if b == [] {
      assert a + b == a;
    } else {
      var n := |b| - 1;
      assert (a + b)[|a + b| - 1] == b[n] && (a + b)[..|a + b| - 1] == a + b[..n];
      UndoConcat(UndoStep(u, b[n]), a, b[..n]);
    }
  }

  /** A path that some entry created. */
  predicate Targeted(p: Path, entries: seq<UndoEntry>) {
    FileWrite(p) in entries || DirCreate(p) in entries
  }

  /** Undoing only removes, and only what an entry created; every entry taken is counted as reverted or as
      skipped, but for the one at which a call threw; and as many are reverted as paths go away. */
  lemma {:induction false} UndoOnlyRemoves(u: Undo, entries: seq<UndoEntry>)
    requires !u.aborted
    ensures var v := UndoEntries(u, entries);
      && (forall p | p in v.tree :: p in u.tree && v.tree[p] == u.tree[p])
      && (forall p | p in u.tree && p !in v.tree :: Targeted(p, entries))
      && v.attempted - u.attempted == (v.reverted - u.reverted) + (v.skipped - u.skipped) + (if v.aborted then 1 else 0)
      && (!v.aborted ==> v.attempted == u.attempted + |entries|)
      && v.reverted - u.reverted == |u.tree| - |v.tree|
    decreases |entries|
  {
    if entries != [] {
      var n := |entries| - 1;
      var w := UndoStep(u, entries[n]);
      StepOnlyRemoves(u, entries[n]);
      assert entries[n] in entries;
      if w.aborted {
        AbortedStays(w, entries[..n]);
      } else {
        UndoOnlyRemoves(w, entries[..n]);
        assert forall e | e in entries[..n] :: e in entries;
      }
    }
  }

  lemma StepOnlyRemoves(u: Undo, e: UndoEntry)
    requires !u.aborted
    ensures var v := UndoStep(u, e);
      && (forall p | p in v.tree :: p in u.tree && v.tree[p] == u.tree[p])
      && (forall p | p in u.tree && p !in v.tree :: e == FileWrite(p) || e == DirCreate(p))
      && v.attempted == u.attempted + 1
      && 1 == (v.reverted - u.reverted) + (v.skipped - u.skipped) + (if v.aborted then 1 else 0)
      && v.reverted - u.reverted == |u.tree| - |v.tree|
  {
    var v := UndoStep(u, e);
    if v.tree != u.tree {
      assert v.tree.Keys == u.tree.Keys - {e.target};
      assert |v.tree| == |v.tree.Keys| && |u.tree| == |u.tree.Keys|;
    }
  }

  lemma {:induction false} AbortedStays(u: Undo, entries: seq<UndoEntry>)
    ensures u.aborted || entries == [] ==> UndoEntries(u, entries) == u
    decreases |entries|
  {
    if u.aborted && entries != [] {
      AbortedStays(u, entries[..|entries| - 1]);
    }
  }

  // ---- Restoration ----

  /** The action creates one new thing in a directory that exists. */
  predicate Fresh(t: Tree, a: Action) {
    (a.CreateDir? || a.WriteFile?) && a.path != [] && a.path !in t && IsDir(t, Parent(a.path))
  }

  /** Taken in the workspace `t`, the action creates one new thing, or changes nothing at all. */
  predicate Reversible(rules: Rules, t: Tree, a: Action) {
    if Step(rules, t, a).status == Executed then Fresh(t, a) else Step(rules, t, a).tree == t
  }

  predicate ReversibleBatch(rules: Rules, t: Tree, actions: seq<Action>)
    decreases |actions|
  {
    actions == [] ||
    (ReversibleBatch(rules, t, actions[..|actions| - 1]) &&
     Reversible(rules, RunBatch(rules, t, actions[..|actions| - 1]).tree, actions[|actions| - 1]))
  }

  lemma FreshUndone(u: Undo, t: Tree, a: Action)
    requires WellFormed(t) && Fresh(t, a) && !u.aborted
    requires Perform(t, a).Some? && u.tree == Perform(t, a).value
    ensures UndoStep(u, EntryOf(a)) == u.(tree := t, attempted := u.attempted + 1, reverted := u.reverted + 1)
  {
    var p := a.path;
    assert MakeDirs(t, Parent(p)) == Some(t);
    var node := if a.CreateDir? then Dir else File(a.content);
    assert u.tree == t[p := node];
    assert Remove(u.tree, p) == t;
    forall q | q in u.tree && q != [] ensures Parent(q) != p {
      if q == p { assert |Parent(p)| < |p|; } else { assert IsDir(t, Parent(q)); }
    }
  }

  lemma ExecutedPerforms(rules: Rules, t: Tree, a: Action)
    requires Step(rules, t, a).status == Executed && !a.RunCommand?
    ensures Perform(t, a) == Some(Step(rules, t, a).tree)
  {
  }

  /** One executed creation or file write is undone exactly when it made one new thing in an existing
      directory, or asked for a directory that already existed and has something in it. */
  lemma ActionRestoredIff(t: Tree, a: Action)
    requires WellFormed(t) && (a.CreateDir? || a.WriteFile?) && Perform(t, a).Some?
    ensures UndoStep(Undo(Perform(t, a).value, 0, 0, 0, false), EntryOf(a)).tree == t <==>
      Fresh(t, a) || (a.CreateDir? && IsDir(t, a.path) && !IsEmptyDir(t, a.path))
  {
    var p := a.path;
    var t1 := Perform(t, a).value;
    var u := Undo(t1, 0, 0, 0, false);
    if Fresh(t, a) {
      FreshUndone(u, t, a);
    } else if a.CreateDir? && IsDir(t, p) {
    } else if p in t {
      assert p !in UndoStep(u, EntryOf(a)).tree;
    } else {
      MakeDirsWellFormed(t, Parent(p));
      assert Parent(p) !in t && Parent(p) in t1 && Parent(p) != p;
      assert Parent(p) in UndoStep(u, EntryOf(a)).tree;
    }
  }

  // ---- Several batches ----

  /** One batch of a run: its phase, which names its undo file, its rules and its actions. */
  datatype Batch = Batch(phase: string, rules: Rules, actions: seq<Action>)

  /** The workspace after the batches, and their undo logs one after the other. */
  function RunAll(t: Tree, batches: seq<Batch>): BatchResult
    decreases |batches|
  {
    if batches == [] then BatchResult([], [], t)
    else
      var n := |batches| - 1;
      var before := RunAll(t, batches[..n]);
      var r := RunBatch(batches[n].rules, before.tree, batches[n].actions);
      BatchResult(before.results + r.results, before.entries + r.entries, r.tree)
  }

  predicate ReversibleRun(t: Tree, batches: seq<Batch>)
    decreases |batches|
  {
    batches == [] ||
    (ReversibleRun(t, batches[..|batches| - 1]) &&
     ReversibleBatch(batches[|batches| - 1].rules, RunAll(t, batches[..|batches| - 1]).tree, batches[|batches| - 1].actions))
  }

  lemma SingleAction(rules: Rules, t: Tree, a: Action)
    ensures var r := Step(rules, t, a);
      RunBatch(rules, t, [a]) == BatchResult([r.status], Logged(a, r.status), r.tree)
    ensures ReversibleBatch(rules, t, [a]) == Reversible(rules, t, a)
  {
    assert [a][..0] == [];
  }

  lemma FreshAllowed(rules: Rules, t: Tree, a: Action)
    requires Fresh(t, a) && rules.assess(a) == Assessment(true, Low) && !rules.dryRun
    ensures Step(rules, t, a) == StepResult(Executed, t[a.path := if a.CreateDir? then Dir else File(a.content)])
  {
    assert MakeDirs(t, Parent(a.path)) == Some(t);
  }
}
