/** When undoing a log restores a workspace: for any log, in any order. */
module UndoOrder {
  import opened Options
  import opened ActionBatch
  import opened ActionUndo

  /** The entry that removes a path. */
  function EntryFor(p: Path, node: Node): UndoEntry {
    if node.Dir? then DirCreate(p) else FileWrite(p)
  }

  predicate IsChild(q: Path, p: Path) { q != [] && Parent(q) == p }

  /** Every path with a turn is named at that position of the log, by an entry of its kind. */
  predicate Named(t: Tree, entries: seq<UndoEntry>, turn: map<Path, nat>) {
    forall p | p in turn :: p in t && turn[p] < |entries| && entries[turn[p]] == EntryFor(p, t[p])
  }

  /** What lies in a directory has a later position than the directory, and so is removed before it. */
  ghost predicate InsideLater(t: Tree, turn: map<Path, nat>) {
    forall p, q | p in turn && q in turn && IsChild(q, p) && IsDir(t, p) :: turn[p] < turn[q]
  }

  /** `turn` gives every path of `t` that `t0` does not have such a position of the log. */
  ghost predicate Turns(t0: Tree, t: Tree, entries: seq<UndoEntry>, turn: map<Path, nat>) {
    turn.Keys == t.Keys - t0.Keys && Named(t, entries, turn) && InsideLater(t, turn)
  }

  ghost predicate Removable(t0: Tree, t: Tree, entries: seq<UndoEntry>) {
    exists turn: map<Path, nat> :: Turns(t0, t, entries, turn)
  }

  ghost predicate HasChild(t: Tree, p: Path) {
    exists q :: q in t && IsChild(q, p)
  }

  /** The entry names nothing of `t0` except a directory that has something in it there; and what it names
      in `t` is of the kind that it says. */
  ghost predicate Spares(t0: Tree, t: Tree, e: UndoEntry) {
    match e
    case FileWrite(p) => p !in t0 && (p in t ==> t[p].File?)
    case DirCreate(p) => (p in t ==> t[p].Dir?) && (p in t0 ==> HasChild(t0, p))
    case _ => true
  }

  ghost predicate Gentle(t0: Tree, t: Tree, entries: seq<UndoEntry>) {
    Extends(t0, t) && forall i | 0 <= i < |entries| :: Spares(t0, t, entries[i])
  }

  predicate Extends(t0: Tree, t: Tree) {
    forall p | p in t0 :: p in t && t[p] == t0[p]
  }

  // ---- Necessity ----

  /** Whatever a rollback removes, from whatever workspace and by whatever log, it removes in such an order. */
  lemma {:induction false} RemovalTurns(u: Undo, entries: seq<UndoEntry>) returns (turn: map<Path, nat>)
    requires !u.aborted
    ensures Turns(UndoEntries(u, entries).tree, u.tree, entries, turn)
    decreases |entries|
  {
    turn := map[];
    if entries != [] {
      var n := |entries| - 1;
      var w := UndoStep(u, entries[n]);
      if w.aborted {
        AbortedStays(w, entries[..n]);
      } else {
        turn := RemovalTurns(w, entries[..n]);
        turn := TurnsSnoc(u, entries, turn);
      }
    }
  }

  /** An entry that names a path more, before all others in the log, or none. */
  lemma NamedSnoc(t: Tree, t': Tree, entries: seq<UndoEntry>, e: UndoEntry, turn: map<Path, nat>)
    requires Named(t, entries, turn) && forall p | p in turn :: p in t' && t'[p].Dir? == t[p].Dir?
    ensures Named(t', entries + [e], turn)
    ensures forall p | p in t' && EntryFor(p, t'[p]) == e :: Named(t', entries + [e], turn[p := |entries|])
  {
    var more := entries + [e];
    assert more[|entries|] == e;
    forall p | p in turn ensures more[turn[p]] == EntryFor(p, t'[p]) {
      assert more[turn[p]] == entries[turn[p]];
    }
  }

  lemma StepRemoves(u: Undo, e: UndoEntry)
    requires !u.aborted && UndoStep(u, e).tree != u.tree
    ensures (e.FileWrite? || e.DirCreate?) && e.target in u.tree && e == EntryFor(e.target, u.tree[e.target])
    ensures UndoStep(u, e).tree == Remove(u.tree, e.target) && !UndoStep(u, e).aborted
    ensures e.DirCreate? ==> forall q | q in u.tree :: !IsChild(q, e.target)
  {
  }

  lemma TurnsSnoc(u: Undo, entries: seq<UndoEntry>, before: map<Path, nat>) returns (turn: map<Path, nat>)
    requires !u.aborted && entries != []
    requires var w := UndoStep(u, entries[|entries| - 1]);
      Turns(UndoEntries(u, entries).tree, w.tree, entries[..|entries| - 1], before)
    ensures Turns(UndoEntries(u, entries).tree, u.tree, entries, turn)
    ensures var n := |entries| - 1;
      turn == if UndoStep(u, entries[n]).tree == u.tree then before else before[entries[n].target := n]
  {
    var n := |entries| - 1;
    var e := entries[n];
    var w, v := UndoStep(u, e), UndoEntries(u, entries);
    assert entries == entries[..n] + [e];
    NamedSnoc(w.tree, w.tree, entries[..n], e, before);
    turn := before;
    if w.tree != u.tree {
      StepRemoves(u, e);
      turn := before[e.target := n];
      UndoneWithin(w, entries[..n]);
      assert turn.Keys == u.tree.Keys - v.tree.Keys;
      NamedSnoc(w.tree, u.tree, entries[..n], e, before);
      LastInside(w.tree, u.tree, before, e.target, n);
    }
  }

  /** The path that is removed first gets the last position. */
  lemma LastInside(t: Tree, t': Tree, before: map<Path, nat>, p: Path, n: nat)
    requires InsideLater(t, before) && p in t' && t == Remove(t', p) && before.Keys <= t.Keys
    requires forall q | q in before :: before[q] < n
    requires t'[p].Dir? ==> forall q | q in t' :: !IsChild(q, p)
    ensures InsideLater(t', before[p := n])
  {
    var turn := before[p := n];
    forall q, r | q in turn && r in turn && IsChild(r, q) && IsDir(t', q) ensures turn[q] < turn[r] {
      assert q != p;
      assert IsDir(t, q);
    }
  }

  lemma UndoneWithin(u: Undo, entries: seq<UndoEntry>)
    ensures UndoEntries(u, entries).tree.Keys <= u.tree.Keys
  {
    if u.aborted {
      AbortedStays(u, entries);
    } else {
      UndoOnlyRemoves(u, entries);
    }
  }

  // ---- Sufficiency ----

  /** From a tree between the two, in which everything whose turn has come is gone, the rest of the log leads
      to `t0`. */
  lemma {:induction false} TurnsRestore(
      t0: Tree, t: Tree, entries: seq<UndoEntry>, turn: map<Path, nat>, u: Undo, k: nat)
    requires WellFormed(t0) && Gentle(t0, t, entries) && Turns(t0, t, entries, turn) && k <= |entries|
    requires !u.aborted && Extends(t0, u.tree) && Extends(u.tree, t)
    requires forall p | p in turn && turn[p] >= k :: p !in u.tree
    ensures UndoEntries(u, entries[..k]).tree == t0 && !UndoEntries(u, entries[..k]).aborted
    decreases k
  {
    if k == 0 {
      assert forall p | p in u.tree :: p in t0;
    } else {
      var e := entries[k - 1];
      assert entries[..k][..k - 1] == entries[..k - 1];
      StepBetween(t0, t, u, e);
      forall p | p in turn && turn[p] == k - 1 && p in u.tree ensures p !in UndoStep(u, e).tree {
        TurnHasCome(t0, t, entries, turn, u, p);
      }
      TurnsRestore(t0, t, entries, turn, UndoStep(u, e), k - 1);
    }
  }

  /** A step of a sparing log does not throw and keeps `t0`. */
  lemma StepBetween(t0: Tree, t: Tree, u: Undo, e: UndoEntry)
    requires Spares(t0, t, e)
    requires !u.aborted && Extends(t0, u.tree) && Extends(u.tree, t)
    ensures var w := UndoStep(u, e); !w.aborted && Extends(t0, w.tree) && Extends(w.tree, t)
  {
    if e.DirCreate? && e.target in t0 {
      var q :| q in t0 && IsChild(q, e.target);
      assert q in u.tree && Parent(q) == e.target;
    }
  }

  /** When the turn of a path has come, a file is removed, and a directory is empty and removed. */
  lemma TurnHasCome(t0: Tree, t: Tree, entries: seq<UndoEntry>, turn: map<Path, nat>, u: Undo, p: Path)
    requires WellFormed(t0) && Turns(t0, t, entries, turn) && p in turn && p in u.tree
    requires !u.aborted && Extends(u.tree, t)
    requires forall q | q in turn && turn[q] > turn[p] :: q !in u.tree
    ensures p !in UndoStep(u, entries[turn[p]]).tree
  {
    if t[p].Dir? {
      assert IsDir(t, p);
      forall q | q in u.tree && q != [] ensures Parent(q) != p {
        assert q in t0 ==> IsDir(t0, Parent(q));
        assert IsChild(q, p) && q !in t0 ==> q in turn;
      }
      assert p != [];
    }
  }

  /** For any log that names nothing that was there before, but for directories with something in them:
      undoing it restores the workspace exactly when every new path has an entry of its kind that can be
      given a turn after the turns of what lies in it. */
  lemma RestoredIffRemovable(t0: Tree, t: Tree, entries: seq<UndoEntry>, u: Undo)
    requires WellFormed(t0) && Gentle(t0, t, entries) && !u.aborted && u.tree == t
    ensures UndoEntries(u, entries).tree == t0 <==> Removable(t0, t, entries)
    ensures Removable(t0, t, entries) ==> !UndoEntries(u, entries).aborted
  {
    assert entries[..|entries|] == entries;
    if UndoEntries(u, entries).tree == t0 {
      var turn := RemovalTurns(u, entries);
    }
    if Removable(t0, t, entries) {
      var turn: map<Path, nat> :| Turns(t0, t, entries, turn);
      TurnsRestore(t0, t, entries, turn, u, |entries|);
    }
  }

  // ---- Runs that can be undone ----

  /** Taken in `t`, the action makes one new thing in a directory that exists; or it works on what the run has
      made; or it asks for a directory that has something in it since before the run; or it changes nothing
      and is not a write. */
  ghost predicate Mild(rules: Rules, t0: Tree, t: Tree, a: Action) {
    var r := Step(rules, t, a);
    if r.status != Executed then r.tree == t
    else match a
      case CreateDir(p) => Fresh(t, a) || (IsDir(t, p) && (p !in t0 || HasChild(t0, p)))
      case WriteFile(p, _) => Fresh(t, a) || (p in t && t[p].File? && p !in t0)
      case AppendFile(p, _) => r.tree == t || (p in t && t[p].File? && p !in t0)
      case RunCommand(_) => r.tree == t
  }

  ghost predicate MildBatch(rules: Rules, t0: Tree, t: Tree, actions: seq<Action>)
    decreases |actions|
  {
    actions == [] ||
    (MildBatch(rules, t0, t, actions[..|actions| - 1]) &&
     Mild(rules, t0, RunBatch(rules, t, actions[..|actions| - 1]).tree, actions[|actions| - 1]))
  }

  ghost predicate MildRun(t0: Tree, batches: seq<Batch>)
    decreases |batches|
  {
    batches == [] ||
    (MildRun(t0, batches[..|batches| - 1]) &&
     MildBatch(batches[|batches| - 1].rules, t0, RunAll(t0, batches[..|batches| - 1]).tree, batches[|batches| - 1].actions))
  }

  predicate Made(t: Tree, e: UndoEntry) {
    e.FileWrite? || e.DirCreate? ==> e.target in t
  }

  /** What a mild run has done so far: everything that it logged is there. */
  ghost predicate Progress(t0: Tree, t: Tree, entries: seq<UndoEntry>) {
    && WellFormed(t) && Gentle(t0, t, entries) && Removable(t0, t, entries)
    && forall i | 0 <= i < |entries| :: Made(t, entries[i])
  }

  lemma NoChildYet(t: Tree, p: Path)
    requires WellFormed(t) && p !in t
    ensures forall q | q in t :: !IsChild(q, p)
    ensures !IsChild(p, p)
  {
    forall q | q in t && q != [] ensures Parent(q) != p {
      assert IsDir(t, Parent(q));
    }
    if p != [] { assert |Parent(p)| < |p|; }
  }

  lemma NewInside(t: Tree, turn: map<Path, nat>, p: Path, node: Node, n: nat)
    requires WellFormed(t) && InsideLater(t, turn) && turn.Keys <= t.Keys && p !in t
    requires forall q | q in turn :: turn[q] < n
    ensures InsideLater(t[p := node], turn[p := n])
  {
    var t', turn' := t[p := node], turn[p := n];
    NoChildYet(t, p);
    forall q, r | q in turn' && r in turn' && IsChild(r, q) && IsDir(t', q) ensures turn'[q] < turn'[r] {
      assert q != p && IsDir(t, q);
    }
  }

  /** A log that has been sparing stays so when the tree gains a path that it does not name. */
  lemma NewGentle(t0: Tree, t: Tree, entries: seq<UndoEntry>, p: Path, node: Node)
    requires Gentle(t0, t, entries) && p !in t && forall i | 0 <= i < |entries| :: Made(t, entries[i])
    ensures Gentle(t0, t[p := node], entries + [EntryFor(p, node)])
    ensures var more := entries + [EntryFor(p, node)];
      forall i | 0 <= i < |more| :: Made(t[p := node], more[i])
  {
    var more, t' := entries + [EntryFor(p, node)], t[p := node];
    forall i | 0 <= i < |more| ensures Spares(t0, t', more[i]) && Made(t', more[i]) {
      if i < |entries| {
        assert Spares(t0, t, entries[i]) && Made(t, entries[i]);
      }
    }
  }

  lemma NewRemovable(t0: Tree, t: Tree, entries: seq<UndoEntry>, p: Path, node: Node)
    requires WellFormed(t) && Extends(t0, t) && Removable(t0, t, entries) && p !in t
    ensures Removable(t0, t[p := node], entries + [EntryFor(p, node)])
  {
    var e, t' := EntryFor(p, node), t[p := node];
    var turn: map<Path, nat> :| Turns(t0, t, entries, turn);
    var turn' := turn[p := |entries|];
    assert turn'.Keys == t'.Keys - t0.Keys;
    NamedSnoc(t, t', entries, e, turn);
    NewInside(t, turn, p, node, |entries|);
    assert Turns(t0, t', entries + [e], turn');
  }

  lemma NewPath(t0: Tree, t: Tree, entries: seq<UndoEntry>, p: Path, node: Node)
    requires Progress(t0, t, entries) && p !in t && WellFormed(t[p := node])
    ensures Progress(t0, t[p := node], entries + [EntryFor(p, node)])
  {
    NewRemovable(t0, t, entries, p, node);
    NewGentle(t0, t, entries, p, node);
  }

  lemma SamePaths(t0: Tree, t: Tree, t': Tree, entries: seq<UndoEntry>, e: UndoEntry)
    requires Progress(t0, t, entries) && WellFormed(t') && t'.Keys == t.Keys && Extends(t0, t')
    requires forall p | p in t :: t'[p].Dir? == t[p].Dir?
    requires e.FileWrite? ==> e.target in t && t[e.target].File? && e.target !in t0
    requires e.DirCreate? ==> IsDir(t, e.target) && (e.target in t0 ==> HasChild(t0, e.target))
    ensures Progress(t0, t', entries + [e])
  {
    var turn: map<Path, nat> :| Turns(t0, t, entries, turn);
    NamedSnoc(t, t', entries, e, turn);
    SameInside(t, t', turn);
    assert Turns(t0, t', entries + [e], turn);
    var more := entries + [e];
    forall i | 0 <= i < |more| ensures Spares(t0, t', more[i]) && Made(t', more[i]) {
      if i < |entries| {
        assert Spares(t0, t, entries[i]) && Made(t, entries[i]);
      }
    }
  }

  lemma SameInside(t: Tree, t': Tree, turn: map<Path, nat>)
    requires InsideLater(t, turn) && t'.Keys == t.Keys && forall p | p in t :: t'[p].Dir? == t[p].Dir?
    ensures InsideLater(t', turn)
  {
    forall p, q | p in turn && q in turn && IsChild(q, p) && IsDir(t', p) ensures turn[p] < turn[q] {
      assert IsDir(t, p);
    }
  }

  /** A new content for a file that the run has made. */
  lemma Rewritten(t0: Tree, t: Tree, entries: seq<UndoEntry>, p: Path, content: string, e: UndoEntry)
    requires Progress(t0, t, entries) && p in t && t[p].File? && p !in t0 && WellFormed(t[p := File(content)])
    requires e == FileWrite(p) || e == FileAppend(p)
    ensures Progress(t0, t[p := File(content)], entries + [e])
  {
    SamePaths(t0, t, t[p := File(content)], entries, e);
  }

  lemma PutExisting(t: Tree, p: Path, content: string)
    requires WellFormed(t) && p in t && t[p].File?
    ensures PutFile(t, p, content) == Some(t[p := File(content)])
  {
    assert p != [] && IsDir(t, Parent(p));
  }

  lemma FreshPerformed(t: Tree, a: Action)
    requires Fresh(t, a)
    ensures Perform(t, a) == Some(t[a.path := if a.CreateDir? then Dir else File(a.content)])
  {
    assert MakeDirs(t, Parent(a.path)) == Some(t);
  }

  lemma MildProgress(rules: Rules, t0: Tree, t: Tree, a: Action, entries: seq<UndoEntry>)
    requires Progress(t0, t, entries) && Mild(rules, t0, t, a)
    ensures var r := Step(rules, t, a); Progress(t0, r.tree, entries + Logged(a, r.status))
  {
    var r := Step(rules, t, a);
    if r.status != Executed {
      assert entries + [] == entries;
    } else if a.RunCommand? {
      SamePaths(t0, t, t, entries, EntryOf(a));
    } else {
      ExecutedPerforms(rules, t, a);
      PerformWellFormed(t, a);
      if Fresh(t, a) {
        FreshPerformed(t, a);
        NewPath(t0, t, entries, a.path, if a.CreateDir? then Dir else File(a.content));
      } else if a.CreateDir? || r.tree == t {
        MildNoChange(rules, t0, t, a, entries);
      } else {
        MildRewrite(rules, t0, t, a, entries);
      }
    }
  }

  lemma MildNoChange(rules: Rules, t0: Tree, t: Tree, a: Action, entries: seq<UndoEntry>)
    requires Progress(t0, t, entries) && Mild(rules, t0, t, a) && Step(rules, t, a).status == Executed
    requires !a.RunCommand? && !Fresh(t, a) && (a.CreateDir? || Step(rules, t, a).tree == t)
    ensures Step(rules, t, a).tree == t && Progress(t0, t, entries + [EntryOf(a)])
  {
    ExecutedPerforms(rules, t, a);
    SamePaths(t0, t, t, entries, EntryOf(a));
  }

  lemma MildRewrite(rules: Rules, t0: Tree, t: Tree, a: Action, entries: seq<UndoEntry>)
    requires Progress(t0, t, entries) && Mild(rules, t0, t, a) && Step(rules, t, a).status == Executed
    requires (a.WriteFile? || a.AppendFile?) && !Fresh(t, a) && Step(rules, t, a).tree != t
    ensures Progress(t0, Step(rules, t, a).tree, entries + [EntryOf(a)])
  {
    ExecutedPerforms(rules, t, a);
    PerformWellFormed(t, a);
    var content := if a.WriteFile? then a.content else FileText(t, a.path) + a.content;
    PutExisting(t, a.path, content);
    Rewritten(t0, t, entries, a.path, content, EntryOf(a));
  }

  lemma LoggedLast(rules: Rules, t: Tree, actions: seq<Action>, entries: seq<UndoEntry>)
    requires actions != []
    ensures var n := |actions| - 1;
      var before := RunBatch(rules, t, actions[..n]);
      var r := Step(rules, before.tree, actions[n]);
      var b := RunBatch(rules, t, actions);
      b.tree == r.tree && entries + b.entries == (entries + before.entries) + Logged(actions[n], r.status)
  {
  }

  lemma {:induction false} BatchProgress(rules: Rules, t0: Tree, t: Tree, actions: seq<Action>, entries: seq<UndoEntry>)
    requires Progress(t0, t, entries) && MildBatch(rules, t0, t, actions)
    ensures Progress(t0, RunBatch(rules, t, actions).tree, entries + RunBatch(rules, t, actions).entries)
    decreases |actions|
  {
    if actions == [] {
      assert entries + [] == entries;
    } else {
      var n := |actions| - 1;
      var before := RunBatch(rules, t, actions[..n]);
      BatchProgress(rules, t0, t, actions[..n], entries);
      MildProgress(rules, t0, before.tree, actions[n], entries + before.entries);
      LoggedLast(rules, t, actions, entries);
    }
  }

  lemma NothingDone(t0: Tree)
    requires WellFormed(t0)
    ensures Progress(t0, t0, [])
  {
    assert Turns(t0, t0, [], map[]);
  }

  lemma {:induction false} RunProgress(t0: Tree, batches: seq<Batch>)
    requires WellFormed(t0) && MildRun(t0, batches)
    ensures Progress(t0, RunAll(t0, batches).tree, RunAll(t0, batches).entries)
    decreases |batches|
  {
    if batches == [] {
      NothingDone(t0);
    } else {
      var n := |batches| - 1;
      RunProgress(t0, batches[..n]);
      var before := RunAll(t0, batches[..n]);
      BatchProgress(batches[n].rules, t0, before.tree, batches[n].actions, before.entries);
    }
  }

  /** Undoing the log of a mild batch restores the workspace exactly; every entry is taken, as many are
      reverted as the batch made new things, and the others are skipped. */
  lemma BatchIsUndone(rules: Rules, t: Tree, actions: seq<Action>, u: Undo)
    requires WellFormed(t) && MildBatch(rules, t, t, actions) && !u.aborted && u.tree == RunBatch(rules, t, actions).tree
    ensures var b := RunBatch(rules, t, actions);
      var v := UndoEntries(u, b.entries);
      && v.tree == t && !v.aborted
      && v.attempted == u.attempted + |b.entries| && v.reverted - u.reverted == |b.tree| - |t|
      && v.skipped - u.skipped == |b.entries| - (|b.tree| - |t|)
  {
    NothingDone(t);
    BatchProgress(rules, t, t, actions, []);
    var b := RunBatch(rules, t, actions);
    assert [] + b.entries == b.entries;
    RestoredIffRemovable(t, b.tree, b.entries, u);
    UndoOnlyRemoves(u, b.entries);
  }

  /** Undoing the logs of a mild run from the last to the first restores the workspace exactly. */
  lemma RunIsUndone(t: Tree, batches: seq<Batch>, u: Undo)
    requires WellFormed(t) && MildRun(t, batches) && !u.aborted && u.tree == RunAll(t, batches).tree
    ensures var r := RunAll(t, batches);
      var v := UndoEntries(u, r.entries);
      && v.tree == t && !v.aborted
      && v.attempted == u.attempted + |r.entries| && v.reverted - u.reverted == |r.tree| - |t|
      && v.skipped - u.skipped == |r.entries| - (|r.tree| - |t|)
  {
    RunProgress(t, batches);
    RestoredIffRemovable(t, RunAll(t, batches).tree, RunAll(t, batches).entries, u);
    UndoOnlyRemoves(u, RunAll(t, batches).entries);
  }

  // ---- Runs that only create ----

  /** The entry names something that `t0` does not have, and is of its kind. */
  predicate Creates(t0: Tree, t: Tree, e: UndoEntry) {
    (e.FileWrite? || e.DirCreate?) && e.target in t && e.target !in t0 && e == EntryFor(e.target, t[e.target])
  }

  predicate NoRepeat(entries: seq<UndoEntry>) {
    forall i, j | 0 <= i < j < |entries| :: entries[i] != entries[j]
  }

  /** The log names exactly what is new. */
  ghost predicate CreatesAll(t0: Tree, t: Tree, entries: seq<UndoEntry>) {
    && Extends(t0, t) && (forall i | 0 <= i < |entries| :: Creates(t0, t, entries[i]))
    && (forall p | p in t && p !in t0 :: EntryFor(p, t[p]) in entries)
  }

  /** The entry of each created directory stands before the entries of the things created in it. */
  predicate ParentsFirst(entries: seq<UndoEntry>) {
    forall i, j | 0 <= i < |entries| && 0 <= j < |entries| :: StandsBefore(entries, i, j)
  }

  predicate StandsBefore(entries: seq<UndoEntry>, i: nat, j: nat)
    requires i < |entries| && j < |entries|
  {
    var e, f := entries[i], entries[j];
    e.DirCreate? && (f.FileWrite? || f.DirCreate?) && IsChild(f.target, e.target) ==> i < j
  }

  lemma CreatesAllIsGentle(t0: Tree, t: Tree, entries: seq<UndoEntry>)
    requires CreatesAll(t0, t, entries)
    ensures Gentle(t0, t, entries)
  {
    forall i | 0 <= i < |entries| ensures Spares(t0, t, entries[i]) {
      assert Creates(t0, t, entries[i]);
    }
  }

  function Position(entries: seq<UndoEntry>, e: UndoEntry): (i: nat)
    requires e in entries
    ensures i < |entries| && entries[i] == e
  {
    if entries[0] == e then 0 else 1 + Position(entries[1..], e)
  }

  lemma ParentsFirstThenRemovable(t0: Tree, t: Tree, entries: seq<UndoEntry>)
    requires CreatesAll(t0, t, entries) && ParentsFirst(entries)
    ensures Removable(t0, t, entries)
  {
    var turn := map p | p in t.Keys - t0.Keys :: Position(entries, EntryFor(p, t[p]));
    forall p, q | p in turn && q in turn && IsChild(q, p) && IsDir(t, p) ensures turn[p] < turn[q] {
      assert StandsBefore(entries, turn[p], turn[q]);
    }
    assert Turns(t0, t, entries, turn);
  }

  lemma RemovableThenParentsFirst(t0: Tree, t: Tree, entries: seq<UndoEntry>)
    requires CreatesAll(t0, t, entries) && NoRepeat(entries) && Removable(t0, t, entries)
    ensures ParentsFirst(entries)
  {
    var turn: map<Path, nat> :| Turns(t0, t, entries, turn);
    forall i, j | 0 <= i < |entries| && 0 <= j < |entries| ensures StandsBefore(entries, i, j) {
      var e, f := entries[i], entries[j];
      assert Creates(t0, t, e) && Creates(t0, t, f);
      assert entries[turn[e.target]] == e && entries[turn[f.target]] == f;
      assert turn[e.target] == i && turn[f.target] == j;
    }
  }

  /** For a log that names each new thing once, in any order: undoing it restores the workspace exactly when
      the entry of each directory stands before the entries of the things in it. */
  lemma RestoredIffParentsFirst(t0: Tree, t: Tree, entries: seq<UndoEntry>, u: Undo)
    requires WellFormed(t0) && CreatesAll(t0, t, entries) && NoRepeat(entries) && !u.aborted && u.tree == t
    ensures UndoEntries(u, entries).tree == t0 <==> ParentsFirst(entries)
  {
    CreatesAllIsGentle(t0, t, entries);
    RestoredIffRemovable(t0, t, entries, u);
    if ParentsFirst(entries) {
      ParentsFirstThenRemovable(t0, t, entries);
    }
    if Removable(t0, t, entries) {
      RemovableThenParentsFirst(t0, t, entries);
    }
  }

  lemma FreshCreates(t0: Tree, t: Tree, a: Action, entries: seq<UndoEntry>)
    requires CreatesAll(t0, t, entries) && NoRepeat(entries) && Fresh(t, a)
    ensures var t' := t[a.path := if a.CreateDir? then Dir else File(a.content)];
      CreatesAll(t0, t', entries + [EntryOf(a)]) && NoRepeat(entries + [EntryOf(a)])
  {
    var t', more := t[a.path := if a.CreateDir? then Dir else File(a.content)], entries + [EntryOf(a)];
    forall i | 0 <= i < |more| ensures Creates(t0, t', more[i]) && (i < |entries| ==> more[i] != EntryOf(a)) {
      if i < |entries| {
        assert Creates(t0, t, entries[i]);
      }
    }
    forall p | p in t' && p !in t0 ensures EntryFor(p, t'[p]) in more {
      if p == a.path {
        assert more[|entries|] == EntryFor(p, t'[p]);
      } else {
        assert EntryFor(p, t[p]) in entries;
      }
    }
  }

  lemma StepCreates(rules: Rules, t0: Tree, t: Tree, a: Action, entries: seq<UndoEntry>)
    requires CreatesAll(t0, t, entries) && NoRepeat(entries) && Reversible(rules, t, a)
    ensures var r := Step(rules, t, a);
      CreatesAll(t0, r.tree, entries + Logged(a, r.status)) && NoRepeat(entries + Logged(a, r.status))
  {
    var r := Step(rules, t, a);
    if r.status == Executed {
      ExecutedPerforms(rules, t, a);
      FreshPerformed(t, a);
      FreshCreates(t0, t, a, entries);
    } else {
      assert entries + [] == entries;
    }
  }

  lemma {:induction false} BatchCreates(rules: Rules, t0: Tree, t: Tree, actions: seq<Action>, entries: seq<UndoEntry>)
    requires CreatesAll(t0, t, entries) && NoRepeat(entries) && ReversibleBatch(rules, t, actions)
    ensures var all := entries + RunBatch(rules, t, actions).entries;
      CreatesAll(t0, RunBatch(rules, t, actions).tree, all) && NoRepeat(all)
    decreases |actions|
  {
    if actions == [] {
      assert entries + [] == entries;
    } else {
      var n := |actions| - 1;
      var before := RunBatch(rules, t, actions[..n]);
      BatchCreates(rules, t0, t, actions[..n], entries);
      StepCreates(rules, t0, before.tree, actions[n], entries + before.entries);
      LoggedLast(rules, t, actions, entries);
    }
  }

  /** The log of a run whose executed actions each create one new thing names each new thing once. */
  lemma {:induction false} RunCreates(t0: Tree, batches: seq<Batch>)
    requires ReversibleRun(t0, batches)
    ensures var r := RunAll(t0, batches); CreatesAll(t0, r.tree, r.entries) && NoRepeat(r.entries)
    decreases |batches|
  {
    if batches != [] {
      var n := |batches| - 1;
      RunCreates(t0, batches[..n]);
      var before := RunAll(t0, batches[..n]);
      BatchCreates(batches[n].rules, t0, before.tree, batches[n].actions, before.entries);
    }
  }
}
