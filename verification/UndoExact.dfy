/** When undoing restores a workspace, exactly: for any log, any workspace and any order, also when the log names
    what was there before, and when a file system call throws. */
module UndoExact {
  import opened ActionBatch
  import opened ActionUndo
  import opened UndoOrder

  /** Undoing the entry in the workspace throws: it names a directory as a file or a file as a directory. */
  predicate Throws(t: Tree, e: UndoEntry) {
    (e.FileWrite? && e.target in t && t[e.target].Dir?) || (e.DirCreate? && e.target in t && t[e.target].File?)
  }

  /** When the log has been undone down to position `i`, the path is still there: it was there before, or its
      turn is yet to come. */
  predicate Still(t0: Tree, turn: map<Path, nat>, p: Path, i: nat) {
    p in t0 || (p in turn && turn[p] < i)
  }

  ghost predicate Occupied(t0: Tree, t: Tree, turn: map<Path, nat>, p: Path, i: nat) {
    exists q :: q in t && IsChild(q, p) && Still(t0, turn, q, i)
  }

  /** Unless it is the turn of what it names, the entry finds it gone, or finds a directory with something in it. */
  ghost predicate Passes(t0: Tree, t: Tree, turn: map<Path, nat>, e: UndoEntry, i: nat) {
    (e.FileWrite? || e.DirCreate?) && Still(t0, turn, e.target, i) ==>
      e.DirCreate? && IsDir(t, e.target) && (e.target == [] || Occupied(t0, t, turn, e.target, i))
  }

  /** Down to position `stop` every new path has its turn and every entry passes; the entry before throws. */
  ghost predicate Schedule(t0: Tree, t: Tree, entries: seq<UndoEntry>, turn: map<Path, nat>, stop: nat) {
    && stop <= |entries| && Turns(t0, t, entries, turn) && (forall p | p in turn :: stop <= turn[p])
    && (forall i | stop <= i < |entries| :: Passes(t0, t, turn, entries[i], i))
    && (stop > 0 ==> Throws(t0, entries[stop - 1]))
  }

  ghost predicate Restorable(t0: Tree, t: Tree, entries: seq<UndoEntry>) {
    Extends(t0, t) && exists turn: map<Path, nat>, stop: nat :: Schedule(t0, t, entries, turn, stop)
  }

  // ---- Necessity ----

  /** What a rollback does, from any workspace and by any log, follows a schedule. */
  lemma {:induction false} RollbackSchedule(u: Undo, entries: seq<UndoEntry>) returns (turn: map<Path, nat>, stop: nat)
    requires !u.aborted
    ensures Schedule(UndoEntries(u, entries).tree, u.tree, entries, turn, stop)
    decreases |entries|
  {
    turn, stop := map[], 0;
    if entries != [] {
      var n := |entries| - 1;
      var w := UndoStep(u, entries[n]);
      if w.aborted {
        AbortedStays(w, entries[..n]);
        stop := n + 1;
      } else {
        turn, stop := RollbackSchedule(w, entries[..n]);
        turn := ScheduleSnoc(u, entries, turn, stop);
      }
    }
  }

  lemma ScheduleSnoc(u: Undo, entries: seq<UndoEntry>, before: map<Path, nat>, stop: nat) returns (turn: map<Path, nat>)
    requires !u.aborted && entries != [] && !UndoStep(u, entries[|entries| - 1]).aborted
    requires var n := |entries| - 1;
      Schedule(UndoEntries(u, entries).tree, UndoStep(u, entries[n]).tree, entries[..n], before, stop)
    ensures Schedule(UndoEntries(u, entries).tree, u.tree, entries, turn, stop)
  {
    var n := |entries| - 1;
    var e, w, v := entries[n], UndoStep(u, entries[n]), UndoEntries(u, entries);
    turn := TurnsSnoc(u, entries, before);
    UndoneWithin(w, entries[..n]);
    forall i | stop <= i < |entries| ensures Passes(v.tree, u.tree, turn, entries[i], i) {
      if i < n {
        assert Passes(v.tree, w.tree, before, entries[..n][i], i);
        PassesEarlier(u, entries, before, turn, i);
      } else {
        PassesNow(u, entries, before, turn);
      }
    }
    if stop > 0 {
      assert entries[..n][stop - 1] == entries[stop - 1];
    }
  }

  lemma PassesEarlier(u: Undo, entries: seq<UndoEntry>, before: map<Path, nat>, turn: map<Path, nat>, i: nat)
    requires !u.aborted && i < |entries| - 1 && !UndoStep(u, entries[|entries| - 1]).aborted
    requires var n := |entries| - 1;
      var w, v := UndoStep(u, entries[n]), UndoEntries(u, entries);
      && v.tree.Keys <= w.tree.Keys && before.Keys <= w.tree.Keys
      && turn == (if w.tree == u.tree then before else before[entries[n].target := n])
      && Passes(v.tree, w.tree, before, entries[i], i)
    ensures Passes(UndoEntries(u, entries).tree, u.tree, turn, entries[i], i)
  {
    var n := |entries| - 1;
    var w, v, e := UndoStep(u, entries[n]), UndoEntries(u, entries), entries[i];
    if w.tree != u.tree {
      StepRemoves(u, entries[n]);
      assert forall p :: Still(v.tree, turn, p, i) <==> Still(v.tree, before, p, i);
      if (e.FileWrite? || e.DirCreate?) && Still(v.tree, turn, e.target, i) && e.target != [] {
        var q :| q in w.tree && IsChild(q, e.target) && Still(v.tree, before, q, i);
        assert q in u.tree && Still(v.tree, turn, q, i);
      }
    }
  }

  lemma PassesNow(u: Undo, entries: seq<UndoEntry>, before: map<Path, nat>, turn: map<Path, nat>)
    requires !u.aborted && entries != [] && !UndoStep(u, entries[|entries| - 1]).aborted
    requires var n := |entries| - 1;
      var w, v := UndoStep(u, entries[n]), UndoEntries(u, entries);
      && v.tree.Keys <= w.tree.Keys && turn.Keys == u.tree.Keys - v.tree.Keys
      && turn == (if w.tree == u.tree then before else before[entries[n].target := n])
      && before.Keys == w.tree.Keys - v.tree.Keys && forall p | p in before :: before[p] < n
    ensures Passes(UndoEntries(u, entries).tree, u.tree, turn, entries[|entries| - 1], |entries| - 1)
  {
    var n := |entries| - 1;
    var w, v, e := UndoStep(u, entries[n]), UndoEntries(u, entries), entries[n];
    if (e.FileWrite? || e.DirCreate?) && Still(v.tree, turn, e.target, n) {
      assert e.target in w.tree;
      if e.target != [] {
        assert !IsEmptyDir(u.tree, e.target);
        var q :| q in u.tree && q != [] && Parent(q) == e.target;
        assert IsChild(q, e.target) && Still(v.tree, turn, q, n);
      }
    }
  }

  // ---- Sufficiency ----

  /** The workspace when the log has been undone down to position `k`. */
  ghost predicate Reached(t0: Tree, t: Tree, turn: map<Path, nat>, now: Tree, k: nat) {
    Extends(now, t) && forall p :: p in now <==> Still(t0, turn, p, k)
  }

  lemma ScheduledStep(t0: Tree, t: Tree, entries: seq<UndoEntry>, turn: map<Path, nat>, stop: nat, u: Undo, k: nat)
    requires WellFormed(t0) && Extends(t0, t) && Schedule(t0, t, entries, turn, stop)
    requires stop <= k < |entries| && !u.aborted && Reached(t0, t, turn, u.tree, k + 1)
    ensures var w := UndoStep(u, entries[k]); !w.aborted && Reached(t0, t, turn, w.tree, k)
  {
    var e := entries[k];
    assert Passes(t0, t, turn, e, k);
    if (e.FileWrite? || e.DirCreate?) && e.target in turn && turn[e.target] == k {
      ItsTurn(t0, t, entries, turn, u, e.target);
    } else {
      NotItsTurn(t0, t, turn, u, e, k);
      forall p | p in turn ensures turn[p] != k {
        assert entries[turn[p]] == EntryFor(p, t[p]);
      }
    }
  }

  /** What has its turn is removed. */
  lemma ItsTurn(t0: Tree, t: Tree, entries: seq<UndoEntry>, turn: map<Path, nat>, u: Undo, p: Path)
    requires WellFormed(t0) && Turns(t0, t, entries, turn) && p in turn
    requires !u.aborted && Reached(t0, t, turn, u.tree, turn[p] + 1)
    ensures var w := UndoStep(u, entries[turn[p]]); !w.aborted && Reached(t0, t, turn, w.tree, turn[p])
  {
    var k := turn[p];
    var w := UndoStep(u, entries[k]);
    assert p in u.tree && u.tree[p] == t[p];
    TurnHasCome(t0, t, entries, turn, u, p);
    assert w.tree == Remove(u.tree, p);
    forall q | q in turn && turn[q] == k ensures q == p {
      assert EntryFor(q, t[q]) == EntryFor(p, t[p]);
    }
  }

  /** What does not have its turn stays. */
  lemma NotItsTurn(t0: Tree, t: Tree, turn: map<Path, nat>, u: Undo, e: UndoEntry, k: nat)
    requires Passes(t0, t, turn, e, k) && !u.aborted && Reached(t0, t, turn, u.tree, k + 1)
    requires e.FileWrite? || e.DirCreate? ==> !(e.target in turn && turn[e.target] == k)
    ensures var w := UndoStep(u, e); !w.aborted && w.tree == u.tree
  {
    if (e.FileWrite? || e.DirCreate?) && e.target in u.tree {
      assert Still(t0, turn, e.target, k);
      assert e.DirCreate? && IsDir(t, e.target) && u.tree[e.target] == t[e.target];
      if e.target != [] {
        var q :| q in t && IsChild(q, e.target) && Still(t0, turn, q, k);
        assert Still(t0, turn, q, k + 1) && q in u.tree && q != [] && Parent(q) == e.target;
      }
    }
  }

  lemma UndoNext(u: Undo, entries: seq<UndoEntry>, k: nat)
    requires 0 < k <= |entries|
    ensures UndoEntries(u, entries[..k]) == UndoEntries(UndoStep(u, entries[k - 1]), entries[..k - 1])
  {
    assert entries[..k][..k - 1] == entries[..k - 1];
  }

  /** Where the schedule stops, so does the rollback. */
  lemma ScheduleStops(t0: Tree, t: Tree, entries: seq<UndoEntry>, turn: map<Path, nat>, stop: nat, u: Undo)
    requires Extends(t0, t) && Schedule(t0, t, entries, turn, stop) && !u.aborted && Reached(t0, t, turn, u.tree, stop)
    ensures UndoEntries(u, entries[..stop]).tree == t0
  {
    assert forall p :: p in u.tree <==> p in t0;
    assert u.tree == t0;
    if stop > 0 {
      UndoNext(u, entries, stop);
      AbortedStays(UndoStep(u, entries[stop - 1]), entries[..stop - 1]);
    }
  }

  lemma ScheduledTurn(
      t0: Tree, t: Tree, entries: seq<UndoEntry>, turn: map<Path, nat>, stop: nat, u: Undo, k: nat) returns (w: Undo)
    requires WellFormed(t0) && Extends(t0, t) && Schedule(t0, t, entries, turn, stop)
    requires stop < k <= |entries| && !u.aborted && Reached(t0, t, turn, u.tree, k)
    ensures !w.aborted && Reached(t0, t, turn, w.tree, k - 1)
    ensures UndoEntries(u, entries[..k]) == UndoEntries(w, entries[..k - 1])
  {
    w := UndoStep(u, entries[k - 1]);
    ScheduledStep(t0, t, entries, turn, stop, u, k - 1);
    UndoNext(u, entries, k);
  }

  lemma {:induction false} ScheduleRestores(
      t0: Tree, t: Tree, entries: seq<UndoEntry>, turn: map<Path, nat>, stop: nat, u: Undo, k: nat)
    requires WellFormed(t0) && Extends(t0, t) && Schedule(t0, t, entries, turn, stop)
    requires stop <= k <= |entries| && !u.aborted && Reached(t0, t, turn, u.tree, k)
    ensures UndoEntries(u, entries[..k]).tree == t0
    decreases k
  {
    if k == stop {
      ScheduleStops(t0, t, entries, turn, stop, u);
    } else {
      var w := ScheduledTurn(t0, t, entries, turn, stop, u, k);
      ScheduleRestores(t0, t, entries, turn, stop, w, k - 1);
    }
  }

  lemma ReachedAtStart(t0: Tree, t: Tree, entries: seq<UndoEntry>, turn: map<Path, nat>)
    requires Extends(t0, t) && Turns(t0, t, entries, turn)
    ensures Reached(t0, t, turn, t, |entries|)
  {
  }

  /** For any log and any two workspaces: undoing the log leads from one to the other exactly when nothing of
      the other was lost or overwritten, and the log has a schedule. */
  lemma RestoredIff(t0: Tree, u: Undo, entries: seq<UndoEntry>)
    requires WellFormed(t0) && !u.aborted
    ensures UndoEntries(u, entries).tree == t0 <==> Restorable(t0, u.tree, entries)
  {
    assert entries[..|entries|] == entries;
    if UndoEntries(u, entries).tree == t0 {
      UndoOnlyRemoves(u, entries);
      var turn, stop := RollbackSchedule(u, entries);
    }
    if Restorable(t0, u.tree, entries) {
      var turn: map<Path, nat>, stop: nat :| Schedule(t0, u.tree, entries, turn, stop);
      ReachedAtStart(t0, u.tree, entries, turn);
      ScheduleRestores(t0, u.tree, entries, turn, stop, u, |entries|);
    }
  }
}
