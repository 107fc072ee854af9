/** The action runner and the rollback engine over one workspace and one run's undo files. */
module WorkspaceRunner {
  import opened Options
  import opened Risks
  import opened ActionBatch
  import opened ActionUndo
  import opened RunListings

  class Workspace {
    var tree: Tree
    var undoFiles: UndoFiles

    constructor (t: Tree)
      ensures tree == t && undoFiles == map[]
    {
      tree, undoFiles := t, map[];
    }

    /** Takes one action that is past the dry-run check; None when it throws or is not permitted. */
    method Execute(rules: Rules, action: Action) returns (executed: bool)
      requires rules.assess(action).allowed && !rules.dryRun
      requires Step(rules, tree, action).status != ApprovalRequired
      modifies this`tree
      ensures executed == (Step(rules, old(tree), action).status == Executed)
      ensures !executed ==> Step(rules, old(tree), action).status == Blocked
      ensures tree == Step(rules, old(tree), action).tree
    {
      if !action.RunCommand? {
        match Perform(tree, action) {
          case Some(t) => tree := t; return true;
          case None => return false;
        }
      }
      if !rules.allowCommands {
        return false;
      }
      var r := rules.shell(tree, action.command);
      tree := r.tree;
      executed := r.ok;
    }

    /** Runs a batch and writes its undo file, replacing an earlier one of the same phase. */
    method RunActionBatch(rules: Rules, phase: string, actions: seq<Action>) returns (results: seq<Status>)
      modifies this
      ensures results == RunBatch(rules, old(tree), actions).results
      ensures tree == RunBatch(rules, old(tree), actions).tree
      ensures undoFiles == old(undoFiles)[phase := RunBatch(rules, old(tree), actions).entries]
    {
      ghost var before := tree;
      results := [];
      var entries: seq<UndoEntry> := [];
      assert actions[..0] == [];
      for i := 0 to |actions|
        invariant RunBatch(rules, before, actions[..i]) == BatchResult(results, entries, tree)
        invariant undoFiles == old(undoFiles)
      {
        var action := actions[i];
        var assessment := rules.assess(action);
        assert actions[..i + 1][..i] == actions[..i];
        if !assessment.allowed {
          results := results + [Blocked];
        } else if assessment.risk == High && rules.approveHighRisk && !rules.gateApproved {
          results := results + [ApprovalRequired];
        } else if assessment.risk == Medium && rules.approveMediumRisk && !rules.gateApproved {
          results := results + [ApprovalRequired];
        } else if rules.dryRun {
          results := results + [DryRun];
        } else {
          var executed := Execute(rules, action);
          if executed {
            results := results + [Executed];
            entries := entries + [EntryOf(action)];
          } else {
            results := results + [Blocked];
          }
        }
      }
      assert actions[..|actions|] == actions;
      undoFiles := undoFiles[phase := entries];
    }

    /** Undoes one entry; `u` holds the counters so far. */
    method Revert(u: Undo, entry: UndoEntry) returns (v: Undo)
      requires u.tree == tree && !u.aborted
      modifies this`tree
      ensures v == UndoStep(u, entry) && v.tree == tree
    {
      v := u.(attempted := u.attempted + 1);
      match entry {
        case FileWrite(p) =>
          if p in tree {
            if tree[p].Dir? {
              return v.(aborted := true);
            }
            tree := Remove(tree, p);
            v := v.(tree := tree, reverted := v.reverted + 1);
          } else {
            v := v.(skipped := v.skipped + 1);
          }
        case DirCreate(p) =>
          if p in tree && tree[p].File? {
            v := v.(aborted := true);
          } else if IsEmptyDir(tree, p) {
            tree := Remove(tree, p);
            v := v.(tree := tree, reverted := v.reverted + 1);
          } else {
            v := v.(skipped := v.skipped + 1);
          }
        case _ =>
          v := v.(skipped := v.skipped + 1);
      }
    }

    /** Undoes one file's entries from the last to the first, until a file system call throws. */
    method RevertFile(u: Undo, entries: seq<UndoEntry>) returns (v: Undo)
      requires u.tree == tree && !u.aborted
      modifies this`tree
      ensures v == UndoEntries(u, entries) && v.tree == tree
    {
      v := u;
      var i := |entries|;
      assert entries[..i] == entries;
      while i > 0 && !v.aborted
        invariant 0 <= i <= |entries| && v.tree == tree
        invariant UndoEntries(v, entries[..i]) == UndoEntries(u, entries)
      {
        i := i - 1;
        assert entries[..i + 1][..i] == entries[..i];
        v := Revert(v, entries[i]);
      }
      AbortedStays(v, entries[..i]);
    }

    /** Undoes the listed undo files from the last to the first, each from its last entry to its first.
        `listing` is the order in which the directory lists them. */
    method RollbackRun(listing: seq<string>) returns (u: Undo)
      requires Lists(undoFiles, listing)
      modifies this`tree
      ensures u == UndoEntries(Undo(old(tree), 0, 0, 0, false), Joined(undoFiles, listing))
      ensures tree == u.tree
    {
      u := Undo(tree, 0, 0, 0, false);
      assert listing != [] ==> listing[0] in undoFiles;
      if undoFiles == map[] {
        return;
      }
      ghost var all := UndoEntries(u, Joined(undoFiles, listing));
      var i := |listing|;
      assert listing[..i] == listing;
      while i > 0 && !u.aborted
        invariant 0 <= i <= |listing| && u.tree == tree
        invariant Present(undoFiles, listing[..i]) && UndoEntries(u, Joined(undoFiles, listing[..i])) == all
      {
        i := i - 1;
        JoinedTake(undoFiles, listing, i);
        var entries := undoFiles[listing[i]];
        UndoConcat(u, Joined(undoFiles, listing[..i]), entries);
        u := RevertFile(u, entries);
      }
      AbortedStays(u, Joined(undoFiles, listing[..i]));
    }
  }
}
