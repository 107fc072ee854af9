/** What executed actions leave in the workspace, and when they can be executed. */
module ActionEffects {
  import opened Options
  import opened Risks
  import opened ActionBatch
  import opened ActionUndo

  /** The path lies above `p`. */
  predicate Above(q: Path, p: Path) { |q| < |p| && q == p[..|q|] }

  /** Nothing but `p` changes, except that missing directories above it are made. */
  ghost predicate OnlyAt(t: Tree, t': Tree, p: Path) {
    && (forall q | q in t && q != p :: q in t' && t'[q] == t[q])
    && (forall q | q in t' && q !in t && q != p :: t'[q] == Dir && Above(q, p))
  }

  /** No file stands above `p`. */
  predicate NoFileAbove(t: Tree, p: Path) {
    forall k | 0 <= k < |p| && p[..k] in t :: t[p[..k]].Dir?
  }

  lemma {:induction false} MakeDirsMeans(t: Tree, p: Path)
    requires WellFormed(t)
    ensures MakeDirs(t, p).Some? <==> NoFileAbove(t, p) && !(p in t && t[p].File?)
    ensures MakeDirs(t, p).Some? ==> var t' := MakeDirs(t, p).value;
      OnlyAt(t, t', p) && IsDir(t', p) && (p in t ==> t' == t)
    decreases |p|
  {
    if p in t {
      if t[p].Dir? { DirsAbove(t, p); }
    } else if p != [] {
      MakeDirsMeans(t, Parent(p));
      AboveParent(t, p);
      if MakeDirs(t, p).Some? {
        var t1, t' := MakeDirs(t, Parent(p)).value, MakeDirs(t, p).value;
        forall q | q in t' && q !in t && q != p ensures t'[q] == Dir && Above(q, p) {
          assert q == Parent(p) || Above(q, Parent(p));
          if q != Parent(p) { assert Parent(p)[..|q|] == p[..|q|]; }
        }
        assert !Above(p, Parent(p));
      }
    }
  }

  /** Above something that exists there are only directories. */
  lemma {:induction false} DirsAbove(t: Tree, p: Path)
    requires WellFormed(t) && p in t
    ensures NoFileAbove(t, p)
    decreases |p|
  {
    if p != [] {
      assert IsDir(t, Parent(p));
      DirsAbove(t, Parent(p));
      forall k | 0 <= k < |p| && p[..k] in t ensures t[p[..k]].Dir? {
        if k < |p| - 1 { assert p[..k] == Parent(p)[..k]; }
      }
    }
  }

  lemma AboveParent(t: Tree, p: Path)
    requires p != []
    ensures NoFileAbove(t, p) <==> NoFileAbove(t, Parent(p)) && !(Parent(p) in t && t[Parent(p)].File?)
  {
    assert forall k | 0 <= k < |p| - 1 :: p[..k] == Parent(p)[..k];
    if NoFileAbove(t, p) {
      assert p[..|p| - 1] == Parent(p);
      forall k | 0 <= k < |Parent(p)| && Parent(p)[..k] in t ensures t[Parent(p)[..k]].Dir? {
        assert p[..k] == Parent(p)[..k];
      }
    }
  }

  lemma PutFileMeans(t: Tree, p: Path, content: string)
    requires WellFormed(t)
    ensures PutFile(t, p, content).Some? <==> p != [] && NoFileAbove(t, p) && !IsDir(t, p)
    ensures PutFile(t, p, content).Some? ==> var t' := PutFile(t, p, content).value;
      OnlyAt(t, t', p) && p in t' && t'[p] == File(content)
  {
    if p != [] {
      AboveParent(t, p);
      MakeDirsMeans(t, Parent(p));
      if Parent(p) in t {
        if t[Parent(p)].Dir? { DirsAbove(t, Parent(p)); }
      } else if MakeDirs(t, Parent(p)).Some? {
        var t1 := MakeDirs(t, Parent(p)).value;
        assert !Above(p, Parent(p));
        forall q | q in t1 && q !in t ensures t1[q] == Dir && Above(q, p) {
          if q != Parent(p) { assert Parent(p)[..|q|] == p[..|q|]; }
        }
      }
    }
  }

  /** The text of a file, None for anything else. */
  function TextAt(t: Tree, p: Path): Option<string> {
    if p in t && t[p].File? then Some(t[p].content) else None
  }

  function OrEmpty(text: Option<string>): string { match text case Some(s) => s case None => "" }

  /** What an executed action leaves: a directory, the written text, or the old text followed by the appended one;
      and nothing else changes but that missing directories above are made. */
  lemma ExecutedLeaves(rules: Rules, t: Tree, a: Action)
    requires WellFormed(t) && !a.RunCommand? && Step(rules, t, a).status == Executed
    ensures var t' := Step(rules, t, a).tree;
      && OnlyAt(t, t', a.path)
      && match a
         case CreateDir(p) => IsDir(t', p)
         case WriteFile(p, text) => TextAt(t', p) == Some(text)
         case AppendFile(p, text) => TextAt(t', p) == Some(OrEmpty(TextAt(t, p)) + text)
  {
    match a
    case CreateDir(p) => MakeDirsMeans(t, p);
    case WriteFile(p, text) => PutFileMeans(t, p, text);
    case AppendFile(p, text) => PutFileMeans(t, p, FileText(t, p) + text);
  }

  /** A permitted file system action is executed exactly when no file stands above its path and the path itself is
      not taken by the other kind; otherwise it is blocked. */
  lemma ExecutedUnlessTaken(rules: Rules, t: Tree, a: Action)
    requires WellFormed(t) && !a.RunCommand? && Permitted(rules, a)
    ensures Step(rules, t, a).status == Executed <==>
      NoFileAbove(t, a.path) && if a.CreateDir? then !(a.path in t && t[a.path].File?) else a.path != [] && !IsDir(t, a.path)
    ensures Step(rules, t, a).status != Executed ==> Step(rules, t, a) == StepResult(Blocked, t)
  {
    match a
    case CreateDir(p) => MakeDirsMeans(t, p);
    case WriteFile(p, text) => PutFileMeans(t, p, text);
    case AppendFile(p, text) => PutFileMeans(t, p, FileText(t, p) + text);
  }

  // ---- Batches ----

  /** The texts that executed actions from `i` on append to the file. */
  function Appended(actions: seq<Action>, results: seq<Status>, p: Path, i: nat): string
    requires |actions| == |results|
    decreases |actions|
  {
    if i >= |actions| then ""
    else
      var n := |actions| - 1;
      Appended(actions[..n], results[..n], p, i) +
      if results[n] == Executed && actions[n].AppendFile? && actions[n].path == p then actions[n].content else ""
  }

  predicate WritesTo(actions: seq<Action>, results: seq<Status>, p: Path, i: nat)
    requires |actions| == |results| && i < |actions|
  {
    results[i] == Executed && actions[i].WriteFile? && actions[i].path == p
  }

  predicate AppendsTo(actions: seq<Action>, results: seq<Status>, p: Path, i: nat)
    requires |actions| == |results| && i < |actions|
  {
    results[i] == Executed && actions[i].AppendFile? && actions[i].path == p
  }

  predicate NoCommands(actions: seq<Action>) {
    forall i | 0 <= i < |actions| :: !actions[i].RunCommand?
  }

  lemma {:induction false} BatchStaysWellFormed(rules: Rules, t: Tree, actions: seq<Action>)
    requires WellFormed(t) && NoCommands(actions)
    ensures WellFormed(RunBatch(rules, t, actions).tree)
    decreases |actions|
  {
    if actions != [] {
      var n := |actions| - 1;
      BatchStaysWellFormed(rules, t, actions[..n]);
      PerformWellFormed(RunBatch(rules, t, actions[..n]).tree, actions[n]);
    }
  }

  /** What one more action does to the text at a path. */
  lemma StepText(rules: Rules, t: Tree, a: Action, p: Path)
    requires WellFormed(t) && !a.RunCommand?
    ensures var r := Step(rules, t, a);
      TextAt(r.tree, p) ==
        if r.status == Executed && a.WriteFile? && a.path == p then Some(a.content)
        else if r.status == Executed && a.AppendFile? && a.path == p then Some(OrEmpty(TextAt(t, p)) + a.content)
        else TextAt(t, p)
  {
    StepPermitted(rules, t, a);
    if Permitted(rules, a) {
      ExecutedUnlessTaken(rules, t, a);
      if Step(rules, t, a).status == Executed {
        ExecutedLeaves(rules, t, a);
      }
    }
  }

  /** The text at a path after the executed ones of the actions. */
  function TextAfter(before: Option<string>, actions: seq<Action>, results: seq<Status>, p: Path): Option<string>
    requires |actions| == |results|
    decreases |actions|
  {
    if actions == [] then before
    else
      var n := |actions| - 1;
      var text := TextAfter(before, actions[..n], results[..n], p);
      if WritesTo(actions, results, p, n) then Some(actions[n].content)
      else if AppendsTo(actions, results, p, n) then Some(OrEmpty(text) + actions[n].content)
      else text
  }

  lemma BatchLast(rules: Rules, t: Tree, actions: seq<Action>)
    requires actions != []
    ensures var n, b := |actions| - 1, RunBatch(rules, t, actions);
      var before := RunBatch(rules, t, actions[..n]);
      var r := Step(rules, before.tree, actions[n]);
      && |before.results| == n && |b.results| == n + 1 && b.results[..n] == before.results && b.results[n] == r.status
      && b.tree == r.tree && b.entries == before.entries + Logged(actions[n], r.status)
  {
    LogListsExecuted(rules, t, actions[..|actions| - 1]);
  }

  lemma {:induction false} BatchText(rules: Rules, t: Tree, actions: seq<Action>, p: Path)
    requires WellFormed(t) && NoCommands(actions)
    ensures |RunBatch(rules, t, actions).results| == |actions|
    ensures TextAt(RunBatch(rules, t, actions).tree, p) == TextAfter(TextAt(t, p), actions, RunBatch(rules, t, actions).results, p)
    decreases |actions|
  {
    if actions != [] {
      var n := |actions| - 1;
      BatchLast(rules, t, actions);
      BatchText(rules, t, actions[..n], p);
      BatchStaysWellFormed(rules, t, actions[..n]);
      StepText(rules, RunBatch(rules, t, actions[..n]).tree, actions[n], p);
    }
  }

  lemma {:induction false} LastWrite(before: Option<string>, actions: seq<Action>, results: seq<Status>, p: Path, i: nat)
    requires |actions| == |results| && i < |actions| && WritesTo(actions, results, p, i)
    requires forall j | i < j < |actions| :: !WritesTo(actions, results, p, j)
    ensures TextAfter(before, actions, results, p) == Some(actions[i].content + Appended(actions, results, p, i + 1))
    decreases |actions|
  {
    var n := |actions| - 1;
    if i < n {
      forall j | i < j < n ensures !WritesTo(actions[..n], results[..n], p, j) {
        assert !WritesTo(actions, results, p, j);
      }
      LastWrite(before, actions[..n], results[..n], p, i);
      assert !WritesTo(actions, results, p, n);
      var text, rest := actions[i].content, Appended(actions[..n], results[..n], p, i + 1);
      assert AppendsTo(actions, results, p, n) ==> (text + rest) + actions[n].content == text + (rest + actions[n].content);
      assert rest + "" == rest;
    } else {
      assert actions[i].content + "" == actions[i].content;
    }
  }

  lemma {:induction false} NoWrite(before: Option<string>, actions: seq<Action>, results: seq<Status>, p: Path)
    requires |actions| == |results| && forall j | 0 <= j < |actions| :: !WritesTo(actions, results, p, j)
    ensures OrEmpty(TextAfter(before, actions, results, p)) == OrEmpty(before) + Appended(actions, results, p, 0)
    ensures (forall j | 0 <= j < |actions| :: !AppendsTo(actions, results, p, j)) ==> TextAfter(before, actions, results, p) == before
    decreases |actions|
  {
    if actions != [] {
      var n := |actions| - 1;
      forall j | 0 <= j < n
        ensures !WritesTo(actions[..n], results[..n], p, j)
        ensures AppendsTo(actions[..n], results[..n], p, j) == AppendsTo(actions, results, p, j)
      {
        assert !WritesTo(actions, results, p, j);
      }
      NoWrite(before, actions[..n], results[..n], p);
      assert !WritesTo(actions, results, p, n);
    }
  }

  /** The text of a file after a batch without commands is that of its last executed write, followed by what the
      executed actions behind it append, in order. */
  lemma LastWriteThenAppends(rules: Rules, t: Tree, actions: seq<Action>, p: Path, i: nat)
    requires WellFormed(t) && NoCommands(actions) && i < |actions|
    requires |RunBatch(rules, t, actions).results| == |actions|
    requires var results := RunBatch(rules, t, actions).results;
      WritesTo(actions, results, p, i) && forall j | i < j < |actions| :: !WritesTo(actions, results, p, j)
    ensures var b := RunBatch(rules, t, actions);
      TextAt(b.tree, p) == Some(actions[i].content + Appended(actions, b.results, p, i + 1))
  {
    BatchText(rules, t, actions, p);
    LastWrite(TextAt(t, p), actions, RunBatch(rules, t, actions).results, p, i);
  }

  /** Without an executed write the old text stays, followed by what is appended; a file that nobody writes or
      appends to stays exactly as it is. */
  lemma OldTextThenAppends(rules: Rules, t: Tree, actions: seq<Action>, p: Path)
    requires WellFormed(t) && NoCommands(actions)
    requires |RunBatch(rules, t, actions).results| == |actions|
    requires var results := RunBatch(rules, t, actions).results; forall j | 0 <= j < |actions| :: !WritesTo(actions, results, p, j)
    ensures var b := RunBatch(rules, t, actions);
      && OrEmpty(TextAt(b.tree, p)) == OrEmpty(TextAt(t, p)) + Appended(actions, b.results, p, 0)
      && ((forall j | 0 <= j < |actions| :: !AppendsTo(actions, b.results, p, j)) ==> TextAt(b.tree, p) == TextAt(t, p))
  {
    BatchText(rules, t, actions, p);
    NoWrite(TextAt(t, p), actions, RunBatch(rules, t, actions).results, p);
  }

  // ---- What undoing leaves alone ----

  lemma UndoLast(u: Undo, entries: seq<UndoEntry>, e: UndoEntry)
    ensures UndoEntries(u, entries + [e]) == UndoEntries(UndoStep(u, e), entries)
  {
    assert (entries + [e])[..|entries|] == entries;
  }

  function Skipped(u: Undo, n: nat): Undo { u.(attempted := u.attempted + n, skipped := u.skipped + n) }

  lemma LastSkipped(u: Undo, entries: seq<UndoEntry>, a: Action, status: Status)
    requires !u.aborted && (a.AppendFile? || a.RunCommand?)
    ensures UndoEntries(u, entries + Logged(a, status)) == UndoEntries(Skipped(u, |Logged(a, status)|), entries)
  {
    if status == Executed {
      UndoLast(u, entries, EntryOf(a));
    } else {
      assert entries + [] == entries;
    }
  }

  /** Undoing the log of a batch of appends and commands changes nothing, and counts every entry as skipped. */
  lemma {:induction false} AppendsAreNotUndone(rules: Rules, t: Tree, actions: seq<Action>, u: Undo)
    requires !u.aborted && forall i | 0 <= i < |actions| :: actions[i].AppendFile? || actions[i].RunCommand?
    ensures var entries := RunBatch(rules, t, actions).entries; UndoEntries(u, entries) == Skipped(u, |entries|)
    decreases |actions|
  {
    if actions != [] {
      var n := |actions| - 1;
      var before := RunBatch(rules, t, actions[..n]);
      var last := Logged(actions[n], Step(rules, before.tree, actions[n]).status);
      BatchLast(rules, t, actions);
      LastSkipped(u, before.entries, actions[n], Step(rules, before.tree, actions[n]).status);
      AppendsAreNotUndone(rules, t, actions[..n], Skipped(u, |last|));
    }
  }
}
