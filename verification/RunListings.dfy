/** The undo files of a run, and what rolling the run back through a listing of them restores. */
module RunListings {
  import opened ActionBatch
  import opened ActionUndo
  import opened Risks
  import opened UndoExact
  import opened UndoOrder

  /** The undo files of a run by phase; each holds the undo log of the phase's latest batch. */
  type UndoFiles = map<string, seq<UndoEntry>>

  predicate Present(files: UndoFiles, listing: seq<string>) {
    forall f | f in listing :: f in files
  }

  /** The listed undo files read one after the other. */
  function Joined(files: UndoFiles, listing: seq<string>): seq<UndoEntry>
    requires Present(files, listing)
    decreases |listing|
  {
    if listing == [] then []
    else Joined(files, listing[..|listing| - 1]) + files[listing[|listing| - 1]]
  }

  lemma JoinedTake(files: UndoFiles, listing: seq<string>, i: nat)
    requires i < |listing| && Present(files, listing[..i + 1])
    ensures listing[i] in files && Present(files, listing[..i])
    ensures Joined(files, listing[..i + 1]) == Joined(files, listing[..i]) + files[listing[i]]
  {
    var longer := listing[..i + 1];
    assert longer[..i] == listing[..i] && longer[i] == listing[i];
  }

  /** The undo files that the batches of a run leave. */
  function FilesOf(t: Tree, batches: seq<Batch>): UndoFiles
    decreases |batches|
  {
    if batches == [] then map[]
    else
      var n := |batches| - 1;
      var before := RunAll(t, batches[..n]).tree;
      FilesOf(t, batches[..n])[batches[n].phase := RunBatch(batches[n].rules, before, batches[n].actions).entries]
  }

  function Phases(batches: seq<Batch>): seq<string>
    decreases |batches|
  {
    if batches == [] then [] else Phases(batches[..|batches| - 1]) + [batches[|batches| - 1].phase]
  }

  predicate Distinct(names: seq<string>) {
    forall i, j | 0 <= i < j < |names| :: names[i] != names[j]
  }

  /** The listing names every undo file once. */
  predicate Lists(files: UndoFiles, listing: seq<string>) {
    Distinct(listing) && Present(files, listing) && forall f | f in files :: f in listing
  }

  lemma {:induction false} JoinedAgrees(files: UndoFiles, others: UndoFiles, listing: seq<string>)
    requires forall f | f in listing :: f in files && f in others && files[f] == others[f]
    ensures Joined(files, listing) == Joined(others, listing)
    decreases |listing|
  {
    if listing != [] {
      JoinedAgrees(files, others, listing[..|listing| - 1]);
    }
  }

  lemma DistinctSnoc(names: seq<string>, last: string)
    requires Distinct(names + [last])
    ensures Distinct(names) && last !in names
  {
    var all := names + [last];
    assert forall i | 0 <= i < |names| :: all[i] == names[i] && all[i] != all[|names|];
  }

  /** When every batch has its own phase, the undo files in the order of the batches hold every executed
      action of the run, in order. */
  lemma {:induction false} FilesHoldRun(t: Tree, batches: seq<Batch>)
    requires Distinct(Phases(batches))
    ensures Lists(FilesOf(t, batches), Phases(batches))
    ensures Joined(FilesOf(t, batches), Phases(batches)) == RunAll(t, batches).entries
    decreases |batches|
  {
    if batches != [] {
      var n := |batches| - 1;
      var names, last := Phases(batches[..n]), batches[n].phase;
      DistinctSnoc(names, last);
      FilesHoldRun(t, batches[..n]);
      var earlier := FilesOf(t, batches[..n]);
      var entries := RunBatch(batches[n].rules, RunAll(t, batches[..n]).tree, batches[n].actions).entries;
      JoinedSnoc(earlier, names, last, entries);
    }
  }

  lemma LatestFile(t: Tree, batches: seq<Batch>)
    requires batches != []
    ensures var n := |batches| - 1;
      FilesOf(t, batches) == FilesOf(t, batches[..n])[batches[n].phase :=
        RunBatch(batches[n].rules, RunAll(t, batches[..n]).tree, batches[n].actions).entries]
  {
  }

  /** Also when phases are repeated: the undo file of a phase holds the executed actions of its last batch, and of no
      other. */
  lemma {:induction false} FilesHoldLatest(t: Tree, batches: seq<Batch>, k: nat)
    requires k < |batches| && forall j | k < j < |batches| :: batches[j].phase != batches[k].phase
    ensures batches[k].phase in FilesOf(t, batches)
    ensures FilesOf(t, batches)[batches[k].phase] ==
      RunBatch(batches[k].rules, RunAll(t, batches[..k]).tree, batches[k].actions).entries
    decreases |batches|
  {
    var n := |batches| - 1;
    LatestFile(t, batches);
    if k < n {
      assert batches[..n][..k] == batches[..k] && batches[..n][k] == batches[k];
      FilesHoldLatest(t, batches[..n], k);
    }
  }

  lemma JoinedSnoc(files: UndoFiles, names: seq<string>, last: string, entries: seq<UndoEntry>)
    requires (forall f | f in names :: f in files) && last !in names
    ensures forall f | f in names + [last] :: f in files[last := entries]
    ensures Joined(files[last := entries], names + [last]) == Joined(files, names) + entries
  {
    var listing := names + [last];
    assert listing[..|listing| - 1] == names;
    JoinedAgrees(files, files[last := entries], names);
  }

  /** Run mild batches under distinct phases, then roll the run back: when the directory listing is in the
      order of the batches, the workspace is what it was before the run. */
  lemma RollbackRestoresRun(t: Tree, batches: seq<Batch>)
    requires WellFormed(t) && MildRun(t, batches) && Distinct(Phases(batches))
    ensures Lists(FilesOf(t, batches), Phases(batches))
    ensures var v := UndoEntries(Undo(RunAll(t, batches).tree, 0, 0, 0, false), Joined(FilesOf(t, batches), Phases(batches)));
      v.tree == t && !v.aborted
  {
    FilesHoldRun(t, batches);
    RunIsUndone(t, batches, Undo(RunAll(t, batches).tree, 0, 0, 0, false));
  }

  // ---- Listings in any order ----

  lemma {:induction false} JoinedMembers(files: UndoFiles, listing: seq<string>, e: UndoEntry)
    requires Present(files, listing)
    ensures e in Joined(files, listing) <==> exists f :: f in listing && e in files[f]
    decreases |listing|
  {
    if listing != [] {
      var n := |listing| - 1;
      assert listing == listing[..n] + [listing[n]];
      JoinedMembers(files, listing[..n], e);
    }
  }

  /** All listings of the same files read the same entries. */
  lemma SameMembers(files: UndoFiles, a: seq<string>, b: seq<string>, e: UndoEntry)
    requires Lists(files, a) && Lists(files, b)
    ensures e in Joined(files, a) <==> e in Joined(files, b)
  {
    JoinedMembers(files, a, e);
    JoinedMembers(files, b, e);
  }

  lemma GentleListing(t0: Tree, t: Tree, files: UndoFiles, a: seq<string>, b: seq<string>)
    requires Lists(files, a) && Lists(files, b) && Gentle(t0, t, Joined(files, a))
    ensures Gentle(t0, t, Joined(files, b))
  {
    forall i | 0 <= i < |Joined(files, b)| ensures Spares(t0, t, Joined(files, b)[i]) {
      var e := Joined(files, b)[i];
      assert e in Joined(files, b);
      SameMembers(files, a, b, e);
      var j :| 0 <= j < |Joined(files, a)| && Joined(files, a)[j] == e;
    }
  }

  /** For every order in which the directory may list the undo files of a mild run: rolling the run back
      restores the workspace exactly when, in the entries as they are read, every new path can be given a turn
      before the turns of what lies in it. */
  lemma RunRestoredIff(t: Tree, batches: seq<Batch>, listing: seq<string>)
    requires WellFormed(t) && MildRun(t, batches) && Distinct(Phases(batches)) && Lists(FilesOf(t, batches), listing)
    ensures var r, entries := RunAll(t, batches), Joined(FilesOf(t, batches), listing);
      UndoEntries(Undo(r.tree, 0, 0, 0, false), entries).tree == t <==> Removable(t, r.tree, entries)
  {
    var r, files := RunAll(t, batches), FilesOf(t, batches);
    FilesHoldRun(t, batches);
    RunProgress(t, batches);
    GentleListing(t, r.tree, files, Phases(batches), listing);
    RestoredIffRemovable(t, r.tree, Joined(files, listing), Undo(r.tree, 0, 0, 0, false));
  }

  /** For all batches and phases, whatever their actions do, and every order of the listing: rolling the run back
      restores the workspace exactly when the run lost and overwrote nothing of it and the entries, as they are
      read, have a schedule. */
  lemma AnyRunRestoredIff(t: Tree, batches: seq<Batch>, listing: seq<string>)
    requires WellFormed(t) && Lists(FilesOf(t, batches), listing)
    ensures var r, entries := RunAll(t, batches), Joined(FilesOf(t, batches), listing);
      UndoEntries(Undo(r.tree, 0, 0, 0, false), entries).tree == t <==> Restorable(t, r.tree, entries)
  {
    RestoredIff(t, Undo(RunAll(t, batches).tree, 0, 0, 0, false), Joined(FilesOf(t, batches), listing));
  }

  // ---- Runs that only create ----

  /** No entry occurs twice, within a file or in two files. */
  ghost predicate Separate(files: UndoFiles, names: set<string>) {
    && (forall f | f in names :: f in files && NoRepeat(files[f]))
    && (forall f, g | f in names && g in names && f != g :: Apart(files[f], files[g]))
  }

  ghost predicate Apart(a: seq<UndoEntry>, b: seq<UndoEntry>) {
    forall e | e in a :: e !in b
  }

  function NamesOf(listing: seq<string>): set<string> { set f | f in listing }

  lemma NoRepeatConcat(a: seq<UndoEntry>, b: seq<UndoEntry>)
    ensures NoRepeat(a + b) <==> NoRepeat(a) && NoRepeat(b) && Apart(a, b)
  {
    var all := a + b;
    assert forall i | 0 <= i < |a| :: all[i] == a[i];
    assert forall j | 0 <= j < |b| :: all[|a| + j] == b[j];
    if NoRepeat(all) {
      forall e | e in a ensures e !in b {
        var i :| 0 <= i < |a| && a[i] == e;
        forall j | 0 <= j < |b| ensures a[i] != b[j] {
          assert all[i] == a[i] && all[|a| + j] == b[j];
        }
      }
      forall i, j | 0 <= i < j < |b| ensures b[i] != b[j] {
        assert all[|a| + i] != all[|a| + j];
      }
    }
    if NoRepeat(a) && NoRepeat(b) && Apart(a, b) {
      forall i, j | 0 <= i < j < |all| ensures all[i] != all[j] {
        if i < |a| <= j {
          assert a[i] in a && b[j - |a|] in b;
        }
      }
    }
  }

  lemma ApartFromJoined(files: UndoFiles, listing: seq<string>, b: seq<UndoEntry>)
    requires Present(files, listing)
    ensures Apart(Joined(files, listing), b) <==> forall f | f in listing :: Apart(files[f], b)
  {
    forall e ensures e in Joined(files, listing) <==> exists f :: f in listing && e in files[f] {
      JoinedMembers(files, listing, e);
    }
  }

  lemma {:induction false} SeparateIff(files: UndoFiles, listing: seq<string>)
    requires Present(files, listing) && Distinct(listing)
    ensures NoRepeat(Joined(files, listing)) <==> Separate(files, NamesOf(listing))
    decreases |listing|
  {
    if listing != [] {
      var n := |listing| - 1;
      var before, last := listing[..n], listing[n];
      assert listing == before + [last];
      DistinctSnoc(before, last);
      SeparateIff(files, before);
      NoRepeatConcat(Joined(files, before), files[last]);
      ApartFromJoined(files, before, files[last]);
      SeparateSnoc(files, NamesOf(before), last);
      assert NamesOf(listing) == NamesOf(before) + {last};
      assert forall f :: f in before <==> f in NamesOf(before);
    }
  }

  lemma SeparateSnoc(files: UndoFiles, names: set<string>, last: string)
    requires last in files && last !in names && forall f | f in names :: f in files
    ensures Separate(files, names + {last}) <==>
      Separate(files, names) && NoRepeat(files[last]) && forall f | f in names :: Apart(files[f], files[last])
  {
  }

  lemma CreatingListing(t0: Tree, t: Tree, files: UndoFiles, a: seq<string>, b: seq<string>)
    requires Lists(files, a) && Lists(files, b)
    requires CreatesAll(t0, t, Joined(files, a)) && NoRepeat(Joined(files, a))
    ensures CreatesAll(t0, t, Joined(files, b)) && NoRepeat(Joined(files, b))
  {
    forall i | 0 <= i < |Joined(files, b)| ensures Creates(t0, t, Joined(files, b)[i]) {
      var e := Joined(files, b)[i];
      assert e in Joined(files, b);
      SameMembers(files, a, b, e);
      var j :| 0 <= j < |Joined(files, a)| && Joined(files, a)[j] == e;
    }
    forall p | p in t && p !in t0 ensures EntryFor(p, t[p]) in Joined(files, b) {
      SameMembers(files, a, b, EntryFor(p, t[p]));
    }
    SeparateIff(files, a);
    SeparateIff(files, b);
    assert NamesOf(a) == files.Keys == NamesOf(b);
  }

  /** For every order in which the directory may list the undo files of a run whose executed actions each
      create one new thing: rolling the run back restores the workspace exactly when, in the entries as they
      are read, each created directory stands before the things created in it. */
  lemma RunRestoredIffParentsFirst(t: Tree, batches: seq<Batch>, listing: seq<string>)
    requires WellFormed(t) && ReversibleRun(t, batches) && Distinct(Phases(batches)) && Lists(FilesOf(t, batches), listing)
    ensures var r, entries := RunAll(t, batches), Joined(FilesOf(t, batches), listing);
      UndoEntries(Undo(r.tree, 0, 0, 0, false), entries).tree == t <==> ParentsFirst(entries)
  {
    var r, files := RunAll(t, batches), FilesOf(t, batches);
    FilesHoldRun(t, batches);
    RunCreates(t, batches);
    CreatingListing(t, r.tree, files, Phases(batches), listing);
    RestoredIffParentsFirst(t, r.tree, Joined(files, listing), Undo(r.tree, 0, 0, 0, false));
  }

  // ---- A listing that does not restore ----

  const NEW_DIR: Path := ["d"]
  const NEW_FILE: Path := ["d", "f"]

  /** A qa batch makes a directory, and a deploy batch writes a file into it. */
  function QaThenDeploy(rules: Rules): seq<Batch> {
    [Batch("qa", rules, [CreateDir(NEW_DIR)]), Batch("deploy", rules, [WriteFile(NEW_FILE, "x")])]
  }

  lemma TwoBatches(t: Tree, a: Batch, b: Batch)
    ensures var r1 := RunBatch(a.rules, t, a.actions);
      var r2 := RunBatch(b.rules, r1.tree, b.actions);
      && RunAll(t, [a, b]).tree == r2.tree && Phases([a, b]) == [a.phase, b.phase]
      && FilesOf(t, [a, b]) == map[a.phase := r1.entries][b.phase := r2.entries]
      && (ReversibleRun(t, [a, b]) <==> ReversibleBatch(a.rules, t, a.actions) && ReversibleBatch(b.rules, r1.tree, b.actions))
  {
    assert [a, b][..1] == [a] && [a][..0] == [];
    assert RunAll(t, [a]).tree == RunBatch(a.rules, t, a.actions).tree;
    assert FilesOf(t, [a]) == map[a.phase := RunBatch(a.rules, t, a.actions).entries];
    assert Phases([a]) == [a.phase];
    assert ReversibleRun(t, [a]) <==> ReversibleBatch(a.rules, t, a.actions);
  }

  lemma TwoFiles(files: UndoFiles, f: string, g: string)
    requires f != g && files.Keys == {f, g}
    ensures Lists(files, [f, g]) && Joined(files, [f, g]) == files[f] + files[g]
  {
    assert [f, g][..1] == [f] && [f][..0] == [];
    assert Joined(files, [f]) == files[f];
  }

  lemma QaThenDeployRun(rules: Rules, t: Tree)
    requires t == map[[] := Dir] && !rules.dryRun
    requires rules.assess(CreateDir(NEW_DIR)) == rules.assess(WriteFile(NEW_FILE, "x")) == Assessment(true, Low)
    ensures var batches := QaThenDeploy(rules);
      && ReversibleRun(t, batches) && RunAll(t, batches).tree == t[NEW_DIR := Dir][NEW_FILE := File("x")]
      && FilesOf(t, batches) == map["qa" := [DirCreate(NEW_DIR)], "deploy" := [FileWrite(NEW_FILE)]]
      && Phases(batches) == ["qa", "deploy"]
  {
    assert Parent(NEW_DIR) == [] && Parent(NEW_FILE) == NEW_DIR;
    FreshAllowed(rules, t, CreateDir(NEW_DIR));
    SingleAction(rules, t, CreateDir(NEW_DIR));
    FreshAllowed(rules, t[NEW_DIR := Dir], WriteFile(NEW_FILE, "x"));
    SingleAction(rules, t[NEW_DIR := Dir], WriteFile(NEW_FILE, "x"));
    TwoBatches(t, QaThenDeploy(rules)[0], QaThenDeploy(rules)[1]);
  }

  /** The names of the undo files sort the other way round, so a rollback in the reverse of the sorted listing
      undoes the qa batch first and leaves its directory behind. */
  lemma SortedListingLeavesDirectory(rules: Rules, t: Tree)
    requires t == map[[] := Dir] && !rules.dryRun
    requires rules.assess(CreateDir(NEW_DIR)) == rules.assess(WriteFile(NEW_FILE, "x")) == Assessment(true, Low)
    ensures var batches, listing := QaThenDeploy(rules), ["deploy", "qa"];
      && ReversibleRun(t, batches) && Distinct(Phases(batches)) && Lists(FilesOf(t, batches), listing)
      && UndoEntries(Undo(RunAll(t, batches).tree, 0, 0, 0, false), Joined(FilesOf(t, batches), listing)) ==
         Undo(t[NEW_DIR := Dir], 2, 1, 1, false)
  {
    QaThenDeployRun(rules, t);
    TwoFiles(FilesOf(t, QaThenDeploy(rules)), "deploy", "qa");
    FileBeforeDirectory(t);
  }

  lemma FileBeforeDirectory(t: Tree)
    requires t == map[[] := Dir]
    ensures UndoEntries(Undo(t[NEW_DIR := Dir][NEW_FILE := File("x")], 0, 0, 0, false), [FileWrite(NEW_FILE), DirCreate(NEW_DIR)]) ==
      Undo(t[NEW_DIR := Dir], 2, 1, 1, false)
  {
    var u := Undo(t[NEW_DIR := Dir][NEW_FILE := File("x")], 0, 0, 0, false);
    assert Parent(NEW_FILE) == NEW_DIR;
    assert [FileWrite(NEW_FILE), DirCreate(NEW_DIR)][..1] == [FileWrite(NEW_FILE)] && [FileWrite(NEW_FILE)][..0] == [];
    assert !IsEmptyDir(u.tree, NEW_DIR);
    assert Remove(u.tree, NEW_FILE) == t[NEW_DIR := Dir];
    assert UndoEntries(u.(attempted := 1, skipped := 1), [FileWrite(NEW_FILE)]) == Undo(t[NEW_DIR := Dir], 2, 1, 1, false);
  }
}
