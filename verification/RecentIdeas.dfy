/** The project memory: bounded lists of recent ideas, artifact directories and runs. */
module RecentIdeas {
  import opened Options
  import opened Texts

  // ---- Trimming ----

  /** White space and line ends in the sense of String.prototype.trim (ECMA-262, section 22.1.3.32). */
  predicate IsSpace(u: Unit) {
    || 0x0009 <= u <= 0x000D || u == 0x0020 || u == 0x00A0 || u == 0x1680 || 0x2000 <= u <= 0x200A
    || u == 0x2028 || u == 0x2029 || u == 0x202F || u == 0x205F || u == 0x3000 || u == 0xFEFF
  }

  function TrimStart(t: Text): Text {
    if t != [] && IsSpace(t[0]) then TrimStart(t[1..]) else t
  }

  function TrimEnd(t: Text): Text
    decreases |t|
  {
    if t != [] && IsSpace(t[|t| - 1]) then TrimEnd(t[..|t| - 1]) else t
  }

  function Trim(t: Text): Text { TrimEnd(TrimStart(t)) }

  predicate Trimmed(t: Text) {
    t == [] || (!IsSpace(t[0]) && !IsSpace(t[|t| - 1]))
  }

  lemma {:induction false} TrimStartStarts(t: Text)
    ensures TrimStart(t) == [] || !IsSpace(TrimStart(t)[0])
    decreases |t|
  {
    if t != [] && IsSpace(t[0]) {
      TrimStartStarts(t[1..]);
    }
  }

  lemma {:induction false} TrimEndEnds(t: Text)
    requires t == [] || !IsSpace(t[0])
    ensures Trimmed(TrimEnd(t))
    decreases |t|
  {
    if t != [] && IsSpace(t[|t| - 1]) {
      TrimEndEnds(t[..|t| - 1]);
    }
  }

  /** Trimming twice is trimming once. */
  lemma TrimIdempotent(t: Text)
    ensures Trimmed(Trim(t)) && Trim(Trim(t)) == Trim(t)
  {
    TrimStartStarts(t);
    TrimEndEnds(TrimStart(t));
  }

  // ---- De-duplication ----

  /** The trimmed values without the empty ones, each at its first occurrence. */
  function Dedupe(values: seq<Text>): seq<Text>
    decreases |values|
  {
    if values == [] then []
    else
      Push(Dedupe(values[..|values| - 1]), Trim(values[|values| - 1]))
  }

  function Push(before: seq<Text>, t: Text): seq<Text> {
    if t == [] || t in before then before else before + [t]
  }

  method DedupePreserveOrder(values: seq<Text>) returns (result: seq<Text>)
    ensures result == Dedupe(values)
  {
    var seen: set<Text> := {};
    result := [];
    for i := 0 to |values|
      invariant result == Dedupe(values[..i]) && seen == set t | t in result
    {
      assert values[..i + 1][..i] == values[..i];
      var normalized := Trim(values[i]);
      if normalized == [] || normalized in seen {
        continue;
      }
      seen := seen + {normalized};
      result := result + [normalized];
    }
    assert values[..|values|] == values;
  }

  predicate Distinct(values: seq<Text>) {
    forall i, j | 0 <= i < j < |values| :: values[i] != values[j]
  }

  /** The values are trimmed, not empty and different. */
  predicate Clean(values: seq<Text>) {
    Distinct(values) && forall i | 0 <= i < |values| :: values[i] != [] && Trim(values[i]) == values[i]
  }

  /** A de-duplicated list holds no value twice, and only trimmed ones that are not empty. */
  lemma {:induction false} DedupeIsClean(values: seq<Text>)
    ensures Clean(Dedupe(values))
    decreases |values|
  {
    if values != [] {
      DedupeIsClean(values[..|values| - 1]);
      TrimIdempotent(values[|values| - 1]);
    }
  }

  /** It holds exactly the non-empty trimmed values. */
  lemma {:induction false} DedupeMembers(values: seq<Text>, t: Text)
    ensures t in Dedupe(values) <==> t != [] && exists i :: 0 <= i < |values| && Trim(values[i]) == t
    decreases |values|
  {
    if values != [] {
      var n := |values| - 1;
      DedupeMembers(values[..n], t);
      if i :| 0 <= i < n && Trim(values[..n][i]) == t {
        assert Trim(values[i]) == t;
      }
      if i :| 0 <= i < |values| && Trim(values[i]) == t {
        assert i < n ==> Trim(values[..n][i]) == t;
      }
    }
  }

  lemma {:induction false} CleanStays(values: seq<Text>)
    requires Clean(values)
    ensures Dedupe(values) == values
    decreases |values|
  {
    if values != [] {
      var n := |values| - 1;
      CleanStays(values[..n]);
      assert values == values[..n] + [values[n]];
    }
  }

  function Without(values: seq<Text>, t: Text): seq<Text>
    decreases |values|
  {
    if values == [] then []
    else
      var before, last := Without(values[..|values| - 1], t), values[|values| - 1];
      if last == t then before else before + [last]
  }

  lemma WithoutSnoc(values: seq<Text>, last: Text, t: Text)
    ensures Without(values + [last], t) == if last == t then Without(values, t) else Without(values, t) + [last]
  {
    assert (values + [last])[..|values|] == values;
  }

  lemma {:induction false} WithoutMembers(values: seq<Text>, t: Text)
    ensures forall u: Text :: u in Without(values, t) <==> u in values && u != t
    ensures t !in values ==> Without(values, t) == values
    decreases |values|
  {
    if values != [] {
      var n := |values| - 1;
      WithoutMembers(values[..n], t);
      assert values == values[..n] + [values[n]];
    }
  }

  lemma PushCons(before: seq<Text>, t: Text, u: Text)
    ensures Push([t] + Without(before, t), u) == [t] + Without(Push(before, u), t)
  {
    var kept := Without(before, t);
    WithoutMembers(before, t);
    assert u in [t] + kept <==> u == t || u in before;
    if u != [] && u !in before {
      WithoutSnoc(before, u, t);
      assert [t] + (kept + [u]) == ([t] + kept) + [u];
    }
  }

  /** A new value comes first, and is taken out of the rest. */
  lemma {:induction false} DedupeCons(x: Text, values: seq<Text>)
    ensures Dedupe([x] + values) ==
      if Trim(x) == [] then Dedupe(values) else [Trim(x)] + Without(Dedupe(values), Trim(x))
    decreases |values|
  {
    var all := [x] + values;
    if values == [] {
      assert all[..0] == [];
    } else {
      var n := |values| - 1;
      DedupeCons(x, values[..n]);
      assert all[..|all| - 1] == [x] + values[..n];
      PushCons(Dedupe(values[..n]), Trim(x), Trim(values[n]));
    }
  }

  // ---- Keeping only the first k ----

  function TrimToMax<T>(values: seq<T>, max: int): seq<T> {
    var k := if max > 0 then max else 0;
    if k <= |values| then values[..k] else values
  }

  lemma {:induction false} WithoutTake(values: seq<Text>, t: Text, k: nat)
    requires Distinct(values) && 0 < k <= |values|
    ensures TrimToMax(Without(values[..k], t), k - 1) == TrimToMax(Without(values, t), k - 1)
    decreases |values|
  {
    var n := |values| - 1;
    assert values == values[..n] + [values[n]];
    if k < |values| {
      WithoutTake(values[..n], t, k);
      assert values[..n][..k] == values[..k];
      assert Distinct(values[..n]);
      WithoutLength(values[..n], t);
      var shorter, longer := Without(values[..n], t), Without(values, t);
      assert shorter[..k - 1] == longer[..k - 1];
    } else {
      assert values[..k] == values;
    }
  }

  lemma {:induction false} WithoutLength(values: seq<Text>, t: Text)
    requires Distinct(values)
    ensures |values| - 1 <= |Without(values, t)| <= |values|
    decreases |values|
  {
    if values != [] {
      var n := |values| - 1;
      WithoutLength(values[..n], t);
      WithoutMembers(values[..n], t);
    }
  }

  lemma {:induction false} CleanTake(values: seq<Text>, k: int)
    requires Clean(values)
    ensures Clean(TrimToMax(values, k))
  {
  }

  /** Forgetting everything beyond the first `max` values does no harm: recording one more value in the
      bounded list gives the first `max` values of the whole history. */
  lemma RecordAgrees(x: Text, history: seq<Text>, max: int)
    ensures TrimToMax(Dedupe([x] + TrimToMax(Dedupe(history), max)), max) == TrimToMax(Dedupe([x] + history), max)
  {
    var all, t := Dedupe(history), Trim(x);
    var kept := TrimToMax(all, max);
    DedupeIsClean(history);
    CleanTake(all, max);
    CleanStays(kept);
    DedupeCons(x, history);
    DedupeCons(x, kept);
    if t != [] && 0 < max <= |all| {
      WithoutTake(all, t, max);
      PrefixCons(t, Without(kept, t), Without(all, t), max);
    }
  }

  lemma PrefixCons(t: Text, a: seq<Text>, b: seq<Text>, max: int)
    requires max > 0 && TrimToMax(a, max - 1) == TrimToMax(b, max - 1)
    ensures TrimToMax([t] + a, max) == TrimToMax([t] + b, max)
  {
    assert TrimToMax([t] + a, max) == [t] + TrimToMax(a, max - 1);
    assert TrimToMax([t] + b, max) == [t] + TrimToMax(b, max - 1);
  }

  /** Without a new value the bounded list stays what it is. */
  lemma KeepAgrees(history: seq<Text>, max: int)
    ensures TrimToMax(Dedupe(TrimToMax(Dedupe(history), max)), max) == TrimToMax(Dedupe(history), max)
  {
    DedupeIsClean(history);
    CleanTake(Dedupe(history), max);
    CleanStays(TrimToMax(Dedupe(history), max));
  }

  /** The bounded list after the ideas of a history, newest first, have been recorded one by one. */
  function Kept(history: seq<Text>, max: int): seq<Text> {
    if history == [] then [] else TrimToMax(Dedupe([history[0]] + Kept(history[1..], max)), max)
  }

  /** After any number of recorded ideas the bounded list is the first `max` of the de-duplicated history. */
  lemma {:induction false} KeptIsPrefix(history: seq<Text>, max: int)
    ensures Kept(history, max) == TrimToMax(Dedupe(history), max)
    decreases |history|
  {
    if history != [] {
      KeptIsPrefix(history[1..], max);
      RecordAgrees(history[0], history[1..], max);
      assert history == [history[0]] + history[1..];
    }
  }

  /** The list holds no more than the maximum, and leaves out of the de-duplicated history only what comes last. */
  lemma KeptAtMost(history: seq<Text>, max: int)
    ensures var kept, all := Kept(history, max), Dedupe(history);
      kept <= all && |kept| == if max <= 0 then 0 else if max < |all| then max else |all|
  {
    KeptIsPrefix(history, max);
  }

  // ---- The memory ----

  datatype Run = Run(id: Text, recordedAt: Text, artifactDirectory: Text, idea: Option<Text>)

  lemma RunsAgree(run: Run, all: seq<Run>, max: int)
    ensures TrimToMax([run] + TrimToMax(all, max), max) == TrimToMax([run] + all, max)
  {
  }

  class ProjectMemory {
    const maxIdeas: int
    const maxArtifacts: int
    const maxRuns: int
    var lastIdea: Option<Text>
    var recentIdeas: seq<Text>
    var recentArtifactDirectories: seq<Text>
    var runs: seq<Run>
    /** Everything ever recorded, newest first. */
    ghost var allIdeas: seq<Text>
    ghost var allDirectories: seq<Text>
    ghost var allRuns: seq<Run>

    /** The bounded lists are the first entries of the de-duplicated full histories. */
    ghost predicate Valid()
      reads this
    {
      && recentIdeas == TrimToMax(Dedupe(allIdeas), maxIdeas)
      && recentArtifactDirectories == TrimToMax(Dedupe(allDirectories), maxArtifacts)
      && runs == TrimToMax(allRuns, maxRuns)
      && lastIdea == (if allIdeas == [] then None else Some(allIdeas[0]))
    }

    constructor (maxIdeas: int, maxArtifacts: int, maxRuns: int)
      ensures Valid() && allIdeas == [] && allDirectories == [] && allRuns == []
      ensures this.maxIdeas == maxIdeas && this.maxArtifacts == maxArtifacts && this.maxRuns == maxRuns
    {
      this.maxIdeas, this.maxArtifacts, this.maxRuns := maxIdeas, maxArtifacts, maxRuns;
      lastIdea, recentIdeas, recentArtifactDirectories, runs := None, [], [], [];
      allIdeas, allDirectories, allRuns := [], [], [];
    }

    /** An empty idea counts as none, except as the last idea; the extraction of ideas never gives one. */
    method RecordRun(run: Run)
      requires Valid() && run.idea != Some([])
      modifies this
      ensures Valid()
      ensures allIdeas == if run.idea.Some? then [run.idea.value] + old(allIdeas) else old(allIdeas)
      ensures allDirectories == [run.artifactDirectory] + old(allDirectories)
      ensures allRuns == [run] + old(allRuns)
    {
      RecordIdea(run.idea);
      RecordDirectory(run.artifactDirectory);
      RunsAgree(run, allRuns, maxRuns);
      runs := TrimToMax([run] + runs, maxRuns);
      allRuns := [run] + allRuns;
    }

    method RecordDirectory(directory: Text)
      requires Valid()
      modifies this`recentArtifactDirectories, this`allDirectories
      ensures Valid() && allDirectories == [directory] + old(allDirectories)
    {
      RecordAgrees(directory, allDirectories, maxArtifacts);
      var directories := DedupePreserveOrder([directory] + recentArtifactDirectories);
      recentArtifactDirectories := TrimToMax(directories, maxArtifacts);
      allDirectories := [directory] + allDirectories;
    }

    method RecordIdea(idea: Option<Text>)
      requires Valid() && idea != Some([])
      modifies this`recentIdeas, this`lastIdea, this`allIdeas
      ensures Valid()
      ensures allIdeas == if idea.Some? then [idea.value] + old(allIdeas) else old(allIdeas)
    {
      if idea.Some? {
        RecordAgrees(idea.value, allIdeas, maxIdeas);
        var ideas := DedupePreserveOrder([idea.value] + recentIdeas);
        recentIdeas := TrimToMax(ideas, maxIdeas);
        lastIdea, allIdeas := idea, [idea.value] + allIdeas;
      } else {
        KeepAgrees(allIdeas, maxIdeas);
        var ideas := DedupePreserveOrder(recentIdeas);
        recentIdeas := TrimToMax(ideas, maxIdeas);
      }
    }
  }
}
