/** The line-by-line diff that previews a file change. */
module LineDiff {
  import opened Texts

  const NEWLINE: Unit := '\n' as int
  const RETURN: Unit := '\r' as int
  const SPACE: Unit := ' ' as int
  const MINUS: Unit := '-' as int
  const PLUS: Unit := '+' as int

  /** The lines of a text.  With `crlf` a return before the newline belongs to the line end. */
  function Split(t: Text, crlf: bool): (lines: seq<Text>)
    ensures |lines| > 0
    decreases |t|
  {
    if t == [] then [[]]
    else if t[0] == NEWLINE then [[]] + Split(t[1..], crlf)
    else if crlf && |t| > 1 && t[0] == RETURN && t[1] == NEWLINE then [[]] + Split(t[2..], crlf)
    else
      var rest := Split(t[1..], crlf);
      [[t[0]] + rest[0]] + rest[1..]
  }

  function Join(lines: seq<Text>): Text
    requires |lines| > 0
    decreases |lines|
  {
    if |lines| == 1 then lines[0] else lines[0] + [NEWLINE] + Join(lines[1..])
  }

  predicate OneLine(t: Text) { NEWLINE !in t }

  predicate OneLines(lines: seq<Text>) {
    forall i | 0 <= i < |lines| :: OneLine(lines[i])
  }

  // ---- Splitting and joining ----

  lemma {:induction false} SplitOneLines(t: Text, crlf: bool)
    ensures OneLines(Split(t, crlf))
    decreases |t|
  {
    if t == [] {
    } else if t[0] == NEWLINE {
      SplitOneLines(t[1..], crlf);
    } else if crlf && |t| > 1 && t[0] == RETURN && t[1] == NEWLINE {
      SplitOneLines(t[2..], crlf);
    } else {
      SplitOneLines(t[1..], crlf);
    }
  }

  lemma {:induction false} SplitFirstLine(line: Text, rest: Text)
    requires OneLine(line)
    ensures Split(line + [NEWLINE] + rest, false) == [line] + Split(rest, false)
    ensures Split(line, false) == [line]
    decreases |line|
  {
    var t := line + [NEWLINE] + rest;
    if line == [] {
      assert t[0] == NEWLINE && t[1..] == rest;
    } else {
      assert t[0] == line[0] && t[1..] == line[1..] + [NEWLINE] + rest;
      assert line == [line[0]] + line[1..];
      SplitFirstLine(line[1..], rest);
    }
  }

  /** Joined lines can be split again. */
  lemma {:induction false} SplitJoin(lines: seq<Text>)
    requires |lines| > 0 && OneLines(lines)
    ensures Split(Join(lines), false) == lines
    decreases |lines|
  {
    if |lines| == 1 {
      SplitFirstLine(lines[0], []);
    } else {
      SplitFirstLine(lines[0], Join(lines[1..]));
      SplitJoin(lines[1..]);
      assert lines == [lines[0]] + lines[1..];
    }
  }

  /** Each line end becomes a single newline. */
  function Normalised(t: Text): Text
    decreases |t|
  {
    if t == [] then []
    else if |t| > 1 && t[0] == RETURN && t[1] == NEWLINE then [NEWLINE] + Normalised(t[2..])
    else [t[0]] + Normalised(t[1..])
  }

  lemma JoinCons(first: Text, rest: seq<Text>)
    ensures Join([first] + rest) == if rest == [] then first else first + [NEWLINE] + Join(rest)
  {
    assert ([first] + rest)[1..] == rest;
  }

  lemma JoinLonger(u: Unit, lines: seq<Text>)
    requires |lines| > 0
    ensures Join([[u] + lines[0]] + lines[1..]) == [u] + Join(lines)
  {
    var first, rest := lines[0], lines[1..];
    JoinCons([u] + first, rest);
    JoinCons(first, rest);
    assert lines == [first] + rest;
    if rest != [] {
      RegroupFirst(u, first, Join(rest));
    }
  }

  lemma RegroupFirst(u: Unit, first: Text, rest: Text)
    ensures ([u] + first) + [NEWLINE] + rest == [u] + (first + [NEWLINE] + rest)
  {
  }

  lemma JoinEmpty(lines: seq<Text>)
    requires |lines| > 0
    ensures Join([[]] + lines) == [NEWLINE] + Join(lines)
  {
    assert ([[]] + lines)[1..] == lines;
    assert [] + [NEWLINE] + Join(lines) == [NEWLINE] + Join(lines);
  }

  /** Joining the lines of a text gives the text with every line end made a single newline. */
  lemma {:induction false} JoinSplit(t: Text)
    ensures Join(Split(t, true)) == Normalised(t)
    decreases |t|
  {
    if t == [] {
    } else if t[0] == NEWLINE {
      JoinSplit(t[1..]);
      JoinEmpty(Split(t[1..], true));
    } else if |t| > 1 && t[0] == RETURN && t[1] == NEWLINE {
      JoinSplit(t[2..]);
      JoinEmpty(Split(t[2..], true));
    } else {
      JoinSplit(t[1..]);
      JoinLonger(t[0], Split(t[1..], true));
    }
  }

  predicate HasCrLf(t: Text) {
    exists i :: 0 <= i < |t| - 1 && t[i] == RETURN && t[i + 1] == NEWLINE
  }

  lemma {:induction false} NormalisedKeepsIff(t: Text)
    ensures Normalised(t) == t <==> !HasCrLf(t)
    ensures |Normalised(t)| <= |t|
    decreases |t|
  {
    if t != [] {
      if |t| > 1 && t[0] == RETURN && t[1] == NEWLINE {
        NormalisedKeepsIff(t[2..]);
      } else {
        NormalisedKeepsIff(t[1..]);
        assert t == [t[0]] + t[1..];
        if HasCrLf(t) {
          var i :| 0 <= i < |t| - 1 && t[i] == RETURN && t[i + 1] == NEWLINE;
          assert i > 0 && t[1..][i - 1] == RETURN && t[1..][i] == NEWLINE;
        }
        if HasCrLf(t[1..]) {
          var i :| 0 <= i < |t[1..]| - 1 && t[1..][i] == RETURN && t[1..][i + 1] == NEWLINE;
          assert t[i + 1] == RETURN && t[i + 2] == NEWLINE;
        }
      }
    }
  }

  // ---- The diff ----

  datatype Mark = Same(line: Text) | Old(line: Text) | New(line: Text)

  /** A line of the diff as it is shown. */
  function Show(m: Mark): Text {
    match m
    case Same(t) => [SPACE, SPACE] + t
    case Old(t) => [MINUS, SPACE] + t
    case New(t) => [PLUS, SPACE] + t
  }

  function ShowAll(marks: seq<Mark>): seq<Text>
    decreases |marks|
  {
    if marks == [] then [] else ShowAll(marks[..|marks| - 1]) + [Show(marks[|marks| - 1])]
  }

  /** What the diff says of the lines with number `i`. */
  function LineMarks(before: seq<Text>, after: seq<Text>, i: nat): seq<Mark> {
    if i < |before| && i < |after| && before[i] == after[i] then [Same(after[i])]
    else (if i < |before| then [Old(before[i])] else []) + (if i < |after| then [New(after[i])] else [])
  }

  function DiffMarks(before: seq<Text>, after: seq<Text>, n: nat): seq<Mark>
    decreases n
  {
    if n == 0 then [] else DiffMarks(before, after, n - 1) + LineMarks(before, after, n - 1)
  }

  function Max(a: nat, b: nat): nat { if a < b then b else a }

  function Diff(before: Text, after: Text): seq<Mark> {
    var b, a := Split(before, true), Split(after, true);
    DiffMarks(b, a, Max(|b|, |a|))
  }

  lemma ShowSnoc(marks: seq<Mark>, m: Mark)
    ensures ShowAll(marks + [m]) == ShowAll(marks) + [Show(m)]
  {
    assert (marks + [m])[..|marks|] == marks;
  }

  lemma {:induction false} ShowConcat(a: seq<Mark>, b: seq<Mark>)
    ensures ShowAll(a + b) == ShowAll(a) + ShowAll(b)
    decreases |b|
  {
    if b == [] {
      assert a + b == a;
    } else {
      var n := |b| - 1;
      ShowConcat(a, b[..n]);
      assert (a + b)[..|a + b| - 1] == a + b[..n];
    }
  }

  /** What one pass of the loop adds to the diff. */
  function Added(before: seq<Text>, after: seq<Text>, i: nat): seq<Text> {
    if i < |before| && i < |after| && before[i] == after[i] then [[SPACE, SPACE] + after[i]]
    else (if i < |before| then [[MINUS, SPACE] + before[i]] else []) +
         (if i < |after| then [[PLUS, SPACE] + after[i]] else [])
  }

  lemma ShownMarks(before: seq<Text>, after: seq<Text>, i: nat)
    ensures ShowAll(LineMarks(before, after, i)) == Added(before, after, i)
  {
    if i < |before| && i < |after| && before[i] == after[i] {
      ShowSnoc([], Same(after[i]));
    } else {
      if i < |before| { ShowSnoc([], Old(before[i])); }
      if i < |after| { ShowSnoc([], New(after[i])); }
      ShowConcat(if i < |before| then [Old(before[i])] else [], if i < |after| then [New(after[i])] else []);
      assert forall m: Mark :: [] + [m] == [m];
    }
  }

  lemma NextShown(before: seq<Text>, after: seq<Text>, i: nat)
    ensures ShowAll(DiffMarks(before, after, i + 1)) == ShowAll(DiffMarks(before, after, i)) + Added(before, after, i)
  {
    ShowConcat(DiffMarks(before, after, i), LineMarks(before, after, i));
    ShownMarks(before, after, i);
  }

  method LinesOfDiff(before: seq<Text>, after: seq<Text>) returns (out: seq<Text>)
    ensures out == ShowAll(DiffMarks(before, after, Max(|before|, |after|)))
  {
    var maxLen := Max(|before|, |after|);
    out := [];
    for i := 0 to maxLen
      invariant out == ShowAll(DiffMarks(before, after, i))
    {
      ghost var next := ShowAll(DiffMarks(before, after, i + 1));
      assert next == out + Added(before, after, i) by {
        NextShown(before, after, i);
      }
      if i < |before| && i < |after| && before[i] == after[i] {
        out := out + [[SPACE, SPACE] + after[i]];
        assert out == next;
        continue;
      }
      ghost var start := out;
      if i < |before| {
        out := out + [[MINUS, SPACE] + before[i]];
      }
      if i < |after| {
        out := out + [[PLUS, SPACE] + after[i]];
      }
      assert out == start + Added(before, after, i) == next;
    }
  }

  method SimpleLineDiff(before: Text, after: Text) returns (text: Text)
    ensures ShowAll(Diff(before, after)) != [] && text == Join(ShowAll(Diff(before, after)))
  {
    var out := LinesOfDiff(Split(before, true), Split(after, true));
    DiffNotEmpty(before, after);
    text := Join(out);
  }

  lemma {:induction false} MarksGrow(before: seq<Text>, after: seq<Text>, n: nat)
    requires n > 0 && |before| > 0
    ensures |DiffMarks(before, after, n)| > 0
    decreases n
  {
    if n > 1 {
      MarksGrow(before, after, n - 1);
    }
  }

  lemma DiffNotEmpty(before: Text, after: Text)
    ensures ShowAll(Diff(before, after)) != []
  {
    MarksGrow(Split(before, true), Split(after, true), Max(|Split(before, true)|, |Split(after, true)|));
  }

  // ---- What the marks spell ----

  /** The lines that are equal or old, and those that are equal or new, in order. */
  function OldLines(marks: seq<Mark>): seq<Text>
    decreases |marks|
  {
    if marks == [] then []
    else
      var last := marks[|marks| - 1];
      OldLines(marks[..|marks| - 1]) + if last.New? then [] else [last.line]
  }

  function NewLines(marks: seq<Mark>): seq<Text>
    decreases |marks|
  {
    if marks == [] then []
    else
      var last := marks[|marks| - 1];
      NewLines(marks[..|marks| - 1]) + if last.Old? then [] else [last.line]
  }

  function LineAt(lines: seq<Text>, i: nat): seq<Text> {
    if i < |lines| then [lines[i]] else []
  }

  lemma LinesSnoc(marks: seq<Mark>, m: Mark)
    ensures OldLines(marks + [m]) == OldLines(marks) + (if m.New? then [] else [m.line])
    ensures NewLines(marks + [m]) == NewLines(marks) + (if m.Old? then [] else [m.line])
  {
    assert (marks + [m])[..|marks|] == marks;
  }

  lemma MarksSpell(marks: seq<Mark>, before: seq<Text>, after: seq<Text>, i: nat)
    ensures OldLines(marks + LineMarks(before, after, i)) == OldLines(marks) + LineAt(before, i)
    ensures NewLines(marks + LineMarks(before, after, i)) == NewLines(marks) + LineAt(after, i)
  {
    if i < |before| && i < |after| && before[i] == after[i] {
      LinesSnoc(marks, Same(after[i]));
    } else {
      var first := if i < |before| then [Old(before[i])] else [];
      if i < |before| {
        LinesSnoc(marks, Old(before[i]));
      } else {
        assert marks + first == marks;
      }
      if i < |after| {
        LinesSnoc(marks + first, New(after[i]));
        assert marks + (first + [New(after[i])]) == (marks + first) + [New(after[i])];
      } else {
        assert marks + (first + []) == marks + first;
      }
    }
  }

  function Take(lines: seq<Text>, n: nat): seq<Text> {
    if n <= |lines| then lines[..n] else lines
  }

  lemma TakeOneMore(lines: seq<Text>, n: nat)
    ensures Take(lines, n + 1) == Take(lines, n) + LineAt(lines, n)
  {
  }

  /** The marks of the first `n` lines spell the first `n` lines of both sides. */
  predicate Spelled(before: seq<Text>, after: seq<Text>, n: nat) {
    var marks := DiffMarks(before, after, n);
    OldLines(marks) == Take(before, n) && NewLines(marks) == Take(after, n)
  }

  lemma NextOldSpelled(before: seq<Text>, after: seq<Text>, n: nat)
    requires n > 0 && Spelled(before, after, n - 1)
    ensures OldLines(DiffMarks(before, after, n)) == Take(before, n)
  {
    MarksSpell(DiffMarks(before, after, n - 1), before, after, n - 1);
    TakeOneMore(before, n - 1);
  }

  lemma NextNewSpelled(before: seq<Text>, after: seq<Text>, n: nat)
    requires n > 0 && Spelled(before, after, n - 1)
    ensures NewLines(DiffMarks(before, after, n)) == Take(after, n)
  {
    MarksSpell(DiffMarks(before, after, n - 1), before, after, n - 1);
    TakeOneMore(after, n - 1);
  }

  lemma NextSpelled(before: seq<Text>, after: seq<Text>, n: nat)
    requires n > 0 && Spelled(before, after, n - 1)
    ensures Spelled(before, after, n)
  {
    NextOldSpelled(before, after, n);
    NextNewSpelled(before, after, n);
  }

  lemma {:induction false} DiffSpells(before: seq<Text>, after: seq<Text>, n: nat)
    ensures Spelled(before, after, n)
    decreases n
  {
    if n == 0 {
      assert DiffMarks(before, after, 0) == [];
    } else {
      DiffSpells(before, after, n - 1);
      NextSpelled(before, after, n);
    }
  }

  /** The mark says the truth about the line whose number is that of the old or new lines marked before it: equal
      lines have the same number on both sides; a removed or added line is not the one with its number on the
      other side; and an added line follows the removed one with its number. */
  predicate Truthful(before: seq<Text>, after: seq<Text>, marks: seq<Mark>, k: nat)
    requires k < |marks|
  {
    var o, n := |OldLines(marks[..k])|, |NewLines(marks[..k])|;
    match marks[k]
    case Same(t) => o == n && o < |before| && o < |after| && before[o] == t == after[o]
    case Old(t) => o < |before| && before[o] == t && (o < |after| ==> after[o] != t)
    case New(t) => n < |after| && after[n] == t && (n < |before| ==> before[n] != t && k > 0 && marks[k - 1] == Old(before[n]))
  }

  lemma TruthfulLater(before: seq<Text>, after: seq<Text>, marks: seq<Mark>, more: seq<Mark>, k: nat)
    requires k < |marks|
    ensures Truthful(before, after, marks + more, k) == Truthful(before, after, marks, k)
  {
    assert (marks + more)[..k] == marks[..k];
  }

  lemma NumbersReached(before: seq<Text>, after: seq<Text>, n: nat)
    ensures |OldLines(DiffMarks(before, after, n))| == (if n <= |before| then n else |before|)
    ensures |NewLines(DiffMarks(before, after, n))| == (if n <= |after| then n else |after|)
  {
    DiffSpells(before, after, n);
  }

  lemma FirstMarkTruthful(before: seq<Text>, after: seq<Text>, marks: seq<Mark>, n: nat)
    requires n < |before| || n < |after|
    requires |OldLines(marks)| == (if n <= |before| then n else |before|) && |NewLines(marks)| == (if n <= |after| then n else |after|)
    ensures LineMarks(before, after, n) != [] && Truthful(before, after, marks + LineMarks(before, after, n)[..1], |marks|)
  {
    var last := LineMarks(before, after, n);
    assert (marks + last[..1])[..|marks|] == marks;
  }

  lemma SecondMarkTruthful(before: seq<Text>, after: seq<Text>, marks: seq<Mark>, n: nat)
    requires |OldLines(marks)| == (if n <= |before| then n else |before|) && |NewLines(marks)| == (if n <= |after| then n else |after|)
    requires |LineMarks(before, after, n)| == 2
    ensures Truthful(before, after, marks + LineMarks(before, after, n), |marks| + 1)
  {
    var last := LineMarks(before, after, n);
    assert last == [Old(before[n]), New(after[n])];
    assert (marks + last)[..|marks| + 1] == marks + [last[0]];
    LinesSnoc(marks, last[0]);
  }

  lemma BlockTruthful(before: seq<Text>, after: seq<Text>, marks: seq<Mark>, n: nat, k: nat)
    requires n < |before| || n < |after|
    requires |OldLines(marks)| == (if n <= |before| then n else |before|) && |NewLines(marks)| == (if n <= |after| then n else |after|)
    requires |marks| <= k < |marks| + |LineMarks(before, after, n)|
    ensures Truthful(before, after, marks + LineMarks(before, after, n), k)
  {
    var last := LineMarks(before, after, n);
    if k == |marks| {
      FirstMarkTruthful(before, after, marks, n);
      TruthfulLater(before, after, marks + last[..1], last[1..], k);
      assert (marks + last[..1]) + last[1..] == marks + last;
    } else {
      SecondMarkTruthful(before, after, marks, n);
    }
  }

  /** Every mark of a diff is truthful, so that, as all lines of both sides are marked, a line is shown as equal
      exactly when both sides have it at the same number. */
  lemma {:induction false} DiffIsTruthful(before: seq<Text>, after: seq<Text>, n: nat, k: nat)
    requires k < |DiffMarks(before, after, n)|
    ensures Truthful(before, after, DiffMarks(before, after, n), k)
    decreases n
  {
    var marks, last := DiffMarks(before, after, n - 1), LineMarks(before, after, n - 1);
    if k < |marks| {
      DiffIsTruthful(before, after, n - 1, k);
      TruthfulLater(before, after, marks, last, k);
    } else {
      NumbersReached(before, after, n - 1);
      BlockTruthful(before, after, marks, n - 1, k);
    }
  }

  /** How the lines are shown, and what stands between them. */
  lemma ShownLine(t: Text, u: Text)
    ensures Show(Same(t)) == Ascii("  ") + t && Show(Old(t)) == Ascii("- ") + t && Show(New(t)) == Ascii("+ ") + t
    ensures Join([t, u]) == t + [0x0A] + u
  {
    assert Ascii("  ") == [SPACE, SPACE] && Ascii("- ") == [MINUS, SPACE] && Ascii("+ ") == [PLUS, SPACE];
    assert [t, u][1..] == [u];
  }

  // ---- Reading a diff ----

  function Read(line: Text): Mark {
    var t := if |line| >= 2 then line[2..] else [];
    if line != [] && line[0] == MINUS then Old(t) else if line != [] && line[0] == PLUS then New(t) else Same(t)
  }

  function ReadAll(lines: seq<Text>): seq<Mark>
    decreases |lines|
  {
    if lines == [] then [] else ReadAll(lines[..|lines| - 1]) + [Read(lines[|lines| - 1])]
  }

  lemma ReadSnoc(lines: seq<Text>, last: Text)
    ensures ReadAll(lines + [last]) == ReadAll(lines) + [Read(last)]
  {
    assert (lines + [last])[..|lines|] == lines;
  }

  lemma {:induction false} ReadShown(marks: seq<Mark>)
    ensures ReadAll(ShowAll(marks)) == marks
    decreases |marks|
  {
    if marks != [] {
      var n := |marks| - 1;
      ReadShown(marks[..n]);
      ShownRead(marks[n]);
      assert marks == marks[..n] + [marks[n]];
      ShowSnoc(marks[..n], marks[n]);
      ReadSnoc(ShowAll(marks[..n]), Show(marks[n]));
    }
  }

  lemma ShownRead(m: Mark)
    ensures Read(Show(m)) == m && (OneLine(m.line) ==> OneLine(Show(m)))
  {
    assert Show(m)[2..] == m.line;
  }

  predicate AllOneLine(marks: seq<Mark>) {
    forall i | 0 <= i < |marks| :: OneLine(marks[i].line)
  }

  lemma {:induction false} ShownOneLines(marks: seq<Mark>)
    requires AllOneLine(marks)
    ensures OneLines(ShowAll(marks))
    decreases |marks|
  {
    if marks != [] {
      ShownOneLines(marks[..|marks| - 1]);
      ShownRead(marks[|marks| - 1]);
    }
  }

  lemma {:induction false} DiffOneLines(before: seq<Text>, after: seq<Text>, n: nat)
    requires OneLines(before) && OneLines(after)
    ensures AllOneLine(DiffMarks(before, after, n))
    decreases n
  {
    if n > 0 {
      DiffOneLines(before, after, n - 1);
    }
  }

  /** The marks of a diff can be read off its text. */
  lemma DiffRead(before: Text, after: Text)
    ensures ShowAll(Diff(before, after)) != []
    ensures ReadAll(Split(Join(ShowAll(Diff(before, after))), false)) == Diff(before, after)
  {
    DiffNotEmpty(before, after);
    SplitOneLines(before, true);
    SplitOneLines(after, true);
    var b, a := Split(before, true), Split(after, true);
    DiffOneLines(b, a, Max(|b|, |a|));
    ShownOneLines(Diff(before, after));
    SplitJoin(ShowAll(Diff(before, after)));
    ReadShown(Diff(before, after));
  }

  lemma TakeAll(lines: seq<Text>, n: nat)
    requires n >= |lines|
    ensures Take(lines, n) == lines
  {
  }

  /** Both files can be read off the text of the diff: the lines marked as equal or old spell the lines of
      the old file, and those marked as equal or new spell the lines of the new one. */
  lemma DiffRecoversBoth(before: Text, after: Text)
    ensures ShowAll(Diff(before, after)) != []
    ensures var marks := ReadAll(Split(Join(ShowAll(Diff(before, after))), false));
      OldLines(marks) == Split(before, true) && NewLines(marks) == Split(after, true)
  {
    DiffRead(before, after);
    var b, a := Split(before, true), Split(after, true);
    DiffSpells(b, a, Max(|b|, |a|));
    TakeAll(b, Max(|b|, |a|));
    TakeAll(a, Max(|b|, |a|));
  }

  /** The old file itself is recovered from the diff exactly when it has no return before a newline. */
  lemma OldTextRecoveredIff(before: Text, after: Text)
    ensures OldLines(Diff(before, after)) != []
    ensures Join(OldLines(Diff(before, after))) == before <==> !HasCrLf(before)
  {
    DiffRead(before, after);
    DiffRecoversBoth(before, after);
    JoinSplit(before);
    NormalisedKeepsIff(before);
  }
}
