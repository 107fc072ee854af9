/** Texts as JavaScript has them: sequences of 16-bit code units. */
module Texts {
  type Unit = u: nat | u < 0x10000

  type Text = seq<Unit>

  /** The text of an ASCII string. */
  function Ascii(s: string): (t: Text)
    requires forall i | 0 <= i < |s| :: s[i] <= '~'
    ensures |t| == |s| && forall i | 0 <= i < |s| :: t[i] == s[i] as int
  {
    seq(|s|, i requires 0 <= i < |s| => s[i] as int)
  }

  /** Code-unit order, the order in which JavaScript sorts strings. */
  predicate Less(a: Text, b: Text) {
    if b == [] then false
    else if a == [] then true
    else a[0] < b[0] || (a[0] == b[0] && Less(a[1..], b[1..]))
  }

  lemma {:induction false} LessIrreflexive(a: Text)
    ensures !Less(a, a)
  {
    if a != [] { LessIrreflexive(a[1..]); }
  }

  lemma {:induction false} LessTransitive(a: Text, b: Text, c: Text)
    requires Less(a, b) && Less(b, c)
    ensures Less(a, c)
  {
    if a != [] && a[0] == b[0] && b[0] == c[0] {
      LessTransitive(a[1..], b[1..], c[1..]);
    }
  }

  lemma {:induction false} LessTotal(a: Text, b: Text)
    ensures Less(a, b) || a == b || Less(b, a)
  {
    if a != [] && b != [] && a[0] == b[0] {
      LessTotal(a[1..], b[1..]);
      assert a == [a[0]] + a[1..] && b == [b[0]] + b[1..];
    }
  }

  /** The grouping of concatenations, for the proofs about printed texts. */
  lemma Regroup(a: Text, b: Text, c: Text, d: Text)
    ensures (a + b) + c + d == a + (b + c + d)
    ensures (a + b) + c == a + (b + c)
  {}

  lemma Behind(a: Text, b: Text)
    ensures (a + b)[..|a|] == a && (a + b)[|a|..] == b
  {}

  // ---- Lists of named values, sorted by name ----

  datatype Named<T> = Named(name: Text, value: T)

  ghost predicate DistinctNames<T>(ms: seq<Named<T>>) {
    forall i, j | 0 <= i < j < |ms| :: ms[i].name != ms[j].name
  }

  ghost predicate Ordered<T>(ms: seq<Named<T>>) {
    forall i, j | 0 <= i < j < |ms| :: Less(ms[i].name, ms[j].name)
  }

  function Insert<T>(m: Named<T>, ms: seq<Named<T>>): seq<Named<T>> {
    if ms == [] || !Less(ms[0].name, m.name) then [m] + ms else [ms[0]] + Insert(m, ms[1..])
  }

  function Sort<T>(ms: seq<Named<T>>): seq<Named<T>> {
    if ms == [] then [] else Insert(ms[0], Sort(ms[1..]))
  }

  ghost function Members<T>(ms: seq<Named<T>>): set<Named<T>> {
    set i | 0 <= i < |ms| :: ms[i]
  }

  lemma {:induction false} InsertMembers<T>(m: Named<T>, ms: seq<Named<T>>)
    ensures Members(Insert(m, ms)) == Members(ms) + {m}
    ensures |Insert(m, ms)| == |ms| + 1
    decreases |ms|
  {
    if ms == [] || !Less(ms[0].name, m.name) {
      MembersCons(m, ms);
    } else {
      InsertMembers(m, ms[1..]);
      MembersCons(ms[0], Insert(m, ms[1..]));
      MembersCons(ms[0], ms[1..]);
      assert ms == [ms[0]] + ms[1..];
    }
  }

  lemma MembersCons<T>(m: Named<T>, ms: seq<Named<T>>)
    ensures Members([m] + ms) == Members(ms) + {m}
  {
    var all := [m] + ms;
    forall x | x in Members(all) ensures x in Members(ms) + {m} {
      var i :| 0 <= i < |all| && all[i] == x;
      if i > 0 { assert x == ms[i - 1]; }
    }
    forall x | x in Members(ms) + {m} ensures x in Members(all) {
      if x == m {
        assert all[0] == x;
      } else {
        var i :| 0 <= i < |ms| && ms[i] == x;
        assert all[i + 1] == x;
      }
    }
  }

  lemma {:induction false} SortMembers<T>(ms: seq<Named<T>>)
    ensures Members(Sort(ms)) == Members(ms) && |Sort(ms)| == |ms|
    decreases |ms|
  {
    if ms != [] {
      SortMembers(ms[1..]);
      InsertMembers(ms[0], Sort(ms[1..]));
      MembersCons(ms[0], ms[1..]);
      assert ms == [ms[0]] + ms[1..];
    }
  }

  lemma {:induction false} InsertOrdered<T>(m: Named<T>, ms: seq<Named<T>>)
    requires Ordered(ms) && forall i | 0 <= i < |ms| :: ms[i].name != m.name
    ensures Ordered(Insert(m, ms))
    decreases |ms|
  {
    if ms == [] {
    } else if !Less(ms[0].name, m.name) {
      LessTotal(ms[0].name, m.name);
      forall i | 0 < i < |ms| ensures Less(m.name, ms[i].name) {
        LessTransitive(m.name, ms[0].name, ms[i].name);
      }
    } else {
      InsertOrdered(m, ms[1..]);
      InsertMembers(m, ms[1..]);
      var rest := Insert(m, ms[1..]);
      forall j | 0 <= j < |rest| ensures Less(ms[0].name, rest[j].name) {
        assert rest[j] in Members(rest);
        if rest[j] != m {
          assert rest[j] in Members(ms[1..]);
        }
      }
    }
  }

  lemma {:induction false} SortOrdered<T>(ms: seq<Named<T>>)
    requires DistinctNames(ms)
    ensures Ordered(Sort(ms))
    decreases |ms|
  {
    if ms != [] {
      SortOrdered(ms[1..]);
      SortMembers(ms[1..]);
      forall i | 0 <= i < |Sort(ms[1..])| ensures Sort(ms[1..])[i].name != ms[0].name {
        assert Sort(ms[1..])[i] in Members(Sort(ms[1..]));
        var j :| 0 <= j < |ms[1..]| && ms[1..][j] == Sort(ms[1..])[i];
      }
      InsertOrdered(ms[0], Sort(ms[1..]));
    }
  }

  lemma NoMembers<T>(b: seq<Named<T>>)
    ensures b != [] ==> Members(b) != {}
  {
    if b != [] { assert b[0] in Members(b); }
  }

  /** A list sorted by distinct names is determined by its members. */
  lemma {:induction false} OrderedUnique<T>(a: seq<Named<T>>, b: seq<Named<T>>)
    requires Ordered(a) && Ordered(b) && Members(a) == Members(b)
    ensures a == b
    decreases |a|
  {
    if a == [] {
      NoMembers(b);
    } else {
      assert a[0] in Members(b);
      assert b != [];
      assert b[0] in Members(a);
      var i :| 0 <= i < |b| && b[i] == a[0];
      var j :| 0 <= j < |a| && a[j] == b[0];
      if i > 0 {
        assert Less(b[0].name, b[i].name);
        if j > 0 { LessTransitive(a[0].name, a[j].name, a[0].name); }
        LessIrreflexive(a[0].name);
      }
      assert a[0] == b[0];
      TailMembers(a);
      TailMembers(b);
      OrderedUnique(a[1..], b[1..]);
      assert a == [a[0]] + a[1..] && b == [b[0]] + b[1..];
    }
  }

  lemma TailMembers<T>(a: seq<Named<T>>)
    requires Ordered(a) && a != []
    ensures Members(a[1..]) == Members(a) - {a[0]}
  {
    assert a == [a[0]] + a[1..];
    MembersCons(a[0], a[1..]);
    if a[0] in Members(a[1..]) {
      var i :| 0 <= i < |a[1..]| && a[1..][i] == a[0];
      assert Less(a[0].name, a[i + 1].name);
      LessIrreflexive(a[0].name);
    }
  }
}
