/** Stable sorting by falling priority, as the automation services order their strategies. */
module Priorities {
  function Insert<T>(x: T, ranked: seq<T>, priority: T -> int): seq<T> {
    if ranked == [] || priority(x) >= priority(ranked[0]) then [x] + ranked
    else [ranked[0]] + Insert(x, ranked[1..], priority)
  }

  function ByPriority<T>(items: seq<T>, priority: T -> int): seq<T> {
    if items == [] then [] else Insert(items[0], ByPriority(items[1..], priority), priority)
  }

  predicate Falling<T>(ranked: seq<T>, priority: T -> int) {
    forall i, j | 0 <= i < j < |ranked| :: priority(ranked[i]) >= priority(ranked[j])
  }

  /** The items of one priority, in order. */
  function OfPriority<T>(items: seq<T>, priority: T -> int, p: int): seq<T> {
    if items == [] then []
    else Part(items[0], priority, p) + OfPriority(items[1..], priority, p)
  }

  function Part<T>(x: T, priority: T -> int, p: int): seq<T> {
    if priority(x) == p then [x] else []
  }

  lemma {:induction false} InsertMembers<T>(x: T, ranked: seq<T>, priority: T -> int, y: T)
    ensures y in Insert(x, ranked, priority) <==> y == x || y in ranked
    decreases |ranked|
  {
    if ranked == [] || priority(x) >= priority(ranked[0]) {
      assert Insert(x, ranked, priority) == [x] + ranked;
    } else {
      InsertMembers(x, ranked[1..], priority, y);
      assert ranked == [ranked[0]] + ranked[1..];
    }
  }

  lemma {:induction false} InsertFalls<T>(x: T, ranked: seq<T>, priority: T -> int)
    requires Falling(ranked, priority)
    ensures Falling(Insert(x, ranked, priority), priority)
    decreases |ranked|
  {
    if ranked != [] && priority(x) < priority(ranked[0]) {
      var rest := ranked[1..];
      InsertFalls(x, rest, priority);
      var tail := Insert(x, rest, priority);
      forall j | 0 <= j < |tail| ensures priority(tail[j]) <= priority(ranked[0]) {
        InsertMembers(x, rest, priority, tail[j]);
        assert tail[j] in tail;
      }
    }
  }

  /** The result is sorted. */
  lemma {:induction false} Sorts<T>(items: seq<T>, priority: T -> int)
    ensures Falling(ByPriority(items, priority), priority)
    decreases |items|
  {
    if items != [] {
      Sorts(items[1..], priority);
      InsertFalls(items[0], ByPriority(items[1..], priority), priority);
    }
  }

  /** The result holds the same items. */
  lemma {:induction false} SameMembers<T>(items: seq<T>, priority: T -> int, y: T)
    ensures y in ByPriority(items, priority) <==> y in items
    decreases |items|
  {
    if items != [] {
      SameMembers(items[1..], priority, y);
      assert items == [items[0]] + items[1..];
      InsertMembers(items[0], ByPriority(items[1..], priority), priority, y);
    }
  }

  lemma {:induction false} InsertStable<T>(x: T, ranked: seq<T>, priority: T -> int, p: int)
    ensures OfPriority(Insert(x, ranked, priority), priority, p) == Part(x, priority, p) + OfPriority(ranked, priority, p)
    decreases |ranked|
  {
    if ranked == [] || priority(x) >= priority(ranked[0]) {
      assert ([x] + ranked)[1..] == ranked;
    } else {
      var first, rest := ranked[0], ranked[1..];
      InsertStable(x, rest, priority, p);
      assert ([first] + Insert(x, rest, priority))[1..] == Insert(x, rest, priority);
      var a, b, c := Part(x, priority, p), Part(first, priority, p), OfPriority(rest, priority, p);
      assert a == [] || b == [];
      assert b + (a + c) == a + (b + c);
    }
  }

  /** The items of each priority stay in their order; none is lost or repeated. */
  lemma {:induction false} Stable<T>(items: seq<T>, priority: T -> int, p: int)
    ensures OfPriority(ByPriority(items, priority), priority, p) == OfPriority(items, priority, p)
    decreases |items|
  {
    if items != [] {
      Stable(items[1..], priority, p);
      InsertStable(items[0], ByPriority(items[1..], priority), priority, p);
    }
  }
}
