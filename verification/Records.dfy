/** Lists that hold one record per key, in the order in which the keys first appeared. */
module Records {
  /** The first record with the key from `i` on, or the number of records. */
  function IndexOf<T>(items: seq<T>, key: T -> string, id: string, i: nat): (n: nat)
    requires i <= |items|
    ensures i <= n <= |items| && (n < |items| ==> key(items[n]) == id)
    ensures forall j | i <= j < n :: key(items[j]) != id
    decreases |items| - i
  {
    if i == |items| || key(items[i]) == id then i else IndexOf(items, key, id, i + 1)
  }

  /** The record replaces the one at `n`, or is appended. */
  function Put<T>(items: seq<T>, n: nat, x: T): seq<T>
    requires n <= |items|
  {
    if n == |items| then items + [x] else items[n := x]
  }

  ghost predicate Distinct<T>(items: seq<T>, key: T -> string) {
    forall i, j | 0 <= i < j < |items| :: key(items[i]) != key(items[j])
  }

  ghost function Keys<T>(items: seq<T>, key: T -> string): set<string> {
    set i | 0 <= i < |items| :: key(items[i])
  }

  /** Putting a record where its key belongs keeps the keys distinct and leaves the others alone. */
  lemma PutKeeps<T>(items: seq<T>, key: T -> string, x: T)
    requires Distinct(items, key)
    ensures var n := IndexOf(items, key, key(x), 0);
      var after := Put(items, n, x);
      && Distinct(after, key) && |after| == (if n == |items| then n + 1 else |items|) && after[n] == x
      && (forall i | 0 <= i < |items| && i != n :: after[i] == items[i] && key(items[i]) != key(x))
  {
    var n := IndexOf(items, key, key(x), 0);
    if n < |items| {
      assert forall i | n < i < |items| :: key(items[n]) != key(items[i]);
    }
  }

  lemma PutCovers<T>(items: seq<T>, key: T -> string, x: T)
    requires Distinct(items, key)
    ensures Keys(Put(items, IndexOf(items, key, key(x), 0), x), key) == Keys(items, key) + {key(x)}
  {
    var n := IndexOf(items, key, key(x), 0);
    var after := Put(items, n, x);
    PutKeeps(items, key, x);
    forall i | 0 <= i < |items| ensures key(items[i]) in Keys(after, key) {
      assert key(after[i]) == key(items[i]);
    }
    assert key(after[n]) in Keys(after, key);
  }
}
