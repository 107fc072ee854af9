/** The request rate limiter: fixed windows per key in one shared map that is cleaned up now and then. */
module RateLimit {
  import opened Options

  datatype Entry = Entry(count: nat, resetAt: int)

  type Store = map<string, Entry>

  function Lookup(store: Store, key: string): Option<Entry> {
    if key in store then Some(store[key]) else None
  }

  /** The entry is missing or its window is over; a window includes the moment at which it resets. */
  predicate Expired(entry: Option<Entry>, now: int) {
    entry.None? || entry.value.resetAt < now
  }

  /** The entry after a request, which opens a new window when the old one is over. */
  function Counted(entry: Option<Entry>, now: int, window: nat): Entry {
    if Expired(entry, now) then Entry(1, now + window) else entry.value.(count := entry.value.count + 1)
  }

  function Cleaned(store: Store, now: int): Store {
    map key | key in store && store[key].resetAt >= now :: store[key]
  }

  // ---- Cleaning up is invisible ----

  /** Requests may come through limiters with different maximums; all share the window length and the map. */
  datatype Event = Request(key: string, at: int, max: int) | Cleanup(at: int)

  function After(store: Store, window: nat, e: Event): Store {
    match e
    case Request(key, at, _) => store[key := Counted(Lookup(store, key), at, window)]
    case Cleanup(at) => Cleaned(store, at)
  }

  /** The decisions on the requests, in order. */
  function Decisions(store: Store, window: nat, events: seq<Event>): seq<bool>
    decreases |events|
  {
    if events == [] then []
    else
      var e := events[0];
      var rest := Decisions(After(store, window, e), window, events[1..]);
      if e.Request? then [Counted(Lookup(store, e.key), e.at, window).count <= e.max] + rest else rest
  }

  function WithoutCleanups(events: seq<Event>): seq<Event>
    decreases |events|
  {
    if events == [] then []
    else if events[0].Cleanup? then WithoutCleanups(events[1..])
    else [events[0]] + WithoutCleanups(events[1..])
  }

  predicate InTimeOrder(events: seq<Event>, from: int)
    decreases |events|
  {
    events == [] || (from <= events[0].at && InTimeOrder(events[1..], events[0].at))
  }

  /** The entries are the same, or the window of neither is still running. */
  predicate Agree(x: Option<Entry>, y: Option<Entry>, now: int) {
    x == y || (Expired(x, now) && Expired(y, now))
  }

  /** The stores agree on every window that is not over. */
  ghost predicate SameLive(a: Store, b: Store, now: int) {
    forall key: string :: Agree(Lookup(a, key), Lookup(b, key), now)
  }

  lemma CleanedSameLive(a: Store, b: Store, now: int)
    requires SameLive(a, b, now)
    ensures SameLive(Cleaned(a, now), b, now)
  {
    forall key: string ensures Agree(Lookup(Cleaned(a, now), key), Lookup(b, key), now) {
      assert Agree(Lookup(a, key), Lookup(b, key), now);
    }
  }

  lemma SameLiveLater(a: Store, b: Store, now: int, later: int)
    requires SameLive(a, b, now) && now <= later
    ensures SameLive(a, b, later)
  {
  }

  lemma CountedSameLive(a: Store, b: Store, key: string, now: int, window: nat)
    requires SameLive(a, b, now)
    ensures Counted(Lookup(a, key), now, window) == Counted(Lookup(b, key), now, window)
    ensures var e := Counted(Lookup(a, key), now, window); SameLive(a[key := e], b[key := e], now)
  {
    assert Agree(Lookup(a, key), Lookup(b, key), now);
    var e := Counted(Lookup(a, key), now, window);
    var a', b' := a[key := e], b[key := e];
    forall other: string ensures Agree(Lookup(a', other), Lookup(b', other), now) {
      assert Agree(Lookup(a, other), Lookup(b, other), now);
    }
  }

  /** Cleaning up at arbitrary moments never changes a decision. */
  lemma {:induction false} CleanupIsInvisible(a: Store, b: Store, window: nat, events: seq<Event>, now: int)
    requires SameLive(a, b, now) && InTimeOrder(events, now)
    ensures Decisions(a, window, events) == Decisions(b, window, WithoutCleanups(events))
    decreases |events|
  {
    if events != [] {
      var e, rest := events[0], events[1..];
      SameLiveLater(a, b, now, e.at);
      match e
      case Request(key, at, _) =>
        CountedSameLive(a, b, key, at, window);
        CleanupIsInvisible(After(a, window, e), After(b, window, e), window, rest, at);
        var plain := WithoutCleanups(events);
        assert plain[0] == e && plain[1..] == WithoutCleanups(rest);
      case Cleanup(at) =>
        CleanedSameLive(a, b, at);
        CleanupIsInvisible(Cleaned(a, at), b, window, rest, at);
    }
  }

  // ---- How many requests are admitted ----

  /** The admitted requests at or after `from`, and those between two moments inclusive. */
  function Since(log: seq<int>, from: int): nat
    decreases |log|
  {
    if log == [] then 0 else Since(log[..|log| - 1], from) + if log[|log| - 1] >= from then 1 else 0
  }

  function Between(log: seq<int>, from: int, to: int): nat
    decreases |log|
  {
    if log == [] then 0 else Between(log[..|log| - 1], from, to) + if from <= log[|log| - 1] <= to then 1 else 0
  }

  /** The admitted requests of the closed interval of length `window` that starts at `from`. */
  function Span(log: seq<int>, from: int, window: nat): nat { Between(log, from, from + window) }

  /** An interval that reaches from one window into the next misses the request that opened the first one,
      so it can hold `max - 1` requests of the first and `max` of the second. */
  function Peak(max: nat): nat { if max == 0 then 0 else 2 * max - 1 }

  /** No interval of the length of a window holds more than the peak. */
  ghost predicate BelowPeak(log: seq<int>, window: nat, max: nat) {
    forall from: int :: Span(log, from, window) <= Peak(max)
  }

  /** The latest window of a key, whether or not it has been cleaned up: when it opened, and how many requests
      it has counted, through whatever limiter. */
  datatype Window = Window(start: int, count: nat)

  /** How many of the first `count` requests of a window may have been admitted through limiters with maximums
      up to `max`, and how many of these without the request that opened the window. */
  function Allowance(count: nat, max: nat): nat { if count < max then count else max }

  function LaterAllowance(count: nat, max: nat): nat {
    if count == 0 || max == 0 then 0 else Allowance(count, max) - 1
  }

  /** `log` holds the times of the key's requests that were admitted through limiters with maximums up to `max`. */
  ghost predicate Tracked(entry: Option<Entry>, latest: Option<Window>, log: seq<int>, window: nat, max: nat, now: int) {
    && BelowPeak(log, window, max)
    && match latest
       case None => entry == None && log == []
       case Some(w) =>
         && (entry == Some(Entry(w.count, w.start + window)) || (entry == None && w.start + window < now))
         && w.start <= now && w.count > 0
         && Ended(log, w.start + window, now)
         && Recent(log, w, window, max)
  }

  predicate Ended(log: seq<int>, end: int, now: int) {
    forall i | 0 <= i < |log| :: log[i] <= end && log[i] <= now
  }

  /** In particular the latest window holds at most `max` of them. */
  ghost predicate Recent(log: seq<int>, w: Window, window: nat, max: nat) {
    forall from: int ::
      && (from > w.start ==> Since(log, from) <= LaterAllowance(w.count, max))
      && (from >= w.start ==> Since(log, from) <= Allowance(w.count, max))
      && (from >= w.start - window ==> Since(log, from) <= Allowance(w.count, max) + if max == 0 then 0 else max - 1)
  }

  /** The window that a request is counted in. */
  function NextWindow(latest: Option<Window>, now: int, window: nat): Window {
    var w := if latest.None? || latest.value.start + window < now then Window(now, 0) else latest.value;
    Window(w.start, w.count + 1)
  }

  lemma {:induction false} SinceBasics(log: seq<int>, from: int, to: int)
    ensures Between(log, from, to) <= Since(log, from)
    ensures (forall i | 0 <= i < |log| :: log[i] < from) ==> Since(log, from) == 0
    decreases |log|
  {
    if log != [] {
      SinceBasics(log[..|log| - 1], from, to);
    }
  }

  lemma SnocCounts(log: seq<int>, t: int)
    ensures forall from: int :: Since(log + [t], from) == Since(log, from) + if t >= from then 1 else 0
    ensures forall from: int, window: nat ::
      Span(log + [t], from, window) == Span(log, from, window) + if from <= t <= from + window then 1 else 0
  {
    assert (log + [t])[..|log|] == log;
  }

  /** Opening a new window keeps the counts of recent requests. */
  lemma OpenedRecent(log: seq<int>, prior: Window, window: nat, max: nat, now: int)
    requires prior.start + window < now
    requires Ended(log, prior.start + window, now) && Recent(log, prior, window, max)
    ensures Recent(log, Window(now, 0), window, max)
  {
    forall from: int
      ensures from >= now ==> Since(log, from) <= 0
      ensures from >= now - window ==> Since(log, from) <= if max == 0 then 0 else max - 1
    {
      SinceBasics(log, from, from);
      assert from >= now - window ==> from > prior.start;
    }
  }

  /** A request that is counted but not logged, because it is refused or comes through a laxer limiter. */
  lemma CountedRecent(log: seq<int>, w: Window, window: nat, max: nat)
    requires Recent(log, w, window, max)
    ensures Recent(log, Window(w.start, w.count + 1), window, max)
  {
  }

  /** The log after a request through a limiter with maximum `limit`. */
  function Logged(log: seq<int>, count: nat, now: int, limit: int, max: nat): seq<int> {
    if count <= limit <= max then log + [now] else log
  }

  /** One request, through any limiter, keeps the bounds for the limiters with maximums up to `max`, whether
      it opens a window or not and whether it is admitted or not; the stored entry and the latest window come
      to the same decision. */
  lemma RequestTracked(entry: Option<Entry>, latest: Option<Window>, log: seq<int>, window: nat, max: nat, now: int, limit: int)
    requires Tracked(entry, latest, log, window, max, now)
    ensures var e, w := Counted(entry, now, window), NextWindow(latest, now, window);
      e.count == w.count && Tracked(Some(e), Some(w), Logged(log, e.count, now, limit, max), window, max, now)
  {
    var w := NextWindow(latest, now, window);
    var opens := latest.None? || latest.value.start + window < now;
    var before := if opens then Window(now, 0) else latest.value;
    if latest.None? {
      assert Recent(log, before, window, max);
    } else if opens {
      OpenedRecent(log, latest.value, window, max, now);
    }
    if w.count <= limit <= max {
      AdmittedTracked(log, before, window, max, now);
    } else {
      CountedRecent(log, before, window, max);
    }
  }

  lemma AdmittedTracked(log: seq<int>, w: Window, window: nat, max: nat, now: int)
    requires BelowPeak(log, window, max) && Recent(log, w, window, max)
    requires w.start <= now <= w.start + window && w.count < max && (w.count == 0 ==> now == w.start)
    ensures BelowPeak(log + [now], window, max)
    ensures Recent(log + [now], Window(w.start, w.count + 1), window, max)
  {
    SnocCounts(log, now);
    forall from: int ensures Span(log + [now], from, window) <= Peak(max) {
      assert Span(log, from, window) <= Peak(max);
      SinceBasics(log, from, from + window);
      assert from <= now <= from + window ==> from >= w.start - window;
    }
  }

  lemma TrackedLater(entry: Option<Entry>, latest: Option<Window>, log: seq<int>, window: nat, max: nat, now: int, later: int)
    requires Tracked(entry, latest, log, window, max, now) && now <= later
    ensures Tracked(entry, latest, log, window, max, later)
  {
  }

  // ---- The peak is reached ----

  /** The admitted ones of the requests at the given times, all with the same maximum. */
  function Admitted(entry: Option<Entry>, times: seq<int>, window: nat, max: int): seq<int>
    decreases |times|
  {
    if times == [] then []
    else
      var e := Counted(entry, times[0], window);
      (if e.count <= max then [times[0]] else []) + Admitted(Some(e), times[1..], window, max)
  }

  function Burst(t: int, n: nat): seq<int> { seq(n, i => t) }

  lemma {:induction false} BurstAdmitted(entry: Entry, t: int, n: nat, rest: seq<int>, window: nat, max: int)
    requires t <= entry.resetAt && entry.count + n <= max
    ensures Admitted(Some(entry), Burst(t, n) + rest, window, max) ==
            Burst(t, n) + Admitted(Some(entry.(count := entry.count + n)), rest, window, max)
    decreases n
  {
    if n == 0 {
      assert Burst(t, n) + rest == rest;
    } else {
      var e := entry.(count := entry.count + 1);
      BurstAdmitted(e, t, n - 1, rest, window, max);
      BurstFirst(t, n, rest);
      BurstFirst(t, n, Admitted(Some(entry.(count := entry.count + n)), rest, window, max));
      assert e.(count := e.count + (n - 1)) == entry.(count := entry.count + n);
    }
  }

  lemma BurstFirst(t: int, n: nat, rest: seq<int>)
    requires n > 0
    ensures (Burst(t, n) + rest)[0] == t && (Burst(t, n) + rest)[1..] == Burst(t, n - 1) + rest
    ensures Burst(t, n) + rest == [t] + (Burst(t, n - 1) + rest)
  {
  }

  lemma {:induction false} BurstSpan(log: seq<int>, t: int, n: nat, from: int, window: nat)
    requires from <= t <= from + window
    ensures Span(log + Burst(t, n), from, window) == Span(log, from, window) + n
    decreases n
  {
    if n == 0 {
      assert log + Burst(t, n) == log;
    } else {
      BurstSpan(log, t, n - 1, from, window);
      assert log + Burst(t, n) == log + Burst(t, n - 1) + [t];
      SnocCounts(log + Burst(t, n - 1), t);
    }
  }

  lemma FirstWindow(window: nat, max: nat, second: seq<int>)
    requires max > 0
    ensures Admitted(None, [0] + (Burst(window, max - 1) + second), window, max) ==
            [0] + (Burst(window, max - 1) + Admitted(Some(Entry(max, window)), second, window, max))
  {
    var later := Burst(window, max - 1) + second;
    assert ([0] + later)[1..] == later;
    BurstAdmitted(Entry(1, window), window, max - 1, second, window, max);
  }

  lemma SecondWindow(window: nat, max: nat)
    requires max > 0
    ensures Admitted(Some(Entry(max, window)), Burst(window + 1, max), window, max) == Burst(window + 1, max)
  {
    var t := window + 1;
    var entry := Entry(1, t + window);
    BurstFirst(t, max, []);
    BurstAdmitted(entry, t, max - 1, [], window, max);
    assert Burst(t, max) + [] == Burst(t, max) && Burst(t, max - 1) + [] == Burst(t, max - 1);
  }

  lemma SpanOfPeak(window: nat, max: nat)
    requires window > 0 && max > 0
    ensures Span([0] + (Burst(window, max - 1) + Burst(window + 1, max)), 1, window) == Peak(max)
  {
    BurstSpan([0], window, max - 1, 1, window);
    BurstSpan([0] + Burst(window, max - 1), window + 1, max, 1, window);
    assert [0] + (Burst(window, max - 1) + Burst(window + 1, max)) == [0] + Burst(window, max - 1) + Burst(window + 1, max);
    assert Span([0], 1, window) == 0;
  }

  /** One request opens a window, the others of the first window come at its last moment, and a full
      second window follows at once: an interval of the length of a window then holds exactly the peak. */
  lemma PeakIsReached(window: nat, max: nat)
    requires window > 0 && max > 0
    ensures var times := [0] + (Burst(window, max - 1) + Burst(window + 1, max));
      Admitted(None, times, window, max) == times && Span(times, 1, window) == Peak(max)
  {
    FirstWindow(window, max, Burst(window + 1, max));
    SecondWindow(window, max);
    SpanOfPeak(window, max);
  }

  // ---- The limiters ----

  /** An admitted request, and the maximum of the limiter that it came through. */
  datatype Admission = Admission(at: int, limit: int)

  /** The store, with the latest window and the admitted requests of each key. */
  datatype Book = Book(store: Store, latest: map<string, Window>, log: map<string, seq<Admission>>)

  ghost function Latest(b: Book, key: string): Option<Window> {
    if key in b.latest then Some(b.latest[key]) else None
  }

  ghost function Log(b: Book, key: string): seq<Admission> {
    if key in b.log then b.log[key] else []
  }

  /** The times of the requests that were admitted through limiters with maximums up to `max`. */
  function UpTo(log: seq<Admission>, max: nat): seq<int>
    decreases |log|
  {
    if log == [] then []
    else
      var last := log[|log| - 1];
      UpTo(log[..|log| - 1], max) + if last.limit <= max then [last.at] else []
  }

  ghost function Booked(b: Book, window: nat, e: Event): Book {
    match e
    case Request(key, at, limit) =>
      var entry := Counted(Lookup(b.store, key), at, window);
      Book(b.store[key := entry], b.latest[key := NextWindow(Latest(b, key), at, window)],
           if entry.count <= limit then b.log[key := Log(b, key) + [Admission(at, limit)]] else b.log)
    case Cleanup(at) => b.(store := Cleaned(b.store, at))
  }

  /** The key keeps the bounds of every maximum: the requests admitted through limiters with maximums up to
      `max` stay within it. */
  ghost predicate KeyBounded(b: Book, window: nat, now: int, key: string, max: nat) {
    Tracked(Lookup(b.store, key), Latest(b, key), UpTo(Log(b, key), max), window, max, now)
  }

  ghost predicate Bounded(b: Book, window: nat, now: int) {
    forall key: string, max: nat :: KeyBounded(b, window, now, key, max)
  }

  lemma UpToSnoc(log: seq<Admission>, a: Admission, max: nat)
    ensures UpTo(log + [a], max) == if a.limit <= max then UpTo(log, max) + [a.at] else UpTo(log, max)
  {
    assert (log + [a])[..|log|] == log;
    assert UpTo(log, max) + [] == UpTo(log, max);
  }

  lemma RequestKeyBounded(b: Book, window: nat, now: int, e: Event, key: string, max: nat)
    requires e.Request? && now <= e.at && KeyBounded(b, window, now, key, max)
    ensures KeyBounded(Booked(b, window, e), window, e.at, key, max)
  {
    var entry, latest, log := Lookup(b.store, key), Latest(b, key), UpTo(Log(b, key), max);
    TrackedLater(entry, latest, log, window, max, now, e.at);
    var c := Booked(b, window, e);
    if e.key == key {
      RequestTracked(entry, latest, log, window, max, e.at, e.max);
      UpToSnoc(Log(b, key), Admission(e.at, e.max), max);
      var n := Counted(entry, e.at, window).count;
      assert UpTo(Log(c, key), max) == Logged(log, n, e.at, e.max, max);
    } else {
      assert Lookup(c.store, key) == entry && Latest(c, key) == latest && Log(c, key) == Log(b, key);
    }
  }

  lemma CleanupKeyBounded(b: Book, window: nat, now: int, e: Event, key: string, max: nat)
    requires e.Cleanup? && now <= e.at && KeyBounded(b, window, now, key, max)
    ensures KeyBounded(Booked(b, window, e), window, e.at, key, max)
  {
    TrackedLater(Lookup(b.store, key), Latest(b, key), UpTo(Log(b, key), max), window, max, now, e.at);
  }

  /** Every request and every cleanup keeps all bounds. */
  lemma EventBounded(b: Book, window: nat, now: int, e: Event)
    requires Bounded(b, window, now) && now <= e.at
    ensures Bounded(Booked(b, window, e), window, e.at)
  {
    forall key: string, max: nat ensures KeyBounded(Booked(b, window, e), window, e.at, key, max) {
      assert KeyBounded(b, window, now, key, max);
      if e.Request? {
        RequestKeyBounded(b, window, now, e, key, max);
      } else {
        CleanupKeyBounded(b, window, now, e, key, max);
      }
    }
  }

  const NOTHING := Book(map[], map[], map[])

  lemma NothingBounded(window: nat, now: int)
    ensures Bounded(NOTHING, window, now)
  {
    forall key: string, max: nat ensures KeyBounded(NOTHING, window, now, key, max) {
      assert forall from: int :: Span([], from, window) == 0;
    }
  }

  ghost function BookAfter(window: nat, events: seq<Event>): Book
    decreases |events|
  {
    if events == [] then NOTHING
    else Booked(BookAfter(window, events[..|events| - 1]), window, events[|events| - 1])
  }

  predicate Orderly(events: seq<Event>) {
    forall i, j | 0 <= i < j < |events| :: events[i].at <= events[j].at
  }

  lemma {:induction false} RunBounded(window: nat, events: seq<Event>)
    requires Orderly(events) && events != []
    ensures Bounded(BookAfter(window, events), window, events[|events| - 1].at)
    decreases |events|
  {
    var n := |events| - 1;
    if n == 0 {
      NothingBounded(window, events[0].at);
      assert events[..0] == [];
      EventBounded(NOTHING, window, events[0].at, events[0]);
    } else {
      RunBounded(window, events[..n]);
      EventBounded(BookAfter(window, events[..n]), window, events[n - 1].at, events[n]);
    }
  }

  /** Whatever requests come through whatever limiters over the shared map, and whenever it is cleaned up: for
      every maximum, the requests of a key that are admitted through limiters with no higher maximum are at
      most that many in the latest window, and at most its peak in any interval of the length of a window. */
  lemma EveryRunIsBounded(window: nat, events: seq<Event>, key: string, max: nat, from: int)
    requires Orderly(events)
    ensures var b := BookAfter(window, events);
      var log := UpTo(Log(b, key), max);
      && Span(log, from, window) <= Peak(max)
      && (Latest(b, key).Some? ==> Since(log, Latest(b, key).value.start) <= max)
  {
    var b := BookAfter(window, events);
    if events == [] {
      assert Span([], from, window) == 0;
    } else {
      RunBounded(window, events);
      assert KeyBounded(b, window, events[|events| - 1].at, key, max);
    }
  }

  class RateLimiters {
    const window: nat
    var store: Store
    /** The store with what it has forgotten, and the time of the latest event. */
    ghost var book: Book
    ghost var now: int

    ghost predicate Valid()
      reads this
    {
      book.store == store && Bounded(book, window, now)
    }

    constructor (window: nat, start: int)
      ensures Valid() && this.window == window && now == start && book == NOTHING
    {
      this.window := window;
      store, book, now := map[], NOTHING, start;
      NothingBounded(window, start);
    }

    /** A request at time `t` through a limiter with maximum `max`.  The decision depends only on the latest
        window of the key, which cleaning up does not touch. */
    method Admit(key: string, t: int, max: int) returns (admitted: bool)
      requires Valid() && now <= t
      modifies this
      ensures Valid() && now == t && book == Booked(old(book), window, Request(key, t, max))
      ensures admitted == (NextWindow(Latest(old(book), key), t, window).count <= max)
    {
      EventBounded(book, window, now, Request(key, t, max));
      assert KeyBounded(book, window, now, key, 0);
      RequestTracked(Lookup(store, key), Latest(book, key), UpTo(Log(book, key), 0), window, 0, now, max);
      var entry := Lookup(store, key);
      if entry.None? || entry.value.resetAt < t {
        entry := Some(Entry(0, t + window));
      }
      var counted := entry.value.(count := entry.value.count + 1);
      admitted := counted.count <= max;
      store, book, now := store[key := counted], Booked(book, window, Request(key, t, max)), t;
    }

    /** Deletes the entries whose windows are over. */
    method Cleanup(t: int)
      requires Valid() && now <= t
      modifies this
      ensures Valid() && now == t && store == Cleaned(old(store), t)
      ensures book == Booked(old(book), window, Event.Cleanup(t))
    {
      EventBounded(book, window, now, Event.Cleanup(t));
      DeleteExpired(t);
      book, now := Booked(book, window, Event.Cleanup(t)), t;
    }

    method DeleteExpired(t: int)
      modifies this`store
      ensures store == Cleaned(old(store), t)
    {
      var keys := store.Keys;
      while keys != {}
        invariant keys <= store.Keys <= old(store.Keys)
        invariant forall key | key in store :: store[key] == old(store)[key]
        invariant forall key | key in old(store) :: key in store <==> key in keys || old(store)[key].resetAt >= t
        decreases |keys|
      {
        var key :| key in keys;
        if store[key].resetAt < t {
          store := store - {key};
        }
        keys := keys - {key};
      }
    }
  }
}
