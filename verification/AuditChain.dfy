/** The organisation-wide audit log: concurrent transactions that append hash-chained rows under one lock. */
module AuditChain {
  import opened Options

  type Digest = string

  /** An event to record; `data` is its JSON text. */
  datatype Event = Event(org: string, data: string)

  datatype Row = Row(org: string, data: string, prev: Digest, hash: Digest, createdAt: int)

  /** A client inside a transaction; `at` is the time at which the transaction began. */
  datatype Client =
    | Begun(event: Event, at: int)
    | Holding(event: Event, at: int)
    | HasRead(event: Event, at: int, prev: Digest)
    | Inserted(row: Row)

  predicate PastLock(c: Client) { !c.Begun? }

  /** `table` holds the committed rows in the order of their commits; a client that is not in `clients`
      has no open transaction; `holder` has the advisory lock. */
  datatype State = State(table: seq<Row>, clients: map<nat, Client>, holder: Option<nat>, clock: int)

  const START := State([], map[], None, 0)

  /** One atomic step.  `pick` is the row that a read returns.  A lock step is possible only when the lock
      is free; a rollback may happen at any point of a transaction, also when a client goes away. */
  datatype Step =
    | Tick(elapsed: nat)
    | Begin(client: nat, event: Event)
    | Lock(client: nat)
    | Read(client: nat, pick: Option<nat>)
    | Insert(client: nat)
    | Commit(client: nat)
    | Rollback(client: nat)

  function Genesis(h: string -> Digest): Digest { h("0") }

  /** `pick` is a row of the organisation with the latest creation time, or None if it has no row. */
  predicate IsLast(table: seq<Row>, org: string, pick: Option<nat>) {
    match pick
    case None => forall j | 0 <= j < |table| :: table[j].org != org
    case Some(i) =>
      && i < |table| && table[i].org == org
      && forall j | 0 <= j < |table| && table[j].org == org :: table[j].createdAt <= table[i].createdAt
  }

  /** The state after the step, or None when the step is not possible. */
  function Apply(h: string -> Digest, s: State, step: Step): Option<State> {
    match step
    case Tick(d) => Some(s.(clock := s.clock + d))
    case Begin(c, e) =>
      if c in s.clients then None else Some(s.(clients := s.clients[c := Begun(e, s.clock)]))
    case Lock(c) =>
      if c in s.clients && s.clients[c].Begun? && s.holder == None then
        Some(s.(clients := s.clients[c := Holding(s.clients[c].event, s.clients[c].at)], holder := Some(c)))
      else None
    case Read(c, pick) =>
      if c in s.clients && s.clients[c].Holding? && IsLast(s.table, s.clients[c].event.org, pick) then
        var prev := if pick.None? then Genesis(h) else s.table[pick.value].hash;
        Some(s.(clients := s.clients[c := HasRead(s.clients[c].event, s.clients[c].at, prev)]))
      else None
    case Insert(c) =>
      if c in s.clients && s.clients[c].HasRead? then
        var x := s.clients[c];
        var row := Row(x.event.org, x.event.data, x.prev, h(x.prev + x.event.data), x.at);
        Some(s.(clients := s.clients[c := Inserted(row)]))
      else None
    case Commit(c) =>
      if c in s.clients && s.clients[c].Inserted? then
        Some(s.(table := s.table + [s.clients[c].row], clients := s.clients - {c}, holder := None))
      else None
    case Rollback(c) =>
      if c in s.clients then
        Some(s.(clients := s.clients - {c}, holder := if s.holder == Some(c) then None else s.holder))
      else None
  }

  /** The state after the steps; None when they are not a possible interleaving. */
  function Run(h: string -> Digest, steps: seq<Step>): Option<State>
    decreases |steps|
  {
    if steps == [] then Some(START)
    else match Run(h, steps[..|steps| - 1])
      case None => None
      case Some(s) => Apply(h, s, steps[|steps| - 1])
  }

  // ---- Mutual exclusion ----

  /** The clients past the lock are exactly the holder, and an inserted row carries the hash of its text. */
  ghost predicate Exclusive(h: string -> Digest, s: State) {
    && (forall c | c in s.clients :: PastLock(s.clients[c]) <==> s.holder == Some(c))
    && (s.holder.Some? ==> s.holder.value in s.clients)
    && (forall c | c in s.clients && s.clients[c].Inserted? ::
          s.clients[c].row.hash == h(s.clients[c].row.prev + s.clients[c].row.data))
  }

  lemma StepExclusive(h: string -> Digest, s: State, step: Step)
    requires Exclusive(h, s) && Apply(h, s, step).Some?
    ensures Exclusive(h, Apply(h, s, step).value)
  {
  }

  lemma {:induction false} RunExclusive(h: string -> Digest, steps: seq<Step>)
    requires Run(h, steps).Some?
    ensures Exclusive(h, Run(h, steps).value)
    decreases |steps|
  {
    if steps != [] {
      RunExclusive(h, steps[..|steps| - 1]);
      StepExclusive(h, Run(h, steps[..|steps| - 1]).value, steps[|steps| - 1]);
    }
  }

  /** In every interleaving at most one client is between its lock and its commit. */
  lemma AtMostOnePastLock(h: string -> Digest, steps: seq<Step>, c: nat, d: nat)
    requires Run(h, steps).Some?
    ensures var s := Run(h, steps).value;
      c in s.clients && d in s.clients && PastLock(s.clients[c]) && PastLock(s.clients[d]) ==> c == d
  {
    RunExclusive(h, steps);
  }

  // ---- One unforked chain ----

  /** The rows of one organisation in the order of their commits. */
  function Of(table: seq<Row>, org: string): seq<Row>
    decreases |table|
  {
    if table == [] then []
    else
      var last := table[|table| - 1];
      Of(table[..|table| - 1], org) + if last.org == org then [last] else []
  }

  /** The hash that the next row has to name. */
  function Tip(h: string -> Digest, rows: seq<Row>): Digest {
    if rows == [] then Genesis(h) else rows[|rows| - 1].hash
  }

  /** Row `k` names its predecessor's hash, the first row the genesis hash. */
  predicate Linked(h: string -> Digest, rows: seq<Row>, k: nat)
    requires k < |rows|
  {
    && rows[k].prev == (if k == 0 then Genesis(h) else rows[k - 1].hash)
    && rows[k].hash == h(rows[k].prev + rows[k].data)
  }

  ghost predicate Chained(h: string -> Digest, rows: seq<Row>) {
    forall k | 0 <= k < |rows| :: Linked(h, rows, k)
  }

  predicate Increasing(rows: seq<Row>) {
    forall j, k | 0 <= j < k < |rows| :: rows[j].createdAt < rows[k].createdAt
  }

  /** When a transaction of the organisation gets the lock, it began later than every transaction of the
      organisation that has committed. */
  ghost predicate InOrder(s: State, step: Step, org: string) {
    step.Lock? && step.client in s.clients && s.clients[step.client].Begun? && s.clients[step.client].event.org == org ==>
    Before(s.table, org, s.clients[step.client].at)
  }

  predicate Before(table: seq<Row>, org: string, at: int) {
    forall j | 0 <= j < |table| && table[j].org == org :: table[j].createdAt < at
  }

  /** The hypothesis TimestampsFollowLockOrder for one organisation over a whole run. */
  ghost predicate TimestampsFollowLockOrder(h: string -> Digest, steps: seq<Step>, org: string)
    decreases |steps|
  {
    steps == [] ||
    (TimestampsFollowLockOrder(h, steps[..|steps| - 1], org) &&
     (Run(h, steps[..|steps| - 1]).Some? ==> InOrder(Run(h, steps[..|steps| - 1]).value, steps[|steps| - 1], org)))
  }

  lemma {:induction false} OfFromTable(table: seq<Row>, org: string, k: nat) returns (j: nat)
    requires k < |Of(table, org)|
    ensures j < |table| && table[j] == Of(table, org)[k] && table[j].org == org
    decreases |table|
  {
    var n := |table| - 1;
    var before := Of(table[..n], org);
    if k < |before| {
      j := OfFromTable(table[..n], org, k);
    } else {
      j := n;
    }
  }

  lemma {:induction false} TableInOf(table: seq<Row>, org: string, j: nat) returns (k: nat)
    requires j < |table| && table[j].org == org
    ensures k < |Of(table, org)| && Of(table, org)[k] == table[j]
    decreases |table|
  {
    var n := |table| - 1;
    if j < n {
      k := TableInOf(table[..n], org, j);
    } else {
      k := |Of(table[..n], org)|;
    }
  }

  /** When creation times increase, the row that a read returns is the last one of the organisation. */
  lemma ReadsTip(h: string -> Digest, table: seq<Row>, org: string, pick: Option<nat>)
    requires Increasing(Of(table, org)) && IsLast(table, org, pick)
    ensures (if pick.None? then Genesis(h) else table[pick.value].hash) == Tip(h, Of(table, org))
  {
    var rows := Of(table, org);
    if pick.Some? {
      var k := TableInOf(table, org, pick.value);
      var j := OfFromTable(table, org, |rows| - 1);
      assert rows[k].createdAt >= rows[|rows| - 1].createdAt;
    } else if rows != [] {
      var j := OfFromTable(table, org, 0);
    }
  }

  /** What every step keeps for one organisation while creation times follow the lock order. */
  ghost predicate Growing(h: string -> Digest, s: State, org: string) {
    && Exclusive(h, s)
    && Chained(h, Of(s.table, org)) && Increasing(Of(s.table, org))
    && forall c | c in s.clients :: Ready(h, s.table, s.clients[c], org)
  }

  ghost predicate Ready(h: string -> Digest, table: seq<Row>, c: Client, org: string) {
    match c
    case Begun(_, _) => true
    case Holding(e, at) => e.org == org ==> Before(table, org, at)
    case HasRead(e, at, prev) => e.org == org ==> Before(table, org, at) && prev == Tip(h, Of(table, org))
    case Inserted(row) => row.org == org ==> Before(table, org, row.createdAt) && row.prev == Tip(h, Of(table, org))
  }

  lemma StepGrows(h: string -> Digest, s: State, step: Step, org: string)
    requires Growing(h, s, org) && Apply(h, s, step).Some? && InOrder(s, step, org)
    ensures Growing(h, Apply(h, s, step).value, org)
  {
    var t := Apply(h, s, step).value;
    StepExclusive(h, s, step);
    if step.Commit? {
      CommitGrows(h, s, step.client, org);
    } else if step.Read? && s.clients[step.client].event.org == org {
      ReadsTip(h, s.table, org, step.pick);
    }
  }

  lemma ChainedSnoc(h: string -> Digest, rows: seq<Row>, row: Row)
    ensures Chained(h, rows + [row]) <==>
      Chained(h, rows) && row.prev == Tip(h, rows) && row.hash == h(row.prev + row.data)
  {
    var more := rows + [row];
    assert forall k | 0 <= k < |rows| :: Linked(h, more, k) == Linked(h, rows, k);
    assert Linked(h, more, |rows|) <==> row.prev == Tip(h, rows) && row.hash == h(row.prev + row.data);
  }

  lemma OfSnoc(table: seq<Row>, row: Row, org: string)
    ensures Of(table + [row], org) == Of(table, org) + if row.org == org then [row] else []
  {
    assert (table + [row])[..|table|] == table;
  }

  lemma IncreasingSnoc(table: seq<Row>, row: Row, org: string)
    requires Increasing(Of(table, org)) && Before(table, org, row.createdAt)
    ensures Increasing(Of(table, org) + [row])
  {
    var rows := Of(table, org);
    forall k | 0 <= k < |rows| ensures rows[k].createdAt < row.createdAt {
      var j := OfFromTable(table, org, k);
    }
  }

  lemma CommitGrows(h: string -> Digest, s: State, c: nat, org: string)
    requires Growing(h, s, org) && c in s.clients && s.clients[c].Inserted?
    ensures Growing(h, Apply(h, s, Commit(c)).value, org)
  {
    var row := s.clients[c].row;
    StepExclusive(h, s, Commit(c));
    OfSnoc(s.table, row, org);
    assert Ready(h, s.table, s.clients[c], org);
    if row.org == org {
      ChainedSnoc(h, Of(s.table, org), row);
      IncreasingSnoc(s.table, row, org);
    } else {
      assert Of(s.table + [row], org) == Of(s.table, org);
    }
    forall d | d in s.clients && d != c ensures s.clients[d].Begun? {
      assert PastLock(s.clients[c]) && s.holder == Some(c);
    }
  }

  /** For every interleaving in which creation times follow the lock order, the rows of the organisation
      form one chain from the genesis hash, in the order of their commits. */
  lemma {:induction false} RowsFormChain(h: string -> Digest, steps: seq<Step>, org: string)
    requires Run(h, steps).Some? && TimestampsFollowLockOrder(h, steps, org)
    ensures Growing(h, Run(h, steps).value, org)
    ensures Chained(h, Of(Run(h, steps).value.table, org))
    decreases |steps|
  {
    if steps != [] {
      RowsFormChain(h, steps[..|steps| - 1], org);
      StepGrows(h, Run(h, steps[..|steps| - 1]).value, steps[|steps| - 1], org);
    }
  }

  // ---- What the hashes determine ----

  /** Every digest has 64 hexadecimal digits. */
  ghost predicate FixedWidth(h: string -> Digest) {
    forall text: string :: |h(text)| == 64
  }

  /** No two of the texts have the same digest. */
  ghost predicate CollisionFree(h: string -> Digest, texts: set<string>) {
    forall x, y | x in texts && y in texts && h(x) == h(y) :: x == y
  }

  /** The texts that are hashed for a chain of rows. */
  function TextsOf(rows: seq<Row>): set<string> {
    {"0"} + set k | 0 <= k < |rows| :: rows[k].prev + rows[k].data
  }

  lemma SplitDigest(p: Digest, x: string, q: Digest, y: string)
    requires |p| == |q| && p + x == q + y
    ensures p == q && x == y
  {
    assert p == (p + x)[..|p|] && q == (q + y)[..|q|];
    assert x == (p + x)[|p|..] && y == (q + y)[|q|..];
  }

  /** The part of a chain before row `n` is a chain that ends in the hash which row `n` names. */
  lemma ChainedTake(h: string -> Digest, rows: seq<Row>, n: nat)
    requires FixedWidth(h) && Chained(h, rows) && n <= |rows|
    ensures Chained(h, rows[..n]) && TextsOf(rows[..n]) <= TextsOf(rows)
    ensures n < |rows| ==> rows[n].prev == Tip(h, rows[..n]) && rows[n].hash == h(rows[n].prev + rows[n].data)
    ensures n < |rows| ==> rows[n].prev + rows[n].data in TextsOf(rows)
    ensures |Tip(h, rows[..n])| == 64
  {
    assert forall k | 0 <= k < n :: Linked(h, rows[..n], k) == Linked(h, rows, k);
    assert n < |rows| ==> Linked(h, rows, n);
    assert n > 0 ==> Linked(h, rows, n - 1);
  }

  /** No row has the genesis hash. */
  lemma GenesisIsNoRow(h: string -> Digest, rows: seq<Row>, k: nat)
    requires FixedWidth(h) && Chained(h, rows) && CollisionFree(h, TextsOf(rows)) && k < |rows|
    ensures rows[k].hash != Genesis(h)
  {
    ChainedTake(h, rows, k);
    assert |rows[k].prev + rows[k].data| >= 64 > |"0"|;
  }

  /** Rows with the same hash hold the same data and name the same predecessor. */
  lemma SameHashSameRow(h: string -> Digest, a: seq<Row>, b: seq<Row>, i: nat, j: nat)
    requires FixedWidth(h) && Chained(h, a) && Chained(h, b) && CollisionFree(h, TextsOf(a) + TextsOf(b))
    requires i < |a| && j < |b| && a[i].hash == b[j].hash
    ensures a[i].prev == b[j].prev && a[i].data == b[j].data
  {
    ChainedTake(h, a, i);
    ChainedTake(h, b, j);
    SplitDigest(a[i].prev, a[i].data, b[j].prev, b[j].data);
  }

  /** The recorded events, oldest first. */
  function Contents(rows: seq<Row>): (data: seq<string>)
    ensures |data| == |rows|
    decreases |rows|
  {
    if rows == [] then [] else Contents(rows[..|rows| - 1]) + [rows[|rows| - 1].data]
  }

  /** The last hash determines the log: two chains with the same last hash hold the same data. */
  lemma {:induction false} TipDetermines(h: string -> Digest, a: seq<Row>, b: seq<Row>)
    requires FixedWidth(h) && Chained(h, a) && Chained(h, b) && CollisionFree(h, TextsOf(a) + TextsOf(b))
    requires Tip(h, a) == Tip(h, b)
    ensures Contents(a) == Contents(b)
    decreases |a|
  {
    if a == [] || b == [] {
      if a != [] { GenesisIsNoRow(h, a, |a| - 1); }
      if b != [] { GenesisIsNoRow(h, b, |b| - 1); }
    } else {
      var m, n := |a| - 1, |b| - 1;
      SameHashSameRow(h, a, b, m, n);
      ChainedTake(h, a, m);
      ChainedTake(h, b, n);
      TipDetermines(h, a[..m], b[..n]);
    }
  }

  /** A chain is unforked: no two of its rows name the same predecessor. */
  lemma ChainUnforked(h: string -> Digest, rows: seq<Row>, i: nat, j: nat)
    requires FixedWidth(h) && Chained(h, rows) && CollisionFree(h, TextsOf(rows)) && i < j < |rows|
    ensures rows[i].prev != rows[j].prev
  {
    ChainedTake(h, rows, i);
    ChainedTake(h, rows, j);
    if rows[i].prev == rows[j].prev {
      TipDetermines(h, rows[..i], rows[..j]);
    }
  }

  /** For every interleaving in which creation times follow the lock order, the organisation's rows form one
      unforked chain: each names the row committed before it, and no two name the same row. */
  lemma OneUnforkedChain(h: string -> Digest, steps: seq<Step>, org: string, i: nat, j: nat)
    requires FixedWidth(h) && Run(h, steps).Some? && TimestampsFollowLockOrder(h, steps, org)
    requires CollisionFree(h, TextsOf(Of(Run(h, steps).value.table, org)))
    requires i < j < |Of(Run(h, steps).value.table, org)|
    ensures var rows := Of(Run(h, steps).value.table, org);
      rows[j].prev == rows[j - 1].hash && rows[i].prev != rows[j].prev && rows[j].hash != Genesis(h)
  {
    var rows := Of(Run(h, steps).value.table, org);
    RowsFormChain(h, steps, org);
    ChainUnforked(h, rows, i, j);
    GenesisIsNoRow(h, rows, j);
    assert Linked(h, rows, j);
  }

  // ---- Without the hypothesis ----

  /** Among these rows of one organisation, row `m` has the latest creation time. */
  predicate IsLatest(rows: seq<Row>, m: nat) {
    m < |rows| && forall j | 0 <= j < |rows| :: rows[j].createdAt <= rows[m].createdAt
  }

  /** `prev` is the hash of a row with the latest creation time, or the genesis hash if there is no row. */
  ghost predicate NamesLatest(h: string -> Digest, rows: seq<Row>, prev: Digest) {
    if rows == [] then prev == Genesis(h) else exists m: nat :: IsLatest(rows, m) && rows[m].hash == prev
  }

  /** Every row names one with the latest creation time among the rows committed before it. */
  ghost predicate AllNameLatest(h: string -> Digest, rows: seq<Row>) {
    forall k | 0 <= k < |rows| :: NamesLatest(h, rows[..k], rows[k].prev) && rows[k].hash == h(rows[k].prev + rows[k].data)
  }

  /** What every step keeps for one organisation, whatever the creation times are. */
  ghost predicate Naming(h: string -> Digest, s: State, org: string) {
    && Exclusive(h, s) && AllNameLatest(h, Of(s.table, org))
    && forall c | c in s.clients :: ClientNames(h, s.table, s.clients[c], org)
  }

  ghost predicate ClientNames(h: string -> Digest, table: seq<Row>, c: Client, org: string) {
    match c
    case Begun(_, _) => true
    case Holding(_, _) => true
    case HasRead(e, _, prev) => e.org == org ==> NamesLatest(h, Of(table, org), prev)
    case Inserted(row) => row.org == org ==> NamesLatest(h, Of(table, org), row.prev)
  }

  lemma ReadNamesLatest(h: string -> Digest, table: seq<Row>, org: string, pick: Option<nat>)
    requires IsLast(table, org, pick)
    ensures NamesLatest(h, Of(table, org), if pick.None? then Genesis(h) else table[pick.value].hash)
  {
    var rows := Of(table, org);
    if pick.Some? {
      var k := TableInOf(table, org, pick.value);
      forall j | 0 <= j < |rows| ensures rows[j].createdAt <= rows[k].createdAt {
        var i := OfFromTable(table, org, j);
      }
      assert IsLatest(rows, k);
    } else if rows != [] {
      var j := OfFromTable(table, org, 0);
    }
  }

  lemma NamingSnoc(h: string -> Digest, rows: seq<Row>, row: Row)
    requires AllNameLatest(h, rows) && NamesLatest(h, rows, row.prev) && row.hash == h(row.prev + row.data)
    ensures AllNameLatest(h, rows + [row])
  {
    var more := rows + [row];
    forall k | 0 <= k < |more| ensures NamesLatest(h, more[..k], more[k].prev) {
      assert more[..k] == rows[..k];
      assert rows[..|rows|] == rows;
    }
  }

  lemma CommitNames(h: string -> Digest, s: State, c: nat, org: string)
    requires Naming(h, s, org) && c in s.clients && s.clients[c].Inserted?
    ensures Naming(h, Apply(h, s, Commit(c)).value, org)
  {
    var row := s.clients[c].row;
    StepExclusive(h, s, Commit(c));
    OfSnoc(s.table, row, org);
    assert ClientNames(h, s.table, s.clients[c], org);
    if row.org == org {
      NamingSnoc(h, Of(s.table, org), row);
    } else {
      assert Of(s.table + [row], org) == Of(s.table, org);
    }
    forall d | d in s.clients && d != c ensures s.clients[d].Begun? {
      assert PastLock(s.clients[c]) && s.holder == Some(c);
    }
  }

  lemma StepNames(h: string -> Digest, s: State, step: Step, org: string)
    requires Naming(h, s, org) && Apply(h, s, step).Some?
    ensures Naming(h, Apply(h, s, step).value, org)
  {
    StepExclusive(h, s, step);
    if step.Commit? {
      CommitNames(h, s, step.client, org);
    } else if step.Read? && s.clients[step.client].event.org == org {
      ReadNamesLatest(h, s.table, org, step.pick);
    }
  }

  lemma {:induction false} RowsNameLatest(h: string -> Digest, steps: seq<Step>, org: string)
    requires Run(h, steps).Some?
    ensures Naming(h, Run(h, steps).value, org)
    decreases |steps|
  {
    if steps != [] {
      RowsNameLatest(h, steps[..|steps| - 1], org);
      StepNames(h, Run(h, steps[..|steps| - 1]).value, steps[|steps| - 1], org);
    }
  }

  /** In every possible interleaving, whatever the creation times are, an organisation's first row names the hash of
      "0", and the hash of a row is that of the named hash followed by the row's data. */
  lemma RowsAreHashed(h: string -> Digest, steps: seq<Step>, org: string)
    requires Run(h, steps).Some?
    ensures var rows := Of(Run(h, steps).value.table, org);
      && (rows != [] ==> rows[0].prev == h("0"))
      && forall k | 0 <= k < |rows| :: rows[k].hash == h(rows[k].prev + rows[k].data)
  {
    RowsNameLatest(h, steps, org);
    var rows := Of(Run(h, steps).value.table, org);
    if rows != [] {
      assert NamesLatest(h, rows[..0], rows[0].prev);
    }
  }

  predicate NeverFalling(rows: seq<Row>) {
    forall j, k | 0 <= j < k < |rows| :: rows[j].createdAt <= rows[k].createdAt
  }

  predicate DistinctTimes(rows: seq<Row>) {
    forall i, j | 0 <= i < j < |rows| :: rows[i].createdAt != rows[j].createdAt
  }

  predicate DistinctHashes(rows: seq<Row>) {
    forall i, j | 0 <= i < j < |rows| :: rows[i].hash != rows[j].hash
  }

  lemma HashesDiffer(h: string -> Digest, rows: seq<Row>, i: nat, j: nat)
    requires FixedWidth(h) && Chained(h, rows) && CollisionFree(h, TextsOf(rows)) && i < j < |rows|
    ensures rows[i].hash != rows[j].hash
  {
    if rows[i].hash == rows[j].hash {
      SameHashSameRow(h, rows, rows, i, j);
      ChainUnforked(h, rows, i, j);
    }
  }

  /** In a chain no two rows have the same hash. */
  lemma ChainHashesDiffer(h: string -> Digest, rows: seq<Row>)
    requires FixedWidth(h) && Chained(h, rows) && CollisionFree(h, TextsOf(rows))
    ensures DistinctHashes(rows)
  {
    forall i, j | 0 <= i < j < |rows| ensures rows[i].hash != rows[j].hash {
      HashesDiffer(h, rows, i, j);
    }
  }

  /** Row `k` of a chain has the latest creation time so far if a row behind it is there to show it. */
  lemma NamedIsLatest(h: string -> Digest, rows: seq<Row>, k: nat)
    requires DistinctHashes(rows) && k + 1 < |rows|
    requires NamesLatest(h, rows[..k + 1], rows[k + 1].prev) && rows[k + 1].prev == rows[k].hash
    ensures IsLatest(rows[..k + 1], k)
  {
    var before := rows[..k + 1];
    var m: nat :| IsLatest(before, m) && before[m].hash == rows[k + 1].prev;
    assert before[m] == rows[m];
    assert m == k;
  }

  /** While creation times increase, only the last row has the latest one. */
  lemma LatestIsLast(rows: seq<Row>, m: nat)
    requires Increasing(rows) && IsLatest(rows, m)
    ensures m == |rows| - 1
  {
    assert rows[|rows| - 1].createdAt <= rows[m].createdAt;
  }

  lemma NamesPredecessor(h: string -> Digest, before: seq<Row>, prev: Digest)
    requires Increasing(before) && NamesLatest(h, before, prev)
    ensures prev == Tip(h, before)
  {
    if before != [] {
      var m: nat :| IsLatest(before, m) && before[m].hash == prev;
      LatestIsLast(before, m);
    }
  }

  lemma ChainedThenInOrder(h: string -> Digest, rows: seq<Row>)
    requires AllNameLatest(h, rows) && DistinctHashes(rows) && Chained(h, rows) && rows != []
    ensures NeverFalling(rows[..|rows| - 1])
  {
    var n := |rows| - 1;
    forall j, k | 0 <= j < k < n ensures rows[j].createdAt <= rows[k].createdAt {
      assert Linked(h, rows, k + 1);
      NamedIsLatest(h, rows, k);
      assert rows[..k + 1][j] == rows[j] && rows[..k + 1][k] == rows[k];
    }
  }

  lemma LinkedInOrder(h: string -> Digest, rows: seq<Row>, k: nat)
    requires AllNameLatest(h, rows) && k < |rows| && Increasing(rows[..k])
    ensures Linked(h, rows, k)
  {
    assert NamesLatest(h, rows[..k], rows[k].prev);
    NamesPredecessor(h, rows[..k], rows[k].prev);
  }

  lemma InOrderThenChained(h: string -> Digest, rows: seq<Row>)
    requires AllNameLatest(h, rows) && rows != [] && Increasing(rows[..|rows| - 1])
    ensures Chained(h, rows)
  {
    var before := rows[..|rows| - 1];
    forall k | 0 <= k < |rows| ensures Linked(h, rows, k) {
      assert rows[..k] == before[..k];
      LinkedInOrder(h, rows, k);
    }
  }

  function AllButLast(rows: seq<Row>): seq<Row> {
    if rows == [] then [] else rows[..|rows| - 1]
  }

  lemma NamingInTimeOrder(h: string -> Digest, rows: seq<Row>)
    requires FixedWidth(h) && AllNameLatest(h, rows) && CollisionFree(h, TextsOf(rows))
    ensures Increasing(AllButLast(rows)) ==> Chained(h, rows)
    ensures Chained(h, rows) ==> NeverFalling(AllButLast(rows))
  {
    if rows != [] {
      if Chained(h, rows) {
        ChainHashesDiffer(h, rows);
        ChainedThenInOrder(h, rows);
      }
      if Increasing(AllButLast(rows)) {
        InOrderThenChained(h, rows);
      }
    }
  }

  lemma DistinctNeverFalling(rows: seq<Row>)
    requires DistinctTimes(rows) && NeverFalling(AllButLast(rows))
    ensures Increasing(AllButLast(rows))
  {
    var before := AllButLast(rows);
    forall j, k | 0 <= j < k < |before| ensures before[j].createdAt < before[k].createdAt {
      assert before[j] == rows[j] && before[k] == rows[k];
    }
  }

  /** For every possible interleaving: if the creation times of all rows of the organisation but the last
      increase in the order of their commits, its rows form a chain; and if they form a chain, these times
      never fall.  So when creation times differ, a chain is the same as this order. */
  lemma ChainedIffInTimeOrder(h: string -> Digest, steps: seq<Step>, org: string)
    requires FixedWidth(h) && Run(h, steps).Some?
    requires CollisionFree(h, TextsOf(Of(Run(h, steps).value.table, org)))
    ensures var rows := Of(Run(h, steps).value.table, org);
      && (Increasing(AllButLast(rows)) ==> Chained(h, rows))
      && (Chained(h, rows) ==> NeverFalling(AllButLast(rows)))
      && (DistinctTimes(rows) ==> (Chained(h, rows) <==> Increasing(AllButLast(rows))))
  {
    var rows := Of(Run(h, steps).value.table, org);
    RowsNameLatest(h, steps, org);
    NamingInTimeOrder(h, rows);
    if DistinctTimes(rows) && Chained(h, rows) {
      DistinctNeverFalling(rows);
    }
  }

  /** The steps of a client from its lock to its commit. */
  function Turn(c: nat, pick: Option<nat>): seq<Step> {
    [Lock(c), Read(c, pick), Insert(c), Commit(c)]
  }

  lemma RunSnoc(h: string -> Digest, steps: seq<Step>, step: Step)
    ensures Run(h, steps + [step]) ==
      if Run(h, steps).None? then None else Apply(h, Run(h, steps).value, step)
  {
    assert (steps + [step])[..|steps|] == steps;
  }

  /** While the lock is free, a waiting client can append its row without interruption. */
  lemma TurnAppends(h: string -> Digest, steps: seq<Step>, c: nat, pick: Option<nat>)
    requires Run(h, steps).Some?
    requires var s := Run(h, steps).value;
      s.holder == None && c in s.clients && s.clients[c].Begun? && IsLast(s.table, s.clients[c].event.org, pick)
    ensures var s := Run(h, steps).value;
      var e, at := s.clients[c].event, s.clients[c].at;
      var prev := if pick.None? then Genesis(h) else s.table[pick.value].hash;
      Run(h, steps + Turn(c, pick)) ==
      Some(s.(table := s.table + [Row(e.org, e.data, prev, h(prev + e.data), at)], clients := s.clients - {c}))
  {
    var s := Run(h, steps).value;
    var s1, s2, s3 := steps + [Lock(c)], steps + [Lock(c)] + [Read(c, pick)], steps + [Lock(c)] + [Read(c, pick)] + [Insert(c)];
    RunSnoc(h, steps, Lock(c));
    RunSnoc(h, s1, Read(c, pick));
    RunSnoc(h, s2, Insert(c));
    RunSnoc(h, s3, Commit(c));
    assert s3 + [Commit(c)] == steps + Turn(c, pick);
    assert Run(h, s3).value.clients - {c} == s.clients - {c};
  }

  lemma {:induction false} OrderOfPrefix(h: string -> Digest, steps: seq<Step>, more: seq<Step>, org: string)
    ensures TimestampsFollowLockOrder(h, steps + more, org) ==> TimestampsFollowLockOrder(h, steps, org)
    decreases |more|
  {
    if more == [] {
      assert steps + more == steps;
    } else {
      assert (steps + more)[..|steps + more| - 1] == steps + more[..|more| - 1];
      OrderOfPrefix(h, steps, more[..|more| - 1], org);
    }
  }

  /** Client 0 begins first but gets the lock after client 1. */
  function Overtaking(e: Event): seq<Step> {
    [Begin(0, e)] + [Tick(1)] + [Begin(1, e)] + Turn(1, None)
  }

  lemma OvertakingRuns(h: string -> Digest, e: Event)
    ensures var hash := h(Genesis(h) + e.data);
      Run(h, Overtaking(e)) == Some(State([Row(e.org, e.data, Genesis(h), hash, 1)], map[0 := Begun(e, 0)], None, 1))
  {
    var s1, s2, s3 := [Begin(0, e)], [Begin(0, e)] + [Tick(1)], [Begin(0, e)] + [Tick(1)] + [Begin(1, e)];
    assert [] + [Begin(0, e)] == s1;
    RunSnoc(h, [], Begin(0, e));
    RunSnoc(h, s1, Tick(1));
    RunSnoc(h, s2, Begin(1, e));
    var both := map[0 := Begun(e, 0), 1 := Begun(e, 1)];
    assert Run(h, s3) == Some(State([], both, None, 1));
    TurnAppends(h, s3, 1, None);
    assert both - {1} == map[0 := Begun(e, 0)];
    assert [] + [Row(e.org, e.data, Genesis(h), h(Genesis(h) + e.data), 1)] == [Row(e.org, e.data, Genesis(h), h(Genesis(h) + e.data), 1)];
  }

  /** The log forks when a transaction that began earlier gets the lock later: the next transaction reads
      the row with the latest creation time, which is not the last one, and two rows name it. */
  lemma OvertakingForks(h: string -> Digest, e: Event)
    ensures var steps := Overtaking(e) + Turn(0, Some(0)) + [Begin(2, e)] + Turn(2, Some(0));
      && Run(h, steps).Some? && !TimestampsFollowLockOrder(h, steps, e.org)
      && var table := Run(h, steps).value.table;
         |table| == 3 && table[1].prev == table[2].prev == table[0].hash && table[1].org == table[2].org == e.org
  {
    OvertakingRuns(h, e);
    var late := Overtaking(e);
    TurnAppends(h, late, 0, Some(0));
    var then2 := late + Turn(0, Some(0));
    RunSnoc(h, then2, Begin(2, e));
    TurnAppends(h, then2 + [Begin(2, e)], 2, Some(0));
    var steps := then2 + [Begin(2, e)] + Turn(2, Some(0));
    var more := steps[|late| + 1..];
    assert (late + [Lock(0)])[..|late|] == late;
    assert !InOrder(Run(h, late).value, Lock(0), e.org);
    assert steps == late + [Lock(0)] + more;
    OrderOfPrefix(h, late + [Lock(0)], more, e.org);
  }
}
