/** The audit log of each run: a list of events in which every event carries the hash of the one before. */
module RunAuditLog {
  import opened FieldNames
  import opened Options
  import opened Texts
  import opened Canonical
  import opened CanonicalParser

  /** What a caller supplies, with the identifier and the time that the logger adds. */
  datatype Body = Body(
    id: Text, timestamp: Text, runId: Text, actor: Text, role: Text, action: Text,
    stepId: Option<Text>, details: Option<Json>)

  datatype AuditEvent = AuditEvent(body: Body, prevHash: Text, hash: Text)

  /** What the first event names instead of a hash. */
  const GENESIS: Text := Ascii("GENESIS_BLOCK")

  function Fixed(b: Body): seq<Named<Json>> {
    [Named(ID, Str(b.id)), Named(TIMESTAMP, Str(b.timestamp)), Named(RUN_ID, Str(b.runId)),
     Named(ACTOR, Str(b.actor)), Named(ROLE, Str(b.role)), Named(ACTION, Str(b.action))]
  }

  function StepPart(b: Body): seq<Named<Json>> {
    if b.stepId.Some? then [Named(STEP_ID, Str(b.stepId.value))] else []
  }

  function DetailsPart(b: Body): seq<Named<Json>> {
    if b.details.Some? then [Named(DETAILS, b.details.value)] else []
  }

  /** The object whose JSON text is hashed; absent members are left out of the text. */
  function BodyJson(b: Body, prevHash: Text): Json {
    Obj(Fixed(b) + StepPart(b) + DetailsPart(b) + [Named(PREV_HASH, Str(prevHash))])
  }

  function HashText(b: Body, prevHash: Text): Text { Print(BodyJson(b, prevHash)) }

  /** The hash that the next event has to carry. */
  function Tip(events: seq<AuditEvent>): Text {
    if events == [] then GENESIS else events[|events| - 1].hash
  }

  /** The hash of an event body together with the previous hash. */
  type Digest = (Body, Text) -> Text

  function DigestWith(sha: Text -> Text): Digest {
    (b: Body, prevHash: Text) => sha(HashText(b, prevHash))
  }

  function NextEvent(digest: Digest, events: seq<AuditEvent>, b: Body): AuditEvent {
    AuditEvent(b, Tip(events), digest(b, Tip(events)))
  }

  ghost predicate Wellformed(b: Body) {
    b.details.Some? ==> Valid(b.details.value)
  }

  /** Every event names the hash of the event before it and carries its own hash. */
  ghost predicate Chained(digest: Digest, events: seq<AuditEvent>)
    decreases |events|
  {
    events == [] ||
    var n := |events| - 1;
    Chained(digest, events[..n]) && Wellformed(events[n].body) && events[n] == NextEvent(digest, events[..n], events[n].body)
  }

  // ---- The last hash determines the log ----

  lemma NamesByLength()
    ensures |ID| == 2 && |TIMESTAMP| == 9 && |RUN_ID| == 5 && |ACTOR| == 5 && |ROLE| == 4
    ensures |ACTION| == 6 && |STEP_ID| == 6 && |DETAILS| == 7 && |PREV_HASH| == 8
    ensures RUN_ID[0] != ACTOR[0] && ACTION[0] != STEP_ID[0]
  {
  }

  lemma BodyValid(b: Body, prevHash: Text)
    requires Wellformed(b)
    ensures Valid(BodyJson(b, prevHash))
  {
    NamesByLength();
    var ms := BodyJson(b, prevHash).members;
    assert forall i | 0 <= i < |ms| :: Valid(ms[i].value);
    var head, step, details := Fixed(b), StepPart(b), DetailsPart(b);
    assert DistinctNames(head);
    DistinctAppend(head, step);
    DistinctAppend(head + step, details);
    DistinctAppend(head + step + details, [Named(PREV_HASH, Str(prevHash))]);
  }

  lemma DistinctAppend(ms: seq<Named<Json>>, ns: seq<Named<Json>>)
    requires DistinctNames(ms) && |ns| <= 1
    requires forall i, j | 0 <= i < |ms| && 0 <= j < |ns| :: ms[i].name != ns[j].name
    ensures DistinctNames(ms + ns)
  {
  }

  /** The hashed object determines the event body and the previous hash. */
  lemma BodyDetermined(b: Body, p: Text, c: Body, q: Text)
    requires BodyJson(b, p) == BodyJson(c, q)
    ensures b == c && p == q
  {
    NamesByLength();
    var ms, ns := BodyJson(b, p).members, BodyJson(c, q).members;
    assert forall i | 0 <= i < 6 :: ms[i] == Fixed(b)[i] && ns[i] == Fixed(c)[i];
    assert Fixed(b) == ms[..6] && Fixed(c) == ns[..6];
    assert ms[|ms| - 1].value == Str(p) && ns[|ns| - 1].value == Str(q);
    assert b.stepId.Some? ==> ms[6] == StepPart(b)[0];
    assert c.stepId.Some? ==> ns[6] == StepPart(c)[0];
    assert b.details.Some? ==> ms[|ms| - 2] == DetailsPart(b)[0];
    assert c.details.Some? ==> ns[|ns| - 2] == DetailsPart(c)[0];
  }

  /** Every digest has 64 hexadecimal digits. */
  ghost predicate FixedWidth(digest: Digest) {
    forall b: Body, p: Text :: |digest(b, p)| == 64
  }

  /** The digest tells the hashed contents of two events apart. */
  ghost predicate TellsApart(digest: Digest, e: AuditEvent, f: AuditEvent) {
    digest(e.body, e.prevHash) == digest(f.body, f.prevHash) ==> e.body == f.body && e.prevHash == f.prevHash
  }

  ghost predicate TellsAllApart(digest: Digest, a: seq<AuditEvent>, b: seq<AuditEvent>) {
    forall i, j | 0 <= i < |a| && 0 <= j < |b| :: TellsApart(digest, a[i], b[j])
  }

  /** If SHA-256 has no collision between the two hashed texts, the digest tells the events apart. */
  lemma ShaTellsApart(sha: Text -> Text, e: AuditEvent, f: AuditEvent)
    requires Wellformed(e.body) && Wellformed(f.body)
    requires sha(HashText(e.body, e.prevHash)) == sha(HashText(f.body, f.prevHash)) ==>
             HashText(e.body, e.prevHash) == HashText(f.body, f.prevHash)
    ensures TellsApart(DigestWith(sha), e, f)
  {
    if HashText(e.body, e.prevHash) == HashText(f.body, f.prevHash) {
      BodyValid(e.body, e.prevHash);
      BodyValid(f.body, f.prevHash);
      PrintInjective(BodyJson(e.body, e.prevHash), BodyJson(f.body, f.prevHash));
      BodyDetermined(e.body, e.prevHash, f.body, f.prevHash);
    }
  }

  lemma GenesisIsNoHash(digest: Digest, events: seq<AuditEvent>)
    requires FixedWidth(digest) && Chained(digest, events)
    ensures Tip(events) == GENESIS <==> events == []
  {
    assert |GENESIS| == 13;
  }

  /** Two logs with the same final hash are the same log, event by event. */
  lemma {:induction false} FinalHashDetermines(digest: Digest, a: seq<AuditEvent>, b: seq<AuditEvent>)
    requires FixedWidth(digest) && Chained(digest, a) && Chained(digest, b) && TellsAllApart(digest, a, b)
    requires Tip(a) == Tip(b)
    ensures a == b
    decreases |a|
  {
    GenesisIsNoHash(digest, a);
    GenesisIsNoHash(digest, b);
    if a != [] {
      var m, n := |a| - 1, |b| - 1;
      assert TellsApart(digest, a[m], b[n]);
      FinalHashDetermines(digest, a[..m], b[..n]);
      assert a == a[..m] + [a[m]] && b == b[..n] + [b[n]];
    }
  }

  /** SHA-256 has no collision between the texts that are hashed for the two events. */
  ghost predicate NoCollision(sha: Text -> Text, e: AuditEvent, f: AuditEvent) {
    var s, t := HashText(e.body, e.prevHash), HashText(f.body, f.prevHash);
    sha(s) == sha(t) ==> s == t
  }

  lemma {:induction false} ChainedWellformed(digest: Digest, events: seq<AuditEvent>, i: nat)
    requires Chained(digest, events) && i < |events|
    ensures Wellformed(events[i].body)
    decreases |events|
  {
    if i < |events| - 1 {
      ChainedWellformed(digest, events[..|events| - 1], i);
    }
  }

  ghost predicate CollisionFree(sha: Text -> Text, a: seq<AuditEvent>, b: seq<AuditEvent>) {
    forall i, j {:trigger NoCollision(sha, a[i], b[j])} | 0 <= i < |a| && 0 <= j < |b| :: NoCollision(sha, a[i], b[j])
  }

  lemma PairToldApart(sha: Text -> Text, a: seq<AuditEvent>, b: seq<AuditEvent>, i: nat, j: nat)
    requires Chained(DigestWith(sha), a) && Chained(DigestWith(sha), b) && CollisionFree(sha, a, b)
    requires i < |a| && j < |b|
    ensures TellsApart(DigestWith(sha), a[i], b[j])
  {
    ChainedWellformed(DigestWith(sha), a, i);
    ChainedWellformed(DigestWith(sha), b, j);
    assert NoCollision(sha, a[i], b[j]);
    ShaTellsApart(sha, a[i], b[j]);
  }

  /** With SHA-256, of which no collision between the texts of the two logs and only the width of the result
      is assumed: the final hash determines the whole log. */
  lemma FinalShaDetermines(sha: Text -> Text, a: seq<AuditEvent>, b: seq<AuditEvent>)
    requires forall t: Text :: |sha(t)| == 64
    requires Chained(DigestWith(sha), a) && Chained(DigestWith(sha), b) && Tip(a) == Tip(b)
    requires CollisionFree(sha, a, b)
    ensures a == b
  {
    forall i, j | 0 <= i < |a| && 0 <= j < |b| ensures TellsApart(DigestWith(sha), a[i], b[j]) {
      PairToldApart(sha, a, b, i, j);
    }
    ShaWidth(sha);
    FinalHashDetermines(DigestWith(sha), a, b);
  }

  lemma ShaWidth(sha: Text -> Text)
    requires forall t: Text :: |sha(t)| == 64
    ensures FixedWidth(DigestWith(sha))
  {
    forall b: Body, p: Text ensures |DigestWith(sha)(b, p)| == 64 {
      assert DigestWith(sha)(b, p) == sha(HashText(b, p));
    }
  }

  // ---- The logger ----

  /** The events of one run in the shared stream. */
  function OfRun(stream: seq<AuditEvent>, runId: Text): seq<AuditEvent>
    decreases |stream|
  {
    if stream == [] then []
    else
      var last := stream[|stream| - 1];
      OfRun(stream[..|stream| - 1], runId) + if last.body.runId == runId then [last] else []
  }

  function LogOf(logs: map<Text, seq<AuditEvent>>, runId: Text): seq<AuditEvent> {
    if runId in logs then logs[runId] else []
  }

  lemma ChainedSnoc(digest: Digest, events: seq<AuditEvent>, b: Body)
    requires Chained(digest, events) && Wellformed(b)
    ensures Chained(digest, events + [NextEvent(digest, events, b)])
  {
    assert (events + [NextEvent(digest, events, b)])[..|events|] == events;
  }

  lemma OfRunSnoc(stream: seq<AuditEvent>, event: AuditEvent, runId: Text)
    ensures OfRun(stream + [event], runId) ==
      OfRun(stream, runId) + if event.body.runId == runId then [event] else []
  {
    assert (stream + [event])[..|stream|] == stream;
  }

  /** The saved log of every run, and the stream to which the events of all runs are appended. */
  class Logger {
    const sha: Text -> Text
    var logs: map<Text, seq<AuditEvent>>
    var stream: seq<AuditEvent>

    /** Every log is a chain and is what the stream holds for its run. */
    ghost predicate Recorded()
      reads this
    {
      forall r: Text :: Chained(DigestWith(sha), LogOf(logs, r)) && LogOf(logs, r) == OfRun(stream, r)
    }

    constructor (sha: Text -> Text)
      ensures Recorded() && logs == map[] && stream == [] && this.sha == sha
    {
      this.sha := sha;
      logs, stream := map[], [];
    }

    method AppendAuditEvent(body: Body) returns (event: AuditEvent)
      requires Recorded() && Wellformed(body)
      modifies this
      ensures Recorded()
      ensures event == NextEvent(DigestWith(sha), LogOf(old(logs), body.runId), body)
      ensures logs == old(logs)[body.runId := LogOf(old(logs), body.runId) + [event]]
      ensures stream == old(stream) + [event]
    {
      var log := LogOf(logs, body.runId);
      var prevHash := if log == [] then GENESIS else log[|log| - 1].hash;
      var digest := DigestWith(sha);
      event := AuditEvent(body, prevHash, digest(body, prevHash));
      logs := logs[body.runId := log + [event]];
      stream := stream + [event];
      ChainedSnoc(digest, log, body);
      forall r: Text ensures Chained(digest, LogOf(logs, r)) && LogOf(logs, r) == OfRun(stream, r) {
        OfRunSnoc(old(stream), event, r);
        assert r != body.runId ==> LogOf(logs, r) == LogOf(old(logs), r);
      }
    }
  }
}
