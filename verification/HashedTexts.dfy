/** The very texts that are signed and hashed. */
module HashedTexts {
  import opened Options
  import opened Texts
  import opened Canonical
  import opened CanonicalLayout
  import Signing = BatchSigning
  import Log = RunAuditLog

  /** The text of an object with these members, in this order. */
  function ObjectText(ms: seq<Named<Json>>): Text { Ascii("{") + MemberTexts(ms) + Ascii("}") }

  /** A signature covers the text of run, phase, batch hash and provenance, in this order, where the batch hash is
      that of the canonical text of the batch. */
  lemma SignedText(c: Signing.Crypto, batch: Json, provenance: Json, secret: Text, now: Text, runId: Json, phase: Json)
    requires Signing.Field(batch, Ascii("runId")) == Some(runId) && Signing.Field(batch, Ascii("phase")) == Some(phase)
    ensures Signing.SignBatch(c, batch, provenance, secret, now).signature == c.mac(secret, ObjectText(
      [Named(Ascii("runId"), runId), Named(Ascii("phase"), phase),
       Named(Ascii("batchHash"), Str(c.sha(StableStringify(batch)))), Named(Ascii("provenance"), provenance)]))
  {
    var hash := c.sha(StableStringify(batch));
    SignedMembers(batch, provenance, hash, runId, phase);
    PrintedObject([Named(Ascii("runId"), runId), Named(Ascii("phase"), phase),
                   Named(Ascii("batchHash"), Str(hash)), Named(Ascii("provenance"), provenance)]);
  }

  lemma SignedMembers(batch: Json, provenance: Json, hash: Text, runId: Json, phase: Json)
    requires Signing.Field(batch, Ascii("runId")) == Some(runId) && Signing.Field(batch, Ascii("phase")) == Some(phase)
    ensures Signing.Payload(batch, hash, provenance) == Obj(
      [Named(Ascii("runId"), runId), Named(Ascii("phase"), phase),
       Named(Ascii("batchHash"), Str(hash)), Named(Ascii("provenance"), provenance)])
  {
    var front, back := [Named(Ascii("runId"), runId)] + [Named(Ascii("phase"), phase)],
      [Named(Ascii("batchHash"), Str(hash)), Named(Ascii("provenance"), provenance)];
    assert Signing.Payload(batch, hash, provenance) == Obj(front + back);
  }

  /** What is hashed for an event: its members in this order, a missing step or missing details left out, and the
      previous hash. */
  function EventMembers(b: Log.Body, prevHash: Text): seq<Named<Json>> {
    [Named(Ascii("id"), Str(b.id)), Named(Ascii("timestamp"), Str(b.timestamp)), Named(Ascii("runId"), Str(b.runId)),
     Named(Ascii("actor"), Str(b.actor)), Named(Ascii("role"), Str(b.role)), Named(Ascii("action"), Str(b.action))] +
    (match b.stepId case Some(id) => [Named(Ascii("stepId"), Str(id))] case None => []) +
    (match b.details case Some(d) => [Named(Ascii("details"), d)] case None => []) +
    [Named(Ascii("prevHash"), Str(prevHash))]
  }

  lemma EventPrinted(b: Log.Body, prevHash: Text)
    ensures Log.HashText(b, prevHash) == ObjectText(EventMembers(b, prevHash))
  {
    assert Log.BodyJson(b, prevHash) == Obj(EventMembers(b, prevHash));
    PrintedObject(EventMembers(b, prevHash));
  }

  /** In the log of a run the first event names GENESIS_BLOCK, every other one the hash of the event before it, and
      the hash of an event is that of its text. */
  lemma {:induction false} LogIsHashChain(sha: Text -> Text, events: seq<Log.AuditEvent>, i: nat)
    requires Log.Chained(Log.DigestWith(sha), events) && i < |events|
    ensures events[i].prevHash == if i == 0 then Ascii("GENESIS_BLOCK") else events[i - 1].hash
    ensures events[i].hash == sha(ObjectText(EventMembers(events[i].body, events[i].prevHash)))
    decreases |events|
  {
    if i < |events| - 1 {
      LogIsHashChain(sha, events[..|events| - 1], i);
    } else {
      EventPrinted(events[i].body, events[i].prevHash);
    }
  }
}
