/** Signing, approving and verifying action batches. */
module BatchSigning {
  import opened FieldNames
  import opened Options
  import opened Texts
  import opened Canonical
  import opened CanonicalParser

  /** SHA-256 and HMAC-SHA256 (section 2 of RFC 2104), of which only the absence of collisions between
      given texts is ever assumed. */
  datatype Crypto = Crypto(sha: Text -> Text, mac: (Text, Text) -> Text)

  /** The hash tells the two texts apart. */
  predicate Separates(h: Text -> Text, a: Text, b: Text) {
    h(a) == h(b) ==> a == b
  }

  /** `runId` and `phase` are the batch's fields at signing time; a missing field is `None`. */
  datatype Envelope = Envelope(
    runId: Option<Json>, phase: Option<Json>, batchHash: Text, signature: Text, signedAt: Text,
    approvedBy: Option<Text>, approvedAt: Option<Text>, provenance: Json, batch: Json)

  datatype Verdict = Accepted | HashMismatch | SignatureMismatch

  function Lookup(ms: seq<Named<Json>>, name: Text): Option<Json> {
    if ms == [] then None else if ms[0].name == name then Some(ms[0].value) else Lookup(ms[1..], name)
  }

  function Field(v: Json, name: Text): Option<Json> {
    if v.Obj? then Lookup(v.members, name) else None
  }

  function OptionalMember(name: Text, v: Option<Json>): seq<Named<Json>> {
    match v case Some(j) => [Named(name, j)] case None => []
  }

  function HashBatch(c: Crypto, batch: Json): Text {
    c.sha(StableStringify(batch))
  }

  /** The object that is signed; its keys are printed in this order. */
  function Payload(batch: Json, batchHash: Text, provenance: Json): Json {
    Obj(OptionalMember(RUN_ID, Field(batch, RUN_ID)) + OptionalMember(PHASE, Field(batch, PHASE)) +
        [Named(BATCH_HASH, Str(batchHash)), Named(PROVENANCE, provenance)])
  }

  function Signature(c: Crypto, secret: Text, batch: Json, batchHash: Text, provenance: Json): Text {
    c.mac(secret, Print(Payload(batch, batchHash, provenance)))
  }

  function SignBatch(c: Crypto, batch: Json, provenance: Json, secret: Text, now: Text): Envelope {
    var h := HashBatch(c, batch);
    Envelope(Field(batch, RUN_ID), Field(batch, PHASE), h, Signature(c, secret, batch, h, provenance), now,
             None, None, provenance, batch)
  }

  function ApproveSignedBatch(e: Envelope, approvedBy: Text, now: Text): Envelope {
    e.(approvedBy := Some(approvedBy), approvedAt := Some(now))
  }

  function VerifySignedBatch(c: Crypto, secret: Text, e: Envelope): Verdict {
    if HashBatch(c, e.batch) != e.batchHash then HashMismatch
    else if Signature(c, secret, e.batch, e.batchHash, e.provenance) != e.signature then SignatureMismatch
    else Accepted
  }

  // ---- What signing promises ----

  /** Any number of approvals of a signed batch. */
  function ApproveAll(e: Envelope, approvers: seq<(Text, Text)>): Envelope
    decreases |approvers|
  {
    if approvers == [] then e
    else ApproveAll(ApproveSignedBatch(e, approvers[0].0, approvers[0].1), approvers[1..])
  }

  lemma {:induction false} ApprovalKeepsVerdict(c: Crypto, secret: Text, e: Envelope, approvers: seq<(Text, Text)>)
    ensures VerifySignedBatch(c, secret, ApproveAll(e, approvers)) == VerifySignedBatch(c, secret, e)
    ensures approvers != [] ==> ApproveAll(e, approvers).approvedBy == Some(approvers[|approvers| - 1].0)
    decreases |approvers|
  {
    if approvers != [] {
      ApprovalKeepsVerdict(c, secret, ApproveSignedBatch(e, approvers[0].0, approvers[0].1), approvers[1..]);
    }
  }

  /** What was signed is accepted, also after any number of approvals. */
  lemma SignedIsAccepted(c: Crypto, batch: Json, provenance: Json, secret: Text, now: Text, approvers: seq<(Text, Text)>)
    ensures VerifySignedBatch(c, secret, ApproveAll(SignBatch(c, batch, provenance, secret, now), approvers)) == Accepted
  {
    ApprovalKeepsVerdict(c, secret, SignBatch(c, batch, provenance, secret, now), approvers);
  }

  // ---- Payloads ----

  lemma PayloadValid(batch: Json, batchHash: Text, provenance: Json)
    requires Valid(batch) && Valid(provenance)
    ensures Valid(Payload(batch, batchHash, provenance))
  {
    if batch.Obj? {
      LookupIsMember(batch.members, RUN_ID);
      LookupIsMember(batch.members, PHASE);
    }
    NamesDiffer();
    var ms := Payload(batch, batchHash, provenance).members;
    assert forall i | 0 <= i < |ms| :: Valid(ms[i].value);
    assert DistinctNames(ms);
  }

  lemma NamesDiffer()
    ensures RUN_ID != PHASE && RUN_ID != BATCH_HASH && RUN_ID != PROVENANCE
    ensures PHASE != BATCH_HASH && PHASE != PROVENANCE && BATCH_HASH != PROVENANCE
  {
    assert RUN_ID[0] != PHASE[0] && |RUN_ID| != |BATCH_HASH| && |RUN_ID| != |PROVENANCE|;
    assert |PHASE| != |BATCH_HASH| && |PHASE| != |PROVENANCE| && |BATCH_HASH| != |PROVENANCE|;
  }

  lemma {:induction false} LookupIsMember(ms: seq<Named<Json>>, name: Text)
    ensures match Lookup(ms, name)
      case Some(v) => exists i :: 0 <= i < |ms| && ms[i] == Named(name, v)
      case None => name !in Names(ms)
    decreases |ms|
  {
    if ms != [] {
      if ms[0].name == name {
        assert ms[0] == Named(name, ms[0].value);
      } else {
        LookupIsMember(ms[1..], name);
        match Lookup(ms[1..], name)
        case Some(v) =>
          var i :| 0 <= i < |ms[1..]| && ms[1..][i] == Named(name, v);
          assert ms[i + 1] == Named(name, v);
        case None =>
          forall i | 0 < i < |ms| ensures ms[i].name in Names(ms[1..]) {
            assert ms[1..][i - 1] == ms[i];
          }
      }
    }
  }

  /** Equal payload texts carry the same batch hash and the same provenance. */
  lemma PayloadInjective(b1: Json, h1: Text, p1: Json, b2: Json, h2: Text, p2: Json)
    requires Valid(b1) && Valid(p1) && Valid(b2) && Valid(p2)
    requires Print(Payload(b1, h1, p1)) == Print(Payload(b2, h2, p2))
    ensures h1 == h2 && p1 == p2
  {
    PayloadValid(b1, h1, p1);
    PayloadValid(b2, h2, p2);
    PrintInjective(Payload(b1, h1, p1), Payload(b2, h2, p2));
    var m1, m2 := Payload(b1, h1, p1).members, Payload(b2, h2, p2).members;
    assert m1[|m1| - 1] == m2[|m2| - 1] && m1[|m1| - 2] == m2[|m2| - 2];
  }

  /** A batch whose run and phase are strings, as the type of batches says. */
  predicate HasStringIds(batch: Json) {
    match (Field(batch, RUN_ID), Field(batch, PHASE))
    case (Some(Str(_)), Some(Str(_))) => true
    case _ => false
  }

  lemma EquivalentField(x: Json, y: Json, name: Text)
    requires Valid(x) && Valid(y) && Equivalent(x, y)
    requires Field(x, name).Some? && Field(x, name).value.Str?
    ensures Field(y, name) == Field(x, name)
  {
    if x.Obj? && y.Obj? {
      LookupIsMember(x.members, name);
      LookupIsMember(y.members, name);
      var v := Field(x, name).value;
      var i :| 0 <= i < |x.members| && x.members[i] == Named(name, v);
      assert name in Names(x.members);
      var w := Lookup(y.members, name).value;
      var j :| 0 <= j < |y.members| && y.members[j] == Named(name, w);
      assert Equivalent(x.members[i].value, y.members[j].value);
    }
  }

  lemma EquivalentPayload(x: Json, y: Json, h: Text, p: Json)
    requires Valid(x) && Valid(y) && Equivalent(x, y) && HasStringIds(x)
    ensures Payload(x, h, p) == Payload(y, h, p)
  {
    EquivalentField(x, y, RUN_ID);
    EquivalentField(x, y, PHASE);
  }

  // ---- Main results ----

  /** Two accepted envelopes with the same signature carry the same provenance, and the same batch up
      to the order of keys. */
  lemma SameSignatureSameBatch(c: Crypto, secret: Text, e1: Envelope, e2: Envelope)
    requires Valid(e1.batch) && Valid(e1.provenance) && Valid(e2.batch) && Valid(e2.provenance)
    requires VerifySignedBatch(c, secret, e1) == Accepted && VerifySignedBatch(c, secret, e2) == Accepted
    requires e1.signature == e2.signature
    requires Separates(c.sha, StableStringify(e1.batch), StableStringify(e2.batch))
    requires Separates(t => c.mac(secret, t),
      Print(Payload(e1.batch, e1.batchHash, e1.provenance)), Print(Payload(e2.batch, e2.batchHash, e2.provenance)))
    ensures Equivalent(e1.batch, e2.batch) && e1.provenance == e2.provenance && e1.batchHash == e2.batchHash
  {
    PayloadInjective(e1.batch, e1.batchHash, e1.provenance, e2.batch, e2.batchHash, e2.provenance);
    StableStringifyIffEquivalent(e1.batch, e2.batch);
  }

  /** Exchanging the batch of an accepted envelope goes unnoticed exactly when the new batch is equal
      to the old one up to the order of keys. */
  lemma ExchangedBatch(c: Crypto, secret: Text, e: Envelope, batch: Json)
    requires Valid(e.batch) && Valid(batch) && HasStringIds(e.batch)
    requires VerifySignedBatch(c, secret, e) == Accepted
    requires Separates(c.sha, StableStringify(e.batch), StableStringify(batch))
    ensures VerifySignedBatch(c, secret, e.(batch := batch)) ==
      if Equivalent(e.batch, batch) then Accepted else HashMismatch
  {
    StableStringifyIffEquivalent(e.batch, batch);
    if Equivalent(e.batch, batch) {
      EquivalentPayload(e.batch, batch, e.batchHash, e.provenance);
    }
  }

  /** Exchanging the provenance of an accepted envelope is always noticed. */
  lemma ExchangedProvenance(c: Crypto, secret: Text, e: Envelope, provenance: Json)
    requires Valid(e.batch) && Valid(e.provenance) && Valid(provenance) && provenance != e.provenance
    requires VerifySignedBatch(c, secret, e) == Accepted
    requires Separates(t => c.mac(secret, t),
      Print(Payload(e.batch, e.batchHash, e.provenance)), Print(Payload(e.batch, e.batchHash, provenance)))
    ensures VerifySignedBatch(c, secret, e.(provenance := provenance)) == SignatureMismatch
  {
    if Print(Payload(e.batch, e.batchHash, e.provenance)) == Print(Payload(e.batch, e.batchHash, provenance)) {
      PayloadInjective(e.batch, e.batchHash, e.provenance, e.batch, e.batchHash, provenance);
    }
  }
}
