/** The names of the JSON fields that are signed or hashed. */
module FieldNames {
  import opened Texts

  const RUN_ID: Text := Ascii("runId")

  // Signed batches
  const PHASE: Text := Ascii("phase")
  const BATCH_HASH: Text := Ascii("batchHash")
  const PROVENANCE: Text := Ascii("provenance")

  // Audit events
  const ID: Text := Ascii("id")
  const TIMESTAMP: Text := Ascii("timestamp")
  const ACTOR: Text := Ascii("actor")
  const ROLE: Text := Ascii("role")
  const ACTION: Text := Ascii("action")
  const STEP_ID: Text := Ascii("stepId")
  const DETAILS: Text := Ascii("details")
  const PREV_HASH: Text := Ascii("prevHash")
}
