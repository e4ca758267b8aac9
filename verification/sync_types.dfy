/** Values that travel between the sync client and the sync server. */
module SyncTypes {

  datatype Option<+T> = None | Some(value: T)

  datatype Result<+T, +E> = Ok(value: T) | Err(error: E)

  // UUIDs: only equality and freshness matter.
  type OwnerId = nat
  type ClientId = nat
  type NoteId = nat
  type MutationId = nat
  type LeaseOwner = nat

  datatype Note = Note(title: string, body: string)

  datatype Action = Put | Delete

  /** One version of a record as it stands in the change log and on the wire. */
  datatype Snapshot = Snapshot(id: NoteId, version: nat, deleted: bool, value: Option<Note>)

  datatype Mutation = Mutation(
    mutationId: MutationId,
    kind: string,
    id: NoteId,
    action: Action,
    baseVersion: Option<string>,
    schemaVersion: nat,
    value: Option<Note>)

  datatype Status = Applied | Conflict | Gone | Invalid | Forbidden | IdempotencyKeyReused

  /** `current` exists in the client's wire type only; this server never fills it. */
  datatype MutationResult = MutationResult(
    mutationId: MutationId,
    status: Status,
    record: Option<Snapshot>,
    current: Option<Snapshot>)

  const DRAFT_NOTE_KIND := "draft_note"
  const SCHEMA_VERSION := 1
  const MAX_TITLE := 200
  const MAX_BODY := 100_000
  const I64_MAX := 0x7FFF_FFFF_FFFF_FFFF

  predicate WithinLimits(note: Note) {
    |note.title| <= MAX_TITLE && |note.body| <= MAX_BODY
  }
}
