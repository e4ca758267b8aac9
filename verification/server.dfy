/**
 * The authoritative side of sync for one owner: four tables and the transaction that
 * runs one mutation against them, written as a function from state to state.
 */
module Server {
  import opened SyncTypes
  import Decimal

  datatype Stored = Stored(version: nat, payload: Note, deleted: bool)

  /** The request hash is injective, so a receipt keeps the request itself. */
  datatype Receipt = Receipt(content: Mutation, result: MutationResult)

  datatype State = State(
    clock: nat,
    records: map<NoteId, Stored>,
    changes: map<nat, Snapshot>,
    receipts: map<(ClientId, MutationId), Receipt>)

  const EMPTY := State(0, map[], map[], map[])

  datatype Verdict =
    | Refuse(status: Status, record: Option<Snapshot>)
    | Write(stored: Stored)

  datatype Outcome = Outcome(state: State, result: MutationResult, cursor: Option<nat>)

  function SnapshotOf(id: NoteId, stored: Stored): Snapshot {
    Snapshot(id, stored.version, stored.deleted, if stored.deleted then None else Some(stored.payload))
  }

  function Find(records: map<NoteId, Stored>, id: NoteId): Option<Stored> {
    if id in records then Some(records[id]) else None
  }

  predicate ValidMutation(m: Mutation) {
    && m.kind == DRAFT_NOTE_KIND
    && m.schemaVersion == SCHEMA_VERSION
    && Decimal.ValidBaseVersion(m.baseVersion)
    && (match m.action
        case Put => m.value.Some? && WithinLimits(m.value.value)
        case Delete => m.value.None?)
  }

  /** Compare-and-swap: what the stored record and the base version allow. */
  function Decide(current: Option<Stored>, m: Mutation): Verdict
    requires ValidMutation(m)
  {
    var base := Decimal.ParseBaseVersion(m.baseVersion);
    match current
    case None =>
      if m.action.Delete? then Refuse(Gone, None)
      else if base.Some? then Refuse(Conflict, None)
      else Write(Stored(1, m.value.value, false))
    case Some(stored) =>
      if stored.deleted then Refuse(Gone, Some(SnapshotOf(m.id, stored)))
      else if Some(stored.version) != base then Refuse(Conflict, Some(SnapshotOf(m.id, stored)))
      else match m.action
        case Put => Write(Stored(stored.version + 1, m.value.value, false))
        case Delete => Write(Stored(stored.version + 1, stored.payload, true))
  }

  function Answer(m: Mutation, status: Status, record: Option<Snapshot>): MutationResult {
    MutationResult(m.mutationId, status, record, None)
  }

  function StoreReceipt(s: State, client: ClientId, m: Mutation, result: MutationResult): State {
    s.(receipts := s.receipts[(client, m.mutationId) := Receipt(m, result)])
  }

  /** Saves the record and appends its snapshot to the log one past the clock. */
  function WriteChange(s: State, id: NoteId, stored: Stored): State {
    s.(clock := s.clock + 1,
       records := s.records[id := stored],
       changes := s.changes[s.clock + 1 := SnapshotOf(id, stored)])
  }

  function Apply(s: State, client: ClientId, m: Mutation): Outcome {
    if (client, m.mutationId) in s.receipts then
      var receipt := s.receipts[(client, m.mutationId)];
      Outcome(s, if receipt.content == m then receipt.result else Answer(m, IdempotencyKeyReused, None), None)
    else if !ValidMutation(m) then
      var result := Answer(m, Invalid, None);
      Outcome(StoreReceipt(s, client, m, result), result, None)
    else
      match Decide(Find(s.records, m.id), m)
      case Refuse(status, record) =>
        var result := Answer(m, status, record);
        Outcome(StoreReceipt(s, client, m, result), result, None)
      case Write(stored) =>
        var result := Answer(m, Applied, Some(SnapshotOf(m.id, stored)));
        Outcome(StoreReceipt(WriteChange(s, m.id, stored), client, m, result), result, Some(s.clock + 1))
  }

  datatype Delivery = Delivery(client: ClientId, mutation: Mutation)

  function Run(s: State, deliveries: seq<Delivery>): State
    decreases deliveries
  {
    if deliveries == [] then s
    else Run(Apply(s, deliveries[0].client, deliveries[0].mutation).state, deliveries[1..])
  }

  /** What every later state keeps of an earlier one. */
  ghost predicate Grows(s: State, t: State) {
    && s.clock <= t.clock
    && (forall key | key in s.receipts :: key in t.receipts && t.receipts[key] == s.receipts[key])
    && (forall c | c in s.changes :: c in t.changes && t.changes[c] == s.changes[c])
  }

  /** The state the log describes after its first `upTo` entries. */
  ghost function Replay(changes: map<nat, Snapshot>, upTo: nat): map<NoteId, Snapshot>
    requires forall c | 1 <= c <= upTo :: c in changes
  {
    if upTo == 0 then map[]
    else Replay(changes, upTo - 1)[changes[upTo].id := changes[upTo]]
  }

  /** An entry opens a record at version 1 with a put, or follows the record's last entry, which is no delete. */
  ghost predicate Follows(before: map<NoteId, Snapshot>, entry: Snapshot) {
    && (entry.value.Some? <==> !entry.deleted)
    && (if entry.id in before
        then entry.version == before[entry.id].version + 1 && !before[entry.id].deleted
        else entry.version == 1 && !entry.deleted)
  }

  ghost predicate EntryValid(changes: map<nat, Snapshot>, c: nat)
    requires c >= 1 && forall d | 1 <= d <= c :: d in changes
  {
    Follows(Replay(changes, c - 1), changes[c])
  }

  ghost predicate LogValid(s: State) {
    && (forall c :: c in s.changes <==> 1 <= c <= s.clock)
    && (forall c | 1 <= c <= s.clock :: EntryValid(s.changes, c))
    && Replay(s.changes, s.clock) == map id | id in s.records :: SnapshotOf(id, s.records[id])
  }

  lemma {:induction false} ReplayFrame(changes: map<nat, Snapshot>, other: map<nat, Snapshot>, upTo: nat)
    requires forall c | 1 <= c <= upTo :: c in changes && c in other && other[c] == changes[c]
    ensures Replay(other, upTo) == Replay(changes, upTo)
  {
    if upTo > 0 {
      ReplayFrame(changes, other, upTo - 1);
    }
  }

  lemma WriteKeepsLog(s: State, id: NoteId, stored: Stored)
    requires LogValid(s)
    requires id in s.records ==> stored.version == s.records[id].version + 1 && !s.records[id].deleted
    requires id !in s.records ==> stored.version == 1 && !stored.deleted
    ensures LogValid(WriteChange(s, id, stored))
  {
    var t := WriteChange(s, id, stored);
    forall c | 0 <= c <= s.clock
      ensures Replay(t.changes, c) == Replay(s.changes, c)
    {
      ReplayFrame(s.changes, t.changes, c);
    }
    forall c | 1 <= c <= t.clock
      ensures EntryValid(t.changes, c)
    {
      if c <= s.clock {
        assert EntryValid(s.changes, c);
      }
    }
  }

  lemma ApplyKeepsLog(s: State, client: ClientId, m: Mutation)
    requires LogValid(s)
    ensures var t := Apply(s, client, m).state; LogValid(t) && Grows(s, t)
  {
    if (client, m.mutationId) !in s.receipts && ValidMutation(m) {
      var verdict := Decide(Find(s.records, m.id), m);
      if verdict.Write? {
        WriteKeepsLog(s, m.id, verdict.stored);
      }
    }
  }

  lemma {:induction false} RunKeepsLog(s: State, deliveries: seq<Delivery>)
    requires LogValid(s)
    ensures LogValid(Run(s, deliveries)) && Grows(s, Run(s, deliveries))
    decreases deliveries
  {
    if deliveries != [] {
      ApplyKeepsLog(s, deliveries[0].client, deliveries[0].mutation);
      RunKeepsLog(Apply(s, deliveries[0].client, deliveries[0].mutation).state, deliveries[1..]);
    }
  }

  /**
   * In every reachable state the log positions are exactly 1..clock, every entry
   * follows the ones before it, and replaying the whole log gives exactly the records.
   */
  lemma LogIsExact(deliveries: seq<Delivery>)
    ensures LogValid(Run(EMPTY, deliveries))
  {
    RunKeepsLog(EMPTY, deliveries);
  }

  /** Replaying to a position finds the newest entry of a record at or before it. */
  lemma {:induction false} ReplayFindsNewest(changes: map<nat, Snapshot>, upTo: nat, id: NoteId)
    returns (c: nat)
    requires forall c | 1 <= c <= upTo :: c in changes
    ensures id in Replay(changes, upTo) ==>
              && 1 <= c <= upTo
              && changes[c].id == id
              && Replay(changes, upTo)[id] == changes[c]
    ensures forall d | 1 <= d <= upTo && changes[d].id == id :: id in Replay(changes, upTo) && d <= c
  {
    if upTo == 0 {
      c := 0;
    } else if changes[upTo].id == id {
      c := upTo;
    } else {
      c := ReplayFindsNewest(changes, upTo - 1, id);
    }
  }

  /** Of two entries of one record the later has the higher version, and the earlier is no delete. */
  lemma {:induction false} LaterEntryIsNewer(s: State, a: nat, b: nat)
    requires LogValid(s)
    requires 1 <= a < b <= s.clock
    requires s.changes[a].id == s.changes[b].id
    ensures s.changes[a].version < s.changes[b].version
    ensures !s.changes[a].deleted
    decreases b
  {
    assert EntryValid(s.changes, b);
    var c := ReplayFindsNewest(s.changes, b - 1, s.changes[b].id);
    assert a <= c < b;
    if a < c {
      LaterEntryIsNewer(s, a, c);
    }
  }

  /** No version is skipped: below an entry at version v, each of 1..v has its own earlier entry. */
  lemma {:induction false} EveryVersionIsLogged(s: State, b: nat, version: nat) returns (a: nat)
    requires LogValid(s)
    requires 1 <= b <= s.clock
    requires 1 <= version <= s.changes[b].version
    ensures 1 <= a <= b && s.changes[a].id == s.changes[b].id && s.changes[a].version == version
    decreases b
  {
    assert EntryValid(s.changes, b);
    if s.changes[b].version == version {
      a := b;
    } else {
      var c := ReplayFindsNewest(s.changes, b - 1, s.changes[b].id);
      a := EveryVersionIsLogged(s, c, version);
    }
  }

  /** A version never exceeds its position in the log. */
  lemma {:induction false} VersionAtMostPosition(s: State, c: nat)
    requires LogValid(s) && 1 <= c <= s.clock
    ensures s.changes[c].version <= c
    decreases c
  {
    assert EntryValid(s.changes, c);
    var d := ReplayFindsNewest(s.changes, c - 1, s.changes[c].id);
    if s.changes[c].id in Replay(s.changes, c - 1) {
      VersionAtMostPosition(s, d);
    }
  }

  lemma StoredVersionAtMostClock(s: State, id: NoteId)
    requires LogValid(s) && id in s.records
    ensures s.records[id].version <= s.clock
  {
    StoredIsInLog(s, id);
    var c :| 1 <= c <= s.clock && c in s.changes && s.changes[c] == SnapshotOf(id, s.records[id]);
    VersionAtMostPosition(s, c);
  }

  // Idempotency ------------------------------------------------------------

  /** The same deliveries without those whose (client, mutation id) was delivered before. */
  function FirstDeliveries(deliveries: seq<Delivery>, seen: set<(ClientId, MutationId)>): seq<Delivery> {
    if deliveries == [] then []
    else
      var key := (deliveries[0].client, deliveries[0].mutation.mutationId);
      if key in seen then FirstDeliveries(deliveries[1..], seen)
      else [deliveries[0]] + FirstDeliveries(deliveries[1..], seen + {key})
  }

  /** At-least-once delivery has the effect of exactly-once delivery on all four tables. */
  lemma {:induction false} AtLeastOnceIsExactlyOnce(s: State, deliveries: seq<Delivery>)
    ensures Run(s, deliveries) == Run(s, FirstDeliveries(deliveries, s.receipts.Keys))
    decreases deliveries
  {
    if deliveries != [] {
      var d := deliveries[0];
      var t := Apply(s, d.client, d.mutation).state;
      AtLeastOnceIsExactlyOnce(t, deliveries[1..]);
      var key := (d.client, d.mutation.mutationId);
      if key !in s.receipts {
        assert t.receipts.Keys == s.receipts.Keys + {key};
        var rest := FirstDeliveries(deliveries[1..], t.receipts.Keys);
        assert FirstDeliveries(deliveries, s.receipts.Keys) == [d] + rest;
        assert ([d] + rest)[1..] == rest;
      }
    }
  }

  lemma {:induction false} ReceiptStays(s: State, deliveries: seq<Delivery>, key: (ClientId, MutationId))
    requires key in s.receipts
    ensures key in Run(s, deliveries).receipts
    ensures Run(s, deliveries).receipts[key] == s.receipts[key]
    decreases deliveries
  {
    if deliveries != [] {
      ReceiptStays(Apply(s, deliveries[0].client, deliveries[0].mutation).state, deliveries[1..], key);
    }
  }

  /**
   * Whatever is delivered in between, delivering a mutation again changes nothing and
   * repeats its first answer.
   */
  lemma RedeliveryRepeatsTheAnswer(s: State, client: ClientId, m: Mutation, between: seq<Delivery>)
    ensures var first := Apply(s, client, m);
            var later := Run(first.state, between);
            Apply(later, client, m) == Outcome(later, first.result, None)
  {
    ReceiptStays(Apply(s, client, m).state, between, (client, m.mutationId));
  }

  /** Reusing a mutation id for other content is refused and has no effect. */
  lemma ReusedIdIsRefused(s: State, client: ClientId, m: Mutation, other: Mutation, between: seq<Delivery>)
    requires m.mutationId == other.mutationId && m != other
    requires (client, m.mutationId) !in s.receipts
    ensures var later := Run(Apply(s, client, m).state, between);
            Apply(later, client, other) == Outcome(later, Answer(other, IdempotencyKeyReused, None), None)
  {
    ReceiptStays(Apply(s, client, m).state, between, (client, m.mutationId));
  }

  // Receipts ---------------------------------------------------------------

  ghost predicate InLog(s: State, snapshot: Snapshot) {
    exists c | 1 <= c <= s.clock && c in s.changes :: s.changes[c] == snapshot
  }

  /** The snapshot shows exactly the edit the mutation asked for. */
  predicate Shows(snapshot: Snapshot, m: Mutation) {
    && snapshot.id == m.id
    && snapshot.deleted == m.action.Delete?
    && snapshot.value == m.value
  }

  /** A stored answer: what its status promises about the log. */
  ghost predicate AnswerValid(s: State, m: Mutation, r: MutationResult) {
    && r.mutationId == m.mutationId
    && r.current.None?
    && (r.record.Some? ==> InLog(s, r.record.value) && r.record.value.id == m.id)
    && (match r.status
        case Applied => r.record.Some? && Shows(r.record.value, m)
        case Conflict => true
        case Gone => r.record.Some? ==> r.record.value.deleted
        case Invalid => r.record.None? && !ValidMutation(m)
        case Forbidden => false
        case IdempotencyKeyReused => false)
  }

  ghost predicate ReceiptsValid(s: State) {
    forall key | key in s.receipts ::
      && s.receipts[key].content.mutationId == key.1
      && AnswerValid(s, s.receipts[key].content, s.receipts[key].result)
  }

  lemma InLogStays(s: State, t: State, snapshot: Snapshot)
    requires Grows(s, t) && InLog(s, snapshot)
    ensures InLog(t, snapshot)
  {
    var c :| 1 <= c <= s.clock && c in s.changes && s.changes[c] == snapshot;
    assert c in t.changes && t.changes[c] == snapshot;
  }

  lemma StoredIsInLog(s: State, id: NoteId)
    requires LogValid(s) && id in s.records
    ensures InLog(s, SnapshotOf(id, s.records[id]))
  {
    assert Replay(s.changes, s.clock)[id] == SnapshotOf(id, s.records[id]);
    var c := ReplayFindsNewest(s.changes, s.clock, id);
  }

  /** No logged snapshot is newer than the stored record. */
  lemma LoggedIsNotNewer(s: State, snapshot: Snapshot)
    requires LogValid(s) && InLog(s, snapshot)
    ensures snapshot.id in s.records
    ensures snapshot.version <= s.records[snapshot.id].version
    ensures snapshot.version == s.records[snapshot.id].version ==>
              snapshot == SnapshotOf(snapshot.id, s.records[snapshot.id])
  {
    var c :| 1 <= c <= s.clock && c in s.changes && s.changes[c] == snapshot;
    var newest := ReplayFindsNewest(s.changes, s.clock, snapshot.id);
    assert Replay(s.changes, s.clock)[snapshot.id] == SnapshotOf(snapshot.id, s.records[snapshot.id]);
    if c < newest {
      LaterEntryIsNewer(s, c, newest);
    }
  }

  /** A logged tombstone is the record's last word. */
  lemma TombstoneIsFinal(s: State, snapshot: Snapshot)
    requires LogValid(s) && InLog(s, snapshot) && snapshot.deleted
    ensures snapshot.id in s.records && snapshot == SnapshotOf(snapshot.id, s.records[snapshot.id])
  {
    var c :| 1 <= c <= s.clock && c in s.changes && s.changes[c] == snapshot;
    var newest := ReplayFindsNewest(s.changes, s.clock, snapshot.id);
    assert Replay(s.changes, s.clock)[snapshot.id] == SnapshotOf(snapshot.id, s.records[snapshot.id]);
    assert c == newest by {
      if c < newest {
        LaterEntryIsNewer(s, c, newest);
      }
    }
  }

  lemma ApplyKeepsReceipts(s: State, client: ClientId, m: Mutation)
    requires LogValid(s) && ReceiptsValid(s)
    ensures ReceiptsValid(Apply(s, client, m).state)
  {
    var out := Apply(s, client, m);
    var t := out.state;
    ApplyKeepsLog(s, client, m);
    if (client, m.mutationId) !in s.receipts {
      if m.id in s.records {
        StoredIsInLog(s, m.id);
      }
      assert out.cursor.Some? ==> t.changes[t.clock] == out.result.record.value;
      assert AnswerValid(t, m, out.result) by {
        if out.cursor.None? && out.result.record.Some? {
          InLogStays(s, t, out.result.record.value);
        }
      }
    }
  }
}
