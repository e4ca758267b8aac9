/** The service as it runs: each request changes one owner's tables in place. */
module SyncServiceClass {
  import opened SyncTypes
  import opened Server
  import opened Paging
  import Decimal

  const MAX_BATCH_SIZE := 50
  const PROTOCOL_VERSION := 1

  datatype PushError = UnsupportedProtocol | BadBatchSize

  /** The answers to a batch, mutation by mutation, each from the state its predecessor left. */
  function Answers(s: State, client: ClientId, operations: seq<Mutation>): seq<MutationResult>
    decreases operations
  {
    if operations == [] then []
    else
      var first := Apply(s, client, operations[0]);
      [first.result] + Answers(first.state, client, operations[1..])
  }

  function Deliveries(client: ClientId, operations: seq<Mutation>): (ds: seq<Delivery>)
    ensures |ds| == |operations|
  {
    seq(|operations|, i requires 0 <= i < |operations| => Delivery(client, operations[i]))
  }

  lemma {:induction false} RunAppend(s: State, deliveries: seq<Delivery>, d: Delivery)
    ensures Run(s, deliveries + [d]) == Apply(Run(s, deliveries), d.client, d.mutation).state
    decreases deliveries
  {
    if deliveries == [] {
      assert [d][1..] == [];
    } else {
      assert (deliveries + [d])[1..] == deliveries[1..] + [d];
      RunAppend(Apply(s, deliveries[0].client, deliveries[0].mutation).state, deliveries[1..], d);
    }
  }

  lemma {:induction false} AnswersAppend(s: State, client: ClientId, done: seq<Mutation>, m: Mutation)
    ensures Answers(s, client, done + [m])
         == Answers(s, client, done) + [Apply(Run(s, Deliveries(client, done)), client, m).result]
    decreases done
  {
    if done == [] {
      assert ([] + [m])[1..] == [];
      assert Deliveries(client, done) == [];
    } else {
      assert (done + [m])[1..] == done[1..] + [m];
      assert Deliveries(client, done)[1..] == Deliveries(client, done[1..]);
      AnswersAppend(Apply(s, client, done[0]).state, client, done[1..], m);
    }
  }

  class SyncService {
    const owner: OwnerId
    const size: Snapshot -> nat
    var clock: nat
    var records: map<NoteId, Stored>
    var changes: map<nat, Snapshot>
    var receipts: map<(ClientId, MutationId), Receipt>

    function Tables(): State
      reads this
    {
      State(clock, records, changes, receipts)
    }

    constructor (owner: OwnerId, size: Snapshot -> nat)
      ensures this.owner == owner && this.size == size
      ensures Tables() == EMPTY
    {
      this.owner, this.size := owner, size;
      clock, records, changes, receipts := 0, map[], map[], map[];
    }

    method WriteChangeRow(snapshot: Snapshot) returns (cursor: nat)
      modifies this`clock, this`changes
      ensures cursor == old(clock) + 1 == clock
      ensures changes == old(changes)[cursor := snapshot]
    {
      cursor := clock + 1;
      clock := cursor;
      changes := changes[cursor := snapshot];
    }

    /** One mutation, one transaction. */
    method ApplyMutation(client: ClientId, m: Mutation) returns (result: MutationResult, cursor: Option<nat>)
      modifies this
      ensures Outcome(Tables(), result, cursor) == Apply(old(Tables()), client, m)
    {
      if (client, m.mutationId) in receipts {
        var receipt := receipts[(client, m.mutationId)];
        result := if receipt.content == m then receipt.result else Answer(m, IdempotencyKeyReused, None);
        return result, None;
      }
      if !ValidMutation(m) {
        result := Answer(m, Invalid, None);
        receipts := receipts[(client, m.mutationId) := Receipt(m, result)];
        return result, None;
      }
      var base := Decimal.ParseBaseVersion(m.baseVersion);
      cursor := None;
      if m.id !in records {
        if m.action.Delete? {
          result := Answer(m, Gone, None);
        } else if base.Some? {
          result := Answer(m, Conflict, None);
        } else {
          records := records[m.id := Stored(1, m.value.value, false)];
          var snapshot := SnapshotOf(m.id, records[m.id]);
          var written := WriteChangeRow(snapshot);
          cursor := Some(written);
          result := Answer(m, Applied, Some(snapshot));
        }
      } else {
        var model := records[m.id];
        if model.deleted {
          result := Answer(m, Gone, Some(SnapshotOf(m.id, model)));
        } else if Some(model.version) != base {
          result := Answer(m, Conflict, Some(SnapshotOf(m.id, model)));
        } else {
          model := model.(version := model.version + 1);
          match m.action {
            case Put => model := model.(payload := m.value.value, deleted := false);
            case Delete => model := model.(deleted := true);
          }
          records := records[m.id := model];
          var snapshot := SnapshotOf(m.id, model);
          var written := WriteChangeRow(snapshot);
          cursor := Some(written);
          result := Answer(m, Applied, Some(snapshot));
        }
      }
      receipts := receipts[(client, m.mutationId) := Receipt(m, result)];
    }

    method PushMutations(protocolVersion: nat, client: ClientId, operations: seq<Mutation>)
      returns (response: Result<seq<MutationResult>, PushError>)
      modifies this
      ensures response.Ok? <==> protocolVersion == 1 && 1 <= |operations| <= 50
      ensures response.Err? ==> response.error == if protocolVersion != 1 then UnsupportedProtocol else BadBatchSize
      ensures response.Err? ==> Tables() == old(Tables())
      ensures response.Ok? ==>
                && Tables() == Run(old(Tables()), Deliveries(client, operations))
                && response.value == Answers(old(Tables()), client, operations)
    {
      if protocolVersion != PROTOCOL_VERSION {
        return Err(UnsupportedProtocol);
      }
      if operations == [] || |operations| > MAX_BATCH_SIZE {
        return Err(BadBatchSize);
      }
      var results: seq<MutationResult> := [];
      for i := 0 to |operations|
        invariant Tables() == Run(old(Tables()), Deliveries(client, operations[..i]))
        invariant results == Answers(old(Tables()), client, operations[..i])
      {
        var result, cursor := ApplyMutation(client, operations[i]);
        results := results + [result];
        assert operations[..i + 1] == operations[..i] + [operations[i]];
        assert Deliveries(client, operations[..i + 1])
            == Deliveries(client, operations[..i]) + [Delivery(client, operations[i])];
        RunAppend(old(Tables()), Deliveries(client, operations[..i]), Delivery(client, operations[i]));
        AnswersAppend(old(Tables()), client, operations[..i], operations[i]);
      }
      assert operations[..|operations|] == operations;
      return Ok(results);
    }

    /** As many of the candidates as fit the byte budget, and where the page ends. */
    method FillPage(rows: seq<nat>, position: int) returns (page: seq<Snapshot>, nextPosition: int)
      requires forall i | 0 <= i < |rows| :: rows[i] in changes
      ensures var n := Fit(Sizes(rows, changes, size), 0, 2);
              && page == Snapshots(rows[..n], changes)
              && nextPosition == if n == 0 then position else rows[n - 1]
    {
      ghost var sizes := Sizes(rows, changes, size);
      page := [];
      nextPosition := position;
      var encodedBytes: nat := 2;
      var i := 0;
      while i < |rows|
        invariant 0 <= i <= |rows|
        invariant page == Snapshots(rows[..i], changes)
        invariant nextPosition == if i == 0 then position else rows[i - 1]
        invariant Fit(sizes, i, encodedBytes) == Fit(sizes, 0, 2)
      {
        var snapshot := changes[rows[i]];
        var nextBytes := encodedBytes + (if page != [] then 1 else 0) + size(snapshot);
        if page != [] && nextBytes > MAX_PAGE_ENCODED_BYTES {
          break;
        }
        encodedBytes := nextBytes;
        nextPosition := rows[i];
        page := page + [snapshot];
        assert rows[..i + 1] == rows[..i] + [rows[i]];
        i := i + 1;
      }
      assert i == Fit(sizes, 0, 2);
    }

    method PullChanges(cursor: Option<Token>, requested: Option<nat>, nonce: nat)
      returns (response: Result<PullResponse, PullError>)
      ensures response == Pull(Tables(), size, owner, cursor, requested, nonce)
    {
      var limit := Limit(requested);
      var position, highWater := 0, clock;
      if cursor.Some? {
        var decoded := Decode(cursor.value, owner);
        if decoded.Err? {
          return Err(InvalidSyncCursor);
        }
        position := decoded.value.position;
        highWater := if position >= decoded.value.highWater then clock else decoded.value.highWater;
      }
      var page, nextPosition := FillPage(Rows(changes, position, highWater, limit), position);
      return Ok(PullResponse(page, Encode(nonce, owner, Position(nextPosition, highWater)), nextPosition >= highWater));
    }
  }
}
