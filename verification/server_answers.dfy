/**
 * What the server answers to a mutation it has not seen, and what that does to the four
 * tables: in the fields of the tables and of the request, case by case.
 */
module ServerAnswers {
  import opened SyncTypes
  import opened Server
  import Decimal

  /** Only the receipt is new. */
  ghost predicate OnlyAnswered(s: State, client: ClientId, m: Mutation, out: Outcome) {
    && (out.state.clock, out.state.records, out.state.changes) == (s.clock, s.records, s.changes)
    && out.state.receipts == s.receipts[(client, m.mutationId) := Receipt(m, out.result)]
    && out.cursor.None?
  }

  /** One record has a new version, which is the next entry of the log and the record of the answer. */
  ghost predicate Wrote(s: State, client: ClientId, m: Mutation, out: Outcome, version: nat, payload: Note) {
    var snapshot := Snapshot(m.id, version, m.action.Delete?, m.value);
    && out.result == MutationResult(m.mutationId, Applied, Some(snapshot), None)
    && out.state.clock == s.clock + 1 && out.cursor == Some(s.clock + 1)
    && out.state.records == s.records[m.id := Stored(version, payload, m.action.Delete?)]
    && out.state.changes == s.changes[s.clock + 1 := snapshot]
    && out.state.receipts == s.receipts[(client, m.mutationId) := Receipt(m, out.result)]
  }

  ghost predicate Answered(m: Mutation, out: Outcome, status: Status, record: Option<Snapshot>) {
    out.result == MutationResult(m.mutationId, status, record, None)
  }

  predicate Unseen(s: State, client: ClientId, m: Mutation) { (client, m.mutationId) !in s.receipts }

  /** What a request must be to be looked at: its base is a printed number, and it has a value exactly if it is a put. */
  ghost predicate Legible(m: Mutation) {
    && m.kind == "draft_note" && m.schemaVersion == 1
    && (m.baseVersion.Some? ==> exists n: nat :: n <= I64_MAX && m.baseVersion.value == Decimal.Print(n))
    && (m.action == Put <==> m.value.Some?)
    && (m.value.Some? ==> |m.value.value.title| <= 200 && |m.value.value.body| <= 100_000)
  }

  lemma LegibleIsValid(m: Mutation)
    ensures ValidMutation(m) <==> Legible(m)
  {
    if m.baseVersion.Some? {
      var text := m.baseVersion.value;
      Decimal.BaseVersionsAreNumbers(text);
      assert m.baseVersion == Some(text);
      if n: nat :| n <= I64_MAX && text == Decimal.Print(n) {
        Decimal.PrintRoundTrip(n);
      }
    }
  }

  /** A request is invalid if and only if it is not legible, whatever is stored. */
  lemma InvalidIsExact(s: State, client: ClientId, m: Mutation)
    requires Unseen(s, client, m)
    ensures var out := Apply(s, client, m);
            && (out.result.status == Invalid <==> !Legible(m))
            && (!Legible(m) ==> Answered(m, out, Invalid, None) && OnlyAnswered(s, client, m, out))
  {
    LegibleIsValid(m);
  }

  /** The base a request names is the number it prints. */
  lemma BaseIsPrinted(m: Mutation, version: nat)
    requires ValidMutation(m)
    ensures Decimal.ParseBaseVersion(m.baseVersion) == Some(version) <==> m.baseVersion == Some(Decimal.Print(version))
  {
    Decimal.PrintRoundTrip(version);
    if m.baseVersion.Some? { Decimal.BaseVersionsAreNumbers(m.baseVersion.value); }
  }

  /**
   * Compare and swap. A live record is written if and only if the request names its very version; any other base,
   * or none, is a conflict that shows the record as it stands and changes nothing.
   */
  lemma CompareAndSwap(s: State, client: ClientId, m: Mutation)
    requires Unseen(s, client, m) && Legible(m) && m.id in s.records && !s.records[m.id].deleted
    ensures var stored := s.records[m.id];
            var out := Apply(s, client, m);
            && (out.result.status == Applied <==> m.baseVersion == Some(Decimal.Print(stored.version)))
            && (out.result.status == Applied ==>
                  Wrote(s, client, m, out, stored.version + 1, if m.action == Put then m.value.value else stored.payload))
            && (out.result.status != Applied ==>
                  && Answered(m, out, Conflict, Some(Snapshot(m.id, stored.version, false, Some(stored.payload))))
                  && OnlyAnswered(s, client, m, out))
  {
    LegibleIsValid(m);
    BaseIsPrinted(m, s.records[m.id].version);
  }

  /** A deleted record is gone for puts and deletes of any base, and its tombstone is shown. */
  lemma DeletedIsGone(s: State, client: ClientId, m: Mutation)
    requires Unseen(s, client, m) && Legible(m) && m.id in s.records && s.records[m.id].deleted
    ensures var out := Apply(s, client, m);
            && Answered(m, out, Gone, Some(Snapshot(m.id, s.records[m.id].version, true, None)))
            && OnlyAnswered(s, client, m, out)
  {
    LegibleIsValid(m);
  }

  /** An absent record is created by a put that names no version, at version 1; a put that names one conflicts, a delete is gone. */
  lemma AbsentIsCreated(s: State, client: ClientId, m: Mutation)
    requires Unseen(s, client, m) && Legible(m) && m.id !in s.records
    ensures var out := Apply(s, client, m);
            && (m.action == Put && m.baseVersion.None? ==> Wrote(s, client, m, out, 1, m.value.value))
            && (m.action == Put && m.baseVersion.Some? ==> Answered(m, out, Conflict, None) && OnlyAnswered(s, client, m, out))
            && (m.action == Delete ==> Answered(m, out, Gone, None) && OnlyAnswered(s, client, m, out))
  {
    LegibleIsValid(m);
  }
}
