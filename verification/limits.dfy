/** Reachable states in which what the hypotheses of the other modules exclude happens. */
module Limits {
  import opened SyncTypes
  import opened LocalStore
  import opened Protocol
  import Decimal
  import Server
  import opened Paging
  import opened Convergence
  import opened LoneClient
  import opened ConflictRisk

  function PutOp(seqNo: nat): Op {
    Op(0, Put, Some(NOTE), None, seqNo, LocalStore.Queued, None, 0, 0, None, None)
  }

  function Sent(op: Op): Op { Lease(op, 0, 30) }

  /** The client has sent its first put, and nothing else has happened. */
  ghost predicate FirstPutOut(sys: System) {
    && sys.store.outbox == map[0 := Sent(PutOp(1))] && !Closed(sys.store) && sys.server == Server.EMPTY
    && Wire(0, PutOp(1)) in sys.requests && sys.store.pullCursor.None?
  }

  lemma FirstPutQueued(c: Config) returns (sys: System)
    ensures LoneReach(c, INITIAL, sys)
    ensures sys.store.outbox == map[0 := PutOp(1)] && sys.store.nextSeq == 2 && sys.store.pullCursor.None?
    ensures (sys.server, sys.held) == (Server.EMPTY, map[])
  {
    var step := EditNote(0, Put, Some(NOTE), 0);
    LoneStep(c, INITIAL, step);
    sys := Next(c, INITIAL, step);
    var s := LocalStore.EMPTY;
    assert ImmutableOps(s.outbox, 0) == {} && ReplaceableOps(s.outbox, 0) == {};
    assert s.outbox - {} == map[];
  }

  lemma FirstPutClaimed(c: Config, sys: System) returns (end: System)
    requires sys.store.outbox == map[0 := PutOp(1)] && sys.held == map[]
    ensures LoneReach(c, sys, end)
    ensures end.store == sys.store.(outbox := map[0 := Sent(PutOp(1))]) && end.server == sys.server
    ensures HeldOf(end, 0) == [HeldClaim(0, Wire(0, PutOp(1)))]
  {
    var outbox := sys.store.outbox;
    assert ExpireLeases(outbox, 0) == outbox && Due(outbox, 0) == {0};
    var step := ClaimDue(0, 1, 30, 0, [0]);
    LoneStep(c, sys, step);
    end := Next(c, sys, step);
    assert LeaseBatch(outbox, 0, 30, [0]) == map[0 := Sent(PutOp(1))];
    assert Wire(0, Sent(PutOp(1))) == Wire(0, PutOp(1));
  }

  lemma PushReaches(c: Config) returns (sys: System)
    ensures LoneReach(c, INITIAL, sys) && FirstPutOut(sys)
  {
    var s1 := FirstPutQueued(c);
    var s2 := FirstPutClaimed(c, s1);
    LoneJoin(c, INITIAL, s1, s2);
    LoneStep(c, s2, Send(0, 0));
    sys := Next(c, s2, Send(0, 0));
    LoneJoin(c, INITIAL, s2, sys);
  }

  lemma RunThree(c: Config, s0: System, a: Step, s1: System, b: Step, s2: System, d: Step)
    requires Enabled(c, s0, a) && s1 == Next(c, s0, a)
    requires Enabled(c, s1, b) && s2 == Next(c, s1, b) && Enabled(c, s2, d)
    ensures Runs(c, s0, [a, b, d], Next(c, s2, d))
  {
    RunOne(c, s2, d);
    RunCons(c, s1, b, [d], Next(c, s2, d));
    RunCons(c, s0, a, [b, d], Next(c, s2, d));
    assert [a] + [b, d] == [a, b, d];
  }

  lemma LoneReachIsValid(c: Config, sys: System)
    requires LoneReach(c, INITIAL, sys)
    ensures LoneValid(c, sys, true)
  {
    var steps :| Runs(c, INITIAL, steps, sys) && forall i | 0 <= i < |steps| :: Lone(steps[i]);
    InitialLone(c, true);
    RunKeepsLone(c, INITIAL, steps, sys, true);
  }

  /** Giving back a push that was sent makes it replaceable although the server may still receive it. */
  lemma CancelledPushCanConflict(c: Config) returns (sys: System)
    ensures LoneReach(c, INITIAL, sys) && Risks(c.me, sys, ReleaseSent(0, 0, 0))
    ensures ConflictReachable(c, Next(c, sys, ReleaseSent(0, 0, 0)))
  {
    sys := PushReaches(c);
    LoneReachIsValid(c, sys);
    RiskyReleaseConflicts(c, sys, 0, 0, 0);
  }

  /** Discarding a note forgets a push that the server may still receive. */
  lemma DiscardedPushCanConflict(c: Config) returns (sys: System)
    ensures LoneReach(c, INITIAL, sys) && Risks(c.me, sys, DiscardLocal(0))
    ensures ConflictReachable(c, Next(c, sys, DiscardLocal(0)))
  {
    sys := PushReaches(c);
    LoneReachIsValid(c, sys);
    RiskyOverrideConflicts(c, sys, DiscardLocal(0));
  }

  /** Deleting a note before its first push replaces the put, and the server has nothing to delete. */
  lemma DeleteBeforePushIsGone(s: Store, server: Server.State, client: ClientId, k: NoteId, note: Note, now: int)
    requires QueueRefusal(s, k).None? && EntityOps(s.outbox, k) == {} && ConfirmedOf(s, k).None?
    requires s.nextSeq < MAX_LOCAL_SEQUENCE && s.issued !in s.outbox
    requires k !in server.records && (client, s.issued + 1) !in server.receipts
    ensures var t := Queue(Queue(s, k, Put, Some(note), now), k, Delete, None, now);
            && EntityOps(t.outbox, k) == {s.issued + 1}
            && Server.Apply(server, client, Wire(s.issued + 1, t.outbox[s.issued + 1])).result.status == Gone
  {
    var u := Queue(s, k, Put, Some(note), now);
    assert ReplaceableOps(s.outbox, k) == {} && ImmutableOps(s.outbox, k) == {};
    assert ReplaceableOps(u.outbox, k) == {s.issued} && ImmutableOps(u.outbox, k) == {};
  }

  // A receipt that arrives late --------------------------------------------

  const OTHERS: Note := Note("theirs", "")

  function Theirs(): Mutation {
    Mutation(0, DRAFT_NOTE_KIND, 0, Put, Some("1"), SCHEMA_VERSION, Some(OTHERS))
  }

  function Mine(): Snapshot { Snapshot(0, 1, false, Some(NOTE)) }

  function LateResult(): MutationResult { MutationResult(0, Applied, Some(Mine()), None) }

  /** The first page of a log of two entries. */
  function FirstPage(c: Config, second: Snapshot): PageMessage {
    PageMessage(None, PullResponse([Mine(), second], Sealed(0, c.owner, Position(2, 2)), true))
  }

  const CHANGED := Snapshot(0, 2, false, Some(OTHERS))

  lemma TwoWrites(c: Config)
    ensures var s1 := Server.Apply(Server.EMPTY, c.me, Wire(0, PutOp(1)));
            var s2 := Server.Apply(s1.state, c.me + 1, Theirs());
            && s1.result == LateResult() && s1.state.clock == 1
            && s2.state.clock == 2
            && s2.state.changes == map[1 := Mine(), 2 := CHANGED]
            && Server.LogValid(s2.state)
  {
    Server.RunKeepsLog(Server.EMPTY, []);
    var s1 := Server.Apply(Server.EMPTY, c.me, Wire(0, PutOp(1)));
    Server.ApplyKeepsLog(Server.EMPTY, c.me, Wire(0, PutOp(1)));
    Server.ApplyKeepsLog(s1.state, c.me + 1, Theirs());
    Decimal.PrintRoundTrip(1);
    assert Server.ValidMutation(Theirs());
    assert Decimal.ParseBaseVersion(Some("1")) == Some(1);
  }

  /** Both entries fit one page, as they do as JSON. */
  predicate FitOnePage(c: Config, second: Snapshot) {
    c.size(Mine()) + c.size(second) + 3 <= MAX_PAGE_ENCODED_BYTES
  }

  lemma PullBoth(c: Config, s: Server.State, second: Snapshot)
    requires FitOnePage(c, second)
    requires s.clock == 2 && Server.LogValid(s) && s.changes == map[1 := Mine(), 2 := second]
    ensures Pull(s, c.size, c.owner, None, None, 0) == Ok(FirstPage(c, second).response)
  {
    RowsAreConsecutive(s, 0, 2, 16);
    var rows := Rows(s.changes, 0, 2, 16);
    assert rows == [1, 2];
    var sizes := Sizes(rows, s.changes, c.size);
    var one, two := c.size(Mine()), c.size(second);
    assert sizes == [one, two];
    assert Fit(sizes, 2, 3 + one + two) == 2;
    assert Fit(sizes, 1, 2 + one) == 2;
    assert rows[..2] == rows;
    assert PageAt(s, c.size, Position(0, 2), 16).changes == [Mine(), second];
  }

  lemma LateWrites(c: Config, sys: System) returns (end: System)
    requires sys.server == Server.EMPTY && Wire(0, PutOp(1)) in sys.requests
    ensures Reaches(c, sys, end)
    ensures end.store == sys.store && LateResult() in end.responses
    ensures end.server.clock == 2 && Server.LogValid(end.server)
    ensures end.server.changes == map[1 := Mine(), 2 := CHANGED]
  {
    TwoWrites(c);
    var a, b := Deliver(Wire(0, PutOp(1))), OtherClient(c.me + 1, Theirs());
    var s1 := Next(c, sys, a);
    end := Next(c, s1, b);
    RunOne(c, s1, b);
    RunCons(c, sys, a, [b], end);
    assert [a] + [b] == [a, b];
  }

  lemma LatePull(c: Config, sys: System) returns (end: System)
    requires FitOnePage(c, CHANGED)
    requires sys.store.pullCursor.None? && sys.server.clock == 2 && Server.LogValid(sys.server)
    requires sys.server.changes == map[1 := Mine(), 2 := CHANGED]
    ensures Reaches(c, sys, end)
    ensures end.store.outbox == sys.store.outbox && end.server == sys.server && end.responses == sys.responses
    ensures end.store.pullCursor == Some(Sealed(0, c.owner, Position(2, 2)))
  {
    var s1 := Next(c, sys, AskPull);
    var serve := ServePull(None, None, 0);
    PullBoth(c, s1.server, CHANGED);
    var s2 := Next(c, s1, serve);
    var page := ReceivePage(FirstPage(c, CHANGED));
    PagesKeepContent(s2.store, FirstPage(c, CHANGED).response.changes);
    end := Next(c, s2, page);
    RunOne(c, s2, page);
    RunCons(c, s1, serve, [page], end);
    RunCons(c, sys, AskPull, [serve] + [page], end);
    assert [AskPull] + ([serve] + [page]) == [AskPull, serve, page];
  }

  lemma LateReceive(c: Config, sys: System) returns (end: System)
    requires LateResult() in sys.responses
    requires sys.store.outbox == map[0 := Sent(PutOp(1))]
    ensures Reaches(c, sys, end)
    ensures end.store.pullCursor == sys.store.pullCursor && end.server == sys.server
    ensures 0 in Shadows(end.store) && Shadows(end.store)[0].version == 1
  {
    end := Next(c, sys, Receive(LateResult(), 0, 0));
    RunOne(c, sys, Receive(LateResult(), 0, 0));
  }

  ghost predicate Reaches(c: Config, sys: System, end: System) {
    exists steps :: Runs(c, sys, steps, end)
  }

  lemma ReachesJoin(c: Config, sys: System, mid: System, end: System)
    requires Reaches(c, sys, mid) && Reaches(c, mid, end)
    ensures Reaches(c, sys, end)
  {
    var a :| Runs(c, sys, a, mid);
    var b :| Runs(c, mid, b, end);
    RunsJoin(c, sys, a, mid, b, end);
  }

  /**
   * A reachable state in which the client's put was applied, another client's change was
   * pulled, and then the receipt of the put arrived: the shadow is back at version 1,
   * although the cursor has passed version 2 and will not deliver it again.
   */
  lemma LateReceiptLosesAChange(c: Config) returns (end: System)
    requires FitOnePage(c, CHANGED)
    ensures Reaches(c, INITIAL, end)
    ensures end.store.pullCursor == Some(Sealed(0, c.owner, Position(2, 2)))
    ensures end.server.clock == 2 && 2 in end.server.changes && end.server.changes[2].id == 0
    ensures 0 in Shadows(end.store) && Shadows(end.store)[0].version < end.server.changes[2].version
  {
    var s0 := PushReaches(c);
    var s1 := LateWrites(c, s0);
    ReachesJoin(c, INITIAL, s0, s1);
    var s2 := LatePull(c, s1);
    ReachesJoin(c, INITIAL, s1, s2);
    end := LateReceive(c, s2);
    ReachesJoin(c, INITIAL, s2, end);
  }

  // A tombstone that is discarded --------------------------------------------

  function TheirPut(): Mutation { Mutation(0, DRAFT_NOTE_KIND, 0, Put, None, SCHEMA_VERSION, Some(NOTE)) }

  function TheirDelete(): Mutation { Mutation(1, DRAFT_NOTE_KIND, 0, Delete, Some("1"), SCHEMA_VERSION, None) }

  const TOMBSTONE := Snapshot(0, 2, true, None)

  lemma PutAndDelete(c: Config)
    ensures var s1 := Server.Apply(Server.EMPTY, c.me + 1, TheirPut());
            var s2 := Server.Apply(s1.state, c.me + 1, TheirDelete());
            && s1.state.clock == 1 && s2.state.clock == 2
            && s2.state.changes == map[1 := Mine(), 2 := TOMBSTONE]
            && Server.LogValid(s2.state)
  {
    Server.RunKeepsLog(Server.EMPTY, []);
    var s1 := Server.Apply(Server.EMPTY, c.me + 1, TheirPut());
    Server.ApplyKeepsLog(Server.EMPTY, c.me + 1, TheirPut());
    Server.ApplyKeepsLog(s1.state, c.me + 1, TheirDelete());
    Decimal.PrintRoundTrip(1);
    assert Server.ValidMutation(TheirPut()) && Server.ValidMutation(TheirDelete());
    assert Decimal.ParseBaseVersion(Some("1")) == Some(1);
  }

  /** Another client made and deleted a note, and this one is asked for its first pull. */
  lemma DeletedByOthers(c: Config) returns (end: System)
    ensures Reaches(c, INITIAL, end)
    ensures end.store == LocalStore.EMPTY && end.pages == {} && None in end.asked
    ensures end.server.clock == 2 && Server.LogValid(end.server)
    ensures end.server.changes == map[1 := Mine(), 2 := TOMBSTONE]
  {
    PutAndDelete(c);
    var a, b := OtherClient(c.me + 1, TheirPut()), OtherClient(c.me + 1, TheirDelete());
    var s1 := Next(c, INITIAL, a);
    var s2 := Next(c, s1, b);
    end := Next(c, s2, AskPull);
    RunThree(c, INITIAL, a, s1, b, s2, AskPull);
  }

  lemma TombstonePulled(c: Config) returns (end: System)
    requires FitOnePage(c, TOMBSTONE)
    ensures Reaches(c, INITIAL, end)
    ensures end.server.clock == 2 && 2 in end.server.changes && end.server.changes[2] == TOMBSTONE
    ensures end.store == WithTombstone(c)
  {
    var sys := DeletedByOthers(c);
    PullBoth(c, sys.server, TOMBSTONE);
    var serve, page := ServePull(None, None, 0), ReceivePage(FirstPage(c, TOMBSTONE));
    var s1 := Next(c, sys, serve);
    end := Next(c, s1, page);
    TombstoneTaken(c);
    RunOne(c, s1, page);
    RunCons(c, sys, serve, [page], end);
    ReachesJoin(c, INITIAL, sys, end);
  }

  /**
   * A reachable state in which a tombstone was pulled and then discarded: the client knows nothing
   * of the note, although its cursor has passed the delete and will not deliver it again.
   */
  lemma DiscardedTombstoneIsForgotten(c: Config) returns (end: System)
    requires FitOnePage(c, TOMBSTONE)
    ensures Reaches(c, INITIAL, end)
    ensures end.store.pullCursor == Some(Sealed(0, c.owner, Position(2, 2)))
    ensures end.server.clock == 2 && 2 in end.server.changes && end.server.changes[2] == TOMBSTONE
    ensures Shadows(end.store) == map[]
  {
    var sys := TombstonePulled(c);
    end := Next(c, sys, DiscardLocal(0));
    RunOne(c, sys, DiscardLocal(0));
    ReachesJoin(c, INITIAL, sys, end);
    assert end.store == DiscardLocalVersion(sys.store, 0);
  }

  function WithTombstone(c: Config): Store {
    LocalStore.EMPTY.(records := map[0 := LocalRecord(Some(Confirmed(2, true, None)), None, Synced)],
                      pullCursor := Some(Sealed(0, c.owner, Position(2, 2))))
  }

  lemma TombstoneTaken(c: Config)
    ensures ApplyPage(LocalStore.EMPTY, [Mine(), TOMBSTONE], Sealed(0, c.owner, Position(2, 2)))
         == WithTombstone(c)
  {
    var one := LocalStore.EMPTY.(records := map[0 := LocalRecord(Some(ToConfirmed(Mine())), None, Synced)]);
    assert [Mine()][..0] == [];
    assert ApplyEach(LocalStore.EMPTY, [Mine()]) == one;
    assert [Mine(), TOMBSTONE][..1] == [Mine()];
    assert ApplyEach(LocalStore.EMPTY, [Mine(), TOMBSTONE]) == ApplyChange(one, TOMBSTONE);
  }
}
