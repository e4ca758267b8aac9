/**
 * Pulls bring the confirmed shadows to the state the server's log describes, over any
 * pages, replays, restarts and concurrent writers.
 */
module Convergence {
  import opened SyncTypes
  import opened LocalStore
  import opened StoreShape
  import opened StoreSteps
  import opened Protocol
  import opened Paging
  import opened LoneClient
  import Server

  type Log = map<nat, Snapshot>

  function ShadowOf(k: NoteId, confirmed: Confirmed): Snapshot {
    Snapshot(k, confirmed.version, confirmed.deleted, confirmed.value)
  }

  /** What the client holds as confirmed, note by note. */
  function Shadows(s: Store): map<NoteId, Snapshot> {
    map k | k in s.records && s.records[k].confirmed.Some? :: ShadowOf(k, s.records[k].confirmed.value)
  }

  /** The shadow of each note is the newest of the log entries that were delivered for it. */
  ghost predicate NewestDelivered(shadows: map<NoteId, Snapshot>, log: Log, delivered: set<nat>) {
    && (forall d | d in delivered :: d in log && log[d].id in shadows && log[d].version <= shadows[log[d].id].version)
    && (forall k {:trigger Backed(shadows[k], log, delivered, k)} | k in shadows :: Backed(shadows[k], log, delivered, k))
  }

  ghost predicate Backed(shadow: Snapshot, log: Log, delivered: set<nat>, k: NoteId) {
    exists d :: d in delivered && d in log && log[d] == shadow && log[d].id == k
  }

  function Between(a: nat, b: nat): (positions: set<nat>)
    ensures forall d: nat :: d in positions <==> a < d <= b
  {
    if b <= a then {} else Between(a, b - 1) + {b}
  }

  function UpTo(n: nat): set<nat> { Between(0, n) }

  /** Everything before the cursor has been delivered. */
  ghost predicate CursorCovered(c: Config, clock: nat, cursor: Option<Token>, delivered: set<nat>) {
    cursor.Some? ==> TokenValid(cursor.value, c.owner, clock) && UpTo(cursor.value.payload.position) <= delivered
  }

  function Start(cursor: Option<Token>): int {
    if cursor.Some? && cursor.value.Sealed? then cursor.value.payload.position else 0
  }

  /** A page is the run of entries from its request's cursor to its own. */
  ghost predicate PageExact(c: Config, server: Server.State, page: PageMessage, delivered: set<nat>) {
    && CursorCovered(c, server.clock, page.cursor, delivered)
    && TokenValid(page.response.nextCursor, c.owner, server.clock)
    && var a, b := Start(page.cursor), page.response.nextCursor.payload.position;
    && 0 <= a <= b <= server.clock
    && (forall d: nat | a < d <= b :: d in server.changes)
    && page.response.changes == Entries(server.changes, a, b)
    && (page.response.caughtUp ==> b == page.response.nextCursor.payload.highWater)
  }

  ghost predicate Converging(c: Config, sys: System, delivered: set<nat>) {
    && delivered <= UpTo(sys.server.clock)
    && NewestDelivered(Shadows(sys.store), sys.server.changes, delivered)
    && CursorCovered(c, sys.server.clock, sys.store.pullCursor, delivered)
    && (forall cursor | cursor in sys.asked :: CursorCovered(c, sys.server.clock, cursor, delivered))
    && (forall page | page in sys.pages :: PageExact(c, sys.server, page, delivered))
  }

  /** What a step delivers: the entries of a page, or the record of a result that is taken. */
  ghost function DeliveredBy(sys: System, step: Step): set<nat> {
    match step
    case ReceivePage(page) =>
      if page.response.nextCursor.Sealed? && 0 <= Start(page.cursor) && 0 <= page.response.nextCursor.payload.position
      then Between(Start(page.cursor), page.response.nextCursor.payload.position) else {}
    case Receive(r, owner, _) =>
      if Takes(sys, r, owner) then set d: nat | d in sys.server.changes && sys.server.changes[d] == r.record.value else {}
    case _ => {}
  }

  /** The result replaces a shadow by its record. */
  predicate Takes(sys: System, r: MutationResult, owner: LeaseOwner) {
    && Holds(sys.store, r.mutationId, owner)
    && r.record.Some?
    && (r.status == Applied || r.status == Conflict || r.status == Gone)
  }

  /**
   * A result must not be older than the shadow it replaces, and a discard must not drop
   * the shadow of a deleted note.
   */
  predicate Orderly(sys: System, step: Step) {
    match step
    case Receive(r, owner, _) =>
      Takes(sys, r, owner) ==>
        var shadow := ConfirmedOf(sys.store, r.record.value.id);
        shadow.Some? ==> shadow.value.version <= r.record.value.version
    case DiscardLocal(k) => ConfirmedOf(sys.store, k).Some? ==> !ConfirmedOf(sys.store, k).value.deleted
    case _ => true
  }

  // Shadows under single changes -------------------------------------------

  lemma BackedStays(shadow: Snapshot, log: Log, delivered: set<nat>, more: set<nat>, k: NoteId)
    requires Backed(shadow, log, delivered, k)
    ensures Backed(shadow, log, delivered + more, k)
  {
    var e :| e in delivered && e in log && log[e] == shadow && log[e].id == k;
    assert e in delivered + more;
  }

  /** Replacing a shadow by a delivered entry that is not older. */
  lemma ShadowReplaced(shadows: map<NoteId, Snapshot>, log: Log, delivered: set<nat>, entry: Snapshot, at: set<nat>)
    requires NewestDelivered(shadows, log, delivered)
    requires at != {} && forall d | d in at :: d in log && log[d] == entry
    requires entry.id in shadows ==> shadows[entry.id].version <= entry.version
    ensures NewestDelivered(shadows[entry.id := entry], log, delivered + at)
  {
    var t := shadows[entry.id := entry];
    forall k | k in t
      ensures Backed(t[k], log, delivered + at, k)
    {
      if k == entry.id {
        var d :| d in at;
        assert d in delivered + at;
      } else {
        BackedStays(shadows[k], log, delivered, at, k);
      }
    }
  }

  lemma ShadowKept(shadows: map<NoteId, Snapshot>, log: Log, delivered: set<nat>, d: nat)
    requires NewestDelivered(shadows, log, delivered) && d in log
    requires log[d].id in shadows && log[d].version <= shadows[log[d].id].version
    ensures NewestDelivered(shadows, log, delivered + {d})
  {
    forall k | k in shadows
      ensures Backed(shadows[k], log, delivered + {d}, k)
    {
      BackedStays(shadows[k], log, delivered, {d}, k);
    }
  }

  lemma ChangeDelivers(s: Store, log: Log, delivered: set<nat>, d: nat)
    requires NewestDelivered(Shadows(s), log, delivered) && d in log
    ensures NewestDelivered(Shadows(ApplyChange(s, log[d])), log, delivered + {d})
  {
    var k := log[d].id;
    if ConfirmedOf(s, k).Some? && log[d].version <= ConfirmedOf(s, k).value.version {
      ShadowKept(Shadows(s), log, delivered, d);
    } else {
      ShadowReplaced(Shadows(s), log, delivered, log[d], {d});
      assert Shadows(ApplyChange(s, log[d])) == Shadows(s)[k := log[d]];
    }
  }

  lemma LastEntry(log: Log, a: nat, b: nat)
    requires a < b && forall d: nat | a < d <= b :: d in log
    ensures Entries(log, a, b) == Entries(log, a, b - 1) + [log[b]]
  {
    EntriesAt(log, a, b);
    EntriesAt(log, a, b - 1);
  }

  lemma {:induction false} PageDelivers(s: Store, log: Log, delivered: set<nat>, a: nat, b: nat)
    requires NewestDelivered(Shadows(s), log, delivered)
    requires a <= b && forall d: nat | a < d <= b :: d in log
    ensures NewestDelivered(Shadows(ApplyEach(s, Entries(log, a, b))), log, delivered + Between(a, b))
    decreases b
  {
    if a == b {
      assert delivered + Between(a, b) == delivered;
    } else {
      PageDelivers(s, log, delivered, a, b - 1);
      LastEntry(log, a, b);
      var entries := Entries(log, a, b - 1);
      assert (entries + [log[b]])[..|entries|] == entries;
      ChangeDelivers(ApplyEach(s, entries), log, delivered + Between(a, b - 1), b);
      assert delivered + Between(a, b - 1) + {b} == delivered + Between(a, b);
    }
  }

  // Steps ------------------------------------------------------------------

  /** The steps that leave every shadow alone. */
  lemma QuietShadows(c: Config, sys: System, step: Step)
    requires Enabled(c, sys, step) && Orderly(sys, step)
    requires !step.Receive? && !step.ReceivePage?
    ensures Shadows(Next(c, sys, step).store) == Shadows(sys.store)
  {
    if step.ReleaseUnsent? {
      FinishShadows(sys.store, step.m, sys.held[step.m][step.i].owner, GiveBack, step.now);
    } else if step.ReleaseSent? {
      FinishShadows(sys.store, step.m, step.leaseOwner, GiveBack, step.now);
    } else if step.RetryLater? {
      FinishShadows(sys.store, step.m, step.leaseOwner, RetryAfter(step.delay), step.now);
    } else if step.FailPush? {
      FinishShadows(sys.store, step.m, step.leaseOwner, GiveUp, 0);
    } else if step.EditNote? {
      QueueShadows(sys.store, step.k, step.action, step.value, step.now);
    } else if step.AcceptServer? || step.DiscardLocal? {
      ResolveShadows(sys.store, step.k);
    }
  }

  /** Resolving a conflict drops a shadow only if it is a tombstone. */
  lemma ResolveShadows(s: Store, k: NoteId)
    ensures Shadows(AcceptServerVersion(s, k)) == Shadows(s)
    ensures (ConfirmedOf(s, k).Some? ==> !ConfirmedOf(s, k).value.deleted) ==> Shadows(DiscardLocalVersion(s, k)) == Shadows(s)
  {
  }

  lemma FinishShadows(s: Store, m: MutationId, owner: LeaseOwner, outcome: Outcome, now: int)
    ensures Shadows(Finish(s, m, owner, outcome, now)) == Shadows(s)
  {
  }

  lemma QueueShadows(s: Store, k: NoteId, action: Action, value: Option<Note>, now: int)
    ensures Shadows(Queue(s, k, action, value, now)) == Shadows(s)
  {
  }

  lemma ReceiveShadows(c: Config, sys: System, r: MutationResult, owner: LeaseOwner, now: int)
    requires Valid(c, sys) && r in sys.responses
    ensures var t := Next(c, sys, Receive(r, owner, now)).store;
            Shadows(t) == if Takes(sys, r, owner) then Shadows(sys.store)[r.record.value.id := r.record.value]
                          else Shadows(sys.store)
    ensures Takes(sys, r, owner) ==> Server.InLog(sys.server, r.record.value)
  {
    ResultsAreWellFormed(c, sys, r);
    var m := r.mutationId;
    var receipt := sys.server.receipts[(c.me, m)];
    assert Server.AnswerValid(sys.server, receipt.content, r);
    if Holds(sys.store, m, owner) {
      assert receipt.content == sys.content[m] == Wire(m, sys.store.outbox[m]);
      ResultShadows(sys.store, m, r, owner, now);
    }
  }

  lemma ResultShadows(s: Store, m: MutationId, r: MutationResult, owner: LeaseOwner, now: int)
    requires WellFormed(s, m, r) && Holds(s, m, owner) && r.current.None?
    requires r.record.Some? ==> r.record.value.id == s.outbox[m].key
    requires r.status == Invalid ==> r.record.None?
    requires r.status != Forbidden && r.status != IdempotencyKeyReused
    ensures Shadows(ApplyResult(s, m, r, owner, now))
         == if r.record.Some? then Shadows(s)[s.outbox[m].key := r.record.value] else Shadows(s)
  {
  }

  lemma {:induction false} EntriesFrame(log: Log, other: Log, a: nat, b: nat)
    requires a <= b && forall d: nat | a < d <= b :: d in log && d in other && other[d] == log[d]
    ensures Entries(other, a, b) == Entries(log, a, b)
    decreases b - a
  {
    if a < b {
      EntriesFrame(log, other, a + 1, b);
    }
  }

  /** What the client and the wire know of the server's log stays true as the log and the deliveries grow. */
  lemma KnowledgeStays(c: Config, sys: System, t: System, delivered: set<nat>, more: set<nat>)
    requires Server.LogValid(sys.server) && Server.LogValid(t.server) && Server.Grows(sys.server, t.server)
    requires Converging(c, sys, delivered)
    requires more <= UpTo(t.server.clock)
    ensures delivered + more <= UpTo(t.server.clock)
    ensures CursorCovered(c, t.server.clock, sys.store.pullCursor, delivered + more)
    ensures forall cursor | cursor in sys.asked :: CursorCovered(c, t.server.clock, cursor, delivered + more)
    ensures forall page | page in sys.pages :: PageExact(c, t.server, page, delivered + more)
  {
    forall page | page in sys.pages
      ensures PageExact(c, t.server, page, delivered + more)
    {
      assert PageExact(c, sys.server, page, delivered);
      EntriesFrame(sys.server.changes, t.server.changes, Start(page.cursor), page.response.nextCursor.payload.position);
    }
  }

  lemma NewestInGrownLog(shadows: map<NoteId, Snapshot>, s: Server.State, t: Server.State, delivered: set<nat>)
    requires NewestDelivered(shadows, s.changes, delivered) && Server.Grows(s, t)
    ensures NewestDelivered(shadows, t.changes, delivered)
  {
    forall k | k in shadows
      ensures Backed(shadows[k], t.changes, delivered, k)
    {
      assert Backed(shadows[k], s.changes, delivered, k);
      var d :| d in delivered && d in s.changes && s.changes[d] == shadows[k] && s.changes[d].id == k;
      assert d in t.changes && t.changes[d] == s.changes[d];
    }
  }

  lemma ServerStepConverges(c: Config, sys: System, t: System, delivered: set<nat>)
    requires Server.LogValid(sys.server) && Server.LogValid(t.server) && Server.Grows(sys.server, t.server)
    requires Converging(c, sys, delivered)
    requires (t.store, t.asked, t.pages) == (sys.store, sys.asked, sys.pages)
    ensures Converging(c, t, delivered)
  {
    KnowledgeStays(c, sys, t, delivered, {});
    assert delivered + {} == delivered;
    NewestInGrownLog(Shadows(sys.store), sys.server, t.server, delivered);
  }

  /** A step of the client alone: it may move the shadows by what it delivers, and the cursor. */
  lemma ClientStepConverges(c: Config, sys: System, t: System, delivered: set<nat>, more: set<nat>)
    requires Server.LogValid(sys.server) && Converging(c, sys, delivered)
    requires (t.server, t.pages) == (sys.server, sys.pages)
    requires t.asked <= sys.asked + {sys.store.pullCursor}
    requires more <= UpTo(sys.server.clock)
    requires NewestDelivered(Shadows(t.store), sys.server.changes, delivered + more)
    requires t.store.pullCursor == sys.store.pullCursor
             || CursorCovered(c, sys.server.clock, t.store.pullCursor, delivered + more)
    ensures Converging(c, t, delivered + more)
  {
    KnowledgeStays(c, sys, t, delivered, more);
  }

  lemma PageStepConverges(c: Config, sys: System, page: PageMessage, delivered: set<nat>)
    requires Server.LogValid(sys.server) && Converging(c, sys, delivered) && page in sys.pages
    ensures Converging(c, Next(c, sys, ReceivePage(page)), delivered + DeliveredBy(sys, ReceivePage(page)))
  {
    assert PageExact(c, sys.server, page, delivered);
    var a, b := Start(page.cursor), page.response.nextCursor.payload.position;
    PageDelivers(sys.store, sys.server.changes, delivered, a, b);
    var t := Next(c, sys, ReceivePage(page));
    assert Shadows(t.store) == Shadows(ApplyEach(sys.store, page.response.changes));
    assert Between(0, a) <= delivered;
    ClientStepConverges(c, sys, t, delivered, Between(a, b));
  }

  lemma ReceiveStepConverges(c: Config, sys: System, step: Step, delivered: set<nat>)
    requires Valid(c, sys) && Converging(c, sys, delivered)
    requires step.Receive? && Enabled(c, sys, step) && Orderly(sys, step)
    ensures Converging(c, Next(c, sys, step), delivered + DeliveredBy(sys, step))
  {
    var r := step.result;
    var more := DeliveredBy(sys, step);
    ReceiveShadows(c, sys, r, step.leaseOwner, step.now);
    if Takes(sys, r, step.leaseOwner) {
      var d :| 1 <= d <= sys.server.clock && d in sys.server.changes && sys.server.changes[d] == r.record.value;
      assert d in more;
      ShadowReplaced(Shadows(sys.store), sys.server.changes, delivered, r.record.value, more);
    } else {
      assert delivered + more == delivered;
    }
    ClientStepConverges(c, sys, Next(c, sys, step), delivered, more);
  }

  lemma ServedPageIsExact(c: Config, server: Server.State, cursor: Option<Token>, requested: Option<nat>, nonce: nat,
                          delivered: set<nat>)
    requires Server.LogValid(server) && CursorCovered(c, server.clock, cursor, delivered)
    ensures var reply := Pull(server, c.size, c.owner, cursor, requested, nonce);
            reply.Ok? ==> PageExact(c, server, PageMessage(cursor, reply.value), delivered)
  {
    var start := if cursor.None? then None else Some(Decode(cursor.value, c.owner).value);
    PageIsARun(server, c.size, Freeze(start, server.clock), Limit(requested));
  }

  lemma ServeStepConverges(c: Config, sys: System, step: Step, delivered: set<nat>)
    requires Server.LogValid(sys.server) && Converging(c, sys, delivered)
    requires step.ServePull? && Enabled(c, sys, step)
    ensures Converging(c, Next(c, sys, step), delivered)
  {
    ServedPageIsExact(c, sys.server, step.cursor, step.requested, step.nonce, delivered);
  }

  lemma QuietStepConverges(c: Config, sys: System, step: Step, delivered: set<nat>)
    requires Server.LogValid(sys.server) && Converging(c, sys, delivered)
    requires Enabled(c, sys, step) && Orderly(sys, step)
    requires !step.Receive? && !step.ReceivePage? && !step.ServePull? && !step.Deliver? && !step.OtherClient?
    ensures Converging(c, Next(c, sys, step), delivered)
  {
    QuietShadows(c, sys, step);
    assert delivered + {} == delivered;
    ClientStepConverges(c, sys, Next(c, sys, step), delivered, {});
  }

  lemma StepConverges(c: Config, sys: System, step: Step, delivered: set<nat>)
    requires Valid(c, sys) && Converging(c, sys, delivered)
    requires Enabled(c, sys, step) && Orderly(sys, step)
    ensures Converging(c, Next(c, sys, step), delivered + DeliveredBy(sys, step))
  {
    if step.ReceivePage? {
      PageStepConverges(c, sys, step.page, delivered);
    } else if step.Receive? {
      ReceiveStepConverges(c, sys, step, delivered);
    } else {
      assert delivered + DeliveredBy(sys, step) == delivered;
      if step.ServePull? {
        ServeStepConverges(c, sys, step, delivered);
      } else if step.Deliver? {
        Server.ApplyKeepsLog(sys.server, c.me, step.request);
        ServerStepConverges(c, sys, Next(c, sys, step), delivered);
      } else if step.OtherClient? {
        Server.ApplyKeepsLog(sys.server, step.client, step.mutation);
        ServerStepConverges(c, sys, Next(c, sys, step), delivered);
      } else {
        QuietStepConverges(c, sys, step, delivered);
      }
    }
  }

  // Runs -------------------------------------------------------------------

  ghost predicate OrderlyRun(c: Config, sys: System, steps: seq<Step>, end: System)
    decreases steps
  {
    if steps == [] then end == sys
    else Enabled(c, sys, steps[0]) && Orderly(sys, steps[0]) && OrderlyRun(c, Next(c, sys, steps[0]), steps[1..], end)
  }

  /** The log positions delivered in a run, on top of those delivered before it. */
  ghost function Delivered(c: Config, sys: System, steps: seq<Step>, end: System, before: set<nat>): set<nat>
    requires OrderlyRun(c, sys, steps, end)
    decreases steps
  {
    if steps == [] then before
    else Delivered(c, Next(c, sys, steps[0]), steps[1..], end, before + DeliveredBy(sys, steps[0]))
  }

  lemma {:induction false} RunConverges(c: Config, sys: System, steps: seq<Step>, end: System, before: set<nat>)
    requires Valid(c, sys) && Converging(c, sys, before) && OrderlyRun(c, sys, steps, end)
    ensures Valid(c, end) && Converging(c, end, Delivered(c, sys, steps, end, before))
    decreases steps
  {
    if steps != [] {
      StepKeepsValid(c, sys, steps[0]);
      StepConverges(c, sys, steps[0], before);
      RunConverges(c, Next(c, sys, steps[0]), steps[1..], end, before + DeliveredBy(sys, steps[0]));
    }
  }

  // Consequences -----------------------------------------------------------

  /** When exactly the first h entries have been delivered, the shadows are the state they describe. */
  lemma PrefixDeliveredIsReplay(s: Server.State, shadows: map<NoteId, Snapshot>, h: nat)
    requires Server.LogValid(s) && h <= s.clock
    requires NewestDelivered(shadows, s.changes, UpTo(h))
    ensures shadows == Server.Replay(s.changes, h)
  {
    var replay := Server.Replay(s.changes, h);
    forall k
      ensures k in shadows <==> k in replay
      ensures k in shadows ==> shadows[k] == replay[k]
    {
      var n := Server.ReplayFindsNewest(s.changes, h, k);
      if k in replay {
        assert n in UpTo(h);
      }
      if k in shadows {
        assert Backed(shadows[k], s.changes, UpTo(h), k);
        var d :| d in UpTo(h) && d in s.changes && s.changes[d] == shadows[k] && s.changes[d].id == k;
        assert k in replay && d <= n;
        if d < n {
          Server.LaterEntryIsNewer(s, d, n);
        }
      }
    }
  }

  /** Once everything up to h is delivered, no shadow is behind the state at h. */
  lemma NoShadowIsBehind(s: Server.State, shadows: map<NoteId, Snapshot>, delivered: set<nat>, h: nat)
    requires Server.LogValid(s) && h <= s.clock
    requires NewestDelivered(shadows, s.changes, delivered) && UpTo(h) <= delivered
    ensures forall k | k in Server.Replay(s.changes, h) ::
              k in shadows && Server.Replay(s.changes, h)[k].version <= shadows[k].version
  {
    forall k | k in Server.Replay(s.changes, h)
      ensures k in shadows && Server.Replay(s.changes, h)[k].version <= shadows[k].version
    {
      var n := Server.ReplayFindsNewest(s.changes, h, k);
      assert n in UpTo(h);
    }
  }

  /** The shadows against the state that the log describes at the client's cursor. */
  ghost predicate LevelWithCursor(s: Server.State, shadows: map<NoteId, Snapshot>, cursor: Option<Token>, delivered: set<nat>)
    requires Server.LogValid(s)
  {
    cursor.Some? ==>
      && cursor.value.Sealed?
      && var h := cursor.value.payload.position;
      && 0 <= h <= s.clock
      && (forall k | k in Server.Replay(s.changes, h) ::
            k in shadows && Server.Replay(s.changes, h)[k].version <= shadows[k].version)
      && (delivered <= UpTo(h) <==> shadows == Server.Replay(s.changes, h))
  }

  lemma CoveredIsLevel(c: Config, s: Server.State, shadows: map<NoteId, Snapshot>, cursor: Option<Token>, delivered: set<nat>)
    requires Server.LogValid(s)
    requires NewestDelivered(shadows, s.changes, delivered) && CursorCovered(c, s.clock, cursor, delivered)
    ensures LevelWithCursor(s, shadows, cursor, delivered)
  {
    if cursor.Some? {
      var h := cursor.value.payload.position;
      NoShadowIsBehind(s, shadows, delivered, h);
      if delivered <= UpTo(h) {
        assert delivered == UpTo(h);
        PrefixDeliveredIsReplay(s, shadows, h);
      }
      if shadows == Server.Replay(s.changes, h) {
        NothingBeyondReplay(s, delivered, h);
      }
    }
  }

  /** Shadows that are the state at h show that nothing after h was delivered. */
  lemma NothingBeyondReplay(s: Server.State, delivered: set<nat>, h: nat)
    requires Server.LogValid(s) && h <= s.clock
    requires NewestDelivered(Server.Replay(s.changes, h), s.changes, delivered)
    ensures delivered <= UpTo(h)
  {
    forall d | d in delivered
      ensures d in UpTo(h)
    {
      var n := Server.ReplayFindsNewest(s.changes, h, s.changes[d].id);
      if h < d {
        Server.LaterEntryIsNewer(s, n, d);
      }
    }
  }

  /**
   * In every orderly run each shadow is the newest entry delivered for its note, and
   * everything before the cursor has been delivered. Hence no shadow is behind the state
   * at the cursor, and the shadows are that state exactly when nothing after it was
   * delivered.
   */
  lemma PullsConverge(c: Config, steps: seq<Step>, end: System)
    requires OrderlyRun(c, INITIAL, steps, end)
    ensures var delivered := Delivered(c, INITIAL, steps, end, {});
            && Server.LogValid(end.server)
            && NewestDelivered(Shadows(end.store), end.server.changes, delivered)
            && CursorCovered(c, end.server.clock, end.store.pullCursor, delivered)
            && LevelWithCursor(end.server, Shadows(end.store), end.store.pullCursor, delivered)
  {
    InitialConverges(c);
    RunConverges(c, INITIAL, steps, end, {});
    CoveredIsLevel(c, end.server, Shadows(end.store), end.store.pullCursor, Delivered(c, INITIAL, steps, end, {}));
  }

  lemma InitialConverges(c: Config)
    ensures Valid(c, INITIAL) && Converging(c, INITIAL, {})
  {
    InitialValid(c);
    assert Shadows(INITIAL.store) == map[];
  }

  /** A page that says it is caught up leaves the cursor at the scan's high water. */
  lemma CaughtUpAtHighWater(c: Config, sys: System, page: PageMessage, delivered: set<nat>)
    requires Server.LogValid(sys.server) && Converging(c, sys, delivered)
    requires page in sys.pages && page.response.caughtUp
    ensures var t := Next(c, sys, ReceivePage(page));
            && t.store.pullCursor == Some(page.response.nextCursor)
            && page.response.nextCursor.payload.position == page.response.nextCursor.payload.highWater
            && UpTo(page.response.nextCursor.payload.highWater) <= delivered + DeliveredBy(sys, ReceivePage(page))
  {
    PageStepConverges(c, sys, page, delivered);
  }

  /**
   * Taking a result keeps the shadows the newest delivered entries exactly when the
   * result is not older than the shadow: otherwise a change the cursor has passed is lost.
   */
  lemma StaleResultLosesAChange(c: Config, sys: System, r: MutationResult, owner: LeaseOwner, now: int, delivered: set<nat>)
    requires Valid(c, sys) && Converging(c, sys, delivered)
    requires r in sys.responses && Takes(sys, r, owner)
    ensures var step := Receive(r, owner, now);
            NewestDelivered(Shadows(Next(c, sys, step).store), sys.server.changes, delivered + DeliveredBy(sys, step))
            <==> Orderly(sys, step)
  {
    var step := Receive(r, owner, now);
    ReceiveShadows(c, sys, r, owner, now);
    if Orderly(sys, step) {
      ReceiveStepConverges(c, sys, step, delivered);
    } else {
      var k := r.record.value.id;
      assert Backed(Shadows(sys.store)[k], sys.server.changes, delivered, k);
      var d :| d in delivered && d in sys.server.changes && sys.server.changes[d] == Shadows(sys.store)[k]
               && sys.server.changes[d].id == k;
      assert d in delivered + DeliveredBy(sys, step);
    }
  }

  /** Discarding keeps the shadows the newest delivered entries exactly when it does not drop a tombstone. */
  lemma DiscardLosesATombstone(s: Store, k: NoteId, log: Log, delivered: set<nat>)
    requires NewestDelivered(Shadows(s), log, delivered)
    ensures NewestDelivered(Shadows(DiscardLocalVersion(s, k)), log, delivered)
            <==> (ConfirmedOf(s, k).Some? ==> !ConfirmedOf(s, k).value.deleted)
  {
    ResolveShadows(s, k);
    if ConfirmedOf(s, k).Some? && ConfirmedOf(s, k).value.deleted {
      assert Backed(Shadows(s)[k], log, delivered, k);
      assert k !in Shadows(DiscardLocalVersion(s, k));
    }
  }

  /** The hypothesis of all runs is exact: a step keeps the shadows the newest delivered entries if and only if it is orderly. */
  lemma OrderlyIsExact(c: Config, sys: System, step: Step, delivered: set<nat>)
    requires Valid(c, sys) && Converging(c, sys, delivered) && Enabled(c, sys, step)
    ensures var t := Next(c, sys, step);
            NewestDelivered(Shadows(t.store), t.server.changes, delivered + DeliveredBy(sys, step)) <==> Orderly(sys, step)
  {
    if Orderly(sys, step) {
      StepConverges(c, sys, step, delivered);
    } else if step.Receive? {
      StaleResultLosesAChange(c, sys, step.result, step.leaseOwner, step.now, delivered);
    } else {
      DiscardLosesATombstone(sys.store, step.k, sys.server.changes, delivered);
      assert delivered + {} == delivered;
    }
  }

  // Pulls one after the other -----------------------------------------------

  /**
   * A client that pulls one page after the other: the page its request was answered with,
   * if it has not taken it yet, and whether no result was taken since the high water of
   * that page, and of the client's cursor, was frozen.
   */
  datatype Puller = Puller(waiting: Option<PageMessage>, pageIsPure: bool, pure: bool)

  const IDLE := Puller(None, true, true)

  /** The cursor begins a new scan, whose high water is the clock when it is served. */
  predicate BeginsScan(cursor: Option<Token>) {
    cursor.Some? && cursor.value.Sealed? ==> cursor.value.payload.position >= cursor.value.payload.highWater
  }

  function Served(c: Config, sys: System, cursor: Option<Token>, requested: Option<nat>, nonce: nat): Option<PageMessage> {
    match Pull(sys.server, c.size, c.owner, cursor, requested, nonce)
    case Ok(response) => Some(PageMessage(cursor, response))
    case Err(_) => None
  }

  function Watch(c: Config, sys: System, p: Puller, step: Step): Puller {
    match step
    case ServePull(cursor, requested, nonce) =>
      if cursor == sys.store.pullCursor && Served(c, sys, cursor, requested, nonce).Some? then
        p.(waiting := Served(c, sys, cursor, requested, nonce), pageIsPure := BeginsScan(cursor) || p.pure)
      else p
    case ReceivePage(_) => Puller(None, true, p.pageIsPure)
    case ResetPullCursor => IDLE
    case Receive(r, owner, _) => if Takes(sys, r, owner) then p.(pageIsPure := false, pure := false) else p
    case _ => p
  }

  /** The client takes only the page it is waiting for. */
  predicate InTurn(p: Puller, step: Step) { step.ReceivePage? ==> p.waiting == Some(step.page) }

  /** Any writes, losses, resets and pushes, with pages taken one after the other. */
  ghost predicate SequentialRun(c: Config, sys: System, p: Puller, steps: seq<Step>, end: System, q: Puller)
    decreases steps
  {
    if steps == [] then end == sys && q == p
    else
      && Enabled(c, sys, steps[0]) && Orderly(sys, steps[0]) && InTurn(p, steps[0])
      && SequentialRun(c, Next(c, sys, steps[0]), Watch(c, sys, p, steps[0]), steps[1..], end, q)
  }

  ghost predicate WithinScan(sys: System, p: Puller, delivered: set<nat>) {
    && (p.pure && sys.store.pullCursor.Some? ==>
          sys.store.pullCursor.value.Sealed? && delivered <= Before(sys.store.pullCursor.value.payload.highWater))
    && (p.waiting.Some? ==>
          && p.waiting.value in sys.pages && p.waiting.value.cursor == sys.store.pullCursor
          && (p.pageIsPure ==>
                && p.waiting.value.response.nextCursor.Sealed?
                && delivered <= Before(p.waiting.value.response.nextCursor.payload.highWater)))
  }

  function Before(n: int): set<nat> { if n < 0 then {} else UpTo(n) }

  lemma ServeStaysWithin(c: Config, sys: System, p: Puller, step: Step, delivered: set<nat>)
    requires Server.LogValid(sys.server) && Converging(c, sys, delivered) && WithinScan(sys, p, delivered)
    requires step.ServePull? && Enabled(c, sys, step)
    ensures WithinScan(Next(c, sys, step), Watch(c, sys, p, step), delivered)
  {
    ServedPageIsExact(c, sys.server, step.cursor, step.requested, step.nonce, delivered);
  }

  lemma PageStaysWithin(c: Config, sys: System, p: Puller, page: PageMessage, delivered: set<nat>)
    requires Server.LogValid(sys.server) && Converging(c, sys, delivered) && WithinScan(sys, p, delivered)
    requires p.waiting == Some(page)
    ensures WithinScan(Next(c, sys, ReceivePage(page)), Watch(c, sys, p, ReceivePage(page)),
                       delivered + DeliveredBy(sys, ReceivePage(page)))
  {
    assert PageExact(c, sys.server, page, delivered);
  }

  lemma StepStaysWithin(c: Config, sys: System, p: Puller, step: Step, delivered: set<nat>)
    requires Server.LogValid(sys.server) && Converging(c, sys, delivered) && WithinScan(sys, p, delivered)
    requires Enabled(c, sys, step) && InTurn(p, step)
    ensures WithinScan(Next(c, sys, step), Watch(c, sys, p, step), delivered + DeliveredBy(sys, step))
  {
    if step.ReceivePage? {
      PageStaysWithin(c, sys, p, step.page, delivered);
    } else if step.Receive? {
      ReceiveStaysWithin(c, sys, p, step, delivered);
    } else {
      assert delivered + DeliveredBy(sys, step) == delivered;
      if step.ServePull? {
        ServeStaysWithin(c, sys, p, step, delivered);
      } else {
        QuietStaysWithin(c, sys, p, step, delivered);
      }
    }
  }

  lemma QuietStaysWithin(c: Config, sys: System, p: Puller, step: Step, delivered: set<nat>)
    requires WithinScan(sys, p, delivered) && Enabled(c, sys, step)
    requires !step.ReceivePage? && !step.Receive? && !step.ServePull?
    ensures WithinScan(Next(c, sys, step), Watch(c, sys, p, step), delivered)
  {
  }

  lemma ReceiveStaysWithin(c: Config, sys: System, p: Puller, step: Step, delivered: set<nat>)
    requires WithinScan(sys, p, delivered) && step.Receive? && Enabled(c, sys, step)
    ensures WithinScan(Next(c, sys, step), Watch(c, sys, p, step), delivered + DeliveredBy(sys, step))
  {
    if !Takes(sys, step.result, step.leaseOwner) {
      assert delivered + DeliveredBy(sys, step) == delivered;
    }
  }

  lemma {:induction false} SequentialRunStaysWithin(c: Config, sys: System, p: Puller, steps: seq<Step>, end: System, q: Puller,
                                                    before: set<nat>) returns (delivered: set<nat>)
    requires Valid(c, sys) && Converging(c, sys, before) && WithinScan(sys, p, before)
    requires SequentialRun(c, sys, p, steps, end, q)
    ensures Valid(c, end) && Converging(c, end, delivered) && WithinScan(end, q, delivered)
    decreases steps
  {
    delivered := before;
    if steps != [] {
      StepKeepsValid(c, sys, steps[0]);
      StepConverges(c, sys, steps[0], before);
      StepStaysWithin(c, sys, p, steps[0], before);
      delivered := SequentialRunStaysWithin(c, Next(c, sys, steps[0]), Watch(c, sys, p, steps[0]), steps[1..], end, q,
                                            before + DeliveredBy(sys, steps[0]));
    }
  }

  /**
   * Whenever a scan is caught up at h, the shadows are exactly the state that the log
   * describes at h, whatever was written, lost or reset meanwhile: provided the pages were
   * taken one after the other and no result was taken since h was frozen.
   */
  lemma CaughtUpIsReplay(c: Config, steps: seq<Step>, end: System, q: Puller)
    requires SequentialRun(c, INITIAL, IDLE, steps, end, q) && q.pure
    requires end.store.pullCursor.Some? && BeginsScan(end.store.pullCursor)
    ensures Server.LogValid(end.server)
    ensures var cursor := end.store.pullCursor.value;
            && cursor.Sealed? && 0 <= cursor.payload.position == cursor.payload.highWater <= end.server.clock
            && Shadows(end.store) == Server.Replay(end.server.changes, cursor.payload.highWater)
  {
    InitialConverges(c);
    var delivered := SequentialRunStaysWithin(c, INITIAL, IDLE, steps, end, q, {});
    CoveredIsLevel(c, end.server, Shadows(end.store), end.store.pullCursor, delivered);
  }

  /** A client that only pulls needs no proviso. */
  lemma {:induction false} PullingStaysPure(c: Config, sys: System, p: Puller, steps: seq<Step>, end: System, q: Puller)
    requires SequentialRun(c, sys, p, steps, end, q) && p.pure && p.pageIsPure
    requires forall i | 0 <= i < |steps| :: !steps[i].Receive?
    ensures q.pure
    decreases steps
  {
    if steps != [] {
      assert !steps[0].Receive?;
      PullingStaysPure(c, Next(c, sys, steps[0]), Watch(c, sys, p, steps[0]), steps[1..], end, q);
    }
  }

  // A lone client ----------------------------------------------------------

  /** A lone client never receives a result that is older than the shadow it replaces. */
  lemma LoneStepIsOrderly(c: Config, sys: System, step: Step)
    requires LoneValid(c, sys, false) && Lone(step) && Enabled(c, sys, step)
    ensures Orderly(sys, step)
  {
    if step.Receive? && Takes(sys, step.result, step.leaseOwner) {
      var r := step.result;
      var m := r.mutationId;
      var receipt := sys.server.receipts[(c.me, m)];
      assert Server.AnswerValid(sys.server, receipt.content, r);
      assert receipt.content == sys.content[m] == Wire(m, sys.store.outbox[m]);
      assert OpShape(sys.store, m);
      assert HeadCurrent(c.me, sys.server, m, sys.store.outbox[m], false);
      assert ShadowBehind(sys.store, sys.server, sys.store.outbox[m].key, false);
      if r.status == Gone {
        Server.TombstoneIsFinal(sys.server, r.record.value);
      }
    }
  }

  /** So for a lone client pushes never disturb convergence: all its runs are orderly. */
  lemma {:induction false} LoneRunIsOrderly(c: Config, sys: System, steps: seq<Step>, end: System)
    requires LoneValid(c, sys, false) && Runs(c, sys, steps, end)
    requires forall i | 0 <= i < |steps| :: Lone(steps[i])
    ensures OrderlyRun(c, sys, steps, end)
    decreases steps
  {
    if steps != [] {
      StepKeepsLone(c, sys, steps[0], false);
      LoneStepIsOrderly(c, sys, steps[0]);
      LoneRunIsOrderly(c, Next(c, sys, steps[0]), steps[1..], end);
    }
  }

  /** A shadow level with the server is the server's record. */
  lemma LevelShadowIsRecord(s: Server.State, shadows: map<NoteId, Snapshot>, delivered: set<nat>, k: NoteId)
    requires Server.LogValid(s) && NewestDelivered(shadows, s.changes, delivered) && k in shadows
    requires k in s.records && shadows[k].version == s.records[k].version
    ensures shadows[k] == Server.SnapshotOf(k, s.records[k])
  {
    assert Backed(shadows[k], s.changes, delivered, k);
    var d :| d in delivered && d in s.changes && s.changes[d] == shadows[k] && s.changes[d].id == k;
    assert Server.InLog(s, shadows[k]);
    Server.LoggedIsNotNewer(s, shadows[k]);
  }

  /** The note is exactly as the server has it. */
  ghost predicate LevelWithServer(s: Store, server: Server.State, k: NoteId) {
    && (k in Shadows(s) <==> k in server.records)
    && (k in Shadows(s) ==> Shadows(s)[k] == Server.SnapshotOf(k, server.records[k]))
  }

  ghost predicate IdleNotesAreLevel(s: Store, server: Server.State) {
    forall k :: EntityOps(s.outbox, k) == {} ==> LevelWithServer(s, server, k)
  }

  lemma LoneNotesAreLevel(c: Config, sys: System, delivered: set<nat>)
    requires Server.LogValid(sys.server) && ShadowsBehind(sys.store, sys.server, false)
    requires NewestDelivered(Shadows(sys.store), sys.server.changes, delivered)
    ensures IdleNotesAreLevel(sys.store, sys.server)
  {
    forall k | EntityOps(sys.store.outbox, k) == {}
      ensures LevelWithServer(sys.store, sys.server, k)
    {
      assert ShadowBehind(sys.store, sys.server, k, false);
      if k in Shadows(sys.store) {
        LevelShadowIsRecord(sys.server, Shadows(sys.store), delivered, k);
      }
    }
  }

  lemma IdleIsReplay(s: Store, server: Server.State)
    requires Server.LogValid(server) && IdleNotesAreLevel(s, server) && s.outbox == map[]
    ensures Shadows(s) == Server.Replay(server.changes, server.clock)
  {
    var stored := map id | id in server.records :: Server.SnapshotOf(id, server.records[id]);
    assert Server.Replay(server.changes, server.clock) == stored;
    forall k: NoteId
      ensures k in Shadows(s) <==> k in stored
      ensures k in Shadows(s) ==> Shadows(s)[k] == stored[k]
    {
      assert EntityOps(s.outbox, k) == {};
      assert LevelWithServer(s, server, k);
    }
  }

  /**
   * Pushes and pulls of a lone client together, however they interleave: each note with nothing
   * queued is exactly as the server has it, and with an empty outbox the shadows are exactly the
   * state the whole log describes.
   */
  lemma LoneClientConverges(c: Config, steps: seq<Step>, end: System)
    requires Runs(c, INITIAL, steps, end)
    requires forall i | 0 <= i < |steps| :: Lone(steps[i])
    ensures OrderlyRun(c, INITIAL, steps, end) && Server.LogValid(end.server)
    ensures IdleNotesAreLevel(end.store, end.server)
    ensures end.store.outbox == map[] ==> Shadows(end.store) == Server.Replay(end.server.changes, end.server.clock)
  {
    InitialLone(c, false);
    InitialConverges(c);
    LoneRunIsOrderly(c, INITIAL, steps, end);
    RunKeepsLone(c, INITIAL, steps, end, false);
    RunConverges(c, INITIAL, steps, end, {});
    LoneNotesAreLevel(c, end, Delivered(c, INITIAL, steps, end, {}));
    if end.store.outbox == map[] {
      IdleIsReplay(end.store, end.server);
    }
  }
}
