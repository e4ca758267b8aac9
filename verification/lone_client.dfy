/**
 * A client that is the only writer, never gives back a push it has sent, and never
 * overrides its own queue: what the server can answer it.
 */
module LoneClient {
  import opened SyncTypes
  import opened LocalStore
  import opened StoreShape
  import opened StoreSteps
  import opened Protocol
  import Decimal
  import Server

  predicate Lone(step: Step) {
    !step.ReleaseSent? && !step.AcceptServer? && !step.DiscardLocal? && !step.OtherClient?
  }

  function ServerVersion(s: Server.State, k: NoteId): Option<nat> {
    if k in s.records then Some(s.records[k].version) else None
  }

  function ShadowVersion(s: Store, k: NoteId): Option<nat> {
    if ConfirmedOf(s, k).Some? then Some(ConfirmedOf(s, k).value.version) else None
  }

  /** A deleted note stays deleted: whatever is sent for it is answered gone. */
  predicate Dead(server: Server.State, k: NoteId) { k in server.records && server.records[k].deleted }

  /** Neither may anything be written any more ... */
  predicate Frozen(server: Server.State) { server.clock >= I64_MAX }

  /** ... nor edited. */
  predicate Closed(s: Store) { s.nextSeq > MAX_LOCAL_SEQUENCE }

  predicate Answered(me: ClientId, server: Server.State, m: MutationId) { (me, m) in server.receipts }

  // The invariant has two readings. Strictly it says what holds as long as every step is
  // Lone. The lax reading allows what a client may give back or drop without harm.

  /**
   * The undependent operation of a note either starts from the server's current version
   * or has been answered: applied as the server's current version, or gone.
   */
  predicate HeadCurrent(me: ClientId, server: Server.State, m: MutationId, op: Op, lax: bool) {
    if Answered(me, server, m) then
      var result := server.receipts[(me, m)].result;
      && (result.status == Gone || result.status == Applied)
      && (result.status == Applied ==>
            result.record.Some? && ServerVersion(server, op.key) == Some(result.record.value.version))
      && (result.status == Gone ==>
            && (op.key in server.records ==> Dead(server, op.key))
            && (op.baseVersion == ServerVersion(server, op.key) || (lax && Dead(server, op.key))))
    else op.baseVersion == ServerVersion(server, op.key) || (lax && Dead(server, op.key))
  }

  ghost predicate HeadsCurrent(me: ClientId, server: Server.State, outbox: map<MutationId, Op>, lax: bool) {
    forall m | m in outbox && IsHead(outbox[m]) :: HeadCurrent(me, server, m, outbox[m], lax)
  }

  predicate Exposed(sys: System, m: MutationId) {
    |HeldOf(sys, m)| + SendsOf(sys, m) > 0
  }

  predicate Covered(sys: System, m: MutationId, op: Op) {
    |HeldOf(sys, m)| + SendsOf(sys, m) <= op.attempts
  }

  /** What an edit that replaces the operation would start from. */
  function ReplacementBase(s: Store, op: Op): Option<nat> {
    if op.baseVersion.Some? then op.baseVersion else ShadowVersion(s, op.key)
  }

  /** Never to be replaced again: from here attempts cannot fall back to none. */
  predicate Worn(op: Op) {
    !(op.status == Queued && op.attempts == 0) && !(op.status == Inflight && op.attempts <= 1)
  }

  /** Why more may be on its way than the attempts of an operation say. */
  predicate Excused(me: ClientId, server: Server.State, s: Store, m: MutationId)
    requires m in s.outbox
  {
    var op := s.outbox[m];
    || Dead(server, op.key)
    || Closed(s)
    || Worn(op)
    || (if Answered(me, server, m) then ReplacementBase(s, op) == ServerVersion(server, op.key) else Frozen(server))
  }

  /** Attempts cover every claim that was sent or may still be sent. */
  ghost predicate AttemptsCover(me: ClientId, sys: System, s: Store, lax: bool) {
    forall m | m in s.outbox ::
      Covered(sys, m, s.outbox[m]) || (lax && IsHead(s.outbox[m]) && Excused(me, sys.server, s, m))
  }

  predicate IsCurrent(server: Server.State, r: Mutation) {
    r.baseVersion == Decimal.PrintVersion(ServerVersion(server, r.id))
  }

  /** The only request on its way for a note that has no operations. */
  ghost predicate Orphaned(me: ClientId, sys: System, s: Store, m: MutationId)
    requires m in sys.content
  {
    && EntityOps(s.outbox, sys.content[m].id) == {}
    && forall n | n in sys.content && Exposed(sys, n) && n != m && n !in s.outbox && !Answered(me, sys.server, n) ::
         sys.content[n].id != sys.content[m].id
  }

  /** Why a request may be on its way although its operation is gone. */
  ghost predicate Stray(me: ClientId, sys: System, s: Store, m: MutationId) {
    && m in sys.content
    && (|| Dead(sys.server, sys.content[m].id)
        || (&& IsCurrent(sys.server, sys.content[m])
            && (Frozen(sys.server) || (Closed(s) && Orphaned(me, sys, s, m)))))
  }

  /** Whatever may reach the server is answered already or is a head of the outbox. */
  ghost predicate ExposedKnown(me: ClientId, sys: System, s: Store, lax: bool) {
    forall m | Exposed(sys, m) ::
      Answered(me, sys.server, m) || (m in s.outbox && IsHead(s.outbox[m])) || (lax && Stray(me, sys, s, m))
  }

  ghost predicate SentCounted(c: Config, sys: System) {
    && (forall r | r in sys.requests :: SendsOf(sys, r.mutationId) > 0)
    && (forall m | m in sys.sends :: m in sys.content && (sys.sends[m] > 0 ==> sys.content[m] in sys.requests))
    && (forall m | (c.me, m) in sys.server.receipts :: m in sys.content && sys.content[m] in sys.requests)
  }

  predicate NotAhead(s: Store, server: Server.State, k: NoteId) {
    ShadowVersion(s, k).Some? ==>
      k in server.records && ShadowVersion(s, k).value <= server.records[k].version
  }

  /** No shadow is ahead of the server, and the shadow of a note with nothing queued is level with it. */
  ghost predicate ShadowBehind(s: Store, server: Server.State, k: NoteId, lax: bool) {
    && NotAhead(s, server, k)
    && (EntityOps(s.outbox, k) == {} ==>
          ShadowVersion(s, k) == ServerVersion(server, k) || (lax && (Dead(server, k) || Closed(s))))
  }

  ghost predicate ShadowsBehind(s: Store, server: Server.State, lax: bool) {
    forall k :: ShadowBehind(s, server, k, lax)
  }

  ghost predicate AllLogged(server: Server.State, changes: seq<Snapshot>) {
    forall i | 0 <= i < |changes| :: Server.InLog(server, changes[i])
  }

  ghost predicate PagesLogged(server: Server.State, pages: set<PageMessage>) {
    forall page | page in pages :: AllLogged(server, page.response.changes)
  }

  predicate AnsweredWell(me: ClientId, server: Server.State) {
    forall key | key in server.receipts && key.0 == me ::
      server.receipts[key].result.status == Applied || server.receipts[key].result.status == Gone
  }

  predicate ContentValid(content: map<MutationId, Mutation>) {
    forall m | m in content :: Server.ValidMutation(content[m])
  }

  ghost predicate LanesCurrent(c: Config, sys: System, lax: bool) {
    && HeadsCurrent(c.me, sys.server, sys.store.outbox, lax)
    && AttemptsCover(c.me, sys, sys.store, lax)
    && ExposedKnown(c.me, sys, sys.store, lax)
    && ShadowsBehind(sys.store, sys.server, lax)
  }

  ghost predicate WireCurrent(c: Config, sys: System) {
    && SentCounted(c, sys)
    && PagesLogged(sys.server, sys.pages)
    && AnsweredWell(c.me, sys.server)
    && ContentValid(sys.content)
    && sys.server.clock <= I64_MAX
  }

  ghost predicate LoneValid(c: Config, sys: System, lax: bool) {
    Valid(c, sys) && LanesCurrent(c, sys, lax) && WireCurrent(c, sys)
  }

  lemma ExposedHasContent(c: Config, sys: System, m: MutationId)
    requires SentCounted(c, sys) && HeldFixed(sys.held, sys.content) && Exposed(sys, m)
    ensures m in sys.content
  {
  }

  // Steps of the store -----------------------------------------------------

  lemma IssuedIsUntouched(c: Config, sys: System, lax: bool)
    requires LoneValid(c, sys, lax)
    ensures var m := sys.store.issued; !Answered(c.me, sys.server, m) && !Exposed(sys, m) && m !in sys.store.outbox
  {
    var m := sys.store.issued;
    IssuedIsFresh(sys.store);
    assert OutboxFixed(sys.store, sys.content) && HeldFixed(sys.held, sys.content);
    assert ReceiptsFixed(c.me, sys.server.receipts, sys.content);
    assert m !in sys.content;
  }

  /** The oldest of a note's operations that an edit replaces starts from the server's version, or it does not matter. */
  lemma ReplacedIsCurrent(c: Config, sys: System, o: MutationId, lax: bool)
    requires SentCounted(c, sys) && OutboxFixed(sys.store, sys.content) && LanesCurrent(c, sys, lax)
    requires o in sys.store.outbox && IsHead(sys.store.outbox[o]) && Replaceable(sys.store.outbox[o]) && !Closed(sys.store)
    ensures var op := sys.store.outbox[o];
            || (ReplacementBase(sys.store, op) == ServerVersion(sys.server, op.key)
                && (op.baseVersion.None? ==> ServerVersion(sys.server, op.key) == ShadowVersion(sys.store, op.key)))
            || (lax && Dead(sys.server, op.key))
  {
    var op := sys.store.outbox[o];
    assert ShadowBehind(sys.store, sys.server, op.key, lax);
    assert HeadCurrent(c.me, sys.server, o, op, lax);
  }

  /** A queued edit that depends on nothing starts from the server's current version. */
  lemma QueueBaseIsCurrent(c: Config, sys: System, k: NoteId, lax: bool)
    requires LoneValid(c, sys, lax) && QueueRefusal(sys.store, k).None?
    ensures QueueDependency(sys.store, k).None? ==>
              QueueBase(sys.store, k) == ServerVersion(sys.server, k) || (lax && Dead(sys.server, k))
  {
    var s := sys.store;
    QueueFinds(s, k);
    assert ShadowBehind(s, sys.server, k, lax);
    if QueueDependency(s, k).None? && EntityOps(s.outbox, k) != {} {
      var m :| m in EntityOps(s.outbox, k);
      assert m in ReplaceableOps(s.outbox, k);
      var o := Oldest(s.outbox, ReplaceableOps(s.outbox, k)).value;
      assert IsHead(s.outbox[o]);
      ReplacedIsCurrent(c, sys, o, lax);
    }
  }

  /** What an edit does to the others of the invariant. */
  ghost predicate EditFacts(me: ClientId, sys: System, k: NoteId, lax: bool) {
    var s := sys.store;
    && !Closed(s) && !Answered(me, sys.server, s.issued) && !Exposed(sys, s.issued) && s.issued !in s.outbox
    && (QueueDependency(s, k).None? ==> QueueBase(s, k) == ServerVersion(sys.server, k) || (lax && Dead(sys.server, k)))
  }

  lemma QueueKeepsHeads(me: ClientId, sys: System, k: NoteId, action: Action, value: Option<Note>, now: int, lax: bool)
    requires HeadsCurrent(me, sys.server, sys.store.outbox, lax) && EditFacts(me, sys, k, lax)
    ensures HeadsCurrent(me, sys.server, Queue(sys.store, k, action, value, now).outbox, lax)
  {
  }

  lemma QueueKeepsCover(me: ClientId, sys: System, k: NoteId, action: Action, value: Option<Note>, now: int, lax: bool)
    requires AttemptsCover(me, sys, sys.store, lax) && EditFacts(me, sys, k, lax)
    ensures AttemptsCover(me, sys, Queue(sys.store, k, action, value, now), lax)
  {
    var t := Queue(sys.store, k, action, value, now);
    assert forall j :: ShadowVersion(t, j) == ShadowVersion(sys.store, j);
  }

  lemma QueueKeepsExposed(me: ClientId, sys: System, k: NoteId, action: Action, value: Option<Note>, now: int, lax: bool)
    requires HeadsCurrent(me, sys.server, sys.store.outbox, lax)
    requires ExposedKnown(me, sys, sys.store, lax) && AttemptsCover(me, sys, sys.store, lax)
    requires OutboxFixed(sys.store, sys.content) && EditFacts(me, sys, k, lax)
    ensures ExposedKnown(me, sys, Queue(sys.store, k, action, value, now), lax)
  {
    var s := sys.store;
    var t := Queue(s, k, action, value, now);
    forall m | Exposed(sys, m) && !Answered(me, sys.server, m)
      ensures (m in t.outbox && IsHead(t.outbox[m])) || (lax && Stray(me, sys, t, m))
    {
      if m in s.outbox && IsHead(s.outbox[m]) {
        assert sys.content[m] == Wire(m, s.outbox[m]);
        assert HeadCurrent(me, sys.server, m, s.outbox[m], lax);
      }
    }
  }

  lemma QueueKeepsShadows(s: Store, server: Server.State, k: NoteId, action: Action, value: Option<Note>, now: int, lax: bool)
    requires ShadowsBehind(s, server, lax) && s.issued !in s.outbox
    ensures ShadowsBehind(Queue(s, k, action, value, now), server, lax)
  {
    var t := Queue(s, k, action, value, now);
    if QueueRefusal(s, k).None? {
      assert s.issued in EntityOps(t.outbox, k);
      forall j
        ensures ShadowBehind(t, server, j, lax)
      {
        assert ShadowBehind(s, server, j, lax);
        assert j != k ==> EntityOps(t.outbox, j) == EntityOps(s.outbox, j);
      }
    }
  }

  /** The same operations, whatever their status, lease and attempts. */
  ghost predicate SameOutbox(s: Store, t: Store) {
    && t.outbox.Keys == s.outbox.Keys
    && forall m | m in s.outbox ::
         var a, b := s.outbox[m], t.outbox[m];
         (b.key, b.action, b.value, b.baseVersion, b.dependsOn) == (a.key, a.action, a.value, a.baseVersion, a.dependsOn)
  }

  lemma SameOutboxKeeps(me: ClientId, server: Server.State, s: Store, t: Store, lax: bool)
    requires SameOutbox(s, t)
    requires HeadsCurrent(me, server, s.outbox, lax)
    ensures HeadsCurrent(me, server, t.outbox, lax)
    ensures forall k :: EntityOps(t.outbox, k) == EntityOps(s.outbox, k)
  {
    forall k
      ensures EntityOps(t.outbox, k) == EntityOps(s.outbox, k)
    {
      forall m
        ensures m in EntityOps(t.outbox, k) <==> m in EntityOps(s.outbox, k)
      {
        if m in s.outbox {
          assert t.outbox[m].key == s.outbox[m].key;
        }
      }
    }
  }

  lemma SameShadowsKeep(server: Server.State, s: Store, t: Store, lax: bool)
    requires ShadowsBehind(s, server, lax) && t.nextSeq == s.nextSeq
    requires forall k :: EntityOps(t.outbox, k) == EntityOps(s.outbox, k)
    requires forall k :: ConfirmedOf(t, k) == ConfirmedOf(s, k)
    ensures ShadowsBehind(t, server, lax)
  {
    forall k
      ensures ShadowBehind(t, server, k, lax)
    {
      assert ShadowBehind(s, server, k, lax);
    }
  }

  /** What was excused stays so while operations only change hands. */
  ghost predicate KeepsExcuses(s: Store, t: Store) {
    && SameOutbox(s, t) && t.nextSeq == s.nextSeq
    && (forall k :: ShadowVersion(t, k) == ShadowVersion(s, k))
    && (forall m | m in s.outbox && Worn(s.outbox[m]) :: Worn(t.outbox[m]))
  }

  lemma ExcusesStay(me: ClientId, server: Server.State, s: Store, t: Store)
    requires KeepsExcuses(s, t)
    ensures forall m | m in s.outbox && Excused(me, server, s, m) :: Excused(me, server, t, m)
  {
  }

  lemma ClaimIsSame(s: Store, owner: LeaseOwner, limit: int, lease: int, now: int, batch: seq<MutationId>)
    requires IsBatch(ExpireLeases(s.outbox, now), now, limit, batch)
    ensures var t := Claim(s, owner, lease, now, batch);
            && KeepsExcuses(s, t)
            && t.records == s.records
            && (forall m | m in batch :: m in s.outbox && IsHead(s.outbox[m]))
            && forall m | m in s.outbox :: t.outbox[m].attempts == s.outbox[m].attempts + (if m in batch then 1 else 0)
  {
    forall m | m in batch
      ensures m in s.outbox && IsHead(s.outbox[m])
    {
      assert m in Due(ExpireLeases(s.outbox, now), now);
    }
    assert forall m | m in batch :: m in Due(ExpireLeases(s.outbox, now), now);
  }

  lemma FinishIsSame(s: Store, m: MutationId, owner: LeaseOwner, outcome: Outcome, now: int)
    ensures var t := Finish(s, m, owner, outcome, now);
            && KeepsExcuses(s, t)
            && (forall k :: ConfirmedOf(t, k) == ConfirmedOf(s, k))
            && (forall n | n in s.outbox ::
                  t.outbox[n].attempts == s.outbox[n].attempts
                  || (outcome == GiveBack && n == m && t.outbox[n].attempts == s.outbox[n].attempts - 1)
                  || s.outbox[n].attempts == 0)
  {
  }

  lemma HoldCounts(sys: System, s: Store, owner: LeaseOwner, batch: seq<MutationId>)
    ensures var t := sys.(held := Hold(sys.held, s, owner, batch));
            forall m | m in s.outbox :: |HeldOf(t, m)| == |HeldOf(sys, m)| + (if m in batch then 1 else 0)
    ensures var t := sys.(held := Hold(sys.held, s, owner, batch));
            forall m | m !in s.outbox :: HeldOf(t, m) == HeldOf(sys, m)
  {
  }

  // The steps, one by one --------------------------------------------------

  /** Moving to a system that agrees on everything the invariant reads. */
  lemma LanesMove(c: Config, sys: System, t: System, lax: bool)
    requires (t.server, t.held, t.sends) == (sys.server, sys.held, sys.sends)
    requires forall m | m in sys.content :: m in t.content && t.content[m] == sys.content[m]
    requires SentCounted(c, sys) && HeldFixed(sys.held, sys.content)
    requires HeadsCurrent(c.me, sys.server, t.store.outbox, lax)
    requires AttemptsCover(c.me, sys, t.store, lax) && ExposedKnown(c.me, sys, t.store, lax)
    requires ShadowsBehind(t.store, sys.server, lax)
    ensures LanesCurrent(c, t, lax)
  {
    assert forall m: MutationId :: HeldOf(t, m) == HeldOf(sys, m) && SendsOf(t, m) == SendsOf(sys, m);
    KnownCarries(c, sys, t, lax);
  }

  lemma KnownCarries(c: Config, sys: System, t: System, lax: bool)
    requires t.server == sys.server
    requires forall m: MutationId :: HeldOf(t, m) == HeldOf(sys, m) && SendsOf(t, m) == SendsOf(sys, m)
    requires forall m | m in sys.content :: m in t.content && t.content[m] == sys.content[m]
    requires SentCounted(c, sys) && HeldFixed(sys.held, sys.content) && ExposedKnown(c.me, sys, t.store, lax)
    ensures ExposedKnown(c.me, t, t.store, lax)
  {
    assert forall m: MutationId :: Exposed(t, m) <==> Exposed(sys, m);
    forall m | Exposed(sys, m)
      ensures m in sys.content
    {
      ExposedHasContent(c, sys, m);
    }
    forall m | Exposed(t, m)
      ensures Answered(c.me, t.server, m) || (m in t.store.outbox && IsHead(t.store.outbox[m]))
              || (lax && Stray(c.me, t, t.store, m))
    {
      if lax && Stray(c.me, sys, t.store, m) {
        assert Orphaned(c.me, sys, t.store, m) ==> Orphaned(c.me, t, t.store, m);
      }
    }
  }

  lemma EditStep(c: Config, sys: System, step: Step, lax: bool)
    requires LoneValid(c, sys, lax) && step.EditNote? && Enabled(c, sys, step)
    ensures LanesCurrent(c, Next(c, sys, step), lax)
  {
    var t := Queue(sys.store, step.k, step.action, step.value, step.now);
    if QueueRefusal(sys.store, step.k).None? {
      IssuedIsUntouched(c, sys, lax);
      QueueBaseIsCurrent(c, sys, step.k, lax);
      QueueKeepsHeads(c.me, sys, step.k, step.action, step.value, step.now, lax);
      QueueKeepsCover(c.me, sys, step.k, step.action, step.value, step.now, lax);
      QueueKeepsExposed(c.me, sys, step.k, step.action, step.value, step.now, lax);
      QueueKeepsShadows(sys.store, sys.server, step.k, step.action, step.value, step.now, lax);
    }
    LanesMove(c, sys, WithStore(sys, t), lax);
  }

  lemma ClaimStep(c: Config, sys: System, step: Step, lax: bool)
    requires LanesCurrent(c, sys, lax) && step.ClaimDue? && Enabled(c, sys, step)
    requires SentCounted(c, sys) && HeldFixed(sys.held, sys.content)
    ensures LanesCurrent(c, Next(c, sys, step), lax)
  {
    var s := sys.store;
    var t := Claim(s, step.leaseOwner, step.lease, step.now, step.batch);
    var u := sys.(held := Hold(sys.held, t, step.leaseOwner, step.batch));
    ClaimIsSame(s, step.leaseOwner, step.limit, step.lease, step.now, step.batch);
    SameOutboxKeeps(c.me, sys.server, s, t, lax);
    SameShadowsKeep(sys.server, s, t, lax);
    ClaimCovers(c.me, sys, t, u, step.batch, lax);
    ClaimExposes(c.me, sys, t, u, step.batch, lax);
    HeldMove(c, sys, Next(c, sys, step), u, lax);
  }

  /** As LanesMove, where more claims are held, all of them of operations. */
  lemma HeldMove(c: Config, sys: System, t: System, u: System, lax: bool)
    requires u == sys.(held := t.held) && (t.server, t.sends) == (sys.server, sys.sends)
    requires forall m | m in sys.content :: m in t.content && t.content[m] == sys.content[m]
    requires SentCounted(c, sys) && HeldFixed(sys.held, sys.content)
    requires forall m | Exposed(u, m) :: Exposed(sys, m) || m in t.store.outbox
    requires HeadsCurrent(c.me, sys.server, t.store.outbox, lax) && ShadowsBehind(t.store, sys.server, lax)
    requires AttemptsCover(c.me, u, t.store, lax) && ExposedKnown(c.me, u, t.store, lax)
    ensures LanesCurrent(c, t, lax)
  {
    assert forall m: MutationId :: HeldOf(t, m) == HeldOf(u, m) && SendsOf(t, m) == SendsOf(u, m);
    assert forall m: MutationId :: Exposed(t, m) <==> Exposed(u, m);
    forall m | Exposed(u, m) && m !in t.store.outbox
      ensures m in sys.content
    {
      ExposedHasContent(c, sys, m);
    }
    forall m | Exposed(t, m)
      ensures Answered(c.me, t.server, m) || (m in t.store.outbox && IsHead(t.store.outbox[m]))
              || (lax && Stray(c.me, t, t.store, m))
    {
      if lax && Stray(c.me, u, t.store, m) {
        assert Orphaned(c.me, u, t.store, m) ==> Orphaned(c.me, t, t.store, m);
      }
    }
  }

  lemma ClaimCovers(me: ClientId, sys: System, t: Store, u: System, batch: seq<MutationId>, lax: bool)
    requires AttemptsCover(me, sys, sys.store, lax)
    requires KeepsExcuses(sys.store, t)
    requires exists owner :: u == sys.(held := Hold(sys.held, t, owner, batch))
    requires forall m | m in sys.store.outbox ::
               t.outbox[m].attempts == sys.store.outbox[m].attempts + (if m in batch then 1 else 0)
    ensures AttemptsCover(me, u, t, lax)
    ensures forall m: MutationId :: SendsOf(u, m) == SendsOf(sys, m)
    ensures forall m | m in t.outbox :: |HeldOf(u, m)| == |HeldOf(sys, m)| + (if m in batch then 1 else 0)
    ensures forall m | m !in t.outbox :: HeldOf(u, m) == HeldOf(sys, m)
  {
    var owner :| u == sys.(held := Hold(sys.held, t, owner, batch));
    HoldCounts(sys, t, owner, batch);
    ExcusesStay(me, sys.server, sys.store, t);
    forall m | m in t.outbox
      ensures Covered(u, m, t.outbox[m]) || (lax && IsHead(t.outbox[m]) && Excused(me, u.server, t, m))
    {
      assert Covered(sys, m, sys.store.outbox[m]) || (lax && IsHead(sys.store.outbox[m]) && Excused(me, sys.server, sys.store, m));
    }
  }

  lemma ClaimExposes(me: ClientId, sys: System, t: Store, u: System, batch: seq<MutationId>, lax: bool)
    requires ExposedKnown(me, sys, sys.store, lax) && SameOutbox(sys.store, t) && t.nextSeq == sys.store.nextSeq
    requires u == sys.(held := u.held)
    requires forall k :: EntityOps(t.outbox, k) == EntityOps(sys.store.outbox, k)
    requires forall m: MutationId :: SendsOf(u, m) == SendsOf(sys, m)
    requires forall m | m in t.outbox :: |HeldOf(u, m)| == |HeldOf(sys, m)| + (if m in batch then 1 else 0)
    requires forall m | m !in t.outbox :: HeldOf(u, m) == HeldOf(sys, m)
    requires forall m | m in batch :: m in t.outbox && IsHead(t.outbox[m])
    ensures ExposedKnown(me, u, t, lax)
    ensures forall m | Exposed(u, m) :: Exposed(sys, m) || m in t.outbox
  {
    forall m | Exposed(u, m)
      ensures Answered(me, u.server, m) || (m in t.outbox && IsHead(t.outbox[m])) || (lax && Stray(me, u, t, m))
    {
      if m !in batch {
        assert Exposed(sys, m);
        if lax && Stray(me, sys, sys.store, m) {
          assert Orphaned(me, sys, sys.store, m) ==> Orphaned(me, u, t, m);
        }
      }
    }
  }

  lemma SendStep(c: Config, sys: System, step: Step, lax: bool)
    requires LanesCurrent(c, sys, lax) && step.Send? && Enabled(c, sys, step)
    ensures LanesCurrent(c, Next(c, sys, step), lax)
  {
    var t := Next(c, sys, step);
    SameExposure(c, sys, t, lax);
  }

  /** A claim that is sent, or given back unsent, leaves at most as much on its way. */
  lemma SameExposure(c: Config, sys: System, t: System, lax: bool)
    requires LanesCurrent(c, sys, lax)
    requires t.store == sys.store && t.server == sys.server && t.content == sys.content
    requires forall m: MutationId :: |HeldOf(t, m)| + SendsOf(t, m) == |HeldOf(sys, m)| + SendsOf(sys, m)
    ensures LanesCurrent(c, t, lax)
  {
    assert forall m: MutationId :: Exposed(t, m) <==> Exposed(sys, m);
    forall m | Exposed(t, m)
      ensures Answered(c.me, t.server, m) || (m in t.store.outbox && IsHead(t.store.outbox[m]))
              || (lax && Stray(c.me, t, t.store, m))
    {
      if lax && Stray(c.me, sys, sys.store, m) {
        assert Orphaned(c.me, sys, sys.store, m) ==> Orphaned(c.me, t, t.store, m);
      }
    }
    forall m | m in t.store.outbox
      ensures Covered(t, m, t.store.outbox[m]) || (lax && IsHead(t.store.outbox[m]) && Excused(c.me, t.server, t.store, m))
    {
      assert Covered(sys, m, t.store.outbox[m]) ==> Covered(t, m, t.store.outbox[m]);
    }
  }

  /** What a retry, a failed push or giving back an unsent claim does: the claims outstanding stay covered. */
  lemma FinishStep(c: Config, sys: System, t: System, m: MutationId, owner: LeaseOwner, outcome: Outcome, now: int, lax: bool)
    requires LanesCurrent(c, sys, lax)
    requires t == WithStore(sys, Finish(sys.store, m, owner, outcome, now)).(held := t.held)
    requires SentCounted(c, sys) && HeldFixed(sys.held, sys.content)
    requires forall n: MutationId ::
               |HeldOf(t, n)| + SendsOf(t, n)
               == |HeldOf(sys, n)| + SendsOf(sys, n) - (if outcome == GiveBack && n == m then 1 else 0)
    ensures LanesCurrent(c, t, lax)
  {
    FinishIsSame(sys.store, m, owner, outcome, now);
    SameOutboxKeeps(c.me, sys.server, sys.store, t.store, lax);
    SameShadowsKeep(sys.server, sys.store, t.store, lax);
    FinishCovers(c.me, sys, t, m, outcome, lax);
    FinishExposes(c, sys, t, lax);
  }

  lemma FinishCovers(me: ClientId, sys: System, t: System, m: MutationId, outcome: Outcome, lax: bool)
    requires AttemptsCover(me, sys, sys.store, lax) && KeepsExcuses(sys.store, t.store) && t.server == sys.server
    requires forall n: MutationId ::
               |HeldOf(t, n)| + SendsOf(t, n)
               == |HeldOf(sys, n)| + SendsOf(sys, n) - (if outcome == GiveBack && n == m then 1 else 0)
    requires forall n | n in sys.store.outbox ::
               t.store.outbox[n].attempts == sys.store.outbox[n].attempts
               || (outcome == GiveBack && n == m && t.store.outbox[n].attempts == sys.store.outbox[n].attempts - 1)
               || sys.store.outbox[n].attempts == 0
    ensures AttemptsCover(me, t, t.store, lax)
  {
    ExcusesStay(me, sys.server, sys.store, t.store);
    forall n | n in t.store.outbox
      ensures Covered(t, n, t.store.outbox[n]) || (lax && IsHead(t.store.outbox[n]) && Excused(me, t.server, t.store, n))
    {
      assert Covered(sys, n, sys.store.outbox[n])
             || (lax && IsHead(sys.store.outbox[n]) && Excused(me, sys.server, sys.store, n));
    }
  }

  lemma FinishExposes(c: Config, sys: System, t: System, lax: bool)
    requires ExposedKnown(c.me, sys, sys.store, lax)
    requires SameOutbox(sys.store, t.store) && t.store.nextSeq == sys.store.nextSeq && t.server == sys.server
    requires forall k :: EntityOps(t.store.outbox, k) == EntityOps(sys.store.outbox, k)
    requires forall n: MutationId :: |HeldOf(t, n)| + SendsOf(t, n) <= |HeldOf(sys, n)| + SendsOf(sys, n)
    requires SentCounted(c, sys) && HeldFixed(sys.held, sys.content)
    requires forall m | m in sys.content :: m in t.content && t.content[m] == sys.content[m]
    ensures ExposedKnown(c.me, t, t.store, lax)
  {
    forall m | Exposed(t, m)
      ensures Answered(c.me, t.server, m) || (m in t.store.outbox && IsHead(t.store.outbox[m]))
              || (lax && Stray(c.me, t, t.store, m))
    {
      assert Exposed(sys, m);
      if lax && Stray(c.me, sys, sys.store, m) {
        forall n | Exposed(t, n)
          ensures n in sys.content && Exposed(sys, n)
        {
          ExposedHasContent(c, sys, n);
        }
        assert Orphaned(c.me, sys, sys.store, m) ==> Orphaned(c.me, t, t.store, m);
      }
    }
  }

  /** After an applied result the note's operations are its re-based successor, if it had one. */
  lemma AppliedFacts(s: Store, m: MutationId, record: Snapshot, now: int)
    requires StoreValid(s) && m in s.outbox && IsHead(s.outbox[m])
    ensures var t := ApplyApplied(s, m, record, now);
            var k := s.outbox[m].key;
            && m !in t.outbox
            && (forall n | n in t.outbox && n != s.issued :: n in s.outbox && t.outbox[n] == s.outbox[n] && s.outbox[n].key != k)
            && (forall n | n in s.outbox && s.outbox[n].key != k :: n in t.outbox)
            && (s.issued in t.outbox ==>
                  && t.outbox[s.issued].key == k && IsHead(t.outbox[s.issued])
                  && t.outbox[s.issued].baseVersion == Some(record.version)
                  && exists n :: n in s.outbox && !IsHead(s.outbox[n])
                       && (t.outbox[s.issued].action, t.outbox[s.issued].value) == (s.outbox[n].action, s.outbox[n].value))
  {
    SuccessorIsOnly(s, m);
    IssuedIsFresh(s);
  }

  /** And the notes without operations are those it was, and its own if it had no successor. */
  lemma AppliedLeaves(s: Store, m: MutationId, record: Snapshot, now: int)
    requires StoreValid(s) && m in s.outbox && IsHead(s.outbox[m])
    ensures var t := ApplyApplied(s, m, record, now);
            && (forall n | n in s.outbox && n !in t.outbox :: n == m || !IsHead(s.outbox[n]))
            && (forall j | j != s.outbox[m].key ::
                  EntityOps(t.outbox, j) == EntityOps(s.outbox, j) && ShadowVersion(t, j) == ShadowVersion(s, j))
            && ShadowVersion(t, s.outbox[m].key) == Some(record.version) && t.nextSeq == s.nextSeq
  {
    SuccessorIsOnly(s, m);
    IssuedIsFresh(s);
    AppliedFacts(s, m, record, now);
    var t := ApplyApplied(s, m, record, now);
    forall j | j != s.outbox[m].key
      ensures EntityOps(t.outbox, j) == EntityOps(s.outbox, j)
    {
    }
  }

  /** What is known when an applied result is taken. */
  ghost predicate AppliedNow(me: ClientId, sys: System, m: MutationId, record: Snapshot) {
    && StoreValid(sys.store)
    && m in sys.store.outbox && IsHead(sys.store.outbox[m])
    && Answered(me, sys.server, m)
    && ServerVersion(sys.server, sys.store.outbox[m].key) == Some(record.version)
    && !Answered(me, sys.server, sys.store.issued) && !Exposed(sys, sys.store.issued)
  }

  lemma AppliedKeepsCover(me: ClientId, sys: System, m: MutationId, record: Snapshot, now: int, lax: bool)
    requires HeadsCurrent(me, sys.server, sys.store.outbox, lax) && AttemptsCover(me, sys, sys.store, lax)
    requires AppliedNow(me, sys, m, record)
    ensures var t := ApplyApplied(sys.store, m, record, now);
            HeadsCurrent(me, sys.server, t.outbox, lax) && AttemptsCover(me, sys, t, lax)
  {
    var s := sys.store;
    AppliedFacts(s, m, record, now);
    AppliedLeaves(s, m, record, now);
    var t := ApplyApplied(s, m, record, now);
    forall n | n in t.outbox
      ensures Covered(sys, n, t.outbox[n]) || (lax && IsHead(t.outbox[n]) && Excused(me, sys.server, t, n))
    {
      if n != s.issued {
        assert Covered(sys, n, s.outbox[n]) || (lax && IsHead(s.outbox[n]) && Excused(me, sys.server, s, n));
      }
    }
  }

  lemma TailsUnattempted(s: Store)
    requires StoreValid(s)
    ensures forall m | m in s.outbox && !IsHead(s.outbox[m]) :: s.outbox[m].attempts == 0
  {
    forall m | m in s.outbox && !IsHead(s.outbox[m])
      ensures s.outbox[m].attempts == 0
    {
      assert OpShape(s, m);
    }
  }

  lemma AppliedKeepsExposed(me: ClientId, sys: System, m: MutationId, record: Snapshot, now: int, lax: bool)
    requires ExposedKnown(me, sys, sys.store, lax) && AttemptsCover(me, sys, sys.store, lax)
    requires AppliedNow(me, sys, m, record) && OutboxFixed(sys.store, sys.content)
    ensures ExposedKnown(me, sys, ApplyApplied(sys.store, m, record, now), lax)
  {
    var s := sys.store;
    var t := ApplyApplied(s, m, record, now);
    AppliedFacts(s, m, record, now);
    AppliedLeaves(s, m, record, now);
    TailsUnattempted(s);
    forall n | Exposed(sys, n) && !Answered(me, sys.server, n)
      ensures (n in t.outbox && IsHead(t.outbox[n])) || (lax && Stray(me, sys, t, n))
    {
      if lax && Stray(me, sys, s, n) && !(n in s.outbox && IsHead(s.outbox[n])) {
        assert m in EntityOps(s.outbox, s.outbox[m].key);
        assert forall x | x in s.outbox && x !in t.outbox && Exposed(sys, x) :: x == m;
        assert Orphaned(me, sys, s, n) ==> Orphaned(me, sys, t, n);
      }
    }
  }

  lemma AppliedKeepsShadows(s: Store, server: Server.State, m: MutationId, record: Snapshot, now: int, lax: bool)
    requires StoreValid(s) && m in s.outbox && IsHead(s.outbox[m])
    requires ShadowsBehind(s, server, lax) && ServerVersion(server, s.outbox[m].key) == Some(record.version)
    ensures ShadowsBehind(ApplyApplied(s, m, record, now), server, lax)
  {
    var t := ApplyApplied(s, m, record, now);
    AppliedLeaves(s, m, record, now);
    forall j
      ensures ShadowBehind(t, server, j, lax)
    {
      assert ShadowBehind(s, server, j, lax);
    }
  }

  lemma ReceiveApplied(c: Config, sys: System, r: MutationResult, owner: LeaseOwner, now: int, lax: bool)
    requires LoneValid(c, sys, lax) && r in sys.responses && r.status == Applied
    requires WellFormed(sys.store, r.mutationId, r) && Holds(sys.store, r.mutationId, owner)
    ensures LanesCurrent(c, WithStore(sys, ApplyResult(sys.store, r.mutationId, r, owner, now)), lax)
  {
    var m := r.mutationId;
    assert OpShape(sys.store, m);
    assert HeadCurrent(c.me, sys.server, m, sys.store.outbox[m], lax);
    IssuedIsUntouched(c, sys, lax);
    assert AppliedNow(c.me, sys, m, r.record.value);
    AppliedKeepsCover(c.me, sys, m, r.record.value, now, lax);
    AppliedKeepsExposed(c.me, sys, m, r.record.value, now, lax);
    AppliedKeepsShadows(sys.store, sys.server, m, r.record.value, now, lax);
    LanesMove(c, sys, WithStore(sys, ApplyApplied(sys.store, m, r.record.value, now)), lax);
  }

  lemma ConflictKeepsCover(me: ClientId, sys: System, m: MutationId, r: MutationResult, lax: bool)
    requires StoreValid(sys.store) && m in sys.store.outbox && IsHead(sys.store.outbox[m])
    requires AttemptsCover(me, sys, sys.store, lax)
    ensures AttemptsCover(me, sys, ApplyConflict(sys.store, m, r), lax)
  {
    var s := sys.store;
    var t := ApplyConflict(s, m, r);
    forall n | n in t.outbox
      ensures Covered(sys, n, t.outbox[n]) || (lax && IsHead(t.outbox[n]) && Excused(me, sys.server, t, n))
    {
      assert Covered(sys, n, s.outbox[n]) || (lax && IsHead(s.outbox[n]) && Excused(me, sys.server, s, n));
      if n != m {
        assert Compatible(s.outbox[n], s.outbox[m]);
      }
    }
  }

  /** The record a conflict leaves is not ahead of the server. */
  ghost predicate ConflictBehind(sys: System, m: MutationId, r: MutationResult)
    requires m in sys.store.outbox
  {
    var k := sys.store.outbox[m].key;
    ConflictServer(sys.store, k, r).Some? ==>
      && k in sys.server.records
      && ConflictServer(sys.store, k, r).value.version <= sys.server.records[k].version
  }

  lemma ConflictKeepsShadows(sys: System, m: MutationId, r: MutationResult, lax: bool)
    requires ShadowsBehind(sys.store, sys.server, lax) && m in sys.store.outbox && ConflictBehind(sys, m, r)
    requires forall k :: EntityOps(ApplyConflict(sys.store, m, r).outbox, k) == EntityOps(sys.store.outbox, k)
    ensures ShadowsBehind(ApplyConflict(sys.store, m, r), sys.server, lax)
  {
    var t := ApplyConflict(sys.store, m, r);
    forall j
      ensures ShadowBehind(t, sys.server, j, lax)
    {
      assert ShadowBehind(sys.store, sys.server, j, lax);
      assert m in EntityOps(t.outbox, sys.store.outbox[m].key);
    }
  }

  lemma ConflictKeepsLanes(c: Config, sys: System, m: MutationId, r: MutationResult, lax: bool)
    requires LanesCurrent(c, sys, lax) && StoreValid(sys.store) && m in sys.store.outbox && IsHead(sys.store.outbox[m])
    requires SentCounted(c, sys) && HeldFixed(sys.held, sys.content) && ConflictBehind(sys, m, r)
    ensures LanesCurrent(c, WithStore(sys, ApplyConflict(sys.store, m, r)), lax)
  {
    var t := ApplyConflict(sys.store, m, r);
    assert SameOutbox(sys.store, t);
    SameOutboxKeeps(c.me, sys.server, sys.store, t, lax);
    ConflictKeepsCover(c.me, sys, m, r, lax);
    ConflictKeepsShadows(sys, m, r, lax);
    FinishExposes(c, sys, sys.(store := t), lax);
    KnownMoves(c.me, sys, t, lax);
    LanesMove(c, sys, WithStore(sys, t), lax);
  }

  lemma KnownMoves(me: ClientId, sys: System, t: Store, lax: bool)
    requires ExposedKnown(me, sys.(store := t), t, lax)
    ensures ExposedKnown(me, sys, t, lax)
  {
    var u := sys.(store := t);
    assert forall m: MutationId :: HeldOf(u, m) == HeldOf(sys, m) && SendsOf(u, m) == SendsOf(sys, m);
    assert forall m: MutationId :: Exposed(u, m) <==> Exposed(sys, m);
    forall m | Exposed(sys, m)
      ensures Answered(me, sys.server, m) || (m in t.outbox && IsHead(t.outbox[m])) || (lax && Stray(me, sys, t, m))
    {
      assert m in sys.content && Orphaned(me, u, t, m) ==> Orphaned(me, sys, t, m);
    }
  }

  lemma ReceiveGone(c: Config, sys: System, r: MutationResult, owner: LeaseOwner, now: int, lax: bool)
    requires LoneValid(c, sys, lax) && r in sys.responses && r.status == Gone
    requires Holds(sys.store, r.mutationId, owner)
    ensures LanesCurrent(c, WithStore(sys, ApplyResult(sys.store, r.mutationId, r, owner, now)), lax)
  {
    var k := sys.store.outbox[r.mutationId].key;
    var receipt := sys.server.receipts[(c.me, r.mutationId)];
    assert Server.AnswerValid(sys.server, receipt.content, r);
    assert receipt.content == sys.content[r.mutationId] == Wire(r.mutationId, sys.store.outbox[r.mutationId]);
    if r.record.Some? {
      Server.LoggedIsNotNewer(sys.server, r.record.value);
    }
    assert ShadowBehind(sys.store, sys.server, k, lax);
    assert OpShape(sys.store, r.mutationId);
    ConflictKeepsLanes(c, sys, r.mutationId, r, lax);
  }

  lemma ReceiveStep(c: Config, sys: System, step: Step, lax: bool)
    requires LoneValid(c, sys, lax) && step.Receive? && Enabled(c, sys, step)
    ensures LanesCurrent(c, Next(c, sys, step), lax)
  {
    var r := step.result;
    ResultsAreWellFormed(c, sys, r);
    var key := (c.me, r.mutationId);
    assert key in sys.server.receipts && sys.server.receipts[key].result == r;
    assert r.status == Applied || r.status == Gone;
    if !Holds(sys.store, r.mutationId, step.leaseOwner) {
      LanesMove(c, sys, Next(c, sys, step), lax);
    } else if r.status == Applied {
      ReceiveApplied(c, sys, r, step.leaseOwner, step.now, lax);
    } else {
      ReceiveGone(c, sys, r, step.leaseOwner, step.now, lax);
    }
  }

  // Pulls ------------------------------------------------------------------

  /** Shadows only move towards the server. */
  ghost predicate ShadowsRise(s: Store, t: Store) {
    && t.outbox == s.outbox && t.nextSeq == s.nextSeq
    && forall k :: ShadowVersion(s, k).Some? ==>
         ShadowVersion(t, k).Some? && ShadowVersion(s, k).value <= ShadowVersion(t, k).value
  }

  lemma ChangeKeepsShadows(s: Store, server: Server.State, incoming: Snapshot, lax: bool)
    requires ShadowsBehind(s, server, lax)
    requires incoming.id in server.records && incoming.version <= server.records[incoming.id].version
    ensures ShadowsBehind(ApplyChange(s, incoming), server, lax)
    ensures ShadowsRise(s, ApplyChange(s, incoming))
  {
    var t := ApplyChange(s, incoming);
    forall j
      ensures ShadowBehind(t, server, j, lax)
    {
      assert ShadowBehind(s, server, j, lax);
    }
  }

  lemma {:induction false} ChangesKeepShadows(s: Store, server: Server.State, changes: seq<Snapshot>, lax: bool)
    requires ShadowsBehind(s, server, lax) && Server.LogValid(server) && AllLogged(server, changes)
    ensures ShadowsBehind(ApplyEach(s, changes), server, lax)
    ensures ShadowsRise(s, ApplyEach(s, changes))
    decreases changes
  {
    if changes != [] {
      var last := |changes| - 1;
      assert Server.InLog(server, changes[last]);
      ChangesKeepShadows(s, server, changes[..last], lax);
      Server.LoggedIsNotNewer(server, changes[last]);
      ChangeKeepsShadows(ApplyEach(s, changes[..last]), server, changes[last], lax);
    }
  }

  lemma RiseKeepsCover(me: ClientId, sys: System, t: Store, lax: bool)
    requires AttemptsCover(me, sys, sys.store, lax) && ShadowsRise(sys.store, t)
    requires ShadowsBehind(sys.store, sys.server, lax) && ShadowsBehind(t, sys.server, lax)
    ensures AttemptsCover(me, sys, t, lax)
  {
    forall m | m in t.outbox
      ensures Covered(sys, m, t.outbox[m]) || (lax && IsHead(t.outbox[m]) && Excused(me, sys.server, t, m))
    {
      assert Covered(sys, m, t.outbox[m]) || (lax && IsHead(t.outbox[m]) && Excused(me, sys.server, sys.store, m));
      assert ShadowBehind(sys.store, sys.server, t.outbox[m].key, lax) && ShadowBehind(t, sys.server, t.outbox[m].key, lax);
    }
  }

  lemma PageStep(c: Config, sys: System, step: Step, lax: bool)
    requires LanesCurrent(c, sys, lax) && Server.LogValid(sys.server) && PagesLogged(sys.server, sys.pages)
    requires SentCounted(c, sys) && HeldFixed(sys.held, sys.content)
    requires step.ReceivePage? && Enabled(c, sys, step)
    ensures LanesCurrent(c, Next(c, sys, step), lax)
  {
    var changes := step.page.response.changes;
    var t := ApplyPage(sys.store, changes, step.page.response.nextCursor);
    assert AllLogged(sys.server, changes);
    ChangesKeepShadows(sys.store, sys.server, changes, lax);
    SameShadowsKeep(sys.server, ApplyEach(sys.store, changes), t, lax);
    RiseMove(c, sys, t, lax);
  }

  lemma ServeStep(c: Config, sys: System, step: Step)
    requires Server.LogValid(sys.server) && PagesLogged(sys.server, sys.pages)
    requires step.ServePull? && Enabled(c, sys, step)
    ensures PagesLogged(sys.server, Next(c, sys, step).pages)
  {
  }

  // Deliveries -------------------------------------------------------------

  /** The only reason there can be for an answer other than applied: there is no live note to change. */
  predicate NotThere(s: Server.State, m: Mutation) {
    if m.id in s.records then s.records[m.id].deleted else m.action == Delete
  }

  /** What is on its way for the first time starts from the server's version, or its note is deleted. */
  lemma RequestIsCurrent(c: Config, sys: System, r: Mutation, lax: bool)
    requires LoneValid(c, sys, lax) && r in sys.requests && !Answered(c.me, sys.server, r.mutationId)
    ensures Exposed(sys, r.mutationId) && r.mutationId in sys.content && r == sys.content[r.mutationId]
    ensures Server.ValidMutation(r)
    ensures IsCurrent(sys.server, r) || (lax && Dead(sys.server, r.id))
  {
    var m := r.mutationId;
    assert Exposed(sys, m);
    assert RequestsFixed(sys.requests, sys.content) && OutboxFixed(sys.store, sys.content);
    if m in sys.store.outbox && IsHead(sys.store.outbox[m]) {
      assert HeadCurrent(c.me, sys.server, m, sys.store.outbox[m], lax);
      assert r == Wire(m, sys.store.outbox[m]);
    }
  }

  /** The first delivery of a mutation is applied, unless there is no live note to change: then it is gone. */
  lemma FirstAnswerIsExact(c: Config, sys: System, r: Mutation, lax: bool)
    requires LoneValid(c, sys, lax) && r in sys.requests && !Answered(c.me, sys.server, r.mutationId)
    ensures var out := Server.Apply(sys.server, c.me, r);
            && out.result.status == (if NotThere(sys.server, r) then Gone else Applied)
            && (out.result.status == Applied ==>
                  && out.result.record.Some?
                  && ServerVersion(out.state, r.id) == Some(out.result.record.value.version))
            && (out.result.status == Gone ==> out.state.records == sys.server.records && out.cursor.None?)
  {
    RequestIsCurrent(c, sys, r, lax);
    if IsCurrent(sys.server, r) {
      if r.id in sys.server.records {
        Server.StoredVersionAtMostClock(sys.server, r.id);
      }
      Decimal.PrintedBaseIsRead(ServerVersion(sys.server, r.id));
    }
  }

  lemma DeliveryTouchesOneNote(s: Server.State, client: ClientId, r: Mutation)
    ensures var t := Server.Apply(s, client, r).state;
            && (forall k | k != r.id :: ServerVersion(t, k) == ServerVersion(s, k) && (Dead(t, k) <==> Dead(s, k)))
            && (ServerVersion(s, r.id).Some? ==>
                  ServerVersion(t, r.id).Some? && ServerVersion(s, r.id).value <= ServerVersion(t, r.id).value)
            && (forall key | key != (client, r.mutationId) ::
                  (key in t.receipts <==> key in s.receipts)
                  && (key in s.receipts ==> t.receipts[key] == s.receipts[key]))
            && (client, r.mutationId) in t.receipts
            && s.clock <= t.clock
            && (Server.Apply(s, client, r).cursor.None? ==> t.records == s.records && t.clock == s.clock)
            && (Dead(s, r.id) ==> Server.Apply(s, client, r).cursor.None?)
  {
  }

  /** What is true of a first delivery, whatever it answers. */
  ghost predicate FirstDelivery(c: Config, sys: System, r: Mutation, server: Server.State, lax: bool) {
    var m := r.mutationId;
    && m in sys.content && sys.content[m] == r && Exposed(sys, m) && !Answered(c.me, sys.server, m)
    && Fits(sys.server, c.me, r)
    && server == Server.Apply(sys.server, c.me, r).state
    && OutboxValid(sys.store) && OutboxFixed(sys.store, sys.content)
  }

  /** The note a write goes to has no other head, and no other request on its way. */
  lemma WriteIsAlone(c: Config, sys: System, r: Mutation, server: Server.State, lax: bool)
    requires LanesCurrent(c, sys, lax) && FirstDelivery(c, sys, r, server, lax)
    ensures server.records == sys.server.records
            || (&& (forall n | n in sys.store.outbox && IsHead(sys.store.outbox[n]) && n != r.mutationId ::
                      sys.store.outbox[n].key != r.id)
                && (EntityOps(sys.store.outbox, r.id) == {} ==> lax && Closed(sys.store))
                && (forall n | Exposed(sys, n) && n != r.mutationId && !Answered(c.me, sys.server, n)
                      && !(n in sys.store.outbox && IsHead(sys.store.outbox[n])) ::
                      lax && n in sys.content && (Dead(sys.server, sys.content[n].id) || sys.content[n].id != r.id)))
  {
    var m := r.mutationId;
    DeliveryTouchesOneNote(sys.server, c.me, r);
    if server.records != sys.server.records {
      assert !Frozen(sys.server) && !Dead(sys.server, r.id);
      if m in sys.store.outbox && IsHead(sys.store.outbox[m]) {
        assert sys.content[m] == Wire(m, sys.store.outbox[m]);
        assert m in EntityOps(sys.store.outbox, r.id);
        forall n | n in sys.store.outbox && IsHead(sys.store.outbox[n]) && n != m
          ensures sys.store.outbox[n].key != r.id
        {
          assert Compatible(sys.store.outbox[n], sys.store.outbox[m]);
        }
      } else {
        assert lax && Stray(c.me, sys, sys.store, m);
        assert Closed(sys.store) && Orphaned(c.me, sys, sys.store, m);
        assert m !in sys.store.outbox;
        forall n | n in sys.store.outbox
          ensures sys.store.outbox[n].key != r.id
        {
          assert n !in EntityOps(sys.store.outbox, r.id);
        }
        forall n | Exposed(sys, n) && n != m && !Answered(c.me, sys.server, n)
            && !(n in sys.store.outbox && IsHead(sys.store.outbox[n]))
          ensures n in sys.content && sys.content[n].id != r.id
        {
          assert Stray(c.me, sys, sys.store, n);
          if n in sys.store.outbox {
            assert sys.content[n] == Wire(n, sys.store.outbox[n]);
          }
        }
      }
    }
  }

  lemma FirstDeliveryKeepsHeads(c: Config, sys: System, r: Mutation, server: Server.State, lax: bool)
    requires LanesCurrent(c, sys, lax) && FirstDelivery(c, sys, r, server, lax)
    requires IsHeadOf(sys, r) ==> HeadCurrent(c.me, server, r.mutationId, sys.store.outbox[r.mutationId], lax)
    ensures HeadsCurrent(c.me, server, sys.store.outbox, lax)
  {
    DeliveryTouchesOneNote(sys.server, c.me, r);
    WriteIsAlone(c, sys, r, server, lax);
    forall n | n in sys.store.outbox && IsHead(sys.store.outbox[n])
      ensures HeadCurrent(c.me, server, n, sys.store.outbox[n], lax)
    {
      assert HeadCurrent(c.me, sys.server, n, sys.store.outbox[n], lax);
    }
  }

  lemma FirstDeliveryKeepsShadows(c: Config, sys: System, r: Mutation, server: Server.State, lax: bool)
    requires LanesCurrent(c, sys, lax) && FirstDelivery(c, sys, r, server, lax)
    ensures ShadowsBehind(sys.store, server, lax)
  {
    DeliveryTouchesOneNote(sys.server, c.me, r);
    WriteIsAlone(c, sys, r, server, lax);
    forall k
      ensures ShadowBehind(sys.store, server, k, lax)
    {
      assert ShadowBehind(sys.store, sys.server, k, lax);
    }
  }

  predicate IsHeadOf(sys: System, r: Mutation) {
    r.mutationId in sys.store.outbox && IsHead(sys.store.outbox[r.mutationId])
  }

  lemma FirstDeliveryKeepsCover(c: Config, sys: System, r: Mutation, server: Server.State, lax: bool)
    requires LanesCurrent(c, sys, lax) && FirstDelivery(c, sys, r, server, lax)
    ensures AttemptsCover(c.me, sys.(server := server), sys.store, lax)
  {
    DeliveryTouchesOneNote(sys.server, c.me, r);
    WriteIsAlone(c, sys, r, server, lax);
    var u := sys.(server := server);
    forall n | n in sys.store.outbox
      ensures Covered(u, n, sys.store.outbox[n]) || (lax && IsHead(sys.store.outbox[n]) && Excused(c.me, server, sys.store, n))
    {
      var op := sys.store.outbox[n];
      assert Covered(sys, n, op) || (lax && IsHead(op) && Excused(c.me, sys.server, sys.store, n));
      assert Covered(sys, n, op) ==> Covered(u, n, op);
      if IsHead(op) {
        assert HeadCurrent(c.me, sys.server, n, op, lax) && ShadowBehind(sys.store, sys.server, op.key, lax);
      }
    }
  }

  /** What another request is excused by survives a delivery that leaves it unanswered. */
  lemma StrayStays(c: Config, sys: System, r: Mutation, server: Server.State, n: MutationId, lax: bool)
    requires LanesCurrent(c, sys, lax) && FirstDelivery(c, sys, r, server, lax)
    requires Exposed(sys, n) && !Answered(c.me, server, n) && !(n in sys.store.outbox && IsHead(sys.store.outbox[n]))
    requires Stray(c.me, sys, sys.store, n)
    ensures Stray(c.me, sys.(server := server), sys.store, n)
  {
    DeliveryTouchesOneNote(sys.server, c.me, r);
    WriteIsAlone(c, sys, r, server, lax);
    var u := sys.(server := server);
    assert forall m: MutationId :: Exposed(u, m) <==> Exposed(sys, m);
    assert Orphaned(c.me, sys, sys.store, n) ==> Orphaned(c.me, u, sys.store, n);
  }

  lemma FirstDeliveryKeepsExposed(c: Config, sys: System, r: Mutation, server: Server.State, lax: bool)
    requires LanesCurrent(c, sys, lax) && FirstDelivery(c, sys, r, server, lax)
    ensures ExposedKnown(c.me, sys.(server := server), sys.store, lax)
  {
    DeliveryTouchesOneNote(sys.server, c.me, r);
    var u := sys.(server := server);
    forall n | Exposed(u, n)
      ensures Answered(c.me, server, n) || (n in sys.store.outbox && IsHead(sys.store.outbox[n]))
              || (lax && Stray(c.me, u, sys.store, n))
    {
      assert Exposed(sys, n);
      if !Answered(c.me, server, n) && !(n in sys.store.outbox && IsHead(sys.store.outbox[n])) {
        StrayStays(c, sys, r, server, n, lax);
      }
    }
  }

  /** A head that was just answered is current in its new sense. */
  lemma AnsweredHeadIsCurrent(c: Config, sys: System, r: Mutation, lax: bool)
    requires LoneValid(c, sys, lax) && r in sys.requests && !Answered(c.me, sys.server, r.mutationId) && IsHeadOf(sys, r)
    ensures HeadCurrent(c.me, Server.Apply(sys.server, c.me, r).state, r.mutationId, sys.store.outbox[r.mutationId], lax)
  {
    var m := r.mutationId;
    RequestIsCurrent(c, sys, r, lax);
    FirstAnswerIsExact(c, sys, r, lax);
    assert sys.content[m] == Wire(m, sys.store.outbox[m]);
    assert HeadCurrent(c.me, sys.server, m, sys.store.outbox[m], lax);
  }

  lemma DeliverStep(c: Config, sys: System, step: Step, lax: bool)
    requires LoneValid(c, sys, lax) && step.Deliver? && Enabled(c, sys, step)
    ensures LanesCurrent(c, Next(c, sys, step), lax)
  {
    var r := step.request;
    var t := Next(c, sys, step);
    if Answered(c.me, sys.server, r.mutationId) {
      LanesMove(c, sys, t, lax);
    } else {
      RequestIsCurrent(c, sys, r, lax);
      if IsHeadOf(sys, r) { AnsweredHeadIsCurrent(c, sys, r, lax); }
      var server := t.server;
      FirstDeliveryKeepsHeads(c, sys, r, server, lax);
      FirstDeliveryKeepsShadows(c, sys, r, server, lax);
      FirstDeliveryKeepsCover(c, sys, r, server, lax);
      FirstDeliveryKeepsExposed(c, sys, r, server, lax);
      ResponseMove(c, sys.(server := server), t, lax);
    }
  }

  lemma ResponseMove(c: Config, u: System, t: System, lax: bool)
    requires t == u.(responses := t.responses)
    requires HeadsCurrent(c.me, u.server, u.store.outbox, lax) && ShadowsBehind(u.store, u.server, lax)
    requires AttemptsCover(c.me, u, u.store, lax) && ExposedKnown(c.me, u, u.store, lax)
    ensures LanesCurrent(c, t, lax)
  {
    SameExposure(c, u, t, lax);
  }

  lemma DeliveryIsCounted(c: Config, sys: System, r: Mutation)
    requires SentCounted(c, sys) && RequestsFixed(sys.requests, sys.content) && r in sys.requests
    ensures SentCounted(c, sys.(server := Server.Apply(sys.server, c.me, r).state))
  {
    var t := sys.(server := Server.Apply(sys.server, c.me, r).state);
    DeliveryTouchesOneNote(sys.server, c.me, r);
    assert forall m: MutationId :: SendsOf(t, m) == SendsOf(sys, m);
  }

  lemma DeliveryAnswersWell(me: ClientId, s: Server.State, r: Mutation)
    requires AnsweredWell(me, s)
    requires (me, r.mutationId) !in s.receipts ==>
               var status := Server.Apply(s, me, r).result.status; status == Applied || status == Gone
    ensures AnsweredWell(me, Server.Apply(s, me, r).state)
  {
  }

  lemma DeliverWire(c: Config, sys: System, step: Step, lax: bool)
    requires LoneValid(c, sys, lax) && step.Deliver? && Enabled(c, sys, step)
    ensures WireCurrent(c, Next(c, sys, step))
  {
    var r := step.request;
    var server := Server.Apply(sys.server, c.me, r).state;
    Server.ApplyKeepsLog(sys.server, c.me, r);
    if !Answered(c.me, sys.server, r.mutationId) {
      FirstAnswerIsExact(c, sys, r, lax);
    }
    DeliveryAnswersWell(c.me, sys.server, r);
    DeliveryIsCounted(c, sys, r);
    WireMove(c, sys.(server := server), Next(c, sys, step));
  }

  // All steps --------------------------------------------------------------

  lemma WireMove(c: Config, sys: System, t: System)
    requires WireCurrent(c, sys)
    requires (t.server, t.requests, t.sends) == (sys.server, sys.requests, sys.sends)
    requires PagesLogged(t.server, t.pages) && ContentValid(t.content)
    requires forall m | m in sys.content :: m in t.content && t.content[m] == sys.content[m]
    ensures WireCurrent(c, t)
  {
    assert forall m: MutationId :: SendsOf(t, m) == SendsOf(sys, m);
  }

  lemma SendWire(c: Config, sys: System, step: Step)
    requires WireCurrent(c, sys) && step.Send? && Enabled(c, sys, step)
    requires HeldFixed(sys.held, sys.content) && OutboxFixed(sys.store, sys.content)
    ensures WireCurrent(c, Next(c, sys, step))
  {
    var t := Next(c, sys, step);
    var sent := sys.held[step.m][step.i].mutation;
    assert sent == sys.content[step.m] && sent.mutationId == step.m;
    forall r | r in t.requests
      ensures SendsOf(t, r.mutationId) > 0
    {
      assert r in sys.requests ==> SendsOf(sys, r.mutationId) > 0;
    }
  }

  /** The contents a step of the store registers are valid mutations. */
  lemma RegisterKeepsValid(content: map<MutationId, Mutation>, t: Store)
    requires ContentValid(content)
    requires forall m | m in t.outbox && m !in content :: Server.ValidMutation(Wire(m, t.outbox[m]))
    ensures ContentValid(Register(content, t))
  {
    forall m | m in Register(content, t)
      ensures Server.ValidMutation(Register(content, t)[m])
    {
      assert m in content || m in t.outbox;
    }
  }

  lemma ValidBaseIsBounded(content: map<MutationId, Mutation>, s: Store, m: MutationId)
    requires ContentValid(content) && OutboxFixed(s, content) && m in s.outbox
    ensures s.outbox[m].baseVersion.Some? ==> s.outbox[m].baseVersion.value <= I64_MAX
    ensures ValidEdit(s.outbox[m].action, s.outbox[m].value)
  {
    assert Server.ValidMutation(content[m]) && content[m] == Wire(m, s.outbox[m]);
    if s.outbox[m].baseVersion.Some? {
      Decimal.PrintRoundTrip(s.outbox[m].baseVersion.value);
    }
  }

  lemma QueueBaseIsBounded(c: Config, sys: System, k: NoteId)
    requires WireCurrent(c, sys) && Server.LogValid(sys.server) && OutboxFixed(sys.store, sys.content)
    requires NotAhead(sys.store, sys.server, k)
    ensures QueueBase(sys.store, k).Some? ==> QueueBase(sys.store, k).value <= I64_MAX
  {
    var o := Oldest(sys.store.outbox, ReplaceableOps(sys.store.outbox, k));
    if o.Some? {
      ValidBaseIsBounded(sys.content, sys.store, o.value);
    }
    if k in sys.server.records {
      Server.StoredVersionAtMostClock(sys.server, k);
    }
  }

  lemma EditIsValid(c: Config, sys: System, step: Step, lax: bool)
    requires WireCurrent(c, sys) && Server.LogValid(sys.server) && ShadowsBehind(sys.store, sys.server, lax)
    requires OutboxFixed(sys.store, sys.content) && step.EditNote? && Enabled(c, sys, step)
    ensures ContentValid(Next(c, sys, step).content)
  {
    assert ShadowBehind(sys.store, sys.server, step.k, lax);
    QueueBaseIsBounded(c, sys, step.k);
    Decimal.PrintedBaseIsRead(QueueBase(sys.store, step.k));
    QueuedIsValid(sys.store, sys.content, step.k, step.action, step.value, step.now);
  }

  lemma QueuedIsValid(s: Store, content: map<MutationId, Mutation>, k: NoteId, action: Action, value: Option<Note>, now: int)
    requires ContentValid(content) && OutboxFixed(s, content) && ValidEdit(action, value)
    requires Decimal.ValidBaseVersion(Decimal.PrintVersion(QueueBase(s, k)))
    ensures ContentValid(Register(content, Queue(s, k, action, value, now)))
  {
    RegisterKeepsValid(content, Queue(s, k, action, value, now));
  }

  lemma RebasedIsValid(c: Config, sys: System, r: MutationResult, owner: LeaseOwner, now: int)
    requires WireCurrent(c, sys) && Valid(c, sys) && r in sys.responses
    requires Holds(sys.store, r.mutationId, owner) && r.status == Applied && WellFormed(sys.store, r.mutationId, r)
    ensures ContentValid(Register(sys.content, ApplyResult(sys.store, r.mutationId, r, owner, now)))
  {
    var s, m := sys.store, r.mutationId;
    var t := ApplyApplied(s, m, r.record.value, now);
    var receipt := sys.server.receipts[(c.me, m)];
    assert Server.AnswerValid(sys.server, receipt.content, r);
    Server.LoggedIsNotNewer(sys.server, r.record.value);
    Server.StoredVersionAtMostClock(sys.server, r.record.value.id);
    Decimal.PrintedBaseIsRead(Some(r.record.value.version));
    assert OpShape(s, m);
    AppliedFacts(s, m, r.record.value, now);
    if s.issued in t.outbox {
      var n :| n in s.outbox && !IsHead(s.outbox[n])
               && (t.outbox[s.issued].action, t.outbox[s.issued].value) == (s.outbox[n].action, s.outbox[n].value);
      ValidBaseIsBounded(sys.content, s, n);
    }
    RegisterKeepsValid(sys.content, t);
  }

  /** Every other step draws no id. */
  lemma OthersDrawNothing(c: Config, sys: System, step: Step)
    requires ContentValid(sys.content) && OutboxFixed(sys.store, sys.content) && Enabled(c, sys, step)
    requires !step.EditNote?
    requires step.Receive? ==> step.result.status != Applied || !Holds(sys.store, step.result.mutationId, step.leaseOwner)
    ensures ContentValid(Next(c, sys, step).content)
  {
    var t := Next(c, sys, step);
    OthersKeepIds(c, sys, step);
    if t.content != sys.content {
      RegisterKeepsValid(sys.content, t.store);
    }
  }

  lemma OthersKeepIds(c: Config, sys: System, step: Step)
    requires Enabled(c, sys, step) && !step.EditNote?
    requires step.Receive? ==> step.result.status != Applied || !Holds(sys.store, step.result.mutationId, step.leaseOwner)
    ensures Next(c, sys, step).store.outbox.Keys <= sys.store.outbox.Keys
    ensures var t := Next(c, sys, step); t.content == sys.content || t.content == Register(sys.content, t.store)
  {
    if step.ReceivePage? {
      PagesKeepContent(sys.store, step.page.response.changes);
    }
  }

  lemma StepKeepsContentValid(c: Config, sys: System, step: Step, lax: bool)
    requires LoneValid(c, sys, lax) && Enabled(c, sys, step)
    ensures ContentValid(Next(c, sys, step).content)
  {
    if step.EditNote? {
      EditIsValid(c, sys, step, lax);
    } else if step.Receive? && step.result.status == Applied && Holds(sys.store, step.result.mutationId, step.leaseOwner) {
      ResultsAreWellFormed(c, sys, step.result);
      RebasedIsValid(c, sys, step.result, step.leaseOwner, step.now);
    } else {
      OthersDrawNothing(c, sys, step);
    }
  }

  lemma StepKeepsWire(c: Config, sys: System, step: Step, lax: bool)
    requires LoneValid(c, sys, lax) && !step.OtherClient? && Enabled(c, sys, step)
    ensures WireCurrent(c, Next(c, sys, step))
  {
    if step.Deliver? {
      DeliverWire(c, sys, step, lax);
    } else if step.Send? {
      SendWire(c, sys, step);
    } else if step.ServePull? {
      ServeStep(c, sys, step);
      WireMove(c, sys, Next(c, sys, step));
    } else {
      assert ContentValid(Next(c, sys, step).content) by { StepKeepsContentValid(c, sys, step, lax); }
      QuietWire(c, sys, step);
    }
  }

  lemma QuietWire(c: Config, sys: System, step: Step)
    requires WireCurrent(c, sys) && Enabled(c, sys, step) && ContentValid(Next(c, sys, step).content)
    requires !step.Deliver? && !step.Send? && !step.ServePull? && !step.OtherClient?
    ensures WireCurrent(c, Next(c, sys, step))
  {
    WireMove(c, sys, Next(c, sys, step));
  }

  lemma ReleaseStep(c: Config, sys: System, step: Step, lax: bool)
    requires LanesCurrent(c, sys, lax) && step.ReleaseUnsent? && Enabled(c, sys, step)
    requires SentCounted(c, sys) && HeldFixed(sys.held, sys.content)
    ensures LanesCurrent(c, Next(c, sys, step), lax)
  {
    var t := Next(c, sys, step);
    assert forall n: MutationId :: |HeldOf(t, n)| == |HeldOf(sys, n)| - (if n == step.m then 1 else 0);
    assert forall n: MutationId :: SendsOf(t, n) == SendsOf(sys, n);
    FinishStep(c, sys, t, step.m, sys.held[step.m][step.i].owner, GiveBack, step.now, lax);
  }

  lemma RetryOrFailStep(c: Config, sys: System, step: Step, lax: bool)
    requires LanesCurrent(c, sys, lax) && (step.RetryLater? || step.FailPush?) && Enabled(c, sys, step)
    requires SentCounted(c, sys) && HeldFixed(sys.held, sys.content)
    ensures LanesCurrent(c, Next(c, sys, step), lax)
  {
    if step.RetryLater? {
      SettleStep(c, sys, step.m, step.leaseOwner, RetryAfter(step.delay), step.now, lax);
    } else {
      SettleStep(c, sys, step.m, step.leaseOwner, GiveUp, 0, lax);
    }
  }

  lemma SettleStep(c: Config, sys: System, m: MutationId, owner: LeaseOwner, outcome: Outcome, now: int, lax: bool)
    requires LanesCurrent(c, sys, lax) && SentCounted(c, sys) && HeldFixed(sys.held, sys.content) && outcome != GiveBack
    ensures LanesCurrent(c, WithStore(sys, Finish(sys.store, m, owner, outcome, now)), lax)
  {
    var t := WithStore(sys, Finish(sys.store, m, owner, outcome, now));
    assert forall n: MutationId :: HeldOf(t, n) == HeldOf(sys, n) && SendsOf(t, n) == SendsOf(sys, n);
    FinishStep(c, sys, t, m, owner, outcome, now, lax);
  }

  lemma AskStep(c: Config, sys: System, step: Step, lax: bool)
    requires LanesCurrent(c, sys, lax) && Enabled(c, sys, step) && (step.AskPull? || step.ServePull?)
    ensures LanesCurrent(c, Next(c, sys, step), lax)
  {
    var t := Next(c, sys, step);
    assert forall m: MutationId :: HeldOf(t, m) == HeldOf(sys, m) && SendsOf(t, m) == SendsOf(sys, m);
    SameExposure(c, sys, t, lax);
  }

  lemma ResetStep(c: Config, sys: System, lax: bool)
    requires LanesCurrent(c, sys, lax) && SentCounted(c, sys) && HeldFixed(sys.held, sys.content)
    ensures LanesCurrent(c, Next(c, sys, ResetPullCursor), lax)
  {
    var t := ResetCursor(sys.store);
    assert ShadowsRise(sys.store, t);
    SameShadowsKeep(sys.server, sys.store, t, lax);
    RiseMove(c, sys, t, lax);
  }

  /** A store with the same operations and shadows no lower. */
  lemma RiseMove(c: Config, sys: System, t: Store, lax: bool)
    requires LanesCurrent(c, sys, lax) && ShadowsRise(sys.store, t) && ShadowsBehind(t, sys.server, lax)
    requires SentCounted(c, sys) && HeldFixed(sys.held, sys.content)
    ensures LanesCurrent(c, WithStore(sys, t), lax)
  {
    RiseKeepsCover(c.me, sys, t, lax);
    FinishExposes(c, sys, sys.(store := t), lax);
    KnownMoves(c.me, sys, t, lax);
    LanesMove(c, sys, WithStore(sys, t), lax);
  }

  lemma StepKeepsLanes(c: Config, sys: System, step: Step, lax: bool)
    requires LoneValid(c, sys, lax) && Lone(step) && Enabled(c, sys, step)
    ensures LanesCurrent(c, Next(c, sys, step), lax)
  {
    match step {
      case EditNote(_, _, _, _) => EditStep(c, sys, step, lax);
      case ClaimDue(_, _, _, _, _) => ClaimStep(c, sys, step, lax);
      case Send(_, _) => SendStep(c, sys, step, lax);
      case Deliver(_) => DeliverStep(c, sys, step, lax);
      case Receive(_, _, _) => ReceiveStep(c, sys, step, lax);
      case ReceivePage(_) => PageStep(c, sys, step, lax);
      case ReleaseUnsent(_, _, _) => ReleaseStep(c, sys, step, lax);
      case RetryLater(_, _, _, _) => RetryOrFailStep(c, sys, step, lax);
      case FailPush(_, _) => RetryOrFailStep(c, sys, step, lax);
      case ResetPullCursor => ResetStep(c, sys, lax);
      case _ => AskStep(c, sys, step, lax);
    }
  }

  lemma StepKeepsLone(c: Config, sys: System, step: Step, lax: bool)
    requires LoneValid(c, sys, lax) && Lone(step) && Enabled(c, sys, step)
    ensures LoneValid(c, Next(c, sys, step), lax)
  {
    StepKeepsValid(c, sys, step);
    StepKeepsLanes(c, sys, step, lax);
    StepKeepsWire(c, sys, step, lax);
  }

  lemma {:induction false} RunKeepsLone(c: Config, sys: System, steps: seq<Step>, end: System, lax: bool)
    requires LoneValid(c, sys, lax) && Runs(c, sys, steps, end)
    requires forall i | 0 <= i < |steps| :: Lone(steps[i])
    ensures LoneValid(c, end, lax)
    decreases steps
  {
    if steps != [] {
      StepKeepsLone(c, sys, steps[0], lax);
      RunKeepsLone(c, Next(c, sys, steps[0]), steps[1..], end, lax);
    }
  }

  lemma InitialLone(c: Config, lax: bool)
    ensures LoneValid(c, INITIAL, lax)
  {
    InitialValid(c);
    forall k
      ensures ShadowBehind(INITIAL.store, INITIAL.server, k, lax)
    {
      assert EntityOps(INITIAL.store.outbox, k) == {};
    }
  }

  lemma AnswersAreGood(c: Config, sys: System, lax: bool)
    requires LoneValid(c, sys, lax)
    ensures forall r | r in sys.responses :: r.status == Applied || r.status == Gone
  {
    forall r | r in sys.responses
      ensures r.status == Applied || r.status == Gone
    {
      assert (c.me, r.mutationId) in sys.server.receipts;
    }
  }

  /** In every run the undependent operation of each note starts from the server's version or was answered at it. */
  lemma HeadsStayCurrent(c: Config, steps: seq<Step>, end: System)
    requires Runs(c, INITIAL, steps, end)
    requires forall i | 0 <= i < |steps| :: Lone(steps[i])
    ensures HeadsCurrent(c.me, end.server, end.store.outbox, false)
  {
    InitialLone(c, false);
    RunKeepsLone(c, INITIAL, steps, end, false);
  }

  /**
   * However its messages are lost, repeated, delayed or reordered, whatever leases
   * expire and however pulls are interleaved, a lone client never gets a conflict: each
   * answer it gets is applied or gone.
   */
  lemma LoneClientNeverConflicts(c: Config, steps: seq<Step>, end: System)
    requires Runs(c, INITIAL, steps, end)
    requires forall i | 0 <= i < |steps| :: Lone(steps[i])
    ensures forall r | r in end.responses :: r.status == Applied || r.status == Gone
  {
    InitialLone(c, false);
    RunKeepsLone(c, INITIAL, steps, end, false);
    AnswersAreGood(c, end, false);
  }

  /** And a request on its way for the first time is answered gone exactly when there is no live note to change. */
  lemma FirstDeliveriesAreExact(c: Config, steps: seq<Step>, end: System)
    requires Runs(c, INITIAL, steps, end)
    requires forall i | 0 <= i < |steps| :: Lone(steps[i])
    ensures forall r | r in end.requests && !Answered(c.me, end.server, r.mutationId) ::
              Server.Apply(end.server, c.me, r).result.status == (if NotThere(end.server, r) then Gone else Applied)
  {
    InitialLone(c, false);
    RunKeepsLone(c, INITIAL, steps, end, false);
    forall r | r in end.requests && !Answered(c.me, end.server, r.mutationId)
      ensures Server.Apply(end.server, c.me, r).result.status == (if NotThere(end.server, r) then Gone else Applied)
    {
      FirstAnswerIsExact(c, end, r, false);
    }
  }
}
