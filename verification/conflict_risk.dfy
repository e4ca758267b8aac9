/**
 * A client that is the only writer but may give back a push it has sent, or override its
 * own queue: exactly which of these steps make it possible that it conflicts with itself.
 */
module ConflictRisk {
  import opened SyncTypes
  import opened LocalStore
  import opened StoreShape
  import opened StoreSteps
  import opened Protocol
  import opened LoneClient
  import Decimal
  import Server

  predicate Solo(step: Step) { !step.OtherClient? }

  /** A mutation of the note may still reach the server for the first time. */
  ghost predicate Outstanding(me: ClientId, sys: System, k: NoteId) {
    exists m :: m in sys.content && sys.content[m].id == k && Exposed(sys, m) && !Answered(me, sys.server, m)
  }

  /** The push of `m` is given back although it is on its way, and becomes replaceable while that matters. */
  predicate RisksRelease(me: ClientId, sys: System, m: MutationId, owner: LeaseOwner) {
    && Holds(sys.store, m, owner) && Exposed(sys, m)
    && var op := sys.store.outbox[m];
    && op.attempts == 1
    && !Closed(sys.store) && !Dead(sys.server, op.key)
    && (if Answered(me, sys.server, m)
        then ReplacementBase(sys.store, op) != ServerVersion(sys.server, op.key)
        else !Frozen(sys.server))
  }

  /** The note's queue is dropped while its shadow is behind, or while something for it is on its way. */
  ghost predicate RisksOverride(me: ClientId, sys: System, k: NoteId, after: Store) {
    && !Closed(sys.store) && !Dead(sys.server, k)
    && (ShadowVersion(after, k) != ServerVersion(sys.server, k) || (!Frozen(sys.server) && Outstanding(me, sys, k)))
  }

  ghost predicate Risks(me: ClientId, sys: System, step: Step) {
    match step
    case ReleaseSent(m, owner, _) => RisksRelease(me, sys, m, owner)
    case AcceptServer(k) => RisksOverride(me, sys, k, AcceptServerVersion(sys.store, k))
    case DiscardLocal(k) => RisksOverride(me, sys, k, DiscardLocalVersion(sys.store, k))
    case _ => false
  }

  // Steps without risk ------------------------------------------------------

  lemma SafeReleaseCovers(me: ClientId, sys: System, m: MutationId, owner: LeaseOwner, now: int)
    requires StoreValid(sys.store) && AttemptsCover(me, sys, sys.store, true)
    requires Holds(sys.store, m, owner) && !RisksRelease(me, sys, m, owner)
    ensures AttemptsCover(me, sys, Release(sys.store, m, owner, now), true)
  {
    var s := sys.store;
    var t := Release(s, m, owner, now);
    assert OpShape(s, m);
    FinishIsSame(s, m, owner, GiveBack, now);
    ExcusesStay(me, sys.server, s, t);
    forall n | n in t.outbox
      ensures Covered(sys, n, t.outbox[n]) || (IsHead(t.outbox[n]) && Excused(me, sys.server, t, n))
    {
      assert Covered(sys, n, s.outbox[n]) || (IsHead(s.outbox[n]) && Excused(me, sys.server, s, n));
    }
  }

  lemma SafeReleaseMoves(c: Config, sys: System, m: MutationId, owner: LeaseOwner, now: int)
    requires LanesCurrent(c, sys, true) && SentCounted(c, sys) && HeldFixed(sys.held, sys.content)
    requires AttemptsCover(c.me, sys, Release(sys.store, m, owner, now), true)
    ensures LanesCurrent(c, WithStore(sys, Release(sys.store, m, owner, now)), true)
  {
    var t := Release(sys.store, m, owner, now);
    FinishIsSame(sys.store, m, owner, GiveBack, now);
    SameOutboxKeeps(c.me, sys.server, sys.store, t, true);
    SameShadowsKeep(sys.server, sys.store, t, true);
    FinishExposes(c, sys, sys.(store := t), true);
    KnownMoves(c.me, sys, t, true);
    LanesMove(c, sys, WithStore(sys, t), true);
  }

  lemma SafeRelease(c: Config, sys: System, m: MutationId, owner: LeaseOwner, now: int)
    requires StoreValid(sys.store) && LanesCurrent(c, sys, true) && SentCounted(c, sys) && HeldFixed(sys.held, sys.content)
    requires !RisksRelease(c.me, sys, m, owner)
    ensures LanesCurrent(c, WithStore(sys, Release(sys.store, m, owner, now)), true)
  {
    if Holds(sys.store, m, owner) {
      SafeReleaseCovers(c.me, sys, m, owner, now);
    } else {
      assert Release(sys.store, m, owner, now) == sys.store;
    }
    SafeReleaseMoves(c, sys, m, owner, now);
  }

  /** What dropping a note's queue leaves alone. */
  ghost predicate Dropped(s: Store, t: Store, k: NoteId) {
    && t.outbox == s.outbox - EntityOps(s.outbox, k) && t.nextSeq == s.nextSeq
    && (forall j | j != k :: ShadowVersion(t, j) == ShadowVersion(s, j))
    && (ShadowVersion(t, k) == ShadowVersion(s, k) || ShadowVersion(t, k).None?)
  }

  lemma OverridesDrop(s: Store, k: NoteId)
    ensures Dropped(s, AcceptServerVersion(s, k), k) && Dropped(s, DiscardLocalVersion(s, k), k)
  {
  }

  lemma DropKeepsOthers(me: ClientId, sys: System, t: Store, k: NoteId)
    requires Dropped(sys.store, t, k)
    requires HeadsCurrent(me, sys.server, sys.store.outbox, true) && AttemptsCover(me, sys, sys.store, true)
    ensures HeadsCurrent(me, sys.server, t.outbox, true) && AttemptsCover(me, sys, t, true)
  {
    forall n | n in t.outbox
      ensures Covered(sys, n, t.outbox[n]) || (IsHead(t.outbox[n]) && Excused(me, sys.server, t, n))
    {
      assert Covered(sys, n, sys.store.outbox[n]) || (IsHead(sys.store.outbox[n]) && Excused(me, sys.server, sys.store, n));
    }
  }

  lemma DropKeepsShadows(me: ClientId, sys: System, t: Store, k: NoteId)
    requires Dropped(sys.store, t, k) && !RisksOverride(me, sys, k, t)
    requires ShadowsBehind(sys.store, sys.server, true)
    ensures ShadowsBehind(t, sys.server, true)
  {
    forall j
      ensures ShadowBehind(t, sys.server, j, true)
    {
      assert ShadowBehind(sys.store, sys.server, j, true);
      assert j != k ==> EntityOps(t.outbox, j) == EntityOps(sys.store.outbox, j);
    }
  }

  /** What was dropped is on its way only for a deleted note, or where nothing can be written or edited any more. */
  lemma DroppedIsStray(me: ClientId, sys: System, t: Store, k: NoteId, m: MutationId)
    requires Dropped(sys.store, t, k) && !RisksOverride(me, sys, k, t)
    requires StoreValid(sys.store) && OutboxFixed(sys.store, sys.content)
    requires HeadsCurrent(me, sys.server, sys.store.outbox, true) && ExposedKnown(me, sys, sys.store, true)
    requires Exposed(sys, m) && !Answered(me, sys.server, m)
    requires m in sys.store.outbox && IsHead(sys.store.outbox[m]) && sys.store.outbox[m].key == k
    ensures Stray(me, sys, t, m)
  {
    var s := sys.store;
    assert sys.content[m] == Wire(m, s.outbox[m]);
    assert HeadCurrent(me, sys.server, m, s.outbox[m], true);
    assert Outstanding(me, sys, k);
    if !Dead(sys.server, k) && !Frozen(sys.server) {
      assert m in EntityOps(s.outbox, k);
      forall n | n in s.outbox && n != m && IsHead(s.outbox[n])
        ensures s.outbox[n].key != k
      {
        assert Compatible(s.outbox[n], s.outbox[m]);
      }
      forall n | n in sys.content && Exposed(sys, n) && n != m && n !in t.outbox && !Answered(me, sys.server, n)
        ensures sys.content[n].id != k
      {
        assert (n in s.outbox && IsHead(s.outbox[n])) || Stray(me, sys, s, n);
      }
      assert EntityOps(t.outbox, k) == {};
    }
  }

  lemma DropKeepsExposed(me: ClientId, sys: System, t: Store, k: NoteId)
    requires Dropped(sys.store, t, k) && !RisksOverride(me, sys, k, t)
    requires StoreValid(sys.store) && OutboxFixed(sys.store, sys.content)
    requires HeadsCurrent(me, sys.server, sys.store.outbox, true) && ExposedKnown(me, sys, sys.store, true)
    ensures ExposedKnown(me, sys, t, true)
  {
    var s := sys.store;
    forall m | Exposed(sys, m) && !Answered(me, sys.server, m)
      ensures (m in t.outbox && IsHead(t.outbox[m])) || Stray(me, sys, t, m)
    {
      if m in s.outbox && IsHead(s.outbox[m]) {
        if s.outbox[m].key == k { DroppedIsStray(me, sys, t, k, m); }
      }
    }
  }

  lemma SafeOverride(c: Config, sys: System, t: Store, k: NoteId)
    requires LoneValid(c, sys, true) && !RisksOverride(c.me, sys, k, t)
    requires t == AcceptServerVersion(sys.store, k) || t == DiscardLocalVersion(sys.store, k)
    ensures LanesCurrent(c, WithStore(sys, t), true)
  {
    OverridesDrop(sys.store, k);
    DropKeepsOthers(c.me, sys, t, k);
    DropKeepsShadows(c.me, sys, t, k);
    DropKeepsExposed(c.me, sys, t, k);
    LanesMove(c, sys, WithStore(sys, t), true);
  }

  lemma SafeStepKeepsLanes(c: Config, sys: System, step: Step)
    requires LoneValid(c, sys, true) && Enabled(c, sys, step) && !Risks(c.me, sys, step)
    requires step.ReleaseSent? || step.AcceptServer? || step.DiscardLocal?
    ensures LanesCurrent(c, Next(c, sys, step), true)
  {
    match step
    case ReleaseSent(m, owner, now) => SafeRelease(c, sys, m, owner, now);
    case AcceptServer(k) => SafeOverride(c, sys, AcceptServerVersion(sys.store, k), k);
    case DiscardLocal(k) => SafeOverride(c, sys, DiscardLocalVersion(sys.store, k), k);
  }

  /** A step without risk keeps the lax invariant, under which no conflict can be reached. */
  lemma SafeStep(c: Config, sys: System, step: Step)
    requires LoneValid(c, sys, true) && Solo(step) && Enabled(c, sys, step) && !Risks(c.me, sys, step)
    ensures LoneValid(c, Next(c, sys, step), true)
  {
    if Lone(step) {
      StepKeepsLone(c, sys, step, true);
    } else {
      SafeStepKeepsLanes(c, sys, step);
      StepKeepsValid(c, sys, step);
      StepKeepsWire(c, sys, step, true);
    }
  }

  // Steps with risk ---------------------------------------------------------

  const NOTE: Note := Note("", "")

  ghost predicate LoneReach(c: Config, u: System, v: System) {
    exists steps :: Runs(c, u, steps, v) && forall i | 0 <= i < |steps| :: Lone(steps[i])
  }

  lemma LoneStep(c: Config, u: System, step: Step)
    requires Enabled(c, u, step) && Lone(step)
    ensures LoneReach(c, u, Next(c, u, step))
  {
    RunOne(c, u, step);
    assert forall i | 0 <= i < |[step]| :: Lone([step][i]);
  }

  lemma LoneJoin(c: Config, u: System, v: System, w: System)
    requires LoneReach(c, u, v) && LoneReach(c, v, w)
    ensures LoneReach(c, u, w)
  {
    var a :| Runs(c, u, a, v) && forall i | 0 <= i < |a| :: Lone(a[i]);
    var b :| Runs(c, v, b, w) && forall i | 0 <= i < |b| :: Lone(b[i]);
    RunsJoin(c, u, a, v, b, w);
    assert forall i | 0 <= i < |a + b| :: Lone((a + b)[i]);
  }

  /** A conflict with itself is now a matter of scheduling: some run of lone steps ends in one. */
  ghost predicate ConflictReachable(c: Config, u: System) {
    exists v, r :: LoneReach(c, u, v) && r in v.responses && r.status == Conflict
  }

  lemma DeliveryConflicts(c: Config, u: System, v: System, r: Mutation)
    requires LoneReach(c, u, v) && r in v.requests
    requires Server.Apply(v.server, c.me, r).result.status == Conflict
    ensures ConflictReachable(c, u)
  {
    LoneStep(c, v, Deliver(r));
    var w := Next(c, v, Deliver(r));
    LoneJoin(c, u, v, w);
    assert Server.Apply(v.server, c.me, r).result in w.responses;
  }

  /** A time before every operation is due. */
  lemma {:induction false} BeforeAll(outbox: map<MutationId, Op>) returns (now: int)
    ensures forall m | m in outbox :: now < outbox[m].nextAttemptAt
    decreases |outbox|
  {
    if outbox == map[] {
      now := 0;
    } else {
      var m :| m in outbox;
      var rest := outbox - {m};
      assert outbox.Keys == rest.Keys + {m};
      now := BeforeAll(rest);
      if outbox[m].nextAttemptAt <= now {
        now := outbox[m].nextAttemptAt - 1;
      }
      assert forall n | n in outbox :: n == m || n in rest;
    }
  }

  /** The edit that a put of the note queues, on the wire. */
  ghost function NewPut(s: Store, k: NoteId): Mutation {
    Mutation(s.issued, DRAFT_NOTE_KIND, k, Put, Decimal.PrintVersion(QueueBase(s, k)), SCHEMA_VERSION, Some(NOTE))
  }

  /** The note takes an edit at once, and nothing is held under the next id. */
  ghost predicate Editable(u: System, k: NoteId) {
    && StoreValid(u.store) && QueueRefusal(u.store, k).None? && QueueDependency(u.store, k).None?
    && HeldOf(u, u.store.issued) == []
  }

  lemma EditFirst(c: Config, u: System, k: NoteId, now: int) returns (v: System)
    requires Editable(u, k) && forall m | m in u.store.outbox :: now < u.store.outbox[m].nextAttemptAt
    ensures LoneReach(c, u, v)
    ensures (v.server, v.requests, v.held) == (u.server, u.requests, u.held)
    ensures var m := u.store.issued;
            && m in v.store.outbox && Wire(m, v.store.outbox[m]) == NewPut(u.store, k)
            && IsBatch(ExpireLeases(v.store.outbox, now), now, 1, [m])
  {
    var m := u.store.issued;
    var step := EditNote(k, Put, Some(NOTE), now);
    LoneStep(c, u, step);
    v := Next(c, u, step);
    OnlyDue(v.store.outbox, m, now);
  }

  lemma ClaimAlone(c: Config, u: System, m: MutationId, now: int)
    requires IsBatch(ExpireLeases(u.store.outbox, now), now, 1, [m])
    ensures LoneReach(c, u, Next(c, u, ClaimDue(0, 1, 30, now, [m])))
  {
    LoneStep(c, u, ClaimDue(0, 1, 30, now, [m]));
  }

  lemma EditAndClaim(c: Config, u: System, k: NoteId, now: int) returns (v: System)
    requires Editable(u, k) && forall m | m in u.store.outbox :: now < u.store.outbox[m].nextAttemptAt
    ensures LoneReach(c, u, v) && v.server == u.server && v.requests == u.requests
    ensures HeldOf(v, u.store.issued) == [HeldClaim(0, NewPut(u.store, k))]
  {
    var m := u.store.issued;
    var w := EditFirst(c, u, k, now);
    var step := ClaimDue(0, 1, 30, now, [m]);
    ClaimAlone(c, w, m, now);
    v := Next(c, w, step);
    LoneJoin(c, u, w, v);
    assert Wire(m, v.store.outbox[m]) == NewPut(u.store, k);
  }

  lemma OnlyDue(outbox: map<MutationId, Op>, m: MutationId, now: int)
    requires m in outbox && outbox[m].status == Queued && outbox[m].dependsOn.None? && outbox[m].nextAttemptAt == now
    requires forall n | n in outbox && n != m :: now < outbox[n].nextAttemptAt
    ensures IsBatch(ExpireLeases(outbox, now), now, 1, [m])
  {
    var expired := ExpireLeases(outbox, now);
    assert forall n | n in Due(expired, now) :: n == m;
    assert m in Due(expired, now);
  }

  /** The client edits the note and sends the edit, before anything else of its queue. */
  lemma PushNewEdit(c: Config, u: System, k: NoteId) returns (v: System)
    requires Editable(u, k)
    ensures LoneReach(c, u, v) && v.server == u.server && v.requests == u.requests + {NewPut(u.store, k)}
  {
    var now := BeforeAll(u.store.outbox);
    var w := EditAndClaim(c, u, k, now);
    var send := Send(u.store.issued, 0);
    LoneStep(c, w, send);
    v := Next(c, w, send);
    LoneJoin(c, u, w, v);
  }

  /** What makes the edit fit for the server: it is valid, and delivered for the first time. */
  ghost predicate Acceptable(c: Config, u: System, k: NoteId) {
    && (QueueBase(u.store, k).Some? ==> QueueBase(u.store, k).value <= I64_MAX)
    && !Answered(c.me, u.server, u.store.issued)
  }

  /** An edit that starts from an outdated version conflicts when it arrives. */
  lemma StaleEditConflicts(c: Config, u: System, k: NoteId)
    requires Editable(u, k) && Acceptable(c, u, k)
    requires k in u.server.records && !u.server.records[k].deleted
    requires QueueBase(u.store, k) != ServerVersion(u.server, k)
    ensures ConflictReachable(c, u)
  {
    var v := PushNewEdit(c, u, k);
    Decimal.PrintedBaseIsRead(QueueBase(u.store, k));
    assert Server.ValidMutation(NewPut(u.store, k));
    DeliveryConflicts(c, u, v, NewPut(u.store, k));
  }

  /** Two mutations that start from the same version: the second to arrive conflicts. */
  lemma RaceConflicts(c: Config, u: System, k: NoteId, r: Mutation)
    requires Editable(u, k) && Acceptable(c, u, k) && r in u.requests
    requires r.id == k && r.mutationId != u.store.issued && Server.ValidMutation(r) && !Answered(c.me, u.server, r.mutationId)
    requires !Dead(u.server, k) && !Frozen(u.server)
    requires IsCurrent(u.server, r) && QueueBase(u.store, k) == ServerVersion(u.server, k)
    ensures ConflictReachable(c, u)
  {
    var v := PushNewEdit(c, u, k);
    var put := NewPut(u.store, k);
    Decimal.PrintedBaseIsRead(QueueBase(u.store, k));
    assert Server.ValidMutation(put);
    LoneStep(c, v, Deliver(put));
    var w := Next(c, v, Deliver(put));
    LoneJoin(c, u, v, w);
    DeliveryConflicts(c, u, w, r);
  }

  /** What is held can be sent. */
  lemma PutOnWire(c: Config, u: System, m: MutationId) returns (v: System)
    requires SentCounted(c, u) && HeldFixed(u.held, u.content) && Exposed(u, m)
    ensures LoneReach(c, u, v) && m in u.content && u.content[m] in v.requests
    ensures v.store == u.store && v.server == u.server
    ensures forall n | n != m :: HeldOf(v, n) == HeldOf(u, n)
  {
    ExposedHasContent(c, u, m);
    if SendsOf(u, m) > 0 {
      v := u;
      assert Runs(c, u, [], u);
    } else {
      LoneStep(c, u, Send(m, 0));
      v := Next(c, u, Send(m, 0));
    }
  }

  lemma ReachConflict(c: Config, u: System, v: System)
    requires LoneReach(c, u, v) && ConflictReachable(c, v)
    ensures ConflictReachable(c, u)
  {
    var w, r :| LoneReach(c, v, w) && r in w.responses && r.status == Conflict;
    LoneJoin(c, u, v, w);
  }

  /** With `m` on its way from the version the next edit starts from, they race. */
  lemma OutstandingConflicts(c: Config, u: System, k: NoteId, m: MutationId)
    requires WireCurrent(c, u) && HeldFixed(u.held, u.content)
    requires Editable(u, k) && Acceptable(c, u, k)
    requires m in u.content && u.content[m].id == k && u.content[m].mutationId == m && m != u.store.issued
    requires Exposed(u, m) && !Answered(c.me, u.server, m) && IsCurrent(u.server, u.content[m])
    requires !Dead(u.server, k) && !Frozen(u.server) && QueueBase(u.store, k) == ServerVersion(u.server, k)
    ensures ConflictReachable(c, u)
  {
    var v := PutOnWire(c, u, m);
    RaceConflicts(c, v, k, u.content[m]);
    ReachConflict(c, u, v);
  }

  lemma LiveHeadHasNoConflict(s: Store, m: MutationId)
    requires StoreValid(s) && m in s.outbox && IsHead(s.outbox[m]) && s.outbox[m].status != Blocked
    ensures s.outbox[m].key !in s.conflicts
  {
    assert forall n | n in s.outbox && n != m :: Compatible(s.outbox[m], s.outbox[n]);
    assert s.outbox[m].key in s.conflicts ==> ConflictShape(s, s.outbox[m].key);
  }

  /** Given back down to no attempts, the operation is what the next edit replaces and starts from. */
  lemma ReleasedIsReplaced(s: Store, m: MutationId, owner: LeaseOwner, now: int)
    requires StoreValid(s) && Holds(s, m, owner) && s.outbox[m].attempts == 1 && !Closed(s)
    ensures var t := Release(s, m, owner, now);
            var k := s.outbox[m].key;
            && QueueRefusal(t, k).None? && QueueDependency(t, k).None?
            && QueueBase(t, k) == ReplacementBase(s, s.outbox[m])
  {
    var t := Release(s, m, owner, now);
    var k := s.outbox[m].key;
    ReleaseKeeps(s, m, owner, now);
    assert OpShape(s, m) && OpShown(s, m);
    LiveHeadHasNoConflict(s, m);
    forall n | n in t.outbox && t.outbox[n].key == k && n != m
      ensures t.outbox[m].localSeq < t.outbox[n].localSeq && !Immutable(t.outbox[n])
    {
      assert OpShape(t, n);
      OneDependsOnTheOther(t, m, n);
    }
    assert ImmutableOps(t.outbox, k) == {};
    assert m in ReplaceableOps(t.outbox, k);
  }

  lemma DroppedIsEditable(s: Store, k: NoteId, t: Store)
    requires StoreValid(s) && !Closed(s) && (t == AcceptServerVersion(s, k) || t == DiscardLocalVersion(s, k))
    ensures StoreValid(t) && QueueRefusal(t, k).None? && QueueDependency(t, k).None?
    ensures QueueBase(t, k) == ShadowVersion(t, k) && t.issued == s.issued
  {
    AcceptKeeps(s, k);
    DiscardKeeps(s, k);
    assert ImmutableOps(t.outbox, k) == {} && ReplaceableOps(t.outbox, k) == {};
  }

  /** What is left when the client changed its own store and drew no id. */
  ghost predicate StoreMoved(sys: System, u: System) {
    && (u.server, u.held, u.sends) == (sys.server, sys.held, sys.sends) && u.store.issued == sys.store.issued
    && (forall m | m in sys.content :: m in u.content && u.content[m] == sys.content[m])
  }

  /** What the wire and the server promise after such a step. */
  ghost predicate WireHolds(c: Config, u: System) {
    && WireCurrent(c, u) && Server.LogValid(u.server) && StoreValid(u.store)
    && HeldFixed(u.held, u.content) && OutboxFixed(u.store, u.content)
  }

  lemma StoreStepHolds(c: Config, sys: System, step: Step)
    requires LoneValid(c, sys, true) && Enabled(c, sys, step) && !step.OtherClient?
    ensures WireHolds(c, Next(c, sys, step))
  {
    StepKeepsValid(c, sys, step);
    StepKeepsWire(c, sys, step, true);
  }

  lemma RiskyEdit(c: Config, sys: System, u: System, k: NoteId)
    requires StoreMoved(sys, u) && WireHolds(c, u)
    requires !Exposed(sys, sys.store.issued) && !Answered(c.me, sys.server, sys.store.issued)
    requires QueueRefusal(u.store, k).None? && QueueDependency(u.store, k).None? && NotAhead(u.store, u.server, k)
    ensures Editable(u, k) && Acceptable(c, u, k)
  {
    QueueBaseIsBounded(c, u, k);
  }

  /** The next edit of the note is stale, or races with `m`. */
  lemma RiskyEditConflicts(c: Config, sys: System, u: System, k: NoteId, m: MutationId)
    requires StoreMoved(sys, u) && WireHolds(c, u) && Editable(u, k) && Acceptable(c, u, k)
    requires NotAhead(u.store, u.server, k) && !Dead(u.server, k)
    requires if QueueBase(u.store, k) != ServerVersion(u.server, k) then k in u.server.records
             else
               && m in sys.content && sys.content[m].id == k && sys.content[m].mutationId == m && m != sys.store.issued
               && Exposed(sys, m) && !Answered(c.me, sys.server, m) && IsCurrent(sys.server, sys.content[m])
               && !Frozen(sys.server)
    ensures ConflictReachable(c, u)
  {
    if QueueBase(u.store, k) != ServerVersion(u.server, k) {
      StaleEditConflicts(c, u, k);
    } else {
      assert HeldOf(u, m) == HeldOf(sys, m) && SendsOf(u, m) == SendsOf(sys, m);
      OutstandingConflicts(c, u, k, m);
    }
  }

  /** An answered operation that is no longer current was applied to a live note. */
  lemma RiskyHead(c: Config, sys: System, m: MutationId, owner: LeaseOwner)
    requires LoneValid(c, sys, true) && RisksRelease(c.me, sys, m, owner)
    ensures var op := sys.store.outbox[m];
            && NotAhead(sys.store, sys.server, op.key)
            && sys.content[m] == Wire(m, op)
            && (if Answered(c.me, sys.server, m) then op.key in sys.server.records
                else IsCurrent(sys.server, sys.content[m])
                     && ReplacementBase(sys.store, op) == ServerVersion(sys.server, op.key))
  {
    var op := sys.store.outbox[m];
    assert OpShape(sys.store, m) && HeadCurrent(c.me, sys.server, m, op, true);
    assert ShadowBehind(sys.store, sys.server, op.key, true);
  }

  lemma ReleasedMoves(c: Config, sys: System, m: MutationId, owner: LeaseOwner, now: int)
    requires LoneValid(c, sys, true)
    ensures var u := Next(c, sys, ReleaseSent(m, owner, now));
            StoreMoved(sys, u) && WireHolds(c, u) && u.store == Release(sys.store, m, owner, now)
  {
    StoreStepHolds(c, sys, ReleaseSent(m, owner, now));
  }

  lemma RiskyReleaseConflicts(c: Config, sys: System, m: MutationId, owner: LeaseOwner, now: int)
    requires LoneValid(c, sys, true) && RisksRelease(c.me, sys, m, owner)
    ensures ConflictReachable(c, Next(c, sys, ReleaseSent(m, owner, now)))
  {
    var u := Next(c, sys, ReleaseSent(m, owner, now));
    ReleasedMoves(c, sys, m, owner, now);
    IssuedIsUntouched(c, sys, true);
    RiskyHead(c, sys, m, owner);
    RiskyReleaseRaces(c, sys, u, m, owner, now);
  }

  lemma RiskyReleaseRaces(c: Config, sys: System, u: System, m: MutationId, owner: LeaseOwner, now: int)
    requires StoreValid(sys.store) && RisksRelease(c.me, sys, m, owner)
    requires StoreMoved(sys, u) && WireHolds(c, u) && u.store == Release(sys.store, m, owner, now)
    requires !Exposed(sys, sys.store.issued) && !Answered(c.me, sys.server, sys.store.issued) && m != sys.store.issued
    requires m in sys.content && sys.content[m] == Wire(m, sys.store.outbox[m])
    requires var op := sys.store.outbox[m];
             && NotAhead(sys.store, sys.server, op.key)
             && (if Answered(c.me, sys.server, m) then op.key in sys.server.records
                 else IsCurrent(sys.server, sys.content[m])
                      && ReplacementBase(sys.store, op) == ServerVersion(sys.server, op.key))
    ensures ConflictReachable(c, u)
  {
    var k := sys.store.outbox[m].key;
    ReleasedIsReplaced(sys.store, m, owner, now);
    FinishIsSame(sys.store, m, owner, GiveBack, now);
    RiskyEdit(c, sys, u, k);
    RiskyEditConflicts(c, sys, u, k, m);
  }

  lemma RiskyDropConflicts(c: Config, sys: System, u: System, k: NoteId)
    requires LoneValid(c, sys, true) && StoreMoved(sys, u) && WireHolds(c, u)
    requires Dropped(sys.store, u.store, k) && RisksOverride(c.me, sys, k, u.store)
    requires QueueRefusal(u.store, k).None? && QueueDependency(u.store, k).None?
    requires QueueBase(u.store, k) == ShadowVersion(u.store, k)
    ensures ConflictReachable(c, u)
  {
    IssuedIsUntouched(c, sys, true);
    assert ShadowBehind(sys.store, sys.server, k, true);
    RiskyEdit(c, sys, u, k);
    var m := sys.store.issued;
    if ShadowVersion(u.store, k) == ServerVersion(sys.server, k) {
      m :| m in sys.content && sys.content[m].id == k && Exposed(sys, m) && !Answered(c.me, sys.server, m);
      OutstandingIsHead(c, sys, k, m);
    }
    RiskyEditConflicts(c, sys, u, k, m);
  }

  lemma RiskyOverrideConflicts(c: Config, sys: System, step: Step)
    requires LoneValid(c, sys, true) && (step.AcceptServer? || step.DiscardLocal?) && Risks(c.me, sys, step)
    ensures ConflictReachable(c, Next(c, sys, step))
  {
    var u := Next(c, sys, step);
    StoreStepHolds(c, sys, step);
    DroppedIsEditable(sys.store, step.k, u.store);
    OverridesDrop(sys.store, step.k);
    RiskyDropConflicts(c, sys, u, step.k);
  }

  lemma OutstandingIsHead(c: Config, sys: System, k: NoteId, m: MutationId)
    requires LoneValid(c, sys, true) && !Closed(sys.store) && !Dead(sys.server, k) && !Frozen(sys.server)
    requires m in sys.content && sys.content[m].id == k && Exposed(sys, m) && !Answered(c.me, sys.server, m)
    ensures IsCurrent(sys.server, sys.content[m]) && sys.content[m].mutationId == m && m != sys.store.issued
  {
    IssuedIsUntouched(c, sys, true);
    assert OutboxFixed(sys.store, sys.content);
    assert !Stray(c.me, sys, sys.store, m);
    assert HeadCurrent(c.me, sys.server, m, sys.store.outbox[m], true);
  }

  // The exact condition -----------------------------------------------------

  /** After a step of a client that is the only writer a conflict can be reached if and only if the step risks it. */
  lemma RiskIsExact(c: Config, sys: System, step: Step)
    requires LoneValid(c, sys, true) && Solo(step) && Enabled(c, sys, step)
    ensures ConflictReachable(c, Next(c, sys, step)) <==> Risks(c.me, sys, step)
  {
    if Risks(c.me, sys, step) {
      if step.ReleaseSent? {
        RiskyReleaseConflicts(c, sys, step.m, step.leaseOwner, step.now);
      } else {
        RiskyOverrideConflicts(c, sys, step);
      }
    } else {
      SafeStep(c, sys, step);
      LoneNeverReaches(c, Next(c, sys, step));
    }
  }

  lemma LoneReachIsGood(c: Config, u: System, v: System)
    requires LoneValid(c, u, true) && LoneReach(c, u, v)
    ensures forall r | r in v.responses :: r.status == Applied || r.status == Gone
  {
    var steps :| Runs(c, u, steps, v) && forall i | 0 <= i < |steps| :: Lone(steps[i]);
    RunKeepsLone(c, u, steps, v, true);
    AnswersAreGood(c, v, true);
  }

  lemma LoneNeverReaches(c: Config, u: System)
    requires LoneValid(c, u, true)
    ensures !ConflictReachable(c, u)
  {
    forall v | LoneReach(c, u, v)
      ensures forall r | r in v.responses :: r.status != Conflict
    {
      LoneReachIsGood(c, u, v);
    }
  }

  /** A run of the only writer in which no step risks a conflict. */
  ghost predicate CarefulRun(c: Config, sys: System, steps: seq<Step>, end: System)
    decreases steps
  {
    if steps == [] then end == sys
    else
      && Enabled(c, sys, steps[0]) && Solo(steps[0]) && !Risks(c.me, sys, steps[0])
      && CarefulRun(c, Next(c, sys, steps[0]), steps[1..], end)
  }

  lemma {:induction false} CarefulRunKeeps(c: Config, sys: System, steps: seq<Step>, end: System)
    requires LoneValid(c, sys, true) && CarefulRun(c, sys, steps, end)
    ensures LoneValid(c, end, true)
    decreases steps
  {
    if steps != [] {
      SafeStep(c, sys, steps[0]);
      CarefulRunKeeps(c, Next(c, sys, steps[0]), steps[1..], end);
    }
  }

  /**
   * A client that gives back and overrides without risk never conflicts, and whatever it did so
   * far, its next step makes a conflict possible if and only if that step is a risk.
   */
  lemma CarefulClientNeverConflicts(c: Config, steps: seq<Step>, end: System, step: Step)
    requires CarefulRun(c, INITIAL, steps, end) && Solo(step) && Enabled(c, end, step)
    ensures forall r | r in end.responses :: r.status == Applied || r.status == Gone
    ensures ConflictReachable(c, Next(c, end, step)) <==> Risks(c.me, end, step)
  {
    InitialLone(c, true);
    CarefulRunKeeps(c, INITIAL, steps, end);
    AnswersAreGood(c, end, true);
    RiskIsExact(c, end, step);
  }
}
