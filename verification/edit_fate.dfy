/** What becomes of an accepted edit. */
module EditFate {
  import opened SyncTypes
  import opened LocalStore
  import opened StoreShape
  import opened StoreSteps
  import opened Protocol
  import Server

  /** The same edit of the same note, possibly under another mutation id and base version. */
  predicate SameEdit(a: Op, b: Op) {
    a.key == b.key && EditOf(a) == EditOf(b)
  }

  /** The edit is in the outbox, sent or blocked or not, under an id that was drawn when it was made or later. */
  ghost predicate Kept(s: Store, edit: Op, since: MutationId) {
    exists m :: m in s.outbox && since <= m && SameEdit(s.outbox[m], edit)
  }

  predicate IsEdit(snapshot: Snapshot, edit: Op) {
    snapshot.id == edit.key && snapshot.deleted == edit.action.Delete? && snapshot.value == edit.value
  }

  /** The server applied this very mutation, as a version of the note that is exactly this edit. */
  ghost predicate AppliedAs(s: Server.State, me: ClientId, edit: Op, m: MutationId) {
    && (me, m) in s.receipts
    && var result := s.receipts[(me, m)].result;
    && result.status == Applied && result.record.Some?
    && Server.InLog(s, result.record.value) && IsEdit(result.record.value, edit)
  }

  /** The server applied the edit under an id that was drawn when it was made or later. */
  ghost predicate Landed(s: Server.State, me: ClientId, edit: Op, since: MutationId) {
    exists m :: since <= m && AppliedAs(s, me, edit, m)
  }

  /** The user overrides what is queued for the note. */
  predicate Overrides(step: Step, k: NoteId) {
    (step.EditNote? || step.AcceptServer? || step.DiscardLocal?) && step.k == k
  }

  ghost predicate KeepsOps(s: Store, t: Store, k: NoteId) {
    forall m | m in s.outbox && s.outbox[m].key == k :: m in t.outbox && SameEdit(t.outbox[m], s.outbox[m])
  }

  lemma OtherNotesKeepOps(s: Store, step: Step, k: NoteId)
    requires StoreValid(s) && !Overrides(step, k)
    ensures match step
            case EditNote(j, action, value, now) => KeepsOps(s, Queue(s, j, action, value, now), k)
            case AcceptServer(j) => KeepsOps(s, AcceptServerVersion(s, j), k)
            case DiscardLocal(j) => KeepsOps(s, DiscardLocalVersion(s, j), k)
            case _ => true
  {
    IssuedIsFresh(s);
  }

  lemma LeasesKeepOps(s: Store, m: MutationId, owner: LeaseOwner, outcome: Outcome, now: int, k: NoteId)
    ensures KeepsOps(s, Finish(s, m, owner, outcome, now), k)
    ensures forall lease, batch :: KeepsOps(s, Claim(s, owner, lease, now, batch), k)
  {
  }

  lemma RefusalKeepsOps(s: Store, m: MutationId, r: MutationResult, owner: LeaseOwner, now: int, k: NoteId)
    requires WellFormed(s, m, r) && (r.status == Applied ==> !Holds(s, m, owner))
    ensures KeepsOps(s, ApplyResult(s, m, r, owner, now), k)
  {
  }

  /** An applied result takes its own edit off the queue and keeps every other one, re-based under a later id. */
  lemma AppliedKeepsOthers(s: Store, m: MutationId, record: Snapshot, now: int, edit: Op, since: MutationId)
    requires StoreValid(s) && m in s.outbox && s.outbox[m].status == Inflight
    requires Kept(s, edit, since) && !(since <= m && SameEdit(s.outbox[m], edit))
    ensures Kept(ApplyApplied(s, m, record, now), edit, since)
  {
    var t := ApplyApplied(s, m, record, now);
    var n :| n in s.outbox && since <= n && SameEdit(s.outbox[n], edit);
    IssuedIsFresh(s);
    assert OpShape(s, m);
    SuccessorIsOnly(s, m);
    if n in t.outbox {
      assert SameEdit(t.outbox[n], edit);
    } else {
      assert since <= s.issued && SameEdit(t.outbox[s.issued], edit);
    }
  }

  /** An applied result reports the record that its own mutation made, and that record is the edit. */
  lemma AppliedIsLanded(c: Config, sys: System, r: MutationResult, owner: LeaseOwner)
    requires Valid(c, sys) && r in sys.responses && r.status == Applied
    requires Holds(sys.store, r.mutationId, owner)
    ensures AppliedAs(sys.server, c.me, sys.store.outbox[r.mutationId], r.mutationId)
    ensures sys.server.receipts[(c.me, r.mutationId)].result.record == r.record
  {
    var m := r.mutationId;
    var receipt := sys.server.receipts[(c.me, m)];
    assert Server.AnswerValid(sys.server, receipt.content, receipt.result);
    assert receipt.content == sys.content[m] == Wire(m, sys.store.outbox[m]);
  }

  lemma ServerStepKeepsLanded(s: Server.State, me: ClientId, client: ClientId, m: Mutation, edit: Op, since: MutationId)
    requires Server.LogValid(s) && Landed(s, me, edit, since)
    ensures Landed(Server.Apply(s, client, m).state, me, edit, since)
  {
    var n :| since <= n && AppliedAs(s, me, edit, n);
    var t := Server.Apply(s, client, m).state;
    Server.ApplyKeepsLog(s, client, m);
    Server.InLogStays(s, t, s.receipts[(me, n)].result.record.value);
    assert AppliedAs(t, me, edit, n);
  }

  lemma KeptStep(c: Config, sys: System, step: Step, edit: Op, since: MutationId)
    requires Valid(c, sys) && Enabled(c, sys, step) && !Overrides(step, edit.key)
    requires Kept(sys.store, edit, since)
    ensures var t := Next(c, sys, step); Kept(t.store, edit, since) || Landed(t.server, c.me, edit, since)
  {
    var s := sys.store;
    var t := Next(c, sys, step);
    if step.Receive? && step.result.status == Applied && Holds(s, step.result.mutationId, step.leaseOwner) {
      var m := step.result.mutationId;
      ResultsAreWellFormed(c, sys, step.result);
      if since <= m && SameEdit(s.outbox[m], edit) {
        AppliedIsLanded(c, sys, step.result, step.leaseOwner);
        assert AppliedAs(t.server, c.me, edit, m);
      } else {
        AppliedKeepsOthers(s, m, step.result.record.value, step.now, edit, since);
      }
    } else {
      QuietStepKeepsOps(c, sys, step, edit.key);
    }
  }

  lemma QuietStepKeepsOps(c: Config, sys: System, step: Step, k: NoteId)
    requires StoreValid(sys.store) && Enabled(c, sys, step) && !Overrides(step, k)
    requires step.Receive? ==> step.result.status != Applied || !Holds(sys.store, step.result.mutationId, step.leaseOwner)
    ensures KeepsOps(sys.store, Next(c, sys, step).store, k)
  {
    var s := sys.store;
    OtherNotesKeepOps(s, step, k);
    match step {
      case ClaimDue(owner, _, lease, now, batch) => LeasesKeepOps(s, 0, owner, GiveUp, now, k);
      case ReleaseUnsent(m, i, now) => LeasesKeepOps(s, m, sys.held[m][i].owner, GiveBack, now, k);
      case ReleaseSent(m, owner, now) => LeasesKeepOps(s, m, owner, GiveBack, now, k);
      case RetryLater(m, owner, delay, now) => LeasesKeepOps(s, m, owner, RetryAfter(delay), now, k);
      case FailPush(m, owner) => LeasesKeepOps(s, m, owner, GiveUp, 0, k);
      case Receive(r, owner, now) =>
        if WellFormed(s, r.mutationId, r) {
          RefusalKeepsOps(s, r.mutationId, r, owner, now, k);
        }
      case ReceivePage(page) => PagesKeepContent(s, page.response.changes);
      case _ =>
    }
  }

  /**
   * An edit that was accepted is, at the end of every run in which the user does not
   * override it, still queued with its content and sequence number, or the server has
   * applied it: one of the ids drawn for it since it was made has a receipt whose record
   * is this edit. Equal edits made earlier or by others do not count.
   */
  lemma {:induction false} NoEditIsLost(c: Config, sys: System, steps: seq<Step>, end: System, edit: Op, since: MutationId)
    requires Valid(c, sys) && Runs(c, sys, steps, end)
    requires forall i | 0 <= i < |steps| :: !Overrides(steps[i], edit.key)
    requires Kept(sys.store, edit, since) || Landed(sys.server, c.me, edit, since)
    ensures Kept(end.store, edit, since) || Landed(end.server, c.me, edit, since)
    decreases steps
  {
    if steps != [] {
      var t := Next(c, sys, steps[0]);
      EditStepKeeps(c, sys, steps[0], edit, since);
      StepKeepsValid(c, sys, steps[0]);
      NoEditIsLost(c, t, steps[1..], end, edit, since);
    }
  }

  lemma EditStepKeeps(c: Config, sys: System, step: Step, edit: Op, since: MutationId)
    requires Valid(c, sys) && Enabled(c, sys, step) && !Overrides(step, edit.key)
    requires Kept(sys.store, edit, since) || Landed(sys.server, c.me, edit, since)
    ensures var t := Next(c, sys, step); Kept(t.store, edit, since) || Landed(t.server, c.me, edit, since)
  {
    if Kept(sys.store, edit, since) {
      KeptStep(c, sys, step, edit, since);
    } else {
      LandedStep(c, sys, step, edit, since);
    }
  }

  lemma LandedStep(c: Config, sys: System, step: Step, edit: Op, since: MutationId)
    requires Server.LogValid(sys.server) && Enabled(c, sys, step) && Landed(sys.server, c.me, edit, since)
    ensures Landed(Next(c, sys, step).server, c.me, edit, since)
  {
    if step.Deliver? {
      ServerStepKeepsLanded(sys.server, c.me, c.me, step.request, edit, since);
    } else if step.OtherClient? {
      ServerStepKeepsLanded(sys.server, c.me, step.client, step.mutation, edit, since);
    }
  }

  /** Queueing an edit that is not refused puts exactly that edit at the head of what the user sees. */
  lemma AcceptedEditIsQueued(s: Store, k: NoteId, action: Action, value: Option<Note>, now: int)
    requires StoreValid(s) && QueueRefusal(s, k).None?
    ensures var t := Queue(s, k, action, value, now);
            && s.issued in t.outbox
            && t.outbox[s.issued].key == k
            && EditOf(t.outbox[s.issued]) == Edit(s.nextSeq, action, value)
            && IsNewest(t, s.issued)
            && Kept(t, t.outbox[s.issued], s.issued)
            && (forall m | m in s.outbox && s.outbox[m].key == k && m !in t.outbox :: s.outbox[m].attempts == 0)
  {
    QueueFinds(s, k);
    var t := Queue(s, k, action, value, now);
    assert s.issued in t.outbox && SameEdit(t.outbox[s.issued], t.outbox[s.issued]);
  }

  /** The fate of one edit from the moment it is accepted: nothing was drawn or received for it before. */
  lemma AcceptedEditIsNotLost(c: Config, sys: System, k: NoteId, action: Action, value: Option<Note>, now: int,
                              steps: seq<Step>, end: System)
    requires Valid(c, sys) && ValidEdit(action, value) && QueueRefusal(sys.store, k).None?
    requires Runs(c, Next(c, sys, EditNote(k, action, value, now)), steps, end)
    requires forall i | 0 <= i < |steps| :: !Overrides(steps[i], k)
    ensures var since := sys.store.issued;
            var edit := Queue(sys.store, k, action, value, now).outbox[since];
            && EditOf(edit) == Edit(sys.store.nextSeq, action, value)
            && !Kept(sys.store, edit, since) && !Landed(sys.server, c.me, edit, since)
            && (Kept(end.store, edit, since) || Landed(end.server, c.me, edit, since))
  {
    var since := sys.store.issued;
    var t := Queue(sys.store, k, action, value, now);
    AcceptedEditIsQueued(sys.store, k, action, value, now);
    IssuedIsFresh(sys.store);
    assert OutboxFixed(sys.store, sys.content) && ReceiptsFixed(c.me, sys.server.receipts, sys.content);
    StepKeepsValid(c, sys, EditNote(k, action, value, now));
    NoEditIsLost(c, Next(c, sys, EditNote(k, action, value, now)), steps, end, t.outbox[since], since);
  }
}
