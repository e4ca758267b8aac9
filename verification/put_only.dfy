/** A lone client that only puts: every push is applied. */
module PutOnly {
  import opened SyncTypes
  import opened LocalStore
  import opened StoreShape
  import opened StoreSteps
  import opened Protocol
  import opened LoneClient
  import Server

  predicate Putting(step: Step) {
    step.EditNote? ==> step.action == Put
  }

  ghost predicate AllPuts(c: Config, sys: System) {
    && (forall m | m in sys.content :: sys.content[m].action == Put)
    && (forall k | k in sys.server.records :: !sys.server.records[k].deleted)
    && (forall m | (c.me, m) in sys.server.receipts :: sys.server.receipts[(c.me, m)].result.status == Applied)
    && sys.store.conflicts == map[]
  }

  /** No store step but a received refusal makes a conflict row, and none invents a delete. */
  lemma StoreStepPuts(c: Config, sys: System, step: Step)
    requires StoreValid(sys.store) && Enabled(c, sys, step) && StoreOnly(step) && Lone(step) && Putting(step)
    requires sys.store.conflicts == map[]
    requires forall m | m in sys.store.outbox :: sys.store.outbox[m].action == Put
    requires step.Receive? ==> step.result.status == Applied
    ensures var t := Next(c, sys, step).store;
            t.conflicts == map[] && forall m | m in t.outbox :: t.outbox[m].action == Put
  {
    var s := sys.store;
    if step.Receive? {
      if WellFormed(s, step.result.mutationId, step.result) {
        AppliedPuts(s, step.result.mutationId, step.result, step.leaseOwner, step.now);
      }
    } else if step.ReceivePage? {
      PagesKeepContent(s, step.page.response.changes);
      PagesKeepNoConflict(s, step.page.response.changes);
    }
  }

  lemma AppliedPuts(s: Store, m: MutationId, r: MutationResult, owner: LeaseOwner, now: int)
    requires StoreValid(s) && s.conflicts == map[] && r.status == Applied && WellFormed(s, m, r)
    requires forall n | n in s.outbox :: s.outbox[n].action == Put
    ensures var t := ApplyResult(s, m, r, owner, now);
            t.conflicts == map[] && forall n | n in t.outbox :: t.outbox[n].action == Put
  {
    if Holds(s, m, owner) {
      assert OpShape(s, m);
      AppliedFacts(s, m, r.record.value, now);
    }
  }

  lemma {:induction false} PagesKeepNoConflict(s: Store, changes: seq<Snapshot>)
    requires s.conflicts == map[]
    ensures ApplyEach(s, changes).conflicts == map[]
    decreases changes
  {
    if changes != [] {
      PagesKeepNoConflict(s, changes[..|changes| - 1]);
    }
  }

  lemma FirstPutIsApplied(c: Config, sys: System, r: Mutation)
    requires LoneValid(c, sys, false) && AllPuts(c, sys) && r in sys.requests
    ensures r.action == Put
    ensures (c.me, r.mutationId) !in sys.server.receipts ==> Server.Apply(sys.server, c.me, r).result.status == Applied
  {
    assert RequestsFixed(sys.requests, sys.content);
    if (c.me, r.mutationId) !in sys.server.receipts {
      FirstAnswerIsExact(c, sys, r, false);
    }
  }

  lemma DeliveryKeepsPuts(c: Config, sys: System, step: Step)
    requires AllPuts(c, sys) && step.Deliver? && Enabled(c, sys, step)
    requires step.request.action == Put
    requires (c.me, step.request.mutationId) !in sys.server.receipts ==>
               Server.Apply(sys.server, c.me, step.request).result.status == Applied
    ensures AllPuts(c, Next(c, sys, step))
  {
  }

  lemma StoreStepKeepsPuts(c: Config, sys: System, step: Step)
    requires StoreValid(sys.store) && OutboxFixed(sys.store, sys.content) && AllPuts(c, sys)
    requires Enabled(c, sys, step) && StoreOnly(step) && Lone(step) && Putting(step)
    requires step.Receive? ==> step.result.status == Applied
    ensures AllPuts(c, Next(c, sys, step))
  {
    StoreStepPuts(c, sys, step);
  }

  lemma LeaseStepKeepsPuts(c: Config, sys: System, step: Step)
    requires OutboxFixed(sys.store, sys.content) && AllPuts(c, sys)
    requires Enabled(c, sys, step) && (step.ClaimDue? || step.ReleaseUnsent?)
    ensures AllPuts(c, Next(c, sys, step))
  {
  }

  lemma StepKeepsPuts(c: Config, sys: System, step: Step)
    requires LoneValid(c, sys, false) && AllPuts(c, sys)
    requires Lone(step) && Putting(step) && Enabled(c, sys, step)
    ensures AllPuts(c, Next(c, sys, step))
  {
    if step.Deliver? {
      FirstPutIsApplied(c, sys, step.request);
      DeliveryKeepsPuts(c, sys, step);
    } else if StoreOnly(step) {
      StoreStepKeepsPuts(c, sys, step);
    } else if step.ClaimDue? || step.ReleaseUnsent? {
      LeaseStepKeepsPuts(c, sys, step);
    }
  }

  ghost predicate PutsValid(c: Config, sys: System) { LoneValid(c, sys, false) && AllPuts(c, sys) }

  lemma PutStep(c: Config, sys: System, step: Step)
    requires PutsValid(c, sys) && Lone(step) && Putting(step) && Enabled(c, sys, step)
    ensures PutsValid(c, Next(c, sys, step))
  {
    StepKeepsLone(c, sys, step, false);
    StepKeepsPuts(c, sys, step);
  }

  lemma {:induction false} RunKeepsPuts(c: Config, sys: System, steps: seq<Step>, end: System)
    requires PutsValid(c, sys) && Runs(c, sys, steps, end)
    requires forall i | 0 <= i < |steps| :: Lone(steps[i]) && Putting(steps[i])
    ensures PutsValid(c, end)
    decreases steps
  {
    if steps != [] {
      var t := Next(c, sys, steps[0]);
      assert PutsValid(c, t) by { PutStep(c, sys, steps[0]); }
      RunKeepsPuts(c, t, steps[1..], end);
    }
  }

  /** Whatever is delivered next, for the first time or again, is answered applied. */
  lemma AnyPutIsApplied(c: Config, sys: System, r: Mutation)
    requires LoneValid(c, sys, false) && AllPuts(c, sys) && r in sys.requests
    ensures Server.Apply(sys.server, c.me, r).result.status == Applied
  {
    FirstPutIsApplied(c, sys, r);
    assert RequestsFixed(sys.requests, sys.content) && ReceiptsFixed(c.me, sys.server.receipts, sys.content);
  }

  /** A lone client that only puts has every push applied and never sees a conflict. */
  lemma PuttingClientAlwaysApplies(c: Config, steps: seq<Step>, end: System)
    requires Runs(c, INITIAL, steps, end)
    requires forall i | 0 <= i < |steps| :: Lone(steps[i]) && Putting(steps[i])
    ensures forall r | r in end.responses :: r.status == Applied
    ensures forall r | r in end.requests :: Server.Apply(end.server, c.me, r).result.status == Applied
    ensures end.store.conflicts == map[]
  {
    InitialLone(c, false);
    RunKeepsPuts(c, INITIAL, steps, end);
    forall r | r in end.requests
      ensures Server.Apply(end.server, c.me, r).result.status == Applied
    {
      AnyPutIsApplied(c, end, r);
    }
  }
}
