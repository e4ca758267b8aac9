/**
 * One client, the server and the network between them, as a system of atomic steps.
 * Everything sent stays on the wire for good, so messages may be lost (never
 * delivered), duplicated, delayed and reordered in every way. Other clients are
 * arbitrary: each of their mutations is a step of the environment.
 */
module Protocol {
  import opened SyncTypes
  import opened LocalStore
  import opened StoreShape
  import opened StoreSteps
  import Decimal
  import Server
  import Paging

  datatype Config = Config(me: ClientId, owner: OwnerId, size: Snapshot -> nat)

  /** A claimed operation that has neither been sent nor given back, as cloned when it was claimed. */
  datatype HeldClaim = HeldClaim(owner: LeaseOwner, mutation: Mutation)

  datatype PageMessage = PageMessage(cursor: Option<Paging.Token>, response: Paging.PullResponse)

  /** `content` and `sends` are history: what each id stood for when it was drawn, and how often it was sent. */
  datatype System = System(
    store: Store,
    server: Server.State,
    held: map<MutationId, seq<HeldClaim>>,
    requests: set<Mutation>,
    responses: set<MutationResult>,
    asked: set<Option<Paging.Token>>,
    pages: set<PageMessage>,
    content: map<MutationId, Mutation>,
    sends: map<MutationId, nat>)

  const INITIAL := System(LocalStore.EMPTY, Server.EMPTY, map[], {}, {}, {}, {}, map[], map[])

  datatype Step =
    | EditNote(k: NoteId, action: Action, value: Option<Note>, now: int)
    | ClaimDue(leaseOwner: LeaseOwner, limit: int, lease: int, now: int, batch: seq<MutationId>)
    | Send(m: MutationId, i: nat)
    | ReleaseUnsent(m: MutationId, i: nat, now: int)
    | ReleaseSent(m: MutationId, leaseOwner: LeaseOwner, now: int)
    | RetryLater(m: MutationId, leaseOwner: LeaseOwner, delay: int, now: int)
    | FailPush(m: MutationId, leaseOwner: LeaseOwner)
    | Deliver(request: Mutation)
    | Receive(result: MutationResult, leaseOwner: LeaseOwner, now: int)
    | AskPull
    | ServePull(cursor: Option<Paging.Token>, requested: Option<nat>, nonce: nat)
    | ReceivePage(page: PageMessage)
    | ResetPullCursor
    | AcceptServer(k: NoteId)
    | DiscardLocal(k: NoteId)
    | OtherClient(client: ClientId, mutation: Mutation)

  /** What an operation looks like on the wire. */
  function Wire(m: MutationId, op: Op): Mutation {
    Mutation(m, DRAFT_NOTE_KIND, op.key, op.action, Decimal.PrintVersion(op.baseVersion), SCHEMA_VERSION, op.value)
  }

  function HeldOf(sys: System, m: MutationId): seq<HeldClaim> {
    if m in sys.held then sys.held[m] else []
  }

  function SendsOf(sys: System, m: MutationId): nat {
    if m in sys.sends then sys.sends[m] else 0
  }

  predicate ValidEdit(action: Action, value: Option<Note>) {
    match action
    case Put => value.Some? && WithinLimits(value.value)
    case Delete => value.None?
  }

  /** A write past the largest cursor aborts its transaction, and nothing is answered. */
  predicate Fits(s: Server.State, client: ClientId, m: Mutation) {
    Server.Apply(s, client, m).cursor.Some? ==> s.clock < I64_MAX
  }

  ghost predicate Enabled(c: Config, sys: System, step: Step) {
    match step
    case EditNote(_, action, value, _) => ValidEdit(action, value)
    case ClaimDue(_, limit, _, now, batch) => IsBatch(ExpireLeases(sys.store.outbox, now), now, limit, batch)
    case Send(m, i) => i < |HeldOf(sys, m)|
    case ReleaseUnsent(m, i, _) => i < |HeldOf(sys, m)|
    case Deliver(request) => request in sys.requests && Fits(sys.server, c.me, request)
    case Receive(result, _, _) => result in sys.responses
    case ServePull(cursor, _, _) => cursor in sys.asked
    case ReceivePage(page) => page in sys.pages
    case OtherClient(client, mutation) => client != c.me && Fits(sys.server, client, mutation)
    case _ => true
  }

  function Without<T>(s: seq<T>, i: nat): (r: seq<T>)
    requires i < |s|
    ensures |r| == |s| - 1
  {
    s[..i] + s[i + 1..]
  }

  /** The history learns what each newly drawn id stands for. */
  function Register(content: map<MutationId, Mutation>, store: Store): map<MutationId, Mutation> {
    map m | m in content.Keys + store.outbox.Keys ::
      if m in content then content[m] else Wire(m, store.outbox[m])
  }

  function WithStore(sys: System, store: Store): System {
    sys.(store := store, content := Register(sys.content, store))
  }

  function Hold(held: map<MutationId, seq<HeldClaim>>, store: Store, owner: LeaseOwner, batch: seq<MutationId>)
    : map<MutationId, seq<HeldClaim>>
  {
    map m | m in held.Keys + (set x | x in batch && x in store.outbox) ::
      (if m in held then held[m] else [])
      + (if m in batch && m in store.outbox then [HeldClaim(owner, Wire(m, store.outbox[m]))] else [])
  }

  ghost function Next(c: Config, sys: System, step: Step): System
    requires Enabled(c, sys, step)
  {
    match step
    case EditNote(k, action, value, now) => WithStore(sys, Queue(sys.store, k, action, value, now))
    case ClaimDue(owner, _, lease, now, batch) =>
      var store := Claim(sys.store, owner, lease, now, batch);
      WithStore(sys, store).(held := Hold(sys.held, store, owner, batch))
    case Send(m, i) =>
      sys.(held := sys.held[m := Without(sys.held[m], i)],
           requests := sys.requests + {sys.held[m][i].mutation},
           sends := sys.sends[m := SendsOf(sys, m) + 1])
    case ReleaseUnsent(m, i, now) =>
      WithStore(sys, Release(sys.store, m, sys.held[m][i].owner, now))
        .(held := sys.held[m := Without(sys.held[m], i)])
    case ReleaseSent(m, owner, now) => WithStore(sys, Release(sys.store, m, owner, now))
    case RetryLater(m, owner, delay, now) => WithStore(sys, Retry(sys.store, m, owner, delay, now))
    case FailPush(m, owner) => WithStore(sys, Fail(sys.store, m, owner))
    case Deliver(request) =>
      var out := Server.Apply(sys.server, c.me, request);
      sys.(server := out.state, responses := sys.responses + {out.result})
    case Receive(result, owner, now) =>
      if WellFormed(sys.store, result.mutationId, result)
      then WithStore(sys, ApplyResult(sys.store, result.mutationId, result, owner, now))
      else sys
    case AskPull => sys.(asked := sys.asked + {sys.store.pullCursor})
    case ServePull(cursor, requested, nonce) =>
      (match Paging.Pull(sys.server, c.size, c.owner, cursor, requested, nonce)
       case Ok(response) => sys.(pages := sys.pages + {PageMessage(cursor, response)})
       case Err(_) => sys)
    case ReceivePage(page) => WithStore(sys, ApplyPage(sys.store, page.response.changes, page.response.nextCursor))
    case ResetPullCursor => WithStore(sys, ResetCursor(sys.store))
    case AcceptServer(k) => WithStore(sys, AcceptServerVersion(sys.store, k))
    case DiscardLocal(k) => WithStore(sys, DiscardLocalVersion(sys.store, k))
    case OtherClient(client, mutation) => sys.(server := Server.Apply(sys.server, client, mutation).state)
  }

  ghost predicate Runs(c: Config, sys: System, steps: seq<Step>, end: System)
    decreases steps
  {
    if steps == [] then end == sys
    else Enabled(c, sys, steps[0]) && Runs(c, Next(c, sys, steps[0]), steps[1..], end)
  }

  // Runs put together ------------------------------------------------------

  lemma RunOne(c: Config, sys: System, step: Step)
    requires Enabled(c, sys, step)
    ensures Runs(c, sys, [step], Next(c, sys, step))
  {
    assert [step][1..] == [];
  }

  lemma RunCons(c: Config, sys: System, step: Step, rest: seq<Step>, end: System)
    requires Enabled(c, sys, step) && Runs(c, Next(c, sys, step), rest, end)
    ensures Runs(c, sys, [step] + rest, end)
  {
    assert ([step] + rest)[1..] == rest;
  }

  lemma {:induction false} RunsJoin(c: Config, sys: System, a: seq<Step>, mid: System, b: seq<Step>, end: System)
    requires Runs(c, sys, a, mid) && Runs(c, mid, b, end)
    ensures Runs(c, sys, a + b, end)
    decreases a
  {
    if a == [] {
      assert a + b == b;
    } else {
      assert (a + b)[1..] == a[1..] + b;
      RunsJoin(c, Next(c, sys, a[0]), a[1..], mid, b, end);
    }
  }

  // The invariant of all runs ----------------------------------------------

  // Every id stands for one content, wherever it appears.

  ghost predicate OutboxFixed(store: Store, content: map<MutationId, Mutation>) {
    && (forall m | m in content :: m < store.issued && content[m].mutationId == m)
    && (forall m | m in store.outbox :: m in content && content[m] == Wire(m, store.outbox[m]))
  }

  ghost predicate RequestsFixed(requests: set<Mutation>, content: map<MutationId, Mutation>) {
    forall r | r in requests :: r.mutationId in content && content[r.mutationId] == r
  }

  ghost predicate HeldFixed(held: map<MutationId, seq<HeldClaim>>, content: map<MutationId, Mutation>) {
    && held.Keys <= content.Keys
    && (forall m, i | m in held && 0 <= i < |held[m]| :: held[m][i].mutation == content[m])
  }

  ghost predicate ReceiptsFixed(me: ClientId, receipts: map<(ClientId, MutationId), Server.Receipt>,
                                content: map<MutationId, Mutation>) {
    forall m | (me, m) in receipts :: m in content && receipts[(me, m)].content == content[m]
  }

  ghost predicate ContentFixed(c: Config, sys: System) {
    && OutboxFixed(sys.store, sys.content)
    && RequestsFixed(sys.requests, sys.content)
    && HeldFixed(sys.held, sys.content)
    && ReceiptsFixed(c.me, sys.server.receipts, sys.content)
  }

  /** Every response on the wire is what the receipt says. */
  ghost predicate ResponsesRecorded(c: Config, sys: System) {
    forall r | r in sys.responses ::
      (c.me, r.mutationId) in sys.server.receipts && sys.server.receipts[(c.me, r.mutationId)].result == r
  }

  ghost predicate ServerValid(s: Server.State) {
    Server.LogValid(s) && Server.ReceiptsValid(s)
  }

  ghost predicate Valid(c: Config, sys: System) {
    && StoreValid(sys.store)
    && ServerValid(sys.server)
    && ContentFixed(c, sys)
    && ResponsesRecorded(c, sys)
  }

  lemma InitialValid(c: Config)
    ensures Valid(c, INITIAL)
  {
    EmptyValid();
  }

  /** A store step draws new ids in order and leaves the content of the others alone. */
  ghost predicate KeepsContent(s: Store, t: Store) {
    && s.issued <= t.issued
    && forall m {:trigger t.outbox[m]} {:trigger m in t.outbox} | m in t.outbox ::
         if m in s.outbox then Wire(m, t.outbox[m]) == Wire(m, s.outbox[m]) else s.issued <= m < t.issued
  }

  lemma StoreStepKeeps(c: Config, sys: System, store: Store)
    requires Valid(c, sys)
    requires StoreValid(store) && KeepsContent(sys.store, store)
    ensures Valid(c, WithStore(sys, store))
  {
    var t := WithStore(sys, store);
    assert RequestsFixed(t.requests, t.content);
    assert HeldFixed(t.held, t.content);
    assert ReceiptsFixed(c.me, t.server.receipts, t.content);
  }

  lemma {:induction false} PagesKeepContent(s: Store, changes: seq<Snapshot>)
    ensures KeepsContent(s, ApplyEach(s, changes))
    ensures ApplyEach(s, changes).outbox == s.outbox && ApplyEach(s, changes).issued == s.issued
    decreases changes
  {
    if changes != [] {
      PagesKeepContent(s, changes[..|changes| - 1]);
    }
  }

  /** Results that arrive are about the note they were asked for, so applying them never throws. */
  lemma ResultsAreWellFormed(c: Config, sys: System, r: MutationResult)
    requires Valid(c, sys) && r in sys.responses
    ensures WellFormed(sys.store, r.mutationId, r)
    ensures r.status != IdempotencyKeyReused && r.status != Forbidden
  {
    var receipt := sys.server.receipts[(c.me, r.mutationId)];
    assert Server.AnswerValid(sys.server, receipt.content, receipt.result);
  }

  ghost predicate StepFine(s: Store, t: Store) {
    StoreValid(t) && KeepsContent(s, t)
  }

  lemma QueueFine(s: Store, k: NoteId, action: Action, value: Option<Note>, now: int)
    requires StoreValid(s)
    ensures StepFine(s, Queue(s, k, action, value, now))
  {
    QueueKeeps(s, k, action, value, now);
    IssuedIsFresh(s);
  }

  lemma ClaimFine(s: Store, owner: LeaseOwner, limit: int, lease: int, now: int, batch: seq<MutationId>)
    requires StoreValid(s) && IsBatch(ExpireLeases(s.outbox, now), now, limit, batch)
    ensures StepFine(s, Claim(s, owner, lease, now, batch))
  {
    ClaimKeeps(s, owner, limit, lease, now, batch);
  }

  lemma FinishFine(s: Store, m: MutationId, owner: LeaseOwner, outcome: Outcome, now: int)
    requires StoreValid(s)
    ensures StepFine(s, Finish(s, m, owner, outcome, now))
  {
    FinishKeeps(s, m, owner, outcome, now);
  }

  lemma ReceiveFine(s: Store, m: MutationId, r: MutationResult, owner: LeaseOwner, now: int)
    requires StoreValid(s) && WellFormed(s, m, r)
    ensures StepFine(s, ApplyResult(s, m, r, owner, now))
  {
    ApplyResultKeeps(s, m, r, owner, now);
    if r.status == Applied && Holds(s, m, owner) {
      IssuedIsFresh(s);
    }
  }

  lemma PageFine(s: Store, changes: seq<Snapshot>, next: Paging.Token)
    requires StoreValid(s)
    ensures StepFine(s, ApplyPage(s, changes, next))
  {
    ApplyEachKeeps(s, changes);
    PagesKeepContent(s, changes);
    CursorKeeps(ApplyEach(s, changes), Some(next));
  }

  lemma ResolveFine(s: Store, k: NoteId)
    requires StoreValid(s)
    ensures StepFine(s, ResetCursor(s))
    ensures StepFine(s, AcceptServerVersion(s, k))
    ensures StepFine(s, DiscardLocalVersion(s, k))
  {
    CursorKeeps(s, None);
    AcceptKeeps(s, k);
    DiscardKeeps(s, k);
  }

  lemma StepKeepsStore(c: Config, sys: System, step: Step)
    requires StoreValid(sys.store) && Enabled(c, sys, step)
    ensures StepFine(sys.store, Next(c, sys, step).store)
  {
    var s := sys.store;
    match step {
      case EditNote(k, action, value, now) => QueueFine(s, k, action, value, now);
      case ClaimDue(owner, limit, lease, now, batch) => ClaimFine(s, owner, limit, lease, now, batch);
      case ReleaseUnsent(m, i, now) => FinishFine(s, m, sys.held[m][i].owner, GiveBack, now);
      case ReleaseSent(m, owner, now) => FinishFine(s, m, owner, GiveBack, now);
      case RetryLater(m, owner, delay, now) => FinishFine(s, m, owner, RetryAfter(delay), now);
      case FailPush(m, owner) => FinishFine(s, m, owner, GiveUp, 0);
      case Receive(r, owner, now) =>
        if WellFormed(s, r.mutationId, r) {
          ReceiveFine(s, r.mutationId, r, owner, now);
        }
      case ReceivePage(page) => PageFine(s, page.response.changes, page.response.nextCursor);
      case ResetPullCursor => ResolveFine(s, 0);
      case AcceptServer(k) => ResolveFine(s, k);
      case DiscardLocal(k) => ResolveFine(s, k);
      case _ =>
    }
  }

  lemma ServerKeeps(c: Config, sys: System, client: ClientId, m: Mutation)
    requires Valid(c, sys)
    requires client == c.me ==> m.mutationId in sys.content && sys.content[m.mutationId] == m
    ensures Valid(c, sys.(server := Server.Apply(sys.server, client, m).state))
  {
    var t := Server.Apply(sys.server, client, m).state;
    Server.ApplyKeepsLog(sys.server, client, m);
    Server.ApplyKeepsReceipts(sys.server, client, m);
    assert ReceiptsFixed(c.me, t.receipts, sys.content);
    assert ResponsesRecorded(c, sys.(server := t));
  }

  lemma DeliveryKeeps(c: Config, sys: System, m: Mutation)
    requires Valid(c, sys) && m in sys.requests
    ensures var out := Server.Apply(sys.server, c.me, m);
            Valid(c, sys.(server := out.state, responses := sys.responses + {out.result}))
  {
    assert RequestsFixed(sys.requests, sys.content);
    ServerKeeps(c, sys, c.me, m);
    var out := Server.Apply(sys.server, c.me, m);
    var t := sys.(server := out.state, responses := sys.responses + {out.result});
    assert ResponsesRecorded(c, t);
  }

  lemma WireStepKeeps(c: Config, sys: System, t: System)
    requires Valid(c, sys)
    requires t == sys.(held := t.held, requests := t.requests, asked := t.asked, pages := t.pages, sends := t.sends)
    requires HeldFixed(t.held, sys.content) && RequestsFixed(t.requests, sys.content)
    ensures Valid(c, t)
  {
  }

  /** Steps that touch only the local store. */
  predicate StoreOnly(step: Step) {
    step.EditNote? || step.ReleaseSent? || step.RetryLater? || step.FailPush? || step.Receive?
    || step.ReceivePage? || step.ResetPullCursor? || step.AcceptServer? || step.DiscardLocal?
  }

  lemma StoreOnlyKeeps(c: Config, sys: System, step: Step)
    requires Valid(c, sys) && Enabled(c, sys, step) && StoreOnly(step)
    ensures Valid(c, Next(c, sys, step))
  {
    StepKeepsStore(c, sys, step);
    var t := Next(c, sys, step).store;
    StoreStepKeeps(c, sys, t);
    assert Next(c, sys, step) == sys || Next(c, sys, step) == WithStore(sys, t);
  }

  lemma HoldKeeps(held: map<MutationId, seq<HeldClaim>>, s: Store, content: map<MutationId, Mutation>,
                  owner: LeaseOwner, batch: seq<MutationId>)
    requires HeldFixed(held, content) && OutboxFixed(s, content)
    ensures HeldFixed(Hold(held, s, owner, batch), content)
  {
    var after: map<MutationId, seq<HeldClaim>> := Hold(held, s, owner, batch);
    forall m | m in after
      ensures m in content
      ensures forall i | 0 <= i < |after[m]| :: after[m][i].mutation == content[m]
    {
    }
  }

  lemma ClaimStepKeeps(c: Config, sys: System, step: Step)
    requires Valid(c, sys) && Enabled(c, sys, step) && step.ClaimDue?
    ensures Valid(c, Next(c, sys, step))
  {
    StepKeepsStore(c, sys, step);
    var t := Next(c, sys, step);
    var u := WithStore(sys, t.store);
    StoreStepKeeps(c, sys, t.store);
    HoldKeeps(u.held, u.store, u.content, step.leaseOwner, step.batch);
    WireStepKeeps(c, u, t);
  }

  lemma WithoutKeeps(held: map<MutationId, seq<HeldClaim>>, content: map<MutationId, Mutation>, m: MutationId, i: nat)
    requires HeldFixed(held, content) && m in held && i < |held[m]|
    ensures HeldFixed(held[m := Without(held[m], i)], content)
  {
  }

  lemma ReleaseStepKeeps(c: Config, sys: System, step: Step)
    requires Valid(c, sys) && Enabled(c, sys, step) && step.ReleaseUnsent?
    ensures Valid(c, Next(c, sys, step))
  {
    StepKeepsStore(c, sys, step);
    var t := Next(c, sys, step);
    var u := WithStore(sys, t.store);
    StoreStepKeeps(c, sys, t.store);
    WithoutKeeps(u.held, u.content, step.m, step.i);
    WireStepKeeps(c, u, t);
  }

  lemma StepKeepsValid(c: Config, sys: System, step: Step)
    requires Valid(c, sys) && Enabled(c, sys, step)
    ensures Valid(c, Next(c, sys, step))
  {
    if StoreOnly(step) {
      StoreOnlyKeeps(c, sys, step);
    } else if step.ClaimDue? {
      ClaimStepKeeps(c, sys, step);
    } else if step.ReleaseUnsent? {
      ReleaseStepKeeps(c, sys, step);
    } else if step.Deliver? {
      DeliveryKeeps(c, sys, step.request);
    } else if step.OtherClient? {
      ServerKeeps(c, sys, step.client, step.mutation);
    } else {
      WireStepKeeps(c, sys, Next(c, sys, step));
    }
  }

  lemma {:induction false} RunKeepsValid(c: Config, sys: System, steps: seq<Step>, end: System)
    requires Valid(c, sys) && Runs(c, sys, steps, end)
    ensures Valid(c, end)
    decreases steps
  {
    if steps != [] {
      StepKeepsValid(c, sys, steps[0]);
      RunKeepsValid(c, Next(c, sys, steps[0]), steps[1..], end);
    }
  }

  /**
   * In every run, whatever is lost, repeated, cancelled, discarded or written by others,
   * the server never answers that a mutation id was reused, and every answer that
   * arrives carries the record it must carry.
   */
  lemma NoIdIsEverReused(c: Config, steps: seq<Step>, end: System)
    requires Runs(c, INITIAL, steps, end)
    ensures forall r | r in end.responses ::
              && r.status != IdempotencyKeyReused
              && WellFormed(end.store, r.mutationId, r)
    ensures forall r | r in end.requests ::
              Server.Apply(end.server, c.me, r).result.status != IdempotencyKeyReused
  {
    InitialValid(c);
    RunKeepsValid(c, INITIAL, steps, end);
    forall r | r in end.responses
      ensures r.status != IdempotencyKeyReused
      ensures WellFormed(end.store, r.mutationId, r)
    {
      ResultsAreWellFormed(c, end, r);
    }
    forall r | r in end.requests
      ensures Server.Apply(end.server, c.me, r).result.status != IdempotencyKeyReused
    {
      var key := (c.me, r.mutationId);
      if key in end.server.receipts {
        assert Server.AnswerValid(end.server, end.server.receipts[key].content, end.server.receipts[key].result);
      }
    }
  }

  // Whole replies -----------------------------------------------------------

  lemma {:induction false} ByIdIsFrom(results: seq<MutationResult>, m: MutationId)
    requires m in ById(results)
    ensures ById(results)[m] in results && ById(results)[m].mutationId == m
    decreases |results|
  {
    var last := |results| - 1;
    if results[last].mutationId != m {
      ByIdIsFrom(results[..last], m);
    }
  }

  /** A run of receives that keeps the invariant. */
  ghost predicate Received(c: Config, sys: System, steps: seq<Step>, end: System) {
    && Runs(c, sys, steps, end) && Valid(c, end) && end.responses == sys.responses
    && forall i | 0 <= i < |steps| :: steps[i].Receive?
  }

  lemma ReceiveNext(c: Config, sys: System, before: seq<Step>, mid: System, m: MutationId, results: seq<MutationResult>,
                    owner: LeaseOwner, now: int) returns (steps: seq<Step>, end: System)
    requires Received(c, sys, before, mid) && forall r | r in results :: r in sys.responses
    ensures Received(c, sys, steps, end)
    ensures TakeResult(mid.store, m, ById(results), owner, now) == Reply(end.store, false)
  {
    steps, end := before, mid;
    if m in ById(results) && Holds(mid.store, m, owner) {
      ByIdIsFrom(results, m);
      var step := Receive(ById(results)[m], owner, now);
      ResultsAreWellFormed(c, mid, step.result);
      StepKeepsValid(c, mid, step);
      steps, end := before + [step], Next(c, mid, step);
      RunOne(c, mid, step);
      RunsJoin(c, sys, before, mid, [step], end);
    }
  }

  /** Taking a whole reply of answers that arrived never throws, and is a run of receiving them one by one. */
  lemma {:induction false} ReplyIsARunOfReceives(c: Config, sys: System, ids: seq<MutationId>, results: seq<MutationResult>,
                                                 owner: LeaseOwner, times: seq<int>) returns (steps: seq<Step>, end: System)
    requires Valid(c, sys) && |times| == |ids| && forall r | r in results :: r in sys.responses
    ensures Received(c, sys, steps, end)
    ensures ApplyResults(sys.store, ids, ById(results), owner, times) == Reply(end.store, false)
    decreases |ids|
  {
    if ids == [] {
      steps, end := [], sys;
    } else {
      var last := |ids| - 1;
      var before, mid := ReplyIsARunOfReceives(c, sys, ids[..last], results, owner, times[..last]);
      steps, end := ReceiveNext(c, sys, before, mid, ids[last], results, owner, times[last]);
    }
  }
}
