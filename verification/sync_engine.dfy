/**
 * When the client syncs. JavaScript interleaves at awaits only, so what runs between two
 * awaits is one step; a pass over push and pull is what happens between two such steps.
 */
module SyncEngineClass {
  import opened SyncTypes

  /** One call to drain the requests; `looping` until its loop is left, then it only has to settle. */
  datatype Drain = Drain(generation: nat, looping: bool)

  datatype Engine = Engine(running: Option<Drain>, pending: bool, generation: nat, passes: nat)

  const INITIAL := Engine(None, false, 0, 0)

  predicate IsCurrent(e: Engine) { e.running.Some? && e.running.value.generation == e.generation }

  predicate Resting(e: Engine) { e.running.None? }

  function Woken(e: Engine): Engine {
    if e.running.Some? then e.(pending := true)
    else e.(running := Some(Drain(e.generation, true)), pending := false, passes := e.passes + 1)
  }

  /** The loop condition after a pass; a pass that throws leaves the loop at once. */
  function Passed(e: Engine, failed: bool): Engine
    requires e.running.Some?
  {
    if !failed && e.pending && IsCurrent(e) then e.(pending := false, passes := e.passes + 1)
    else e.(running := Some(e.running.value.(looping := false)))
  }

  function DrainSettled(e: Engine): Engine {
    if e.pending && IsCurrent(e) then Woken(e.(running := None)) else e.(running := None)
  }

  function Cancelled(e: Engine): Engine { e.(pending := false, generation := e.generation + 1) }

  datatype Step = Wake | PassEnds(failed: bool) | Settles | Cancel

  predicate Enabled(e: Engine, step: Step) {
    match step
    case PassEnds(_) => e.running.Some? && e.running.value.looping
    case Settles => e.running.Some? && !e.running.value.looping
    case _ => true
  }

  function Next(e: Engine, step: Step): Engine
    requires Enabled(e, step)
  {
    match step
    case Wake => Woken(e)
    case PassEnds(failed) => Passed(e, failed)
    case Settles => DrainSettled(e)
    case Cancel => Cancelled(e)
  }

  predicate Reaches(e: Engine, steps: seq<Step>, end: Engine)
    decreases |steps|
  {
    if steps == [] then e == end else Enabled(e, steps[0]) && Reaches(Next(e, steps[0]), steps[1..], end)
  }

  class SyncEngine {
    var runningSync: Option<Drain>
    var pendingSync: bool
    var syncGeneration: nat
    var passes: nat

    function View(): Engine
      reads this
    {
      Engine(runningSync, pendingSync, syncGeneration, passes)
    }

    constructor ()
      ensures View() == INITIAL
    {
      runningSync, pendingSync, syncGeneration, passes := None, false, 0, 0;
    }

    method BeginPass()
      modifies this
      ensures View() == old(View()).(pending := false, passes := old(passes) + 1)
    {
      pendingSync := false;
      passes := passes + 1;
    }

    method SyncNow()
      modifies this
      ensures View() == Woken(old(View()))
    {
      if runningSync.Some? {
        pendingSync := true;
        return;
      }
      BeginPass();
      runningSync := Some(Drain(syncGeneration, true));
    }

    method AfterPass(failed: bool)
      requires runningSync.Some? && runningSync.value.looping
      modifies this
      ensures View() == Passed(old(View()), failed)
    {
      if !failed && pendingSync && runningSync.value.generation == syncGeneration {
        BeginPass();
      } else {
        runningSync := Some(runningSync.value.(looping := false));
      }
    }

    method Finally()
      requires runningSync.Some? && !runningSync.value.looping
      modifies this
      ensures View() == DrainSettled(old(View()))
    {
      var restart := pendingSync && runningSync.value.generation == syncGeneration;
      runningSync := None;
      if restart {
        SyncNow();
      }
    }

    method CancelActiveSync()
      modifies this
      ensures View() == Cancelled(old(View()))
    {
      pendingSync := false;
      syncGeneration := syncGeneration + 1;
    }
  }

  // Wakes ------------------------------------------------------------------

  function Wakes(steps: seq<Step>): nat {
    if steps == [] then 0 else (if steps[0].Wake? then 1 else 0) + Wakes(steps[1..])
  }

  /** Passes never outnumber wakes, whatever is cancelled or fails. */
  lemma {:induction false} PassesAreWokenUp(e: Engine, steps: seq<Step>, end: Engine)
    requires Reaches(e, steps, end)
    ensures end.passes + (if end.pending then 1 else 0) <= e.passes + (if e.pending then 1 else 0) + Wakes(steps)
    decreases |steps|
  {
    if steps != [] {
      PassesAreWokenUp(Next(e, steps[0]), steps[1..], end);
    }
  }

  /** More than `n` passes have begun, or the drain under way is bound to begin another. */
  predicate Owed(e: Engine, n: nat) { e.passes > n || (IsCurrent(e) && e.pending && e.passes == n) }

  lemma {:induction false} DebtIsKept(e: Engine, steps: seq<Step>, end: Engine, n: nat)
    requires Reaches(e, steps, end) && Owed(e, n)
    requires forall i :: 0 <= i < |steps| ==> !steps[i].Cancel?
    ensures Owed(end, n)
    decreases |steps|
  {
    if steps != [] {
      assert !steps[0].Cancel?;
      DebtIsKept(Next(e, steps[0]), steps[1..], end, n);
    }
  }

  /** A wake is followed by a pass that begins after it, before the engine next comes to rest. */
  lemma NoWakeIsLost(e: Engine, steps: seq<Step>, end: Engine)
    requires IsCurrent(e) || Resting(e)
    requires Reaches(Woken(e), steps, end) && Resting(end)
    requires forall i :: 0 <= i < |steps| ==> !steps[i].Cancel?
    ensures end.passes > e.passes
  {
    DebtIsKept(Woken(e), steps, end, e.passes);
  }

  lemma {:induction false} StaleDrainOnlyEnds(e: Engine, steps: seq<Step>, end: Engine)
    requires Reaches(e, steps, end) && (Resting(e) || !IsCurrent(e))
    requires forall i :: 0 <= i < |steps| ==> steps[i].PassEnds? || steps[i].Settles?
    ensures end.passes == e.passes
    decreases |steps|
  {
    if steps != [] {
      assert steps[0].PassEnds? || steps[0].Settles?;
      StaleDrainOnlyEnds(Next(e, steps[0]), steps[1..], end);
    }
  }

  /** Left to itself the engine answers a wake with a pass exactly when no cancelled drain is still winding down. */
  lemma WakeIsServedUnlessCancelled(e: Engine, steps: seq<Step>, end: Engine)
    requires Reaches(Woken(e), steps, end) && Resting(end)
    requires forall i :: 0 <= i < |steps| ==> steps[i].PassEnds? || steps[i].Settles?
    ensures end.passes > e.passes <==> IsCurrent(e) || Resting(e)
  {
    if IsCurrent(e) || Resting(e) {
      NoWakeIsLost(e, steps, end);
    } else {
      StaleDrainOnlyEnds(Woken(e), steps, end);
    }
  }

  /** A pass that fails ends its drain: no pass begins before the drain has settled. */
  lemma FailedPassEndsTheDrain(e: Engine)
    requires e.running.Some? && e.running.value.looping
    ensures var t := Next(e, PassEnds(true));
            t.passes == e.passes && t.pending == e.pending && t.running.Some? && !Enabled(t, PassEnds(true)) && Enabled(t, Settles)
  {
  }

  /** After a cancel nothing more begins until the next wake. */
  lemma CancelStopsPasses(e: Engine, steps: seq<Step>, end: Engine)
    requires Resting(e) || e.running.value.generation <= e.generation
    requires Reaches(Next(e, Cancel), steps, end)
    requires forall i :: 0 <= i < |steps| ==> steps[i].PassEnds? || steps[i].Settles?
    ensures end.passes == e.passes
  {
    StaleDrainOnlyEnds(Next(e, Cancel), steps, end);
  }

  // The push batch ---------------------------------------------------------

  const MAX_PUSH_BODY_BYTES := 1_000_000

  /** The encoded request: an envelope and the operations with a comma between each two. */
  function RequestBytes(envelope: nat, operations: seq<nat>): nat {
    if operations == [] then envelope
    else RequestBytes(envelope, operations[..|operations| - 1]) + operations[|operations| - 1] +
         (if |operations| > 1 then 1 else 0)
  }

  /** The batch is a prefix that fits or a single operation, and one operation more would not fit. */
  predicate IsPushBatch(envelope: nat, claimed: seq<nat>, n: nat) {
    && n <= |claimed|
    && (claimed != [] ==> n > 0)
    && (n > 1 ==> RequestBytes(envelope, claimed[..n]) <= MAX_PUSH_BODY_BYTES)
    && (n < |claimed| ==> RequestBytes(envelope, claimed[..n + 1]) > MAX_PUSH_BODY_BYTES)
  }

  function Sum(sizes: seq<nat>): nat { if sizes == [] then 0 else sizes[0] + Sum(sizes[1..]) }

  lemma {:induction false} SumAppend(sizes: seq<nat>, last: nat)
    ensures Sum(sizes + [last]) == Sum(sizes) + last
    decreases sizes
  {
    if sizes == [] {
      assert [last][1..] == [];
    } else {
      assert (sizes + [last])[1..] == sizes[1..] + [last];
      SumAppend(sizes[1..], last);
    }
  }

  /** The envelope, the operations, and a comma between each two. */
  lemma {:induction false} RequestBytesAreExact(envelope: nat, operations: seq<nat>)
    ensures RequestBytes(envelope, operations) ==
              envelope + Sum(operations) + if |operations| < 2 then 0 else |operations| - 1
    decreases operations
  {
    if operations != [] {
      var n := |operations| - 1;
      RequestBytesAreExact(envelope, operations[..n]);
      SumAppend(operations[..n], operations[n]);
      assert operations == operations[..n] + [operations[n]];
    }
  }

  method SelectPushBatch(envelope: nat, claimed: seq<nat>) returns (selected: seq<nat>)
    ensures selected <= claimed && IsPushBatch(envelope, claimed, |selected|)
    ensures |selected| > 1 ==> RequestBytes(envelope, selected) <= 1_000_000
  {
    selected := [];
    for i := 0 to |claimed|
      invariant selected == claimed[..i]
      invariant i > 1 ==> RequestBytes(envelope, claimed[..i]) <= MAX_PUSH_BODY_BYTES
    {
      var candidate := selected + [claimed[i]];
      assert candidate == claimed[..i + 1];
      if |selected| > 0 && RequestBytes(envelope, candidate) > MAX_PUSH_BODY_BYTES {
        break;
      }
      selected := candidate;
    }
  }

  lemma {:induction false} LongerCostsMore(envelope: nat, claimed: seq<nat>, i: nat, j: nat)
    requires i <= j <= |claimed|
    ensures RequestBytes(envelope, claimed[..i]) <= RequestBytes(envelope, claimed[..j])
    decreases j
  {
    if i < j {
      LongerCostsMore(envelope, claimed, i, j - 1);
      assert claimed[..j][..j - 1] == claimed[..j - 1];
    }
  }

  /** Stopping at the first operation that does not fit gives the longest batch there is. */
  lemma BatchIsLongest(envelope: nat, claimed: seq<nat>, n: nat, m: nat)
    requires IsPushBatch(envelope, claimed, n) && n < m <= |claimed|
    ensures RequestBytes(envelope, claimed[..m]) > MAX_PUSH_BODY_BYTES
  {
    LongerCostsMore(envelope, claimed, n + 1, m);
  }
}
