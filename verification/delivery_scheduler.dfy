/** Coalescing of delivery wakes: a pure reducer, and the pipeline that turns its runs into flushes. */
module DeliveryScheduler {
  import opened SyncTypes

  datatype Action = Trigger | Settled

  datatype Phase = Idle | Flushing

  datatype Schedule = Schedule(phase: Phase, flushRequested: bool, run: nat)

  const INITIAL := Schedule(Idle, false, 0)

  function Reduce(s: Schedule, action: Action): Schedule {
    match action
    case Trigger =>
      if s.phase.Idle? then Schedule(Flushing, false, s.run + 1)
      else if s.flushRequested then s
      else s.(flushRequested := true)
    case Settled =>
      if s.phase.Idle? then s
      else if s.flushRequested then Schedule(Flushing, false, s.run + 1)
      else s.(phase := Idle)
  }

  function Scan(h: seq<Action>): Schedule {
    if h == [] then INITIAL else Reduce(Scan(h[..|h| - 1]), h[|h| - 1])
  }

  function Count(h: seq<Action>, action: Action): nat {
    if h == [] then 0 else Count(h[..|h| - 1], action) + (if h[|h| - 1] == action then 1 else 0)
  }

  /** Every settle ends a run. */
  predicate OneSettleEach(h: seq<Action>) {
    forall i :: 0 <= i < |h| && h[i].Settled? ==> Scan(h[..i]).phase.Flushing?
  }

  /** Runs never outnumber triggers, a request is only pending behind a run, and settles account for every run that ended. */
  lemma {:induction false} RunsAreAccountedFor(h: seq<Action>)
    ensures var s := Scan(h);
            && s.run + (if s.flushRequested then 1 else 0) <= Count(h, Trigger)
            && (s.flushRequested ==> s.phase.Flushing?)
            && (OneSettleEach(h) ==> s.run == Count(h, Settled) + (if s.phase.Flushing? then 1 else 0))
  {
    if h != [] {
      var before := h[..|h| - 1];
      RunsAreAccountedFor(before);
      if OneSettleEach(h) {
        forall i | 0 <= i < |before| && before[i].Settled? ensures Scan(before[..i]).phase.Flushing? {
          assert before[..i] == h[..i] && h[i].Settled?;
        }
      }
    }
  }

  /** A run that began after the trigger, or the promise of one. */
  lemma {:induction false} TriggerIsOwed(h: seq<Action>, i: nat)
    requires i < |h| && h[i].Trigger?
    ensures var s := Scan(h);
            s.run > Scan(h[..i]).run || (s.phase.Flushing? && s.flushRequested && s.run == Scan(h[..i]).run)
    decreases |h|
  {
    var before := h[..|h| - 1];
    if i == |h| - 1 {
      RunsAreAccountedFor(before);
    } else {
      TriggerIsOwed(before, i);
      assert before[..i] == h[..i];
    }
  }

  lemma {:induction false} RunGrows(h: seq<Action>, i: nat)
    requires i <= |h|
    ensures Scan(h[..i]).run <= Scan(h).run
    decreases |h|
  {
    if i == |h| {
      assert h[..i] == h;
    } else {
      RunGrows(h[..|h| - 1], i);
      assert h[..|h| - 1][..i] == h[..i];
    }
  }

  /** One action later than `i`, as a history of its own. */
  lemma Snoc(h: seq<Action>, i: nat)
    requires i < |h|
    ensures Scan(h[..i + 1]) == Reduce(Scan(h[..i]), h[i])
  {
    assert h[..i + 1][..i] == h[..i];
  }

  /** Each trigger is followed by a new run: at once when idle, else as soon as one more run settles. */
  lemma TriggerIsFollowedByARun(h: seq<Action>, i: nat)
    requires i < |h| && h[i].Trigger?
    requires Scan(h).phase.Idle? || Scan(h[..i]).phase.Idle? || exists j :: i < j < |h| && h[j].Settled?
    ensures Scan(h).run > Scan(h[..i]).run
  {
    TriggerIsOwed(h, i);
    if Scan(h[..i]).phase.Idle? {
      Snoc(h, i);
      RunGrows(h, i + 1);
    } else if j :| i < j < |h| && h[j].Settled? {
      TriggerSettles(h, i, j);
      RunGrows(h, j + 1);
    }
  }

  lemma TriggerSettles(h: seq<Action>, i: nat, j: nat)
    requires i < j < |h| && h[i].Trigger? && h[j].Settled?
    ensures Scan(h[..j + 1]).run > Scan(h[..i]).run
  {
    TriggerIsOwed(h[..j], i);
    assert h[..j][..i] == h[..i];
    Snoc(h, j);
  }

  // The pipeline -----------------------------------------------------------

  datatype Event = Wake | FlushEnds

  /** `emitted` is the last run the stream let through, `active` and `queued` are the flushes handed on. */
  datatype Pipeline = Pipeline(schedule: Schedule, emitted: Option<nat>, active: nat, queued: nat, started: nat)

  const STOPPED := Pipeline(INITIAL, None, 0, 0, 0)

  /** One action through the reducer; a run not seen before is flushed, behind the flush that is under way if there is one. */
  function Dispatch(p: Pipeline, action: Action): Pipeline {
    var s := Reduce(p.schedule, action);
    var q := p.(schedule := s);
    if p.emitted == Some(s.run) then q
    else if s.phase.Idle? then q.(emitted := Some(s.run))
    else if p.active == 0 then q.(emitted := Some(s.run), active := 1, started := p.started + 1)
    else q.(emitted := Some(s.run), queued := p.queued + 1)
  }

  /** A flush that ends reports itself settled while it still counts as active; then its place goes to the first in the queue. */
  function Next(p: Pipeline, event: Event): Pipeline {
    match event
    case Wake => Dispatch(p, Trigger)
    case FlushEnds =>
      if p.active == 0 then p
      else
        var q := Dispatch(p, Settled);
        if q.queued > 0 then q.(queued := q.queued - 1, started := q.started + 1) else q.(active := q.active - 1)
  }

  function RunPipeline(events: seq<Event>): Pipeline {
    if events == [] then STOPPED else Next(RunPipeline(events[..|events| - 1]), events[|events| - 1])
  }

  /**
   * Flushes never overlap, there is one for each run, and none waits between events: only a requested run
   * is ever queued, while the flush before it reports its end.
   */
  lemma {:induction false} FlushesAreSerial(events: seq<Event>)
    ensures var p := RunPipeline(events);
            && p.queued == 0 && p.started == p.schedule.run
            && p.active == (if p.schedule.phase.Flushing? then 1 else 0)
            && (p.emitted == Some(p.schedule.run) || p == STOPPED)
            && (p.schedule.flushRequested ==> p.schedule.phase.Flushing?)
            && (p.active > 0 ==> Dispatch(p, Settled).queued == if p.schedule.flushRequested then 1 else 0)
  {
    if events != [] {
      FlushesAreSerial(events[..|events| - 1]);
    }
  }

  /** A wake starts a flush when none runs and is remembered while one does; the end of a flush starts the remembered one, or rests. */
  lemma EventIsExact(events: seq<Event>, event: Event)
    ensures var p, q := RunPipeline(events), RunPipeline(events + [event]);
            match event
            case Wake =>
              q.active == 1 && (if p.active == 0 then q.started == p.started + 1 && !q.schedule.flushRequested
                                else q.started == p.started && q.schedule.flushRequested)
            case FlushEnds =>
              !q.schedule.flushRequested
              && (if p.active == 0 then q == p
                  else if p.schedule.flushRequested then q.active == 1 && q.started == p.started + 1
                  else q.active == 0 && q.started == p.started && q.schedule.phase.Idle?)
  {
    FlushesAreSerial(events);
    assert (events + [event])[..|events|] == events;
  }
}
