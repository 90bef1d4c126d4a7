/** What the scheduler sees of a batch: the worker's events are the steps that the scheduler's step
    system has for the end of a batch. */
module WorkerSignals {
  import opened Blocks
  import opened ApplyStore
  import opened NodeRuns
  import opened BatchWorker
  import S = Scheduler

  predicate IsSignal(e: Event) {
    e.TellApplyBlockDone? || e.ReleaseTicket?
  }

  /** The events that concern the scheduler, in order. */
  function Signals(events: seq<Event>): seq<Event> {
    if events == [] then []
    else Signals(events[..|events| - 1]) + (if IsSignal(events[|events| - 1]) then [events[|events| - 1]] else [])
  }

  lemma {:induction false} SignalsConcat(a: seq<Event>, b: seq<Event>)
    ensures Signals(a + b) == Signals(a) + Signals(b)
    decreases |b|
  {
    if b == [] {
      assert a + b == a;
    } else {
      assert (a + b)[..|a + b| - 1] == a + b[..|b| - 1];
      SignalsConcat(a, b[..|b| - 1]);
    }
  }

  lemma SignalsWhen(condition: bool, e: Event)
    ensures Signals(When(condition, e)) == When(condition && IsSignal(e), e)
  {
    assert [e][..0] == [];
  }

  lemma {:induction false} NoSignals(events: seq<Event>)
    requires OnlyBlockEvents(events)
    ensures Signals(events) == []
    decreases |events|
  {
    if events != [] {
      assert events[|events| - 1] in events;
      NoSignals(events[..|events| - 1]);
    }
  }

  lemma SignalsOfFailure(batch: Batch, failed: BlockHash)
    ensures Signals(FailureEvents(batch, failed)) == [TellApplyBlockDone]
  {
    var a := When(batch.hasCallback, DispatchResult(false));
    var b := When(batch.hasBootstrapper, TellBatchFailed(failed));
    SignalsWhen(batch.hasCallback, DispatchResult(false));
    SignalsWhen(batch.hasBootstrapper, TellBatchFailed(failed));
    SignalsWhen(true, TellApplyBlockDone);
    SignalsConcat(a, b);
    SignalsConcat(a + b, [TellApplyBlockDone]);
  }

  lemma SignalsOfFour(a: seq<Event>, b: seq<Event>, c: seq<Event>, d: seq<Event>)
    requires Signals(a) == a && Signals(b) == [] && Signals(c) == c && Signals(d) == []
    ensures Signals(a + b + c + d) == a + c
  {
    hide Signals;
    SignalsConcat(a, b);
    SignalsConcat(a + b, c);
    SignalsConcat(a + b + c, d);
  }

  lemma SignalsOfLast(batch: Batch, last: Option<BlockHash>)
    ensures Signals(NameLast(batch, last)) == []
  {
    if last.Some? {
      SignalsWhen(batch.hasBootstrapper, TellBatchDone(last.value));
    }
  }

  lemma SignalsOfClosing(batch: Batch, run: BlocksRun)
    requires Ended(batch, run)
    ensures Signals(ClosingEvents(batch, run)) == Release(batch) + When(run.failure.None?, TellApplyBlockDone)
  {
    hide Signals, LastIsNew, LastHandled, BlocksOf, NameLast;
    var callback := run.failure.None? && batch.hasCallback;
    SignalsWhen(batch.hasTicket, ReleaseTicket);
    SignalsWhen(callback, DispatchResult(LastIsNew(run)));
    SignalsWhen(run.failure.None?, TellApplyBlockDone);
    SignalsOfLast(batch, LastHandled(batch, run));
    SignalsOfFour(Release(batch), When(callback, DispatchResult(LastIsNew(run))),
                  When(run.failure.None?, TellApplyBlockDone), NameLast(batch, LastHandled(batch, run)));
  }

  /** The scheduler hears of a failed batch before its ticket is free, and of a finished one
      after. */
  lemma SignalOrder(s: Store, batch: Batch, outcomes: seq<Outcome>, run: BlocksRun)
    requires |outcomes| == |BlocksOf(batch)| && run == RunBlocks(s, BlocksOf(batch), outcomes, None)
    ensures Signals(BatchEvents(batch, run)) ==
            if run.failure.Some? then [TellApplyBlockDone] + Release(batch) else Release(batch) + [TellApplyBlockDone]
  {
    hide RunBlocks, Signals, BlocksOf, ClosingEvents, FailureEvents, OnlyBlockEvents;
    RunHasBlockEvents(s, BlocksOf(batch), outcomes, None);
    NoSignals(run.events);
    SignalsOfClosing(batch, run);
    if run.failure.None? {
      SignalsConcat(run.events, ClosingEvents(batch, run));
    } else {
      var failure := FailureEvents(batch, BlocksOf(batch)[|run.results|]);
      SignalsOfFailure(batch, BlocksOf(batch)[|run.results|]);
      SignalsWhen(batch.hasTicket, ReleaseTicket);
      SignalsConcat(run.events, failure);
      SignalsConcat(run.events + failure, if Leaves(run) then Release(batch) else ClosingEvents(batch, run));
    }
  }

  /** What the events do to the scheduler's state. */
  ghost function Effects(q: S.State<Batch>, events: seq<Event>): S.State<Batch> {
    if events == [] then q
    else
      var p := Effects(q, events[..|events| - 1]);
      match events[|events| - 1]
      case TellApplyBlockDone => p.(done := p.done + 1)
      case ReleaseTicket => p.(tickets := p.tickets + 1)
      case CallProtocol(_) => p
      case TellHeadManager(_) => p
      case DispatchResult(_) => p
      case TellBatchFailed(_) => p
      case TellBatchDone(_) => p
  }

  lemma {:induction false} OnlySignalsMatter(q: S.State<Batch>, events: seq<Event>)
    ensures Effects(q, events) == Effects(q, Signals(events))
    decreases |events|
  {
    if events != [] {
      var front, last := events[..|events| - 1], events[|events| - 1];
      OnlySignalsMatter(q, front);
      if IsSignal(last) {
        assert (Signals(front) + [last])[..|Signals(front)|] == Signals(front);
      } else {
        assert Signals(front) + [] == Signals(front);
      }
    }
  }

  /** The two steps of the scheduler's worker that end a batch. */
  function WorkerSteps(failed: bool): (S.Step<Batch>, S.Step<Batch>) {
    if failed then (S.Fail, S.DropAfterFail) else (S.Finish, S.SignalDone)
  }

  /** The signals are those of the two steps, one after the other. */
  ghost predicate MatchSteps(q: S.State<Batch>, failed: bool, signals: seq<Event>) {
    var (first, second) := WorkerSteps(failed);
    && S.Enabled(q, first) && S.Enabled(S.Next(q, first), second)
    && S.Next(S.Next(q, first), second) == Effects(q, signals).(worker := S.Waiting)
    && exists n: nat :: n <= |signals|
         && S.Next(q, first) == Effects(q, signals[..n]).(worker := S.Next(q, first).worker)
         && S.Next(S.Next(q, first), second) == Effects(S.Next(q, first), signals[n..]).(worker := S.Waiting)
  }

  lemma FailMatches(q: S.State<Batch>, batch: Batch)
    requires q.worker == S.Working(S.Request(batch, batch.hasTicket))
    ensures MatchSteps(q, true, [TellApplyBlockDone] + Release(batch))
  {
    hide Effects;
    var signals := [TellApplyBlockDone] + Release(batch);
    EffectsOfTwo(q, batch.hasTicket);
    EffectsOfOne(q);
    EffectsOfOne(S.Next(q, S.Fail));
    assert signals[..1] == [TellApplyBlockDone] && signals[1..] == Release(batch);
  }

  lemma FinishMatches(q: S.State<Batch>, batch: Batch)
    requires q.worker == S.Working(S.Request(batch, batch.hasTicket))
    ensures MatchSteps(q, false, Release(batch) + [TellApplyBlockDone])
  {
    hide Effects;
    var n := |Release(batch)|;
    var signals := Release(batch) + [TellApplyBlockDone];
    EffectsOfTwo(q, batch.hasTicket);
    EffectsOfOne(q);
    EffectsOfOne(S.Next(q, S.Finish));
    assert signals[..n] == Release(batch) && signals[n..] == [TellApplyBlockDone];
  }

  /** A batch ends as the scheduler's step system says: its signals, in their order, are those of
      one `Fail` and one `DropAfterFail`, or one `Finish` and one `SignalDone`, and all its events
      together have the effect of these steps. */
  lemma BatchIsWorkerSteps(s: Store, batch: Batch, outcomes: seq<Outcome>, run: BlocksRun, q: S.State<Batch>)
    requires |outcomes| == |BlocksOf(batch)| && run == RunBlocks(s, BlocksOf(batch), outcomes, None)
    requires q.worker == S.Working(S.Request(batch, batch.hasTicket))
    ensures MatchSteps(q, run.failure.Some?, Signals(BatchEvents(batch, run)))
    ensures Effects(q, BatchEvents(batch, run)) == Effects(q, Signals(BatchEvents(batch, run)))
  {
    hide RunBlocks, BatchEvents, BlocksOf, Effects, Signals, MatchSteps;
    SignalOrder(s, batch, outcomes, run);
    OnlySignalsMatter(q, BatchEvents(batch, run));
    FailMatches(q, batch);
    FinishMatches(q, batch);
  }

  lemma EffectsOfOne(q: S.State<Batch>)
    ensures Effects(q, []) == q
    ensures Effects(q, [TellApplyBlockDone]) == q.(done := q.done + 1)
    ensures Effects(q, [ReleaseTicket]) == q.(tickets := q.tickets + 1)
  {
    assert [TellApplyBlockDone][..0] == [] && [ReleaseTicket][..0] == [];
  }

  lemma EffectsOfTwo(q: S.State<Batch>, hasTicket: bool)
    ensures var release := When(hasTicket, ReleaseTicket);
            && Effects(q, [TellApplyBlockDone] + release) == q.(done := q.done + 1, tickets := q.tickets + One(hasTicket))
            && Effects(q, release + [TellApplyBlockDone]) == q.(done := q.done + 1, tickets := q.tickets + One(hasTicket))
  {
    EffectsOfOne(q);
    if hasTicket {
      assert ([TellApplyBlockDone] + [ReleaseTicket])[..1] == [TellApplyBlockDone];
      assert ([ReleaseTicket] + [TellApplyBlockDone])[..1] == [ReleaseTicket];
    } else {
      assert [TellApplyBlockDone] + [] == [TellApplyBlockDone] == [] + [TellApplyBlockDone];
    }
  }
}
