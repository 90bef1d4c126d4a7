/** The worker's handling of one batch: apply the blocks in order until one fails, and tell the
    caller, the bootstrapper, the head manager and the scheduler how it went. */
module BatchWorker {
  import opened Blocks
  import opened MetaMerge
  import opened ApplyStore
  import opened NodeRuns
  import B = BlockStorage
  import M = BlockMetaStorage
  import opened HeaderArrival

  /** Everything the worker does that others can observe, besides writing the store. */
  datatype Event =
    | CallProtocol(block: BlockHash)
    | TellHeadManager(block: BlockHash)
    | DispatchResult(success: bool)
    | TellBatchFailed(failed: BlockHash)
    | TellApplyBlockDone
    | ReleaseTicket
    | TellBatchDone(lastApplied: BlockHash)

  datatype Batch = Batch(
    blockToApply: BlockHash, successors: seq<BlockHash>,
    hasBootstrapper: bool, hasCallback: bool, hasTicket: bool)

  /** `ApplyBlockBatch::take_all_blocks_to_apply`. */
  function BlocksOf(batch: Batch): (blocks: seq<BlockHash>)
    ensures blocks != [] && blocks[0] == batch.blockToApply && blocks[1..] == batch.successors
  {
    [batch.blockToApply] + batch.successors
  }

  // ------------------------------------------------------------------ specification

  datatype BlocksRun = BlocksRun(store: Store, results: seq<HandleResult>, failure: Option<FeedError>, events: seq<Event>)

  function NextCache(r: HandleResult): Cache {
    match r
    case AppliedNow(header, data) => Some((header, data))
    case AlreadyApplied => None
    case Failed(_) => None
  }

  function BlockEvents(s: Store, b: BlockHash, cache: Cache, r: HandleResult): seq<Event> {
    (if AsksProtocol(s, b, cache) then [CallProtocol(b)] else [])
    + (if r.AppliedNow? then [TellHeadManager(b)] else [])
  }

  /** The blocks in order, up to and including the first that fails. */
  function RunBlocks(s: Store, blocks: seq<BlockHash>, outcomes: seq<Outcome>, cache: Cache): (run: BlocksRun)
    requires |blocks| == |outcomes|
    ensures |run.results| <= |blocks|
    ensures run.failure.None? <==> |run.results| == |blocks|
    ensures forall r :: r in run.results ==> !r.Failed?
    decreases |blocks|
  {
    if blocks == [] then BlocksRun(s, [], None, [])
    else
      var (t, r) := HandleBlock(s, blocks[0], cache, outcomes[0]);
      var events := BlockEvents(s, blocks[0], cache, r);
      if r.Failed? then BlocksRun(t, [], Some(r.error), events)
      else
        var rest := RunBlocks(t, blocks[1..], outcomes[1..], NextCache(r));
        BlocksRun(rest.store, [r] + rest.results, rest.failure, events + rest.events)
  }

  /** The worker leaves its loop to get a new protocol runner. */
  predicate Leaves(run: BlocksRun) {
    run.failure == Some(ProtocolService(true))
  }

  function When(condition: bool, e: Event): seq<Event> {
    if condition then [e] else []
  }

  function FailureEvents(batch: Batch, failed: BlockHash): seq<Event> {
    When(batch.hasCallback, DispatchResult(false))
    + When(batch.hasBootstrapper, TellBatchFailed(failed))
    + [TellApplyBlockDone]
  }

  function Release(batch: Batch): seq<Event> {
    When(batch.hasTicket, ReleaseTicket)
  }

  /** The last handled block was applied by this batch. */
  predicate LastIsNew(run: BlocksRun) {
    |run.results| > 0 && run.results[|run.results| - 1].AppliedNow?
  }

  function LastHandled(batch: Batch, run: BlocksRun): Option<BlockHash>
    requires |run.results| <= |BlocksOf(batch)|
  {
    if |run.results| == 0 then None else Some(BlocksOf(batch)[|run.results| - 1])
  }

  function NameLast(batch: Batch, last: Option<BlockHash>): seq<Event> {
    match last
    case None => []
    case Some(b) => When(batch.hasBootstrapper, TellBatchDone(b))
  }

  function ClosingEvents(batch: Batch, run: BlocksRun): seq<Event>
    requires |run.results| <= |BlocksOf(batch)|
  {
    Release(batch)
    + When(run.failure.None? && batch.hasCallback, DispatchResult(LastIsNew(run)))
    + When(run.failure.None?, TellApplyBlockDone)
    + NameLast(batch, LastHandled(batch, run))
  }

  function BatchEvents(batch: Batch, run: BlocksRun): seq<Event>
    requires |run.results| <= |BlocksOf(batch)|
    requires run.failure.None? <==> |run.results| == |BlocksOf(batch)|
  {
    if run.failure.None? then run.events + ClosingEvents(batch, run)
    else
      run.events + FailureEvents(batch, BlocksOf(batch)[|run.results|])
      + (if Leaves(run) then Release(batch) else ClosingEvents(batch, run))
  }

  // ------------------------------------------------------------------ the code

  method ResolveData(blockStorage: B.BlockStorage, metaStorage: M.BlockMetaStorage<AdditionalData>, b: BlockHash, cache: Cache)
    returns (r: Option<(Header, AdditionalData)>)
    requires blockStorage.Valid()
    ensures r == ResolveBlockData(View(blockStorage, metaStorage), b, cache)
  {
    if cache.Some? && b == cache.value.0.hash {
      return cache;
    }
    var block := blockStorage.Get(b);
    if block.value.None? {
      return None;
    }
    if b !in metaStorage.additionalData {
      return None;
    }
    r := Some((block.value.value, metaStorage.additionalData[b]));
  }

  method PrepareApplyRequest(blockStorage: B.BlockStorage, metaStorage: M.BlockMetaStorage<AdditionalData>, b: BlockHash, cache: Cache)
    returns (r: Prepared)
    requires blockStorage.Valid()
    ensures r == Prepare(View(blockStorage, metaStorage), b, cache)
  {
    var block := blockStorage.Get(b);
    if block.value.None? {
      return NotReady(StorageFailure(MissingKey));
    }
    if b !in metaStorage.kv {
      return NotReady(Processing);
    }
    var header := block.value.value;
    var predecessor := ResolveData(blockStorage, metaStorage, header.predecessor, cache);
    match predecessor {
      case None => r := NotReady(StorageFailure(MissingKey));
      case Some(data) => r := Ready(Request(metaStorage.kv[b], header, data.0, data.1));
    }
  }

  /** `_apply_block`, on a database that may fail at any write of the result. */
  method ApplyBlock(blockStorage: B.BlockStorage, metaStorage: M.BlockMetaStorage<AdditionalData>,
                    b: BlockHash, prepared: Prepared, ghost cache: Cache, outcome: Outcome)
    returns (result: HandleResult, events: seq<Event>)
    requires blockStorage.Valid()
    requires prepared == Prepare(View(blockStorage, metaStorage), b, cache)
    modifies blockStorage, metaStorage, metaStorage.predecessorsIndex
    ensures blockStorage.Valid()
    ensures (View(blockStorage, metaStorage), result) ==
            HandleBlock(old(View(blockStorage, metaStorage)), b, cache, outcome)
    ensures events == if AsksProtocol(old(View(blockStorage, metaStorage)), b, cache) then [CallProtocol(b)] else []
  {
    events := [];
    match prepared {
      case NotReady(error) => result := Failed(error);
      case Ready(request) =>
        if request.meta.isApplied {
          return AlreadyApplied, [];
        }
        events := [CallProtocol(b)];
        match outcome {
          case Rejects(restart) => result := Failed(ProtocolService(restart));
          case ContextTimeout => result := Failed(MissingContext);
          case Succeeds(response) =>
            var data, _, _ := StoreAppliedBlockResult(blockStorage, metaStorage, b, response, request.meta, LAST_STAGE);
            result := AppliedNow(request.header, data.value);
          case Stops(response, stage) =>
            var data, _, _ := StoreAppliedBlockResult(blockStorage, metaStorage, b, response, request.meta, StopStage(stage));
            result := Failed(StorageFailure(data.error));
        }
    }
  }

  /** One round of the loop: prepare, apply, notify the head manager, renew the cache. */
  method ApplyNext(blockStorage: B.BlockStorage, metaStorage: M.BlockMetaStorage<AdditionalData>,
                   b: BlockHash, cache: Cache, outcome: Outcome)
    returns (result: HandleResult, newCache: Cache, events: seq<Event>)
    requires blockStorage.Valid()
    modifies blockStorage, metaStorage, metaStorage.predecessorsIndex
    ensures blockStorage.Valid()
    ensures (View(blockStorage, metaStorage), result) ==
            HandleBlock(old(View(blockStorage, metaStorage)), b, cache, outcome)
    ensures newCache == NextCache(result)
    ensures events == BlockEvents(old(View(blockStorage, metaStorage)), b, cache, result)
  {
    var prepared := PrepareApplyRequest(blockStorage, metaStorage, b, cache);
    result, events := ApplyBlock(blockStorage, metaStorage, b, prepared, cache, outcome);
    newCache := None;
    match result {
      case AppliedNow(header, data) =>
        newCache := Some((header, data));
        events := events + [TellHeadManager(b)];
      case AlreadyApplied =>
      case Failed(_) =>
    }
  }

  /** The blocks from `i` on still have to be run. */
  ghost predicate InProgress(run: BlocksRun, s: Store, blocks: seq<BlockHash>, outcomes: seq<Outcome>, i: nat,
                             cache: Cache, results: seq<HandleResult>, events: seq<Event>)
    requires |blocks| == |outcomes| && i <= |blocks|
  {
    var rest := RunBlocks(s, blocks[i..], outcomes[i..], cache);
    run == BlocksRun(rest.store, results + rest.results, rest.failure, events + rest.events)
  }

  lemma ProgressStart(s: Store, blocks: seq<BlockHash>, outcomes: seq<Outcome>)
    requires |blocks| == |outcomes|
    ensures InProgress(RunBlocks(s, blocks, outcomes, None), s, blocks, outcomes, 0, None, [], [])
  {
    assert blocks[0..] == blocks && outcomes[0..] == outcomes;
  }

  lemma ProgressStep(run: BlocksRun, s: Store, blocks: seq<BlockHash>, outcomes: seq<Outcome>, i: nat,
                     cache: Cache, results: seq<HandleResult>, events: seq<Event>)
    requires |blocks| == |outcomes| && i < |blocks|
    requires InProgress(run, s, blocks, outcomes, i, cache, results, events)
    ensures var (t, r) := HandleBlock(s, blocks[i], cache, outcomes[i]);
            var now := events + BlockEvents(s, blocks[i], cache, r);
            if r.Failed? then run == BlocksRun(t, results, Some(r.error), now)
            else InProgress(run, t, blocks, outcomes, i + 1, NextCache(r), results + [r], now)
  {
    assert blocks[i..][0] == blocks[i] && blocks[i..][1..] == blocks[i + 1..];
    assert outcomes[i..][0] == outcomes[i] && outcomes[i..][1..] == outcomes[i + 1..];
    var (t, r) := HandleBlock(s, blocks[i], cache, outcomes[i]);
    var e := BlockEvents(s, blocks[i], cache, r);
    if r.Failed? {
      assert run.results == results + [] == results;
    } else {
      var rest := RunBlocks(t, blocks[i + 1..], outcomes[i + 1..], NextCache(r));
      assert results + ([r] + rest.results) == (results + [r]) + rest.results;
      assert events + (e + rest.events) == (events + e) + rest.events;
    }
  }

  lemma ProgressDone(run: BlocksRun, s: Store, blocks: seq<BlockHash>, outcomes: seq<Outcome>,
                     cache: Cache, results: seq<HandleResult>, events: seq<Event>)
    requires |blocks| == |outcomes|
    requires InProgress(run, s, blocks, outcomes, |blocks|, cache, results, events)
    ensures run == BlocksRun(s, results, None, events)
  {
    assert results + [] == results && events + [] == events;
  }

  /** The failure branch of the loop. */
  method ReportFailure(batch: Batch, failed: BlockHash) returns (events: seq<Event>)
    ensures events == FailureEvents(batch, failed)
  {
    events := [];
    if batch.hasCallback {
      events := events + [DispatchResult(false)];
    }
    if batch.hasBootstrapper {
      events := events + [TellBatchFailed(failed)];
    }
    events := events + [TellApplyBlockDone];
  }

  /** What follows the loop. */
  method Close(batch: Batch, oneshotResult: Option<bool>, stats: bool, lastApplied: Option<BlockHash>)
    returns (events: seq<Event>)
    ensures events == Release(batch)
                      + (if oneshotResult.Some? then [DispatchResult(oneshotResult.value)] else [])
                      + When(stats, TellApplyBlockDone)
                      + NameLast(batch, lastApplied)
  {
    events := [];
    if batch.hasTicket {
      events := events + [ReleaseTicket];
    }
    if oneshotResult.Some? {
      events := events + [DispatchResult(oneshotResult.value)];
    }
    if stats {
      events := events + [TellApplyBlockDone];
    }
    if lastApplied.Some? && batch.hasBootstrapper {
      events := events + [TellBatchDone(lastApplied.value)];
    }
  }

  /** What the caller hears of handled blocks: whether the last one is new. */
  function CallbackResult(results: seq<HandleResult>, hasCallback: bool): Option<bool> {
    if results == [] || !hasCallback then None else Some(results[|results| - 1].AppliedNow?)
  }

  lemma CallbackAfter(results: seq<HandleResult>, r: HandleResult, hasCallback: bool)
    ensures CallbackResult([], hasCallback) == None
    ensures CallbackResult(results + [r], hasCallback) ==
            if hasCallback then Some(r.AppliedNow?) else CallbackResult(results, hasCallback)
  {
  }

  /** The loop over the blocks, up to the first failure. */
  method ApplyBlocks(blockStorage: B.BlockStorage, metaStorage: M.BlockMetaStorage<AdditionalData>,
                     blocks: seq<BlockHash>, outcomes: seq<Outcome>, hasCallback: bool)
    returns (events: seq<Event>, handled: nat, failure: Option<FeedError>, oneshotResult: Option<bool>,
             ghost results: seq<HandleResult>)
    requires blockStorage.Valid()
    requires |outcomes| == |blocks|
    modifies blockStorage, metaStorage, metaStorage.predecessorsIndex
    ensures blockStorage.Valid()
    ensures RunBlocks(old(View(blockStorage, metaStorage)), blocks, outcomes, None) ==
            BlocksRun(View(blockStorage, metaStorage), results, failure, events)
    ensures handled == |results|
    ensures oneshotResult == CallbackResult(results, hasCallback)
  {
    hide RunBlocks, HandleBlock, BlockEvents, InProgress, B.BlockStorage.Valid, View, NextCache, CallbackResult;
    ghost var run := RunBlocks(View(blockStorage, metaStorage), blocks, outcomes, None);
    ProgressStart(View(blockStorage, metaStorage), blocks, outcomes);
    CallbackAfter([], AlreadyApplied, hasCallback);
    var cache: Cache := None;
    events, handled, failure, oneshotResult, results := [], 0, None, None, [];
    while handled < |blocks|
      invariant 0 <= handled == |results| <= |blocks|
      invariant blockStorage.Valid() && failure.None?
      invariant oneshotResult == CallbackResult(results, hasCallback)
      invariant InProgress(run, View(blockStorage, metaStorage), blocks, outcomes, handled, cache, results, events)
    {
      ProgressStep(run, View(blockStorage, metaStorage), blocks, outcomes, handled, cache, results, events);
      var result, newCache, happened := ApplyNext(blockStorage, metaStorage, blocks[handled], cache, outcomes[handled]);
      cache := newCache;
      events := events + happened;
      if result.Failed? {
        failure := Some(result.error);
        return;
      }
      CallbackAfter(results, result, hasCallback);
      if hasCallback {
        oneshotResult := Some(result.AppliedNow?);
      }
      results := results + [result];
      handled := handled + 1;
    }
    ProgressDone(run, View(blockStorage, metaStorage), blocks, outcomes, cache, results, events);
  }

  /** The body of the worker's event loop for one batch, without shutdown. */
  method ApplyBatch(blockStorage: B.BlockStorage, metaStorage: M.BlockMetaStorage<AdditionalData>,
                    batch: Batch, outcomes: seq<Outcome>)
    returns (events: seq<Event>, leaves: bool)
    requires blockStorage.Valid()
    requires |outcomes| == |BlocksOf(batch)|
    modifies blockStorage, metaStorage, metaStorage.predecessorsIndex
    ensures blockStorage.Valid()
    ensures var run := RunBlocks(old(View(blockStorage, metaStorage)), BlocksOf(batch), outcomes, None);
            && View(blockStorage, metaStorage) == run.store
            && events == BatchEvents(batch, run)
            && leaves == Leaves(run)
  {
    hide RunBlocks, B.BlockStorage.Valid;
    var blocks := BlocksOf(batch);
    var handled, failure, oneshotResult;
    ghost var results;
    events, handled, failure, oneshotResult, results :=
      ApplyBlocks(blockStorage, metaStorage, blocks, outcomes, batch.hasCallback);
    ghost var run := BlocksRun(View(blockStorage, metaStorage), results, failure, events);
    var lastApplied := if handled == 0 then None else Some(blocks[handled - 1]);
    if failure.Some? {
      var report := ReportFailure(batch, blocks[handled]);
      if failure.value == ProtocolService(true) {
        return events + report + Release(batch), true;
      }
      var closing := Close(batch, None, false, lastApplied);
      assert closing == ClosingEvents(batch, run);
      return events + report + closing, false;
    }
    var closing := Close(batch, oneshotResult, true, lastApplied);
    assert closing == ClosingEvents(batch, run);
    return events + closing, false;
  }

  // ------------------------------------------------------------------ what a batch reports

  ghost predicate OnlyBlockEvents(events: seq<Event>) {
    forall e :: e in events ==> e.CallProtocol? || e.TellHeadManager?
  }

  lemma {:induction false} RunHasBlockEvents(s: Store, blocks: seq<BlockHash>, outcomes: seq<Outcome>, cache: Cache)
    requires |blocks| == |outcomes|
    ensures OnlyBlockEvents(RunBlocks(s, blocks, outcomes, cache).events)
    decreases |blocks|
  {
    if blocks != [] {
      var (t, r) := HandleBlock(s, blocks[0], cache, outcomes[0]);
      RunHasBlockEvents(t, blocks[1..], outcomes[1..], NextCache(r));
    }
  }

  function One(condition: bool): nat {
    if condition then 1 else 0
  }

  /** How often `e` occurs among the first `n` events. */
  function CountTo(events: seq<Event>, e: Event, n: nat): nat
    requires n <= |events|
  {
    if n == 0 then 0 else CountTo(events, e, n - 1) + One(events[n - 1] == e)
  }

  function Count(events: seq<Event>, e: Event): nat {
    CountTo(events, e, |events|)
  }

  lemma {:induction false} CountToConcat(a: seq<Event>, b: seq<Event>, e: Event, n: nat)
    requires n <= |a + b|
    ensures CountTo(a + b, e, n) == if n <= |a| then CountTo(a, e, n) else CountTo(a, e, |a|) + CountTo(b, e, n - |a|)
  {
    if n > 0 {
      CountToConcat(a, b, e, n - 1);
    }
  }

  lemma CountConcat(a: seq<Event>, b: seq<Event>, e: Event)
    ensures Count(a + b, e) == Count(a, e) + Count(b, e)
  {
    CountToConcat(a, b, e, |a + b|);
  }

  lemma CountWhen(condition: bool, x: Event, e: Event)
    ensures Count(When(condition, x), e) == One(condition && x == e)
  {
    assert CountTo([x], e, 1) == CountTo([x], e, 0) + One(x == e);
  }

  lemma {:induction false} CountNoneTo(events: seq<Event>, e: Event, n: nat)
    requires OnlyBlockEvents(events) && !e.CallProtocol? && !e.TellHeadManager? && n <= |events|
    ensures CountTo(events, e, n) == 0
  {
    if n > 0 {
      CountNoneTo(events, e, n - 1);
      assert events[n - 1] in events;
    }
  }

  lemma CountNone(events: seq<Event>, e: Event)
    requires OnlyBlockEvents(events) && !e.CallProtocol? && !e.TellHeadManager?
    ensures Count(events, e) == 0
  {
    CountNoneTo(events, e, |events|);
  }

  /** A run that ended by failing or by handling every block. */
  predicate Ended(batch: Batch, run: BlocksRun) {
    && |run.results| <= |BlocksOf(batch)|
    && (run.failure.None? <==> |run.results| == |BlocksOf(batch)|)
  }

  lemma CountFailure(batch: Batch, failed: BlockHash, e: Event)
    ensures Count(FailureEvents(batch, failed), e) ==
            One(batch.hasCallback && e == DispatchResult(false))
            + One(batch.hasBootstrapper && e == TellBatchFailed(failed))
            + One(e == TellApplyBlockDone)
  {
    var x := When(batch.hasCallback, DispatchResult(false));
    var y := When(batch.hasBootstrapper, TellBatchFailed(failed));
    CountConcat(x, y, e);
    CountConcat(x + y, [TellApplyBlockDone], e);
    CountWhen(batch.hasCallback, DispatchResult(false), e);
    CountWhen(batch.hasBootstrapper, TellBatchFailed(failed), e);
    CountWhen(true, TellApplyBlockDone, e);
  }

  function ClosingCount(batch: Batch, run: BlocksRun, e: Event): nat
    requires Ended(batch, run)
  {
    var last := LastHandled(batch, run);
    One(batch.hasTicket && e == ReleaseTicket)
    + One(run.failure.None? && batch.hasCallback && e == DispatchResult(LastIsNew(run)))
    + One(run.failure.None? && e == TellApplyBlockDone)
    + One(last.Some? && batch.hasBootstrapper && e == TellBatchDone(last.value))
  }

  lemma CountClosing(batch: Batch, run: BlocksRun, e: Event)
    requires Ended(batch, run)
    ensures Count(ClosingEvents(batch, run), e) == ClosingCount(batch, run, e)
  {
    var x := Release(batch);
    var y := When(run.failure.None? && batch.hasCallback, DispatchResult(LastIsNew(run)));
    var z := When(run.failure.None?, TellApplyBlockDone);
    CountConcat(x, y, e);
    CountConcat(x + y, z, e);
    CountConcat(x + y + z, NameLast(batch, LastHandled(batch, run)), e);
    CountWhen(batch.hasTicket, ReleaseTicket, e);
    CountWhen(run.failure.None? && batch.hasCallback, DispatchResult(LastIsNew(run)), e);
    CountWhen(run.failure.None?, TellApplyBlockDone, e);
    CountNameLast(batch, LastHandled(batch, run), e);
  }

  lemma CountNameLast(batch: Batch, last: Option<BlockHash>, e: Event)
    ensures Count(NameLast(batch, last), e) ==
            One(last.Some? && batch.hasBootstrapper && e == TellBatchDone(last.value))
  {
    if last.Some? {
      CountWhen(batch.hasBootstrapper, TellBatchDone(last.value), e);
    }
  }

  /** The count of an event, part by part. */
  function PartsCount(batch: Batch, run: BlocksRun, e: Event): nat
    requires Ended(batch, run)
  {
    (if run.failure.Some? then
       One(batch.hasCallback && e == DispatchResult(false))
       + One(batch.hasBootstrapper && e == TellBatchFailed(BlocksOf(batch)[|run.results|]))
       + One(e == TellApplyBlockDone)
     else 0)
    + (if Leaves(run) then One(batch.hasTicket && e == ReleaseTicket) else ClosingCount(batch, run, e))
  }

  lemma CountBatch(batch: Batch, run: BlocksRun, e: Event)
    requires Ended(batch, run) && OnlyBlockEvents(run.events) && !e.CallProtocol? && !e.TellHeadManager?
    ensures Count(BatchEvents(batch, run), e) == PartsCount(batch, run, e)
  {
    hide Count, OnlyBlockEvents, ClosingEvents, FailureEvents, ClosingCount, BlocksOf;
    CountNone(run.events, e);
    CountClosing(batch, run, e);
    if run.failure.Some? {
      var f := FailureEvents(batch, BlocksOf(batch)[|run.results|]);
      CountConcat(run.events, f, e);
      CountFailure(batch, BlocksOf(batch)[|run.results|], e);
      CountWhen(batch.hasTicket, ReleaseTicket, e);
      CountConcat(run.events + f, if Leaves(run) then Release(batch) else ClosingEvents(batch, run), e);
    } else {
      CountConcat(run.events, ClosingEvents(batch, run), e);
    }
  }

  /** How often each kind of report occurs. */
  function Reports(batch: Batch, run: BlocksRun, e: Event): nat
    requires Ended(batch, run)
  {
    match e
    case TellApplyBlockDone => 1
    case ReleaseTicket => One(batch.hasTicket)
    case DispatchResult(success) =>
      One(batch.hasCallback && success == (run.failure.None? && run.results[|batch.successors|].AppliedNow?))
    case TellBatchFailed(b) =>
      One(batch.hasBootstrapper && run.failure.Some? && b == BlocksOf(batch)[|run.results|])
    case TellBatchDone(b) =>
      One(batch.hasBootstrapper && run.failure != Some(ProtocolService(true)) &&
          |run.results| > 0 && b == BlocksOf(batch)[|run.results| - 1])
    case CallProtocol(_) => 0
    case TellHeadManager(_) => 0
  }

  lemma PartsAreReports(batch: Batch, run: BlocksRun, e: Event)
    requires Ended(batch, run) && !e.CallProtocol? && !e.TellHeadManager?
    ensures PartsCount(batch, run, e) == Reports(batch, run, e)
  {
    match e
    case TellApplyBlockDone =>
    case ReleaseTicket =>
    case DispatchResult(success) =>
    case TellBatchFailed(b) =>
    case TellBatchDone(b) =>
  }

  /** For every batch, whatever happens: exactly one `ApplyBlockDone`; the ticket is released
      once; the caller hears exactly once, and hears success exactly when nothing failed and the
      last block was newly applied; a failed batch names its first block that was not handled;
      and the last handled block is named, unless the worker leaves. */
  lemma BatchReport(s: Store, batch: Batch, outcomes: seq<Outcome>, run: BlocksRun, e: Event)
    requires |outcomes| == |BlocksOf(batch)| && run == RunBlocks(s, BlocksOf(batch), outcomes, None)
    requires !e.CallProtocol? && !e.TellHeadManager?
    ensures Count(BatchEvents(batch, run), e) == Reports(batch, run, e)
  {
    RunHasBlockEvents(s, BlocksOf(batch), outcomes, None);
    CountBatch(batch, run, e);
    PartsAreReports(batch, run, e);
  }

  // ------------------------------------------------------------------ handled blocks

  lemma HandledIsApplied(s: Store, b: BlockHash, cache: Cache, o: Outcome)
    ensures var (t, r) := HandleBlock(s, b, cache, o);
            && Applied(s.metas) <= Applied(t.metas)
            && (!r.Failed? ==> Applied(t.metas) == Applied(s.metas) + {b})
            && (!r.Failed? ==> (r.AppliedNow? <==> b !in Applied(s.metas)))
  {
  }

  /** Every handled block is applied, and exactly those that were not applied before, by this
      batch or earlier, are newly applied. */
  lemma {:induction false} HandledPrefixApplied(s: Store, blocks: seq<BlockHash>, outcomes: seq<Outcome>, cache: Cache)
    requires |blocks| == |outcomes|
    ensures var run := RunBlocks(s, blocks, outcomes, cache);
            && Applied(s.metas) <= Applied(run.store.metas)
            && (forall i :: 0 <= i < |run.results| ==> blocks[i] in Applied(run.store.metas))
            && (forall i :: 0 <= i < |run.results| ==>
                  (run.results[i].AppliedNow? <==> blocks[i] !in Applied(s.metas) && blocks[i] !in blocks[..i]))
    decreases |blocks|
  {
    hide HandleBlock, Applied;
    if blocks != [] {
      var (t, r) := HandleBlock(s, blocks[0], cache, outcomes[0]);
      HandledIsApplied(s, blocks[0], cache, outcomes[0]);
      if !r.Failed? {
        var rest := RunBlocks(t, blocks[1..], outcomes[1..], NextCache(r));
        HandledPrefixApplied(t, blocks[1..], outcomes[1..], NextCache(r));
        forall i | 0 <= i < |rest.results| + 1
          ensures ([r] + rest.results)[i].AppliedNow? <==> blocks[i] !in Applied(s.metas) && blocks[i] !in blocks[..i]
        {
          if i > 0 {
            assert blocks[..i] == [blocks[0]] + blocks[1..][..i - 1];
          }
        }
      }
    }
  }

  // ------------------------------------------------------------------ what the head manager hears

  /** The blocks the head manager is told of, in order. */
  function Told(events: seq<Event>): seq<BlockHash> {
    if events == [] then []
    else Told(events[..|events| - 1])
         + (if events[|events| - 1].TellHeadManager? then [events[|events| - 1].block] else [])
  }

  lemma {:induction false} ToldConcat(a: seq<Event>, b: seq<Event>)
    ensures Told(a + b) == Told(a) + Told(b)
    decreases |b|
  {
    if b == [] {
      assert a + b == a;
    } else {
      assert (a + b)[..|a + b| - 1] == a + b[..|b| - 1];
      ToldConcat(a, b[..|b| - 1]);
    }
  }

  lemma ToldOfBlock(s: Store, b: BlockHash, cache: Cache, r: HandleResult)
    ensures Told(BlockEvents(s, b, cache, r)) == if r.AppliedNow? then [b] else []
  {
    var asked := if AsksProtocol(s, b, cache) then [CallProtocol(b)] else [];
    var told := if r.AppliedNow? then [TellHeadManager(b)] else [];
    ToldConcat(asked, told);
  }

  /** The head manager hears exactly of the handled blocks that were not applied before, once
      each. */
  lemma {:induction false} ToldOfNewBlocks(s: Store, blocks: seq<BlockHash>, outcomes: seq<Outcome>, cache: Cache)
    requires |blocks| == |outcomes|
    ensures var run := RunBlocks(s, blocks, outcomes, cache);
            && NoDuplicates(Told(run.events))
            && (forall x :: x in Told(run.events) <==> x in blocks[..|run.results|] && x !in Applied(s.metas))
    decreases |blocks|
  {
    hide HandleBlock, Applied, BlockEvents, NoDuplicates, NextCache, Told;
    if blocks != [] {
      var b := blocks[0];
      var (t, r) := HandleBlock(s, b, cache, outcomes[0]);
      HandledIsApplied(s, b, cache, outcomes[0]);
      ToldOfBlock(s, b, cache, r);
      if r.Failed? {
        NoneTold();
      } else {
        var rest := RunBlocks(t, blocks[1..], outcomes[1..], NextCache(r));
        ToldOfNewBlocks(t, blocks[1..], outcomes[1..], NextCache(r));
        ToldConcat(BlockEvents(s, b, cache, r), rest.events);
        var k := |rest.results|;
        assert blocks[..k + 1] == [b] + blocks[1..][..k];
        OneMoreTold(b, r.AppliedNow?, Told(rest.events), blocks[1..][..k], Applied(s.metas), Applied(t.metas));
      }
    } else {
      NoneTold();
    }
  }

  lemma NoneTold()
    ensures NoDuplicates([]) && Told([]) == []
  {
  }

  lemma OneMoreTold(b: BlockHash, isNew: bool, told: seq<BlockHash>, handled: seq<BlockHash>, before: set<BlockHash>, after: set<BlockHash>)
    requires after == before + {b} && (isNew <==> b !in before)
    requires NoDuplicates(told) && forall x :: x in told <==> x in handled && x !in after
    ensures var all := (if isNew then [b] else []) + told;
            NoDuplicates(all) && forall x :: x in all <==> x in [b] + handled && x !in before
  {
  }

  /** A batch reports after its blocks, and reports no block to the head manager by the way. */
  lemma BlocksComeFirst(batch: Batch, run: BlocksRun)
    requires Ended(batch, run)
    ensures run.events <= BatchEvents(batch, run)
    ensures Told(BatchEvents(batch, run)) == Told(run.events)
  {
    hide Told, BlocksOf, ClosingEvents, FailureEvents, Release;
    NoNewsAtTheEnd(batch, run);
    if run.failure.None? {
      ToldConcat(run.events, ClosingEvents(batch, run));
    } else {
      var failure := FailureEvents(batch, BlocksOf(batch)[|run.results|]);
      var end := if Leaves(run) then Release(batch) else ClosingEvents(batch, run);
      NoNewsOfFailure(batch, BlocksOf(batch)[|run.results|]);
      ToldConcat(run.events, failure);
      ToldConcat(run.events + failure, end);
    }
  }

  lemma NoNewsOfFailure(batch: Batch, failed: BlockHash)
    ensures Told(FailureEvents(batch, failed)) == []
  {
    NoneToldIn(FailureEvents(batch, failed));
  }

  lemma NoNewsAtTheEnd(batch: Batch, run: BlocksRun)
    requires Ended(batch, run)
    ensures Told(Release(batch)) == [] && Told(ClosingEvents(batch, run)) == []
  {
    hide Told, BlocksOf, LastIsNew, LastHandled;
    NoneToldIn(Release(batch));
    NoneToldIn(ClosingEvents(batch, run));
  }

  lemma {:induction false} NoneToldIn(events: seq<Event>)
    requires forall e :: e in events ==> !e.TellHeadManager?
    ensures Told(events) == []
    decreases |events|
  {
    if events != [] {
      assert events[|events| - 1] in events;
      NoneToldIn(events[..|events| - 1]);
    }
  }

  // ------------------------------------------------------------------ where a batch stops

  /** The cache after some blocks were handled. */
  function CacheAfter(results: seq<HandleResult>, cache: Cache): Cache {
    if results == [] then cache else NextCache(results[|results| - 1])
  }

  /** After `before`, in which nothing failed, block `b` failed. */
  ghost predicate StopsAt(run: BlocksRun, before: BlocksRun, b: BlockHash, o: Outcome, cache: Cache) {
    && run.failure.Some? && before.failure.None? && before.results == run.results
    && HandleBlock(before.store, b, cache, o) == (run.store, Failed(run.failure.value))
    && run.events == before.events + When(AsksProtocol(before.store, b, cache), CallProtocol(b))
  }

  function Prepend(r: HandleResult, events: seq<Event>, run: BlocksRun): BlocksRun {
    BlocksRun(run.store, [r] + run.results, run.failure, events + run.events)
  }

  lemma StopsLater(r: HandleResult, events: seq<Event>, run: BlocksRun, before: BlocksRun, b: BlockHash, o: Outcome, cache: Cache)
    requires StopsAt(run, before, b, o, cache)
    ensures StopsAt(Prepend(r, events, run), Prepend(r, events, before), b, o, cache)
  {
    hide HandleBlock;
    var asked := When(AsksProtocol(before.store, b, cache), CallProtocol(b));
    assert events + (before.events + asked) == (events + before.events) + asked;
  }

  lemma CacheAfterOneMore(r: HandleResult, results: seq<HandleResult>, cache: Cache)
    ensures CacheAfter([r] + results, cache) == CacheAfter(results, NextCache(r))
  {
  }

  lemma RunStep(s: Store, blocks: seq<BlockHash>, outcomes: seq<Outcome>, cache: Cache)
    requires |blocks| == |outcomes| > 0
    ensures var (t, r) := HandleBlock(s, blocks[0], cache, outcomes[0]);
            var events := BlockEvents(s, blocks[0], cache, r);
            RunBlocks(s, blocks, outcomes, cache) ==
            if r.Failed? then BlocksRun(t, [], Some(r.error), events)
            else Prepend(r, events, RunBlocks(t, blocks[1..], outcomes[1..], NextCache(r)))
  {
  }

  lemma FailsAtOnce(s: Store, b: BlockHash, o: Outcome, cache: Cache)
    ensures var (t, r) := HandleBlock(s, b, cache, o);
            r.Failed? ==> StopsAt(BlocksRun(t, [], Some(r.error), BlockEvents(s, b, cache, r)),
                                  RunBlocks(s, [], [], cache), b, o, CacheAfter([], cache))
  {
    hide HandleBlock;
  }

  /** A batch that fails handles a prefix of its blocks, and then does to the next one exactly
      what it would do alone. */
  lemma {:induction false} FirstFailure(s: Store, blocks: seq<BlockHash>, outcomes: seq<Outcome>, cache: Cache)
    requires |blocks| == |outcomes| && RunBlocks(s, blocks, outcomes, cache).failure.Some?
    ensures var run := RunBlocks(s, blocks, outcomes, cache);
            var k := |run.results|;
            StopsAt(run, RunBlocks(s, blocks[..k], outcomes[..k], cache), blocks[k], outcomes[k], CacheAfter(run.results, cache))
    decreases |blocks|
  {
    hide HandleBlock, BlockEvents, NextCache, CacheAfter, RunBlocks, StopsAt;
    var run := RunBlocks(s, blocks, outcomes, cache);
    var k := |run.results|;
    RunStep(s, blocks, outcomes, cache);
    var (t, r) := HandleBlock(s, blocks[0], cache, outcomes[0]);
    if r.Failed? {
      FailsAtOnce(s, blocks[0], outcomes[0], cache);
    } else {
      var rest := RunBlocks(t, blocks[1..], outcomes[1..], NextCache(r));
      FirstFailure(t, blocks[1..], outcomes[1..], NextCache(r));
      CacheAfterOneMore(r, rest.results, cache);
      RunStep(s, blocks[..k], outcomes[..k], cache);
      assert blocks[..k][1..] == blocks[1..][..k - 1] && outcomes[..k][1..] == outcomes[1..][..k - 1];
      var before := RunBlocks(t, blocks[1..][..k - 1], outcomes[1..][..k - 1], NextCache(r));
      StopsLater(r, BlockEvents(s, blocks[0], cache, r), rest, before, blocks[k], outcomes[k], CacheAfter(run.results, cache));
    }
  }

  /** The worker leaves to get a new protocol runner exactly when the first block that was not
      handled was put to the protocol and rejected with a restart. */
  lemma LeavesIff(s: Store, blocks: seq<BlockHash>, outcomes: seq<Outcome>, cache: Cache)
    requires |blocks| == |outcomes|
    ensures var run := RunBlocks(s, blocks, outcomes, cache);
            var k := |run.results|;
            Leaves(run) <==>
            && k < |blocks| && outcomes[k] == Rejects(true)
            && AsksProtocol(RunBlocks(s, blocks[..k], outcomes[..k], cache).store, blocks[k], CacheAfter(run.results, cache))
  {
    hide RunBlocks;
    if RunBlocks(s, blocks, outcomes, cache).failure.Some? {
      FirstFailure(s, blocks, outcomes, cache);
    }
  }

  /** Why the first block that was not handled failed: it could not be prepared, or it was put to
      the protocol, which rejected it or lacked its context, or whose answer was not fully
      stored. */
  lemma WhyItFailed(s: Store, blocks: seq<BlockHash>, outcomes: seq<Outcome>, cache: Cache)
    requires |blocks| == |outcomes| && RunBlocks(s, blocks, outcomes, cache).failure.Some?
    ensures var run := RunBlocks(s, blocks, outcomes, cache);
            var k := |run.results|;
            var before := RunBlocks(s, blocks[..k], outcomes[..k], cache);
            match Prepare(before.store, blocks[k], CacheAfter(run.results, cache))
            case NotReady(e) => run.failure.value == e && run.store == before.store
            case Ready(request) =>
              && !request.meta.isApplied
              && match run.failure.value
                 case ProtocolService(restart) => outcomes[k] == Rejects(restart) && run.store == before.store
                 case MissingContext => outcomes[k] == ContextTimeout && run.store == before.store
                 case StorageFailure(e) => e == DbError && outcomes[k].Stops?
                 case Processing => false
  {
    hide RunBlocks, Prepare, StoreCut;
    FirstFailure(s, blocks, outcomes, cache);
  }

  /** For each block, the call and then the news. */
  function CallsAndNews(blocks: seq<BlockHash>): seq<Event> {
    if blocks == [] then [] else [CallProtocol(blocks[0]), TellHeadManager(blocks[0])] + CallsAndNews(blocks[1..])
  }

  lemma EventsOfHandled(s: Store, b: BlockHash, cache: Cache, o: Outcome)
    ensures var r := HandleBlock(s, b, cache, o).1;
            !r.Failed? ==> BlockEvents(s, b, cache, r) == CallsAndNews(if r.AppliedNow? then [b] else [])
  {
  }

  lemma {:induction false} CallsAndNewsConcat(a: seq<BlockHash>, b: seq<BlockHash>)
    requires |a| <= 1
    ensures CallsAndNews(a + b) == CallsAndNews(a) + CallsAndNews(b)
  {
    if a == [] {
      assert a + b == b;
    } else {
      assert (a + b)[1..] == b && CallsAndNews(a[1..]) == [];
    }
  }

  /** As long as nothing fails the protocol is called for exactly the blocks the head manager
      hears of, each call followed by the news. */
  lemma {:induction false} NewsFollowsCall(s: Store, blocks: seq<BlockHash>, outcomes: seq<Outcome>, cache: Cache)
    requires |blocks| == |outcomes|
    ensures var run := RunBlocks(s, blocks, outcomes, cache);
            run.failure.None? ==> run.events == CallsAndNews(Told(run.events))
    decreases |blocks|
  {
    hide HandleBlock, BlockEvents, CallsAndNews;
    if blocks == [] {
      assert CallsAndNews(Told([])) == [] by { NoNews(); }
    } else {
      var b := blocks[0];
      var (t, r) := HandleBlock(s, b, cache, outcomes[0]);
      if !r.Failed? {
        var rest := RunBlocks(t, blocks[1..], outcomes[1..], NextCache(r));
        NewsFollowsCall(t, blocks[1..], outcomes[1..], NextCache(r));
        EventsOfHandled(s, b, cache, outcomes[0]);
        ToldOfBlock(s, b, cache, r);
        ToldConcat(BlockEvents(s, b, cache, r), rest.events);
        CallsAndNewsConcat(if r.AppliedNow? then [b] else [], Told(rest.events));
      }
    }
  }

  lemma NoNews()
    ensures CallsAndNews([]) == [] && Told([]) == []
  {
  }

  // ------------------------------------------------------------------ a batch is a stretch of a run

  /** The steps of a node run that a batch amounts to. */
  function BatchSteps(blocks: seq<BlockHash>, outcomes: seq<Outcome>): seq<Step>
    requires |blocks| == |outcomes|
  {
    seq(|blocks|, i requires 0 <= i < |blocks| => Handle(blocks[i], outcomes[i], []))
  }

  /** The number of blocks a batch tries. */
  function Tried(run: BlocksRun): nat {
    |run.results| + (if run.failure.Some? then 1 else 0)
  }

  lemma HandleIsStep(n: Node, b: BlockHash, o: Outcome, chainId: ChainId)
    ensures var (t, r) := HandleBlock(n.store, b, n.cache, o);
            TakeStep(n, Handle(b, o, []), chainId) ==
            Node(t, NextCache(r), n.told + (if r.AppliedNow? then [b] else []))
  {
  }

  /** The store, and what the head manager was told, are those of a node run: so everything
      proved of node runs holds while batches are applied. */
  lemma {:induction false} BatchIsRun(c: Chain, n: Node, blocks: seq<BlockHash>, outcomes: seq<Outcome>, chainId: ChainId)
    requires c.Consistent() && |blocks| == |outcomes|
    ensures var run := RunBlocks(n.store, blocks, outcomes, n.cache);
            && Tried(run) <= |blocks|
            && var steps := BatchSteps(blocks[..Tried(run)], outcomes[..Tried(run)]);
               && Legal(c, steps)
               && Run(c, n, steps, chainId).store == run.store
               && Run(c, n, steps, chainId).told == n.told + Told(run.events)
    decreases |blocks|
  {
    hide HandleBlock, TakeStep, BlockEvents, Run, Legal, BatchSteps, Told;
    if blocks == [] {
      NothingTried(c, n, blocks, outcomes, chainId);
    } else {
      var b, o := blocks[0], outcomes[0];
      var (t, r) := HandleBlock(n.store, b, n.cache, o);
      var next := TakeStep(n, Handle(b, o, []), chainId);
      HandleIsStep(n, b, o, chainId);
      ToldOfBlock(n.store, b, n.cache, r);
      if r.Failed? {
        FirstTried(c, n, blocks, outcomes, 1, chainId);
        NothingTried(c, next, blocks[1..], outcomes[1..], chainId);
      } else {
        var rest := RunBlocks(t, blocks[1..], outcomes[1..], NextCache(r));
        BatchIsRun(c, next, blocks[1..], outcomes[1..], chainId);
        FirstTried(c, n, blocks, outcomes, Tried(rest) + 1, chainId);
        ToldConcat(BlockEvents(n.store, b, n.cache, r), rest.events);
      }
    }
  }

  lemma NothingTried(c: Chain, n: Node, blocks: seq<BlockHash>, outcomes: seq<Outcome>, chainId: ChainId)
    requires c.Consistent() && |blocks| == |outcomes|
    ensures Legal(c, BatchSteps(blocks[..0], outcomes[..0]))
    ensures Run(c, n, BatchSteps(blocks[..0], outcomes[..0]), chainId) == n && Told([]) == []
  {
  }

  lemma FirstTried(c: Chain, n: Node, blocks: seq<BlockHash>, outcomes: seq<Outcome>, k: nat, chainId: ChainId)
    requires c.Consistent() && 1 <= k <= |blocks| == |outcomes|
    ensures Legal(c, BatchSteps(blocks[..k], outcomes[..k]))
    ensures Legal(c, BatchSteps(blocks[1..][..k - 1], outcomes[1..][..k - 1]))
    ensures Run(c, n, BatchSteps(blocks[..k], outcomes[..k]), chainId) ==
            Run(c, TakeStep(n, Handle(blocks[0], outcomes[0], []), chainId),
                BatchSteps(blocks[1..][..k - 1], outcomes[1..][..k - 1]), chainId)
  {
    hide TakeStep;
    assert BatchSteps(blocks[..k], outcomes[..k])[1..] == BatchSteps(blocks[1..][..k - 1], outcomes[1..][..k - 1]);
  }
}
