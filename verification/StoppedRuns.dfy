/** What a stop between two writes does to lookups: exactly which stops are harmless, and how the
    others mislead blocks that are applied later. */
module StoppedRuns {
  import opened Numbers
  import opened Blocks
  import opened MetaMerge
  import opened PredecessorIndex
  import opened ApplyStore
  import opened NodeRuns
  import B = BlockStorage
  import M = BlockMetaStorage
  import H = HeaderArrival

  // ------------------------------------------------------------------ where slots come from

  /** Only blocks with additional data have slots, and each slot was built from slots that are
      there. */
  ghost predicate Grounded(c: Chain, s: Store)
    requires c.Consistent()
  {
    && AllSupported(c, s.slots)
    && forall k :: k in s.slots ==> k.blockHash in s.extra
  }

  lemma CutKeepsGrounded(c: Chain, s: Store, b: BlockHash, meta: Meta, r: ApplyBlockResponse, stage: nat)
    requires c.Consistent() && Sound(c, s.slots) && Grounded(c, s)
    requires b in s.blocks && b in c.headers && meta.predecessor == Some(c.Parent(b))
    ensures Grounded(c, StoreCut(s, b, meta, r, stage))
  {
    if stage >= 3 {
      StoreSupported(c, s.slots, b, SlotsAt(stage));
      StoreTouchesOnly(s.slots, b, meta.predecessor, SlotsAt(stage));
    }
  }

  lemma StepKeepsGrounded(c: Chain, n: Node, received: set<BlockHash>, step: Step, chainId: ChainId)
    requires c.Consistent() && Inv(c, n, received) && Grounded(c, n.store) && LegalStep(c, step)
    ensures Grounded(c, TakeStep(n, step, chainId).store)
  {
    hide StoreCut;
    if step.Handle? {
      var b, o := step.block, step.outcome;
      HandleCases(n, b, o, step.during, chainId);
      if AsksProtocol(n.store, b, n.cache) && (o.Succeeds? || o.Stops?) {
        AskedIsReady(c, n, received, b);
        CutKeepsGrounded(c, ReceiveAll(n.store, step.during, chainId), b, n.store.metas[b], o.response,
                         if o.Succeeds? then LAST_STAGE else StopStage(o.stage));
      }
    }
  }

  lemma {:induction false} RunKeepsGrounded(c: Chain, n: Node, received: set<BlockHash>, steps: seq<Step>, chainId: ChainId)
    requires c.Consistent() && Inv(c, n, received) && Grounded(c, n.store) && Legal(c, steps)
    ensures Grounded(c, Run(c, n, steps, chainId).store)
    decreases |steps|
  {
    hide Grounded, TakeStep;
    if steps != [] {
      assert LegalStep(c, steps[0]);
      StepKeepsInv(c, n, received, steps[0], chainId);
      StepKeepsGrounded(c, n, received, steps[0], chainId);
      RunKeepsGrounded(c, TakeStep(n, steps[0], chainId), received + ReceivedIn(steps[0]), steps[1..], chainId);
    }
  }

  // ------------------------------------------------------------------ right lookups

  /** Every lookup from a block with additional data, applied blocks among them, is the one-step
      walk. */
  ghost predicate LookupsRight(s: Store) {
    forall b: BlockHash, d: nat {:trigger M.Find(s.slots, b, d)} :: b in s.extra ==>
      M.Find(s.slots, b, d) == M.NaiveWalk(s.metas, b, d)
  }

  /** Which is the same as having every slot of every such block. */
  lemma RightIffCovered(c: Chain, n: Node, received: set<BlockHash>)
    requires c.Consistent() && Inv(c, n, received)
    ensures LookupsRight(n.store) <==> Covers(c, n.store.slots, n.store.extra.Keys)
  {
    var s := n.store;
    if Covers(c, s.slots, s.extra.Keys) {
      forall b: BlockHash, d: nat | b in s.extra ensures M.Find(s.slots, b, d) == M.NaiveWalk(s.metas, b, d) {
        NaiveWalkIsAncestor(c, n, received, b, d);
        M.FindExact(c, s.slots, s.extra.Keys, b, d);
      }
    }
    if LookupsRight(s) {
      forall b | b in s.extra ensures Complete(c, s.slots, b) {
        RightGivesComplete(c, n, received, b);
      }
    }
  }

  lemma RightGivesComplete(c: Chain, n: Node, received: set<BlockHash>, b: BlockHash)
    requires c.Consistent() && Inv(c, n, received) && LookupsRight(n.store) && b in n.store.extra
    ensures b in c.headers && Complete(c, n.store.slots, b)
  {
    forall i | 0 <= i < STORED_PREDECESSORS_SIZE ensures SlotPresent(c, n.store.slots, b, i) {
      NaiveWalkIsAncestor(c, n, received, b, Pow2(i));
      c.AncestorDepth(b, Pow2(i));
      if PredecessorKey(b, i) !in n.store.slots {
        M.MissingSlotFails(n.store.slots, b, i);
      }
    }
  }

  // ------------------------------------------------------------------ one stop

  /** A stop does no harm before the additional data is written, when the block had been stored
      that far before, or when no slot is missing. */
  predicate Harmless(s: Store, b: BlockHash, stage: nat)
    requires b in s.blocks
  {
    || stage < 2
    || b in s.extra
    || stage - 2 >= STORED_PREDECESSORS_SIZE
    || Pow2(stage - 2) > s.blocks[b].header.level
  }

  lemma CutSlotsOfStage(s: Store, b: BlockHash, meta: Meta, r: ApplyBlockResponse, stage: nat)
    requires b in s.blocks && stage < LAST_STAGE
    ensures var t := StoreCut(s, b, meta, r, stage);
            && t.slots == CutSlots(s.slots, b, meta.predecessor, SlotsAt(stage))
            && t.extra.Keys == s.extra.Keys + (if stage < 2 then {} else {b})
  {
  }

  /** From a state in which every lookup is right, a stop leaves every lookup right exactly when
      it is harmless. */
  lemma StopHarmlessIff(c: Chain, n: Node, received: set<BlockHash>, b: BlockHash, r: ApplyBlockResponse, stage: nat,
                        during: seq<Header>, chainId: ChainId)
    requires c.Consistent() && Inv(c, n, received) && Grounded(c, n.store) && LookupsRight(n.store)
    requires LegalStep(c, Handle(b, Stops(r, stage), during)) && AsksProtocol(n.store, b, n.cache)
    ensures b in n.store.blocks
    ensures LookupsRight(TakeStep(n, Handle(b, Stops(r, stage), during), chainId).store) <==>
            Harmless(n.store, b, StopStage(stage))
  {
    hide TakeStep, ReceiveAll, StoreCut, AsksProtocol, LookupsRight, Covers, CutSlots;
    var s, at := n.store, StopStage(stage);
    var after := TakeStep(n, Handle(b, Stops(r, stage), during), chainId);
    var k := SlotsAt(at);
    HandleCases(n, b, Stops(r, stage), during, chainId);
    AskedIsReady(c, n, received, b);
    RightIffCovered(c, n, received);
    HandleKeepsInv(c, n, received, b, Stops(r, stage), during, chainId);
    RightIffCovered(c, after, received + H.HashesOf(during));
    CutSlotsOfStage(ReceiveAll(s, during, chainId), b, s.metas[b], r, at);
    CutCoversIff(c, s.slots, s.extra.Keys, b, k);
    assert c.Depth(b) == s.blocks[b].header.level;
    if at < 2 {
      assert s.extra.Keys + {} == s.extra.Keys;
      CutNothing(s.slots, b, s.metas[b].predecessor);
    }
  }

  lemma CutNothing(slots: Slots, b: BlockHash, predecessor: Option<BlockHash>)
    ensures CutSlots(slots, b, predecessor, 0) == slots
  {
  }

  // ------------------------------------------------------------------ whole runs

  ghost predicate HarmlessStep(n: Node, step: Step) {
    step.Handle? && step.outcome.Stops? && AsksProtocol(n.store, step.block, n.cache) ==>
      Harmless(n.store, step.block, StopStage(step.outcome.stage))
  }

  /** Every stop of the run is harmless when it happens. */
  ghost predicate AlwaysHarmless(c: Chain, n: Node, steps: seq<Step>, chainId: ChainId)
    requires c.Consistent() && Legal(c, steps)
    decreases |steps|
  {
    steps != [] ==>
      assert LegalStep(c, steps[0]);
      assert forall i :: 0 <= i < |steps[1..]| ==> steps[1..][i] == steps[i + 1];
      && HarmlessStep(n, steps[0])
      && AlwaysHarmless(c, TakeStep(n, steps[0], chainId), steps[1..], chainId)
  }

  /** Every lookup is right in every state of the run. */
  ghost predicate AlwaysRight(c: Chain, n: Node, steps: seq<Step>, chainId: ChainId)
    requires c.Consistent() && Legal(c, steps)
    decreases |steps|
  {
    && LookupsRight(n.store)
    && (steps != [] ==>
          assert LegalStep(c, steps[0]);
          assert forall i :: 0 <= i < |steps[1..]| ==> steps[1..][i] == steps[i + 1];
          AlwaysRight(c, TakeStep(n, steps[0], chainId), steps[1..], chainId))
  }

  /** One step from a state with right lookups. */
  lemma StepRightIff(c: Chain, n: Node, received: set<BlockHash>, step: Step, chainId: ChainId)
    requires c.Consistent() && Inv(c, n, received) && Grounded(c, n.store) && LookupsRight(n.store) && LegalStep(c, step)
    ensures LookupsRight(TakeStep(n, step, chainId).store) <==> HarmlessStep(n, step)
  {
    hide TakeStep, LookupsRight, AsksProtocol;
    if step.Handle? && step.outcome.Stops? && AsksProtocol(n.store, step.block, n.cache) {
      StopHarmlessIff(c, n, received, step.block, step.outcome.response, step.outcome.stage, step.during, chainId);
    } else {
      OtherStepsKeepRight(c, n, received, step, chainId);
    }
  }

  lemma OtherStepsKeepRight(c: Chain, n: Node, received: set<BlockHash>, step: Step, chainId: ChainId)
    requires c.Consistent() && Inv(c, n, received) && LookupsRight(n.store) && LegalStep(c, step)
    requires !(step.Handle? && step.outcome.Stops? && AsksProtocol(n.store, step.block, n.cache))
    ensures LookupsRight(TakeStep(n, step, chainId).store)
  {
    hide LookupsRight, Covers, StoreCut, AsksProtocol;
    var after := TakeStep(n, step, chainId);
    RightIffCovered(c, n, received);
    StepKeepsInv(c, n, received, step, chainId);
    RightIffCovered(c, after, received + ReceivedIn(step));
    if step.Handle? {
      HandleCases(n, step.block, step.outcome, step.during, chainId);
      if AsksProtocol(n.store, step.block, n.cache) && step.outcome.Succeeds? {
        AskedIsReady(c, n, received, step.block);
        FullStoreParts(ReceiveAll(n.store, step.during, chainId), step.block, n.store.metas[step.block], step.outcome.response);
        StoreExtendsCover(c, n.store.slots, n.store.extra.Keys, step.block);
      }
    }
  }

  lemma FullStoreParts(s: Store, b: BlockHash, meta: Meta, r: ApplyBlockResponse)
    requires b in s.blocks
    ensures var t := StoreCut(s, b, meta, r, LAST_STAGE);
            && t.slots == StoreSlots(s.slots, b, meta.predecessor, STORED_PREDECESSORS_SIZE)
            && t.extra.Keys == s.extra.Keys + {b}
  {
  }

  lemma {:induction false} AlwaysRightIff(c: Chain, n: Node, received: set<BlockHash>, steps: seq<Step>, chainId: ChainId)
    requires c.Consistent() && Inv(c, n, received) && Grounded(c, n.store) && LookupsRight(n.store) && Legal(c, steps)
    ensures AlwaysRight(c, n, steps, chainId) <==> AlwaysHarmless(c, n, steps, chainId)
    decreases |steps|
  {
    hide TakeStep, LookupsRight, Grounded, Inv, HarmlessStep;
    if steps != [] {
      assert LegalStep(c, steps[0]);
      var next := TakeStep(n, steps[0], chainId);
      StepRightIff(c, n, received, steps[0], chainId);
      StepKeepsInv(c, n, received, steps[0], chainId);
      StepKeepsGrounded(c, n, received, steps[0], chainId);
      if LookupsRight(next.store) {
        AlwaysRightIff(c, next, received + ReceivedIn(steps[0]), steps[1..], chainId);
      }
    }
  }

  lemma FreshIsRight(c: Chain, chainId: ChainId, json: B.JsonData, data: AdditionalData)
    requires c.Consistent()
    ensures var n := Fresh(c, chainId, json, data);
            Inv(c, n, {}) && Grounded(c, n.store) && LookupsRight(n.store)
  {
    var n := Fresh(c, chainId, json, data);
    FreshInv(c, chainId, json, data);
    FreshCover(c, chainId, json, data);
    assert n.store.extra.Keys == {c.genesis} == Applied(n.store.metas);
    RightIffCovered(c, n, {});
  }

  /** The exact condition for whole runs: every lookup from every block with additional data is
      right in every state of a run exactly when every stop in it is harmless. */
  lemma RightThroughoutIff(c: Chain, steps: seq<Step>, chainId: ChainId, json: B.JsonData, data: AdditionalData)
    requires c.Consistent() && Legal(c, steps)
    ensures AlwaysRight(c, Fresh(c, chainId, json, data), steps, chainId) <==>
            AlwaysHarmless(c, Fresh(c, chainId, json, data), steps, chainId)
  {
    FreshIsRight(c, chainId, json, data);
    AlwaysRightIff(c, Fresh(c, chainId, json, data), {}, steps, chainId);
  }

  // ------------------------------------------------------------------ how a harmful stop misleads

  lemma {:induction false} RunAppend(c: Chain, n: Node, steps: seq<Step>, more: seq<Step>, chainId: ChainId)
    requires c.Consistent() && Legal(c, steps) && Legal(c, more)
    ensures Legal(c, steps + more)
    ensures Run(c, n, steps + more, chainId) == Run(c, Run(c, n, steps, chainId), more, chainId)
    decreases |steps|
  {
    hide TakeStep;
    if steps == [] {
      assert steps + more == more;
    } else {
      assert LegalStep(c, steps[0]);
      assert (steps + more)[1..] == steps[1..] + more;
      RunAppend(c, TakeStep(n, steps[0], chainId), steps[1..], more, chainId);
    }
  }

  /** The header of a block arrives and the block is handled. */
  function Visit(c: Chain, x: BlockHash, o: Outcome): seq<Step>
    requires x in c.headers
  {
    [Receive(c.headers[x]), Handle(x, o, [])]
  }

  lemma VisitIsTwoSteps(c: Chain, n: Node, x: BlockHash, o: Outcome, chainId: ChainId)
    requires c.Consistent() && x in c.headers
    ensures Legal(c, Visit(c, x, o)) && LegalStep(c, Receive(c.headers[x])) && LegalStep(c, Handle(x, o, []))
    ensures Run(c, n, Visit(c, x, o), chainId) ==
            TakeStep(TakeStep(n, Receive(c.headers[x]), chainId), Handle(x, o, []), chainId)
  {
    hide TakeStep;
    assert c.Linked(x);
    assert H.IsHeaderOf(c, c.headers[x]) && c.Depth(x) == c.headers[x].level;
    var steps := Visit(c, x, o);
    assert steps[1..] == [Handle(x, o, [])] && [Handle(x, o, [])][1..] == [];
    var mid := TakeStep(n, steps[0], chainId);
    assert Run(c, mid, [Handle(x, o, [])], chainId) == Run(c, TakeStep(mid, Handle(x, o, []), chainId), [], chainId);
  }

  /** Once its parent has additional data, a block that arrives is asked for unless it is applied. */
  lemma ArrivedIsAsked(c: Chain, n: Node, received: set<BlockHash>, x: BlockHash, chainId: ChainId)
    requires c.Consistent() && Inv(c, n, received) && x in c.headers && x != c.genesis && c.Parent(x) in n.store.extra
    ensures LegalStep(c, Receive(c.headers[x]))
    ensures var mid := TakeStep(n, Receive(c.headers[x]), chainId);
            && Inv(c, mid, received + {x})
            && mid.store.slots == n.store.slots && mid.store.extra == n.store.extra
            && Applied(mid.store.metas) == Applied(n.store.metas)
            && (AsksProtocol(mid.store, x, mid.cache) <==> x !in Applied(n.store.metas))
  {
    assert c.Linked(x);
    assert H.IsHeaderOf(c, c.headers[x]) && c.Depth(x) == c.headers[x].level;
    ReceiveKeepsInv(c, n, received, c.headers[x], chainId);
    var mid := TakeStep(n, Receive(c.headers[x]), chainId);
    assert H.LinkEntry(c, mid.store.metas, received + {x}, true, x);
    CacheChangesNothing(mid, x, ContextTimeout);
  }

  /** A visit that succeeds stores the block in full. */
  lemma VisitApplies(c: Chain, n: Node, received: set<BlockHash>, x: BlockHash, r: ApplyBlockResponse, chainId: ChainId)
    requires c.Consistent() && Inv(c, n, received) && x in c.headers && x != c.genesis && c.Parent(x) in n.store.extra
    requires x !in Applied(n.store.metas)
    ensures Legal(c, Visit(c, x, Succeeds(r)))
    ensures var t := Run(c, n, Visit(c, x, Succeeds(r)), chainId).store;
            && Applied(t.metas) == Applied(n.store.metas) + {x}
            && t.extra.Keys == n.store.extra.Keys + {x}
            && t.slots == StoreSlots(n.store.slots, x, Some(c.Parent(x)), STORED_PREDECESSORS_SIZE)
  {
    hide StoreCut, AsksProtocol;
    VisitIsTwoSteps(c, n, x, Succeeds(r), chainId);
    ArrivedIsAsked(c, n, received, x, chainId);
    var mid := TakeStep(n, Receive(c.headers[x]), chainId);
    HandleCases(mid, x, Succeeds(r), [], chainId);
    AskedIsReady(c, mid, received + {x}, x);
    StoreMarksApplied(c, mid, received + {x}, x, mid.store.metas[x], r);
    FullStoreParts(mid.store, x, mid.store.metas[x], r);
  }

  /** A visit that stops after `k` slots writes exactly the slots below `k`. */
  lemma VisitStops(c: Chain, n: Node, received: set<BlockHash>, x: BlockHash, k: nat, r: ApplyBlockResponse, chainId: ChainId)
    requires c.Consistent() && Inv(c, n, received) && x in c.headers && x != c.genesis && c.Parent(x) in n.store.extra
    requires x !in Applied(n.store.metas) && k < STORED_PREDECESSORS_SIZE
    ensures Legal(c, Visit(c, x, Stops(r, k + 2)))
    ensures var t := Run(c, n, Visit(c, x, Stops(r, k + 2)), chainId).store;
            && Applied(t.metas) == Applied(n.store.metas)
            && t.extra.Keys == n.store.extra.Keys + {x}
            && t.slots == CutSlots(n.store.slots, x, Some(c.Parent(x)), k)
  {
    hide StoreCut, AsksProtocol, CutSlots;
    VisitIsTwoSteps(c, n, x, Stops(r, k + 2), chainId);
    ArrivedIsAsked(c, n, received, x, chainId);
    var mid := TakeStep(n, Receive(c.headers[x]), chainId);
    HandleCases(mid, x, Stops(r, k + 2), [], chainId);
    AskedIsReady(c, mid, received + {x}, x);
    CutSlotsOfStage(mid.store, x, mid.store.metas[x], r, k + 2);
    CutKeepsInv(c, mid, received + {x}, x, mid.store.metas[x], r, k + 2);
  }

  /** `b` is stopped after `k` slots and the blocks above it, up to `x`, are applied. */
  ghost function Ascent(c: Chain, r: ApplyBlockResponse, b: BlockHash, k: nat, x: BlockHash, up: nat): seq<Step>
    requires c.Consistent() && b in c.headers && x in c.headers
    decreases up
  {
    if up == 0 then Visit(c, b, Stops(r, k + 2))
    else Ascent(c, r, b, k, c.Parent(x), up - 1) + Visit(c, x, Succeeds(r))
  }

  /** None of the blocks from `x` down `up` steps is applied. */
  ghost predicate Unapplied(c: Chain, applied: set<BlockHash>, x: BlockHash, up: nat)
    requires c.Consistent() && x in c.headers
    decreases up
  {
    x !in applied && (up > 0 ==> Unapplied(c, applied, c.Parent(x), up - 1))
  }

  /** The state before: `b` sits on a block with complete ancestors and has no slots yet. */
  ghost predicate BeforeAscent(c: Chain, n: Node, received: set<BlockHash>, done: set<BlockHash>, b: BlockHash, k: nat, x: BlockHash, up: nat)
    requires c.Consistent()
  {
    && Inv(c, n, received) && Grounded(c, n.store) && Covers(c, n.store.slots, done)
    && b in c.headers && b != c.genesis && c.Parent(b) in done && c.Parent(b) in n.store.extra
    && (forall i: nat :: PredecessorKey(b, i) !in n.store.slots)
    && k < STORED_PREDECESSORS_SIZE && Pow2(k) <= c.Depth(b) && up <= Pow2(k)
    && x in c.headers && c.Ancestor(x, up) == Some(b) && Unapplied(c, Applied(n.store.metas), x, up)
  }

  /** The state after. */
  ghost predicate AfterAscent(c: Chain, n: Node, t: Store, done: set<BlockHash>, b: BlockHash, k: nat, x: BlockHash, up: nat)
    requires c.Consistent() && b in c.headers && x in c.headers
  {
    && x in t.extra && (up > 0 ==> x in Applied(t.metas))
    && (forall y :: y in Applied(t.metas) ==> y in Applied(n.store.metas) || (y in c.headers && c.Depth(y) <= c.Depth(x)))
    && Covers(c, t.slots, done) && SlotsBelow(c, t.slots, b, k) && PredecessorKey(b, k) !in t.slots
    && (up < Pow2(k) ==> ChainComplete(c, t.slots, x, up))
  }

  lemma {:induction false} AscentState(c: Chain, n: Node, received: set<BlockHash>, done: set<BlockHash>, r: ApplyBlockResponse,
                                       b: BlockHash, k: nat, x: BlockHash, up: nat, chainId: ChainId)
    requires c.Consistent() && BeforeAscent(c, n, received, done, b, k, x, up)
    ensures Legal(c, Ascent(c, r, b, k, x, up))
    ensures AfterAscent(c, n, Run(c, n, Ascent(c, r, b, k, x, up), chainId).store, done, b, k, x, up)
    decreases up
  {
    hide Run, Legal, Visit, BeforeAscent, AfterAscent;
    if up == 0 {
      AscentStart(c, n, received, done, r, b, k, x, chainId);
    } else {
      OneDown(c, n, received, done, b, k, x, up);
      var front, last := Ascent(c, r, b, k, c.Parent(x), up - 1), Visit(c, x, Succeeds(r));
      AscentState(c, n, received, done, r, b, k, c.Parent(x), up - 1, chainId);
      RunKeepsInv(c, n, received, front, chainId);
      AscentStep(c, n, received, done, r, b, k, x, up, Run(c, n, front, chainId), received + ReceivedBy(front), chainId);
      RunAppend(c, n, front, last, chainId);
    }
  }

  lemma OneDown(c: Chain, n: Node, received: set<BlockHash>, done: set<BlockHash>, b: BlockHash, k: nat, x: BlockHash, up: nat)
    requires c.Consistent() && BeforeAscent(c, n, received, done, b, k, x, up) && up >= 1
    ensures Inv(c, n, received) && b in c.headers && x in c.headers && x != c.genesis
    ensures BeforeAscent(c, n, received, done, b, k, c.Parent(x), up - 1)
  {
    hide Inv, Grounded, Covers, Applied;
  }

  lemma AscentStart(c: Chain, n: Node, received: set<BlockHash>, done: set<BlockHash>, r: ApplyBlockResponse,
                    b: BlockHash, k: nat, x: BlockHash, chainId: ChainId)
    requires c.Consistent() && BeforeAscent(c, n, received, done, b, k, x, 0)
    ensures x == b && Legal(c, Visit(c, b, Stops(r, k + 2)))
    ensures AfterAscent(c, n, Run(c, n, Visit(c, b, Stops(r, k + 2)), chainId).store, done, b, k, x, 0)
  {
    hide Run, Visit, Legal, CutSlots, Grounded, Applied, Covers, SlotsBelow;
    VisitStops(c, n, received, b, k, r, chainId);
    CutIsPartial(c, n.store.slots, done, b, k);
  }

  /** One more block is applied on top. */
  lemma AscentStep(c: Chain, n: Node, received: set<BlockHash>, done: set<BlockHash>, r: ApplyBlockResponse,
                   b: BlockHash, k: nat, x: BlockHash, up: nat, mid: Node, now: set<BlockHash>, chainId: ChainId)
    requires c.Consistent() && BeforeAscent(c, n, received, done, b, k, x, up) && up >= 1 && x != c.genesis
    requires Inv(c, mid, now) && AfterAscent(c, n, mid.store, done, b, k, c.Parent(x), up - 1)
    ensures Legal(c, Visit(c, x, Succeeds(r)))
    ensures AfterAscent(c, n, Run(c, mid, Visit(c, x, Succeeds(r)), chainId).store, done, b, k, x, up)
  {
    hide Run, Visit, Legal, StoreSlots, Grounded, Applied, Covers, SlotsBelow, ChainComplete;
    VisitApplies(c, mid, now, x, r, chainId);
    StoreAbove(c, mid.store.slots, done, b, k, x, up);
  }

  lemma CutIsPartial(c: Chain, slots: Slots, done: set<BlockHash>, b: BlockHash, k: nat)
    requires c.Consistent() && Sound(c, slots) && Covers(c, slots, done)
    requires b in c.headers && b != c.genesis && c.Parent(b) in done
    requires forall i: nat :: PredecessorKey(b, i) !in slots
    requires k < STORED_PREDECESSORS_SIZE && Pow2(k) <= c.Depth(b)
    ensures var t := CutSlots(slots, b, Some(c.Parent(b)), k);
            && Covers(c, t, done) && SlotsBelow(c, t, b, k) && PredecessorKey(b, k) !in t
  {
    hide CutSlots;
    var t := CutSlots(slots, b, Some(c.Parent(b)), k);
    assert slots.Keys <= t.Keys by {
      CutNothing(slots, b, Some(c.Parent(b)));
      CutGrows(slots, b, Some(c.Parent(b)), k);
    }
    CoverGrows(c, slots, t, done);
    CutSlotsPresent(c, slots, done, b, k, k);
    forall j: nat | j < k ensures SlotPresent(c, t, b, j) {
      Pow2Monotone(j, k);
      CutSlotsPresent(c, slots, done, b, k, j);
    }
  }

  lemma CutGrows(slots: Slots, b: BlockHash, predecessor: Option<BlockHash>, k: nat)
    ensures slots.Keys <= CutSlots(slots, b, predecessor, k).Keys
  {
    StoreTouchesOnly(slots, b, predecessor, k);
  }

  /** Storing `x` in full leaves `b` as it is. */
  lemma StoreAbove(c: Chain, slots: Slots, done: set<BlockHash>, b: BlockHash, k: nat, x: BlockHash, up: nat)
    requires c.Consistent() && Sound(c, slots) && Covers(c, slots, done)
    requires b in c.headers && b != c.genesis && c.Parent(b) in done && SlotsBelow(c, slots, b, k) && PredecessorKey(b, k) !in slots
    requires x in c.headers && up >= 1 && c.Ancestor(x, up) == Some(b)
    requires up < Pow2(k) ==> ChainComplete(c, slots, c.Parent(x), up - 1)
    ensures var t := StoreSlots(slots, x, Some(c.Parent(x)), STORED_PREDECESSORS_SIZE);
            && Covers(c, t, done) && SlotsBelow(c, t, b, k) && PredecessorKey(b, k) !in t
            && (up < Pow2(k) ==> ChainComplete(c, t, x, up))
  {
    hide StoreSlots;
    c.AncestorDepth(x, up);
    var t := StoreSlots(slots, x, Some(c.Parent(x)), STORED_PREDECESSORS_SIZE);
    StoreTouchesOnly(slots, x, Some(c.Parent(x)), STORED_PREDECESSORS_SIZE);
    CoverGrows(c, slots, t, done);
    forall j: nat | j < k ensures SlotPresent(c, t, b, j) {
      assert SlotPresent(c, slots, b, j);
    }
    if up < Pow2(k) {
      NearComplete(c, slots, done, b, k, x, up);
    }
  }

  /** After a block was stopped with slot `k` missing, the blocks applied above it look up
      everything correctly up to distance 2^k, and the first one misled is the one at exactly that
      distance. */
  lemma FirstMisledIff(c: Chain, n: Node, received: set<BlockHash>, done: set<BlockHash>, r: ApplyBlockResponse,
                       b: BlockHash, k: nat, x: BlockHash, up: nat, chainId: ChainId)
    requires c.Consistent() && BeforeAscent(c, n, received, done, b, k, x, up) && up >= 1
    ensures Legal(c, Ascent(c, r, b, k, x, up))
    ensures var t := Run(c, n, Ascent(c, r, b, k, x, up), chainId).store;
            && x in Applied(t.metas)
            && ((forall d: nat :: M.Find(t.slots, x, d) == M.NaiveWalk(t.metas, x, d)) <==> up < Pow2(k))
            && (up == Pow2(k) ==> M.Find(t.slots, x, Pow2(k + 1)) == None && M.NaiveWalk(t.metas, x, Pow2(k + 1)).Some?)
  {
    hide Run, TakeStep, Ascent;
    AscentState(c, n, received, done, r, b, k, x, up, chainId);
    var steps := Ascent(c, r, b, k, x, up);
    RunKeepsInv(c, n, received, steps, chainId);
    RunKeepsGrounded(c, n, received, steps, chainId);
    var t := Run(c, n, steps, chainId);
    forall d: nat ensures M.NaiveWalk(t.store.metas, x, d) == c.Ancestor(x, d) {
      NaiveWalkIsAncestor(c, t, received + ReceivedBy(steps), x, d);
    }
    if up < Pow2(k) {
      forall d: nat ensures M.Find(t.store.slots, x, d) == c.Ancestor(x, d) {
        M.FindNear(c, t.store.slots, done, b, k, x, up, d);
      }
    } else {
      M.MissingSlotMisleads(c, t.store.slots, b, k, x);
    }
  }

  // ------------------------------------------------------------------ from a committed genesis

  /** What is fixed about a run that starts with a committed genesis. */
  datatype Setting = Setting(chainId: ChainId, json: B.JsonData, data: AdditionalData, response: ApplyBlockResponse)

  ghost function RunFresh(c: Chain, e: Setting, steps: seq<Step>): Node
    requires c.Consistent() && Legal(c, steps)
  {
    Run(c, Fresh(c, e.chainId, e.json, e.data), steps, e.chainId)
  }

  lemma RunFreshKeeps(c: Chain, e: Setting, steps: seq<Step>)
    requires c.Consistent() && Legal(c, steps)
    ensures Inv(c, RunFresh(c, e, steps), {} + ReceivedBy(steps)) && Grounded(c, RunFresh(c, e, steps).store)
  {
    var start := Fresh(c, e.chainId, e.json, e.data);
    FreshIsRight(c, e.chainId, e.json, e.data);
    RunKeepsInv(c, start, {}, steps, e.chainId);
    RunKeepsGrounded(c, start, {}, steps, e.chainId);
  }

  ghost predicate AllSucceed(steps: seq<Step>) {
    forall i :: 0 <= i < |steps| && steps[i].Handle? ==> steps[i].outcome.Succeeds?
  }

  /** A run that applies a block and everything below it, and nothing else. */
  lemma {:induction false} ApplyAll(c: Chain, e: Setting, x: BlockHash) returns (steps: seq<Step>)
    requires c.Consistent() && x in c.headers
    ensures Legal(c, steps) && AllSucceed(steps)
    ensures var s := RunFresh(c, e, steps).store;
            x in s.extra && forall y :: y in s.extra ==> y in c.headers && c.Depth(y) <= c.Depth(x)
    decreases c.Depth(x)
  {
    hide TakeStep, Grounded;
    if x == c.genesis {
      steps := [];
    } else {
      var front := ApplyAll(c, e, c.Parent(x));
      RunFreshKeeps(c, e, front);
      var n := RunFresh(c, e, front);
      assert x in Applied(n.store.metas) ==> HasResult(c, n.store, x);
      VisitApplies(c, n, {} + ReceivedBy(front), x, e.response, e.chainId);
      RunAppend(c, Fresh(c, e.chainId, e.json, e.data), front, Visit(c, x, Succeeds(e.response)), e.chainId);
      steps := front + Visit(c, x, Succeeds(e.response));
    }
  }

  lemma SuccessCovers(c: Chain, e: Setting, steps: seq<Step>)
    requires c.Consistent() && Legal(c, steps) && AllSucceed(steps)
    ensures var s := RunFresh(c, e, steps).store; Covers(c, s.slots, s.extra.Keys)
  {
    var start := Fresh(c, e.chainId, e.json, e.data);
    FreshIsRight(c, e.chainId, e.json, e.data);
    FreshCover(c, e.chainId, e.json, e.data);
    assert start.store.extra.Keys == {c.genesis} == Applied(start.store.metas);
    NoStopsOnAppliedParent(c, start, {}, steps, e.chainId);
    RunKeepsCover(c, start, {}, steps, e.chainId);
  }

  lemma {:induction false} UnappliedAbove(c: Chain, applied: set<BlockHash>, x: BlockHash, up: nat, depth: nat)
    requires c.Consistent() && x in c.headers && c.Depth(x) == depth + up
    requires forall y :: y in applied ==> y in c.headers && c.Depth(y) < depth
    ensures Unapplied(c, applied, x, up)
    decreases up
  {
    if up > 0 {
      UnappliedAbove(c, applied, c.Parent(x), up - 1, depth);
    }
  }

  lemma ReadyToAscend(c: Chain, e: Setting, front: seq<Step>, b: BlockHash, k: nat, x: BlockHash, up: nat)
    requires c.Consistent() && b in c.headers && x in c.headers && c.Ancestor(x, up) == Some(b)
    requires k < STORED_PREDECESSORS_SIZE && Pow2(k) <= c.Depth(b) && up <= Pow2(k)
    requires Legal(c, front) && AllSucceed(front)
    requires var s := RunFresh(c, e, front).store;
             c.Parent(b) in s.extra && forall y :: y in s.extra ==> y in c.headers && c.Depth(y) < c.Depth(b)
    ensures var n := RunFresh(c, e, front);
            BeforeAscent(c, n, {} + ReceivedBy(front), n.store.extra.Keys, b, k, x, up)
  {
    hide Run, TakeStep;
    RunFreshKeeps(c, e, front);
    SuccessCovers(c, e, front);
    var n := RunFresh(c, e, front);
    forall y | y in Applied(n.store.metas) ensures y in c.headers && c.Depth(y) < c.Depth(b) {
      assert HasResult(c, n.store, y);
    }
    c.AncestorDepth(x, up);
    UnappliedAbove(c, Applied(n.store.metas), x, up, c.Depth(b));
  }

  /** Every harmful stop misleads: for every block `b`, every `k` such that slot `k` of `b` is due
      and every block `x` at distance 2^k above, everything below `b` applied, `b` stopped after
      `k` slots and the blocks up to `x` applied gives a lookup from `x` that misses an ancestor. */
  lemma HarmfulStopMisleads(c: Chain, e: Setting, b: BlockHash, k: nat, x: BlockHash) returns (steps: seq<Step>)
    requires c.Consistent() && b in c.headers && x in c.headers && c.Ancestor(x, Pow2(k)) == Some(b)
    requires k < STORED_PREDECESSORS_SIZE && Pow2(k) <= c.Depth(b)
    ensures Legal(c, steps)
    ensures exists front: seq<Step> :: AllSucceed(front) && steps == front + Ascent(c, e.response, b, k, x, Pow2(k))
    ensures var s := RunFresh(c, e, steps).store;
            && x in Applied(s.metas)
            && M.Find(s.slots, x, Pow2(k + 1)) == None
            && M.NaiveWalk(s.metas, x, Pow2(k + 1)).Some?
  {
    hide Run, TakeStep, Ascent, AllSucceed;
    var front := ApplyAll(c, e, c.Parent(b));
    ReadyToAscend(c, e, front, b, k, x, Pow2(k));
    var n := RunFresh(c, e, front);
    FirstMisledIff(c, n, {} + ReceivedBy(front), n.store.extra.Keys, e.response, b, k, x, Pow2(k), e.chainId);
    var last := Ascent(c, e.response, b, k, x, Pow2(k));
    RunAppend(c, Fresh(c, e.chainId, e.json, e.data), front, last, e.chainId);
    steps := front + last;
  }

  /** For instance a block stopped after one slot does not mislead its child but its grandchild:
      the lookup of the block four below finds nothing. */
  lemma GrandchildMisled(c: Chain, e: Setting, x: BlockHash) returns (steps: seq<Step>)
    requires c.Consistent() && x in c.headers && c.Depth(x) >= 4
    ensures Legal(c, steps)
    ensures exists front: seq<Step> :: AllSucceed(front) && steps == front + Ascent(c, e.response, c.Parent(c.Parent(x)), 1, x, 2)
    ensures var s := RunFresh(c, e, steps).store;
            x in Applied(s.metas) && M.Find(s.slots, x, 4) == None && M.NaiveWalk(s.metas, x, 4).Some?
  {
    var b := c.Parent(c.Parent(x));
    assert c.Ancestor(x, 2) == c.Ancestor(c.Parent(x), 1) == c.Ancestor(b, 0);
    assert Pow2(1) == 2 && Pow2(2) == 4;
    steps := HarmfulStopMisleads(c, e, b, 1, x);
  }

  // ------------------------------------------------------------------ the first child

  /** Of the child alone: its lookups are right exactly when at least one slot of its parent had
      been written, whatever other blocks were stopped. */
  lemma ChildMisledIff(c: Chain, n: Node, received: set<BlockHash>, parent: BlockHash, child: BlockHash,
                       r: ApplyBlockResponse, r': ApplyBlockResponse, stage: nat, chainId: ChainId)
    requires c.Consistent() && parent in n.store.metas && ReadyToStore(c, n, received, parent, n.store.metas[parent])
    requires Covers(c, n.store.slots, Applied(n.store.metas)) && c.Parent(parent) in Applied(n.store.metas)
    requires child in n.store.blocks && child in n.store.metas && child in c.headers
    requires c.Parent(child) == parent && !n.store.metas[child].isApplied
    requires forall i :: PredecessorKey(parent, i) !in n.store.slots && PredecessorKey(child, i) !in n.store.slots
    requires 2 <= stage < LAST_STAGE
    ensures var stopped := TakeStep(n, Handle(parent, Stops(r, stage), []), chainId);
            var after := TakeStep(stopped, Handle(child, Succeeds(r'), []), chainId);
            && child in Applied(after.store.metas)
            && ((forall d: nat :: M.Find(after.store.slots, child, d) == M.NaiveWalk(after.store.metas, child, d))
                <==> stage >= 3)
  {
    hide TakeStep;
    var s := n.store;
    var stopped := TakeStep(n, Handle(parent, Stops(r, stage), []), chainId);
    var after := TakeStep(stopped, Handle(child, Succeeds(r'), []), chainId);
    StoppedThenApplied(c, n, received, parent, child, r, r', stage, chainId);
    forall d: nat ensures M.NaiveWalk(after.store.metas, child, d) == c.Ancestor(child, d) {
      NaiveWalkIsAncestor(c, after, received, child, d);
    }
    if stage >= 3 {
      forall d: nat ensures M.Find(after.store.slots, child, d) == c.Ancestor(child, d) {
        ChildLookupRight(c, s.slots, Applied(s.metas), parent, child, stage - 2, d);
      }
    } else {
      ChildLookupWrong(c, s.slots, parent, child);
    }
  }

  lemma StoppedThenApplied(c: Chain, n: Node, received: set<BlockHash>, parent: BlockHash, child: BlockHash,
                           r: ApplyBlockResponse, r': ApplyBlockResponse, stage: nat, chainId: ChainId)
    requires c.Consistent() && parent in n.store.metas && ReadyToStore(c, n, received, parent, n.store.metas[parent])
    requires child in n.store.blocks && child in n.store.metas && child in c.headers
    requires c.Parent(child) == parent && !n.store.metas[child].isApplied
    requires 2 <= stage < LAST_STAGE
    ensures var stopped := TakeStep(n, Handle(parent, Stops(r, stage), []), chainId);
            var after := TakeStep(stopped, Handle(child, Succeeds(r'), []), chainId);
            && after.store.slots == StoreSlots(CutSlots(n.store.slots, parent, Some(c.Parent(parent)), stage - 2),
                                               child, Some(parent), STORED_PREDECESSORS_SIZE)
            && Inv(c, after, received)
            && child in after.store.extra
            && child in Applied(after.store.metas)
  {
    hide StoreCut, StoreSlots, CutSlots;
    var s := n.store;
    CacheCoherentAsks(c, n, received, parent);
    HandleCases(n, parent, Stops(r, stage), [], chainId);
    var stopped := TakeStep(n, Handle(parent, Stops(r, stage), []), chainId);
    CutKeepsInv(c, n, received, parent, s.metas[parent], r, stage);
    CutTouchesOnly(s, parent, s.metas[parent], r, stage);
    CutSlotsOfStage(s, parent, s.metas[parent], r, stage);
    CacheCoherentAsks(c, stopped, received, child);
    AskedIsReady(c, stopped, received, child);
    HandleCases(stopped, child, Succeeds(r'), [], chainId);
    StoreKeepsInv(c, stopped, received, child, stopped.store.metas[child], r');
    FullStoreParts(stopped.store, child, stopped.store.metas[child], r');
  }

  lemma CacheCoherentAsks(c: Chain, n: Node, received: set<BlockHash>, b: BlockHash)
    requires c.Consistent() && Inv(c, n, received)
    requires b in n.store.blocks && b in n.store.metas && b in c.headers && !n.store.metas[b].isApplied
    requires c.Parent(b) in n.store.extra
    ensures AsksProtocol(n.store, b, n.cache)
  {
    CacheChangesNothing(n, b, ContextTimeout);
  }

  lemma ChildLookupWrong(c: Chain, slots: Slots, parent: BlockHash, child: BlockHash)
    requires c.Consistent() && child in c.headers && child != c.genesis && c.Parent(child) == parent && parent != c.genesis
    requires forall i :: PredecessorKey(parent, i) !in slots && PredecessorKey(child, i) !in slots
    ensures M.Find(StoreSlots(CutSlots(slots, parent, Some(c.Parent(parent)), 0), child, Some(parent), STORED_PREDECESSORS_SIZE), child, 2) == None
    ensures c.Ancestor(child, 2) == Some(c.Parent(parent))
  {
    M.HopOfPower(1);
    assert Pow2(1) == 2;
    assert c.Ancestor(child, 2) == c.Ancestor(parent, 1) == c.Ancestor(c.Parent(parent), 0);
  }

  lemma ChildLookupRight(c: Chain, slots: Slots, done: set<BlockHash>, parent: BlockHash, child: BlockHash, k: nat, d: nat)
    requires c.Consistent() && Sound(c, slots) && Covers(c, slots, done)
    requires child in c.headers && child != c.genesis && c.Parent(child) == parent && parent != c.genesis
    requires c.Parent(parent) in done && 1 <= k <= STORED_PREDECESSORS_SIZE
    ensures M.Find(StoreSlots(CutSlots(slots, parent, Some(c.Parent(parent)), k), child, Some(parent), STORED_PREDECESSORS_SIZE), child, d) ==
            c.Ancestor(child, d)
  {
    hide M.Find, Sound, Covers;
    var slots1 := StoreSlots(slots, parent, Some(c.Parent(parent)), k);
    var slots2 := StoreSlots(slots1, child, Some(parent), STORED_PREDECESSORS_SIZE);
    StoreSound(c, slots, parent, k);
    StoreTouchesOnly(slots, parent, Some(c.Parent(parent)), k);
    StoreSound(c, slots1, child, STORED_PREDECESSORS_SIZE);
    StoreTouchesOnly(slots1, child, Some(parent), STORED_PREDECESSORS_SIZE);
    CoverGrows(c, slots, slots1, done);
    CoverGrows(c, slots1, slots2, done);
    FillTouchesOnly(slots[PredecessorKey(parent, 0) := c.Parent(parent)], parent, c.Parent(parent), 1, k);
    assert SlotsBelow(c, slots1, parent, 1) && SlotsBelow(c, slots2, parent, 1);
    assert c.Ancestor(child, 1) == c.Ancestor(parent, 0) == Some(parent) && Pow2(1) == 2;
    NearComplete(c, slots1, done, parent, 1, child, 1);
    M.FindNear(c, slots2, done, parent, 1, child, 1, d);
  }
}
