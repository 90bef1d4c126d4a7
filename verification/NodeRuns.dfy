/** Runs of the node as storage sees them: headers arrive while one worker applies blocks, and
    the worker may be stopped between any two writes. */
module NodeRuns {
  import opened Numbers
  import opened Blocks
  import opened MetaMerge
  import opened PredecessorIndex
  import opened ApplyStore
  import B = BlockStorage
  import M = BlockMetaStorage
  import H = HeaderArrival

  // ------------------------------------------------------------------ handling one block

  datatype FeedError =
    | StorageFailure(error: StorageError)
    | Processing
    | ProtocolService(restartRunner: bool)
    | MissingContext

  /** What the protocol and the disk do when asked. `Stops` ends the writes at a stage. */
  datatype Outcome =
    | Succeeds(response: ApplyBlockResponse)
    | Stops(response: ApplyBlockResponse, stage: nat)
    | Rejects(restartRunner: bool)
    | ContextTimeout

  type Cache = Option<(Header, AdditionalData)>

  datatype Request = Request(meta: Meta, header: Header, predecessor: Header, predecessorData: AdditionalData)

  datatype Prepared = Ready(request: Request) | NotReady(error: FeedError)

  datatype HandleResult =
    | AppliedNow(header: Header, data: AdditionalData)
    | AlreadyApplied
    | Failed(error: FeedError)

  /** `resolve_block_data`: the cached block if it is the one asked for, else the database. */
  function ResolveBlockData(s: Store, b: BlockHash, cache: Cache): Option<(Header, AdditionalData)> {
    if cache.Some? && cache.value.0.hash == b then cache
    else if b in s.blocks && b in s.extra then Some((s.blocks[b].header, s.extra[b]))
    else None
  }

  /** `prepare_apply_request`. */
  function Prepare(s: Store, b: BlockHash, cache: Cache): Prepared {
    if b !in s.blocks then NotReady(StorageFailure(MissingKey))
    else if b !in s.metas then NotReady(Processing)
    else
      var header := s.blocks[b].header;
      match ResolveBlockData(s, header.predecessor, cache)
      case None => NotReady(StorageFailure(MissingKey))
      case Some((predecessor, data)) => Ready(Request(s.metas[b], header, predecessor, data))
  }

  /** The protocol is called for this block. */
  predicate AsksProtocol(s: Store, b: BlockHash, cache: Cache) {
    Prepare(s, b, cache).Ready? && !Prepare(s, b, cache).request.meta.isApplied
  }

  /** `_apply_block` on what was prepared. The store may have changed since. */
  function ApplyPrepared(s: Store, b: BlockHash, prepared: Prepared, o: Outcome): (Store, HandleResult)
    requires prepared.Ready? ==> b in s.blocks
  {
    match prepared
    case NotReady(error) => (s, Failed(error))
    case Ready(request) =>
      if request.meta.isApplied then (s, AlreadyApplied)
      else
        match o
        case Rejects(restart) => (s, Failed(ProtocolService(restart)))
        case ContextTimeout => (s, Failed(MissingContext))
        case Stops(response, stage) =>
          (StoreCut(s, b, request.meta, response, StopStage(stage)), Failed(StorageFailure(DbError)))
        case Succeeds(response) =>
          (StoreCut(s, b, request.meta, response, LAST_STAGE),
           AppliedNow(request.header, AdditionalDataOf(response)))
  }

  /** A stop comes before the last write. */
  function StopStage(stage: nat): nat {
    if stage < LAST_STAGE then stage else LAST_STAGE - 1
  }

  /** Preparing and applying a block with nothing in between. */
  function HandleBlock(s: Store, b: BlockHash, cache: Cache, o: Outcome): (Store, HandleResult) {
    ApplyPrepared(s, b, Prepare(s, b, cache), o)
  }

  // ------------------------------------------------------------------ runs

  /** The store, the worker's one-entry cache and the blocks the head manager was told of. */
  datatype Node = Node(store: Store, cache: Cache, told: seq<BlockHash>)

  /** The headers in `during` arrive after the worker has read the block's record and before it
      writes the record back. */
  datatype Step =
    | Receive(header: Header)
    | NextBatch
    | Handle(block: BlockHash, outcome: Outcome, during: seq<Header>)

  function ReceiveHeader(s: Store, h: Header, chainId: ChainId): Store
    requires h.level > -0x8000_0000
  {
    s.(blocks := if h.hash in s.blocks then s.blocks else s.blocks[h.hash := B.Stored(h, None)],
       metas := M.PutHeader(s.metas, h, chainId))
  }

  function ReceiveAll(s: Store, hs: seq<Header>, chainId: ChainId): (r: Store)
    requires forall i :: 0 <= i < |hs| ==> hs[i].level > -0x8000_0000
    ensures s.blocks.Keys <= r.blocks.Keys && r.slots == s.slots && r.extra == s.extra
    ensures hs == [] ==> r == s
  {
    if hs == [] then s
    else ReceiveHeader(ReceiveAll(s, hs[..|hs| - 1], chainId), hs[|hs| - 1], chainId)
  }

  predicate Storable(step: Step) {
    && (step.Receive? ==> step.header.level > -0x8000_0000)
    && (step.Handle? ==> forall i :: 0 <= i < |step.during| ==> step.during[i].level > -0x8000_0000)
  }

  function TakeStep(n: Node, step: Step, chainId: ChainId): Node
    requires Storable(step)
  {
    match step
    case Receive(h) => n.(store := ReceiveHeader(n.store, h, chainId))
    case NextBatch => n.(cache := None)
    case Handle(b, outcome, during) =>
      var (s, result) :=
        ApplyPrepared(ReceiveAll(n.store, during, chainId), b, Prepare(n.store, b, n.cache), outcome);
      match result
      case AppliedNow(header, data) => Node(s, Some((header, data)), n.told + [b])
      case AlreadyApplied => n.(store := s, cache := None)
      case Failed(_) => n.(store := s, cache := None)
  }

  ghost predicate LegalStep(c: Chain, step: Step)
    requires c.Consistent()
  {
    && Storable(step)
    && (step.Receive? ==> H.IsHeaderOf(c, step.header))
    && (step.Handle? ==> H.HeadersOf(c, step.during))
  }

  ghost predicate Legal(c: Chain, steps: seq<Step>)
    requires c.Consistent()
  {
    forall i :: 0 <= i < |steps| ==> LegalStep(c, steps[i])
  }

  ghost function Run(c: Chain, n: Node, steps: seq<Step>, chainId: ChainId): Node
    requires c.Consistent() && Legal(c, steps)
    decreases |steps|
  {
    if steps == [] then n
    else
      assert LegalStep(c, steps[0]);
      assert forall i :: 0 <= i < |steps[1..]| ==> steps[1..][i] == steps[i + 1];
      Run(c, TakeStep(n, steps[0], chainId), steps[1..], chainId)
  }

  /** The node once genesis is committed. */
  ghost function Fresh(c: Chain, chainId: ChainId, genesisJson: B.JsonData, genesisData: AdditionalData): Node
    requires c.Consistent()
  {
    var g := c.genesis;
    Node(Store(map[g := B.Stored(c.headers[g], Some(genesisJson))],
               map[g := Meta(true, Some(g), [], 0, chainId)],
               map[],
               map[g := genesisData]),
         None, [])
  }

  // ------------------------------------------------------------------ what every run keeps

  ghost function Applied(metas: MetaColumn): set<BlockHash> {
    set b | b in metas && metas[b].isApplied
  }

  /** What an applied block other than genesis has. */
  ghost predicate HasResult(c: Chain, s: Store, b: BlockHash)
    requires c.Consistent() && b in c.headers
  {
    && b in s.blocks && s.blocks[b].json.Some?
    && b in s.extra
    && (b != c.genesis ==> PredecessorKey(b, 0) in s.slots && s.slots[PredecessorKey(b, 0)] == c.Parent(b))
  }

  /** Headers are stored unchanged, for exactly the received blocks and genesis. */
  ghost predicate HeadersStored(c: Chain, s: Store, received: set<BlockHash>)
    requires c.Consistent()
  {
    && s.blocks.Keys == received + {c.genesis}
    && forall b :: b in s.blocks ==> b in c.headers && s.blocks[b].header == c.headers[b]
  }

  /** Additional data reaches down to genesis without a gap. */
  ghost predicate DataClosed(c: Chain, s: Store)
    requires c.Consistent()
  {
    && c.genesis in s.extra
    && s.extra.Keys <= s.blocks.Keys
    && s.extra.Keys <= c.headers.Keys
    && forall b {:trigger c.Parent(b)} :: b in s.extra ==> c.Parent(b) in s.extra
  }

  ghost predicate AppliedHaveResults(c: Chain, s: Store)
    requires c.Consistent()
  {
    && Applied(s.metas) <= c.headers.Keys
    && forall b {:trigger HasResult(c, s, b)} :: b in Applied(s.metas) ==> HasResult(c, s, b)
  }

  ghost predicate CacheCoherent(n: Node) {
    n.cache.Some? ==>
      var (header, data) := n.cache.value;
      && header.hash in n.store.blocks && n.store.blocks[header.hash].header == header
      && header.hash in n.store.extra && n.store.extra[header.hash] == data
  }

  ghost predicate ToldOnce(c: Chain, n: Node) {
    && H.NoDuplicates(n.told)
    && forall b :: b in n.told ==> b in Applied(n.store.metas) && b != c.genesis
  }

  /** Holds after every step of every run, stops included. */
  ghost predicate Inv(c: Chain, n: Node, received: set<BlockHash>)
    requires c.Consistent()
  {
    && H.LinksRecorded(c, n.store.metas, received, true)
    && HeadersStored(c, n.store, received)
    && Sound(c, n.store.slots)
    && DataClosed(c, n.store)
    && AppliedHaveResults(c, n.store)
    && c.genesis in Applied(n.store.metas)
    && CacheCoherent(n)
    && ToldOnce(c, n)
  }

  lemma FreshRecorded(c: Chain, chainId: ChainId, genesisJson: B.JsonData, genesisData: AdditionalData)
    requires c.Consistent()
    ensures H.Recorded(c, Fresh(c, chainId, genesisJson, genesisData).store.metas, {}, true)
  {
    var n := Fresh(c, chainId, genesisJson, genesisData);
    var g := c.genesis;
    assert c.Linked(g);
    assert c.Parent(g) == g && c.Depth(g) == 0;
    forall b | b in c.headers ensures H.EntryCorrect(c, n.store.metas, {}, true, b) {
      assert !H.HasChild(c, {}, b);
    }
  }

  lemma FreshInv(c: Chain, chainId: ChainId, genesisJson: B.JsonData, genesisData: AdditionalData)
    requires c.Consistent()
    ensures Inv(c, Fresh(c, chainId, genesisJson, genesisData), {})
  {
    var n := Fresh(c, chainId, genesisJson, genesisData);
    var g := c.genesis;
    assert c.Linked(g);
    FreshRecorded(c, chainId, genesisJson, genesisData);
    H.RecordedHasLinks(c, n.store.metas, {}, true);
    assert Applied(n.store.metas) == {g};
    forall b | b in Applied(n.store.metas) ensures HasResult(c, n.store, b) {
    }
  }

  /** With a coherent cache the worker gets what the database holds. */
  lemma CacheChangesNothing(n: Node, b: BlockHash, o: Outcome)
    requires CacheCoherent(n)
    ensures ResolveBlockData(n.store, b, n.cache) == ResolveBlockData(n.store, b, None)
    ensures Prepare(n.store, b, n.cache) == Prepare(n.store, b, None)
    ensures HandleBlock(n.store, b, n.cache, o) == HandleBlock(n.store, b, None, o)
  {
  }

  // ------------------------------------------------------------------ header steps

  lemma ReceiveKeepsInv(c: Chain, n: Node, received: set<BlockHash>, h: Header, chainId: ChainId)
    requires c.Consistent() && Inv(c, n, received) && H.IsHeaderOf(c, h) && h.level > -0x8000_0000
    ensures Inv(c, TakeStep(n, Receive(h), chainId), received + {h.hash})
    ensures Applied(TakeStep(n, Receive(h), chainId).store.metas) == Applied(n.store.metas)
  {
    var s, t := n.store, ReceiveHeader(n.store, h, chainId);
    H.HeaderKeepsLinks(c, s.metas, received, true, h, chainId);
    H.AppliedUntouched(s.metas, h, chainId);
    NewRecordsUnapplied(s.metas, h, chainId);
    assert Applied(t.metas) == Applied(s.metas);
    assert t.blocks.Keys == received + {h.hash} + {c.genesis};
    forall b | b in Applied(t.metas) ensures HasResult(c, t, b) {
      assert HasResult(c, s, b);
    }
  }

  lemma NewRecordsUnapplied(column: MetaColumn, h: Header, chainId: ChainId)
    requires h.level > -0x8000_0000
    ensures forall b :: b in M.PutHeader(column, h, chainId) && b !in column ==>
              !M.PutHeader(column, h, chainId)[b].isApplied
  {
    var mid := M.PutOwnRecord(column, h, chainId);
    assert forall b :: b in mid && b !in column ==> !mid[b].isApplied;
  }

  /** Any headers, in any order: nothing about applied blocks changes. */
  lemma {:induction false} ReceiveAllKeepsInv(c: Chain, n: Node, received: set<BlockHash>, hs: seq<Header>, chainId: ChainId)
    requires c.Consistent() && Inv(c, n, received) && H.HeadersOf(c, hs)
    requires forall i :: 0 <= i < |hs| ==> hs[i].level > -0x8000_0000
    ensures var t := ReceiveAll(n.store, hs, chainId);
            && Inv(c, n.(store := t), received + H.HashesOf(hs))
            && Applied(t.metas) == Applied(n.store.metas)
            && n.store.metas.Keys <= t.metas.Keys
  {
    if hs == [] {
      assert received + H.HashesOf(hs) == received;
    } else {
      var front, last := hs[..|hs| - 1], hs[|hs| - 1];
      ReceiveAllKeepsInv(c, n, received, front, chainId);
      var mid := n.(store := ReceiveAll(n.store, front, chainId));
      assert H.IsHeaderOf(c, last);
      ReceiveKeepsInv(c, mid, received + H.HashesOf(front), last, chainId);
      HashesOfLast(hs);
      assert received + H.HashesOf(hs) == received + H.HashesOf(front) + {last.hash};
      H.PutHeaderTouches(mid.store.metas, last, chainId);
    }
  }

  lemma HashesOfLast(hs: seq<Header>)
    requires hs != []
    ensures H.HashesOf(hs) == H.HashesOf(hs[..|hs| - 1]) + {hs[|hs| - 1].hash}
  {
  }

  /** It makes no difference between which of the writes before the flag a header arrives. */
  lemma ArrivalsCommute(s: Store, b: BlockHash, meta: Meta, r: ApplyBlockResponse, stage: nat, h: Header, chainId: ChainId)
    requires b in s.blocks && stage < LAST_STAGE && h.level > -0x8000_0000
    ensures ReceiveHeader(StoreCut(s, b, meta, r, stage), h, chainId) ==
            StoreCut(ReceiveHeader(s, h, chainId), b, meta, r, stage)
  {
  }

  // ------------------------------------------------------------------ apply steps

  /** The writes of `b`, cut at any stage, touch nothing of any other block. */
  lemma CutTouchesOnly(s: Store, b: BlockHash, meta: Meta, r: ApplyBlockResponse, stage: nat)
    requires b in s.blocks
    ensures var t := StoreCut(s, b, meta, r, stage);
            && Touched(s, t, b)
            && t.metas.Keys <= s.metas.Keys + {b}
            && (forall x :: x in s.metas && x != b ==> x in t.metas && t.metas[x] == s.metas[x])
  {
    if stage >= 3 {
      StoreTouchesOnly(s.slots, b, meta.predecessor, SlotsAt(stage));
    }
  }

  /** What holds when the worker starts writing the result of `b`, with `meta` the record it has
      read. */
  ghost predicate ReadyToStore(c: Chain, n: Node, received: set<BlockHash>, b: BlockHash, meta: Meta)
    requires c.Consistent()
  {
    && Inv(c, n, received)
    && b in n.store.blocks && b in n.store.metas && b in c.headers
    && !n.store.metas[b].isApplied
    && b != c.genesis
    && meta.predecessor == Some(c.Parent(b))
    && c.Parent(b) in n.store.extra
  }

  lemma AskedIsReady(c: Chain, n: Node, received: set<BlockHash>, b: BlockHash)
    requires c.Consistent() && Inv(c, n, received) && AsksProtocol(n.store, b, n.cache)
    ensures ReadyToStore(c, n, received, b, n.store.metas[b])
    ensures Prepare(n.store, b, n.cache).request.meta == n.store.metas[b]
    ensures Prepare(n.store, b, n.cache).request.header == c.headers[b]
    ensures Prepare(n.store, b, n.cache).request.predecessor == c.headers[c.Parent(b)]
    ensures Prepare(n.store, b, n.cache).request.predecessorData == n.store.extra[c.Parent(b)]
  {
    CacheChangesNothing(n, b, ContextTimeout);
    assert c.Linked(b);
    assert H.LinkEntry(c, n.store.metas, received, true, b);
    var p := c.Parent(b);
    assert c.Linked(p);
  }

  /** The request holds the block's own header and record and its parent's header and data. */
  ghost predicate RequestRight(c: Chain, n: Node, b: BlockHash)
    requires c.Consistent()
  {
    && b in c.headers && b in n.store.metas && c.Parent(b) in n.store.extra
    && Prepare(n.store, b, n.cache) ==
       Ready(Request(n.store.metas[b], c.headers[b], c.headers[c.Parent(b)], n.store.extra[c.Parent(b)]))
  }

  /** In every state of a run preparing fails, as a missing key, exactly for blocks whose header has
      not arrived or whose parent has no additional data; a header without a record never occurs. */
  lemma PrepareExact(c: Chain, n: Node, received: set<BlockHash>, b: BlockHash)
    requires c.Consistent() && Inv(c, n, received)
    ensures if b in c.headers && b in received + {c.genesis} && c.Parent(b) in n.store.extra
            then RequestRight(c, n, b)
            else Prepare(n.store, b, n.cache) == NotReady(StorageFailure(MissingKey))
  {
    CacheChangesNothing(n, b, ContextTimeout);
    if b in c.headers {
      assert c.Linked(b);
      assert H.LinkEntry(c, n.store.metas, received, true, b);
    }
  }

  /** What handling a block does to the node. */
  lemma HandleCases(n: Node, b: BlockHash, o: Outcome, during: seq<Header>, chainId: ChainId)
    requires Storable(Handle(b, o, during))
    ensures var t, mid := TakeStep(n, Handle(b, o, during), chainId), ReceiveAll(n.store, during, chainId);
            if AsksProtocol(n.store, b, n.cache) then
              && b in n.store.blocks && b in n.store.metas && b in mid.blocks
              && t == match o
                      case Succeeds(r) =>
                        Node(StoreCut(mid, b, n.store.metas[b], r, LAST_STAGE),
                             Some((n.store.blocks[b].header, AdditionalDataOf(r))), n.told + [b])
                      case Stops(r, stage) =>
                        Node(StoreCut(mid, b, n.store.metas[b], r, StopStage(stage)), None, n.told)
                      case Rejects(_) => Node(mid, None, n.told)
                      case ContextTimeout => Node(mid, None, n.told)
            else t == Node(mid, None, n.told)
  {
    hide ReceiveAll, StoreCut;
  }

  /** The worker is still ready to store when headers have arrived since it asked. */
  lemma AskedAmid(c: Chain, n: Node, received: set<BlockHash>, b: BlockHash, during: seq<Header>, chainId: ChainId)
    requires c.Consistent() && Inv(c, n, received) && AsksProtocol(n.store, b, n.cache)
    requires LegalStep(c, Handle(b, ContextTimeout, during))
    ensures b in n.store.metas && b in n.store.blocks && b in c.headers && n.store.blocks[b].header == c.headers[b]
    ensures ReadyToStore(c, n.(store := ReceiveAll(n.store, during, chainId)), received + H.HashesOf(during), b, n.store.metas[b])
  {
    AskedIsReady(c, n, received, b);
    ReceiveAllKeepsInv(c, n, received, during, chainId);
    assert b !in Applied(n.store.metas);
  }

  /** Before the flag nothing a reader relies on is disturbed. */
  lemma CutKeepsInv(c: Chain, n: Node, received: set<BlockHash>, b: BlockHash, meta: Meta, r: ApplyBlockResponse, stage: nat)
    requires c.Consistent() && ReadyToStore(c, n, received, b, meta) && stage < LAST_STAGE
    ensures Inv(c, Node(StoreCut(n.store, b, meta, r, stage), None, n.told), received)
    ensures StoreCut(n.store, b, meta, r, stage).metas == n.store.metas
  {
    var s := n.store;
    var t := StoreCut(s, b, meta, r, stage);
    CutTouchesOnly(s, b, meta, r, stage);
    TouchedKeeps(c, s, t, b, received);
    if stage >= 3 {
      StoreSound(c, s.slots, b, stage - 2);
    }
  }

  lemma SlotZeroStored(c: Chain, slots: Slots, b: BlockHash)
    requires c.Consistent() && b in c.headers && b != c.genesis
    ensures var after := StoreSlots(slots, b, Some(c.Parent(b)), STORED_PREDECESSORS_SIZE);
            PredecessorKey(b, 0) in after && after[PredecessorKey(b, 0)] == c.Parent(b)
  {
    var p := c.Parent(b);
    FillTouchesOnly(slots[PredecessorKey(b, 0) := p], b, p, 1, STORED_PREDECESSORS_SIZE);
  }

  /** A store that differs from `s` only in what storing the result of `b` writes. */
  ghost predicate Touched(s: Store, t: Store, b: BlockHash) {
    && t.blocks.Keys == s.blocks.Keys
    && (forall x :: x in s.blocks ==> t.blocks[x].header == s.blocks[x].header)
    && (forall x :: x in s.blocks && x != b ==> t.blocks[x] == s.blocks[x])
    && s.extra.Keys <= t.extra.Keys <= s.extra.Keys + {b}
    && (forall x :: x in s.extra && x != b ==> t.extra[x] == s.extra[x])
    && s.slots.Keys <= t.slots.Keys
    && (forall k :: k in t.slots && k.blockHash != b ==> k in s.slots && t.slots[k] == s.slots[k])
  }

  lemma TouchedKeeps(c: Chain, s: Store, t: Store, b: BlockHash, received: set<BlockHash>)
    requires c.Consistent() && Touched(s, t, b)
    requires HeadersStored(c, s, received) && DataClosed(c, s) && AppliedHaveResults(c, s)
    requires b in s.blocks && b in c.headers && c.Parent(b) in s.extra
    ensures HeadersStored(c, t, received) && DataClosed(c, t)
    ensures forall x {:trigger HasResult(c, t, x)} :: x in Applied(s.metas) && x != b ==> HasResult(c, t, x)
  {
    forall x | x in Applied(s.metas) && x != b ensures HasResult(c, t, x) {
      assert HasResult(c, s, x);
    }
  }

  /** The full set of writes makes the block applied, with its result in place. */
  lemma StoreKeepsInv(c: Chain, n: Node, received: set<BlockHash>, b: BlockHash, meta: Meta, r: ApplyBlockResponse)
    requires c.Consistent() && ReadyToStore(c, n, received, b, meta)
    ensures var t := StoreCut(n.store, b, meta, r, LAST_STAGE);
            && Applied(t.metas) == Applied(n.store.metas) + {b}
            && Inv(c, Node(t, Some((c.headers[b], AdditionalDataOf(r))), n.told + [b]), received)
  {
    var s := n.store;
    var t := StoreCut(s, b, meta, r, LAST_STAGE);
    CutTouchesOnly(s, b, meta, r, LAST_STAGE);
    StoreMarksApplied(c, n, received, b, meta, r);
    StoreSound(c, s.slots, b, STORED_PREDECESSORS_SIZE);
    SlotZeroStored(c, s.slots, b);
    TouchedKeeps(c, s, t, b, received);
    assert c.Linked(b);
    assert HasResult(c, t, b);
    ToldAgain(c, n, b, t);
  }

  lemma StoreMarksApplied(c: Chain, n: Node, received: set<BlockHash>, b: BlockHash, meta: Meta, r: ApplyBlockResponse)
    requires c.Consistent() && ReadyToStore(c, n, received, b, meta)
    ensures var t := StoreCut(n.store, b, meta, r, LAST_STAGE);
            Applied(t.metas) == Applied(n.store.metas) + {b} && H.LinksRecorded(c, t.metas, received, true)
  {
    var s := n.store;
    assert H.LinkEntry(c, s.metas, received, true, b);
    H.WriteBackKeepsLinks(c, s.metas, received, true, b, meta);
    assert Applied(Put(s.metas, b, meta.(isApplied := true))) == Applied(s.metas) + {b};
  }

  lemma ToldAgain(c: Chain, n: Node, b: BlockHash, t: Store)
    requires ToldOnce(c, n) && b != c.genesis
    requires b !in Applied(n.store.metas) && Applied(t.metas) == Applied(n.store.metas) + {b}
    ensures H.NoDuplicates(n.told + [b])
    ensures forall x :: x in n.told + [b] ==> x in Applied(t.metas) && x != c.genesis
  {
    assert b !in n.told;
  }

  lemma HandleKeepsInv(c: Chain, n: Node, received: set<BlockHash>, b: BlockHash, o: Outcome, during: seq<Header>, chainId: ChainId)
    requires c.Consistent() && Inv(c, n, received) && LegalStep(c, Handle(b, o, during))
    ensures Inv(c, TakeStep(n, Handle(b, o, during), chainId), received + H.HashesOf(during))
  {
    hide TakeStep, ReceiveAll, StoreCut, AsksProtocol;
    HandleCases(n, b, o, during, chainId);
    ReceiveAllKeepsInv(c, n, received, during, chainId);
    if AsksProtocol(n.store, b, n.cache) {
      var mid, now := n.(store := ReceiveAll(n.store, during, chainId)), received + H.HashesOf(during);
      AskedAmid(c, n, received, b, during, chainId);
      match o
      case Succeeds(r) => StoreKeepsInv(c, mid, now, b, n.store.metas[b], r);
      case Stops(r, stage) => CutKeepsInv(c, mid, now, b, n.store.metas[b], r, StopStage(stage));
      case Rejects(_) =>
      case ContextTimeout =>
    }
  }

  // ------------------------------------------------------------------ whole runs

  ghost function ReceivedIn(step: Step): set<BlockHash> {
    match step
    case Receive(h) => {h.hash}
    case NextBatch => {}
    case Handle(_, _, during) => H.HashesOf(during)
  }

  ghost function ReceivedBy(steps: seq<Step>): set<BlockHash> {
    if steps == [] then {} else ReceivedIn(steps[0]) + ReceivedBy(steps[1..])
  }

  lemma StepKeepsInv(c: Chain, n: Node, received: set<BlockHash>, step: Step, chainId: ChainId)
    requires c.Consistent() && Inv(c, n, received) && LegalStep(c, step)
    ensures Inv(c, TakeStep(n, step, chainId), received + ReceivedIn(step))
  {
    match step
    case Receive(h) => ReceiveKeepsInv(c, n, received, h, chainId);
    case NextBatch =>
      assert received + {} == received;
    case Handle(b, o, during) => HandleKeepsInv(c, n, received, b, o, during, chainId);
  }

  /** Every run, with headers in any order at any time, failures, and stops between any two
      writes. */
  lemma {:induction false} RunKeepsInv(c: Chain, n: Node, received: set<BlockHash>, steps: seq<Step>, chainId: ChainId)
    requires c.Consistent() && Inv(c, n, received) && Legal(c, steps)
    ensures Inv(c, Run(c, n, steps, chainId), received + ReceivedBy(steps))
    decreases |steps|
  {
    if steps == [] {
      assert received + ReceivedBy(steps) == received;
    } else {
      assert LegalStep(c, steps[0]);
      StepKeepsInv(c, n, received, steps[0], chainId);
      assert received + ReceivedBy(steps) == received + ReceivedIn(steps[0]) + ReceivedBy(steps[1..]);
      RunKeepsInv(c, TakeStep(n, steps[0], chainId), received + ReceivedIn(steps[0]), steps[1..], chainId);
    }
  }

  // ------------------------------------------------------------------ lookups after a run

  /** The one-step walk over the records finds the ancestors of a block, as far as headers were
      received. */
  lemma {:induction false} WalkIsAncestor(c: Chain, metas: MetaColumn, received: set<BlockHash>, known: set<BlockHash>, b: BlockHash, d: nat)
    requires c.Consistent() && H.LinksRecorded(c, metas, received, true)
    requires known <= received + {c.genesis} && known <= c.headers.Keys
    requires forall x {:trigger c.Parent(x)} :: x in known ==> c.Parent(x) in known
    requires b in known
    ensures M.NaiveWalk(metas, b, d) == c.Ancestor(b, d)
    decreases d
  {
    if d > 0 {
      assert H.LinkEntry(c, metas, received, true, b);
      if b != c.genesis {
        WalkIsAncestor(c, metas, received, known, c.Parent(b), d - 1);
      }
    }
  }

  lemma NaiveWalkIsAncestor(c: Chain, n: Node, received: set<BlockHash>, b: BlockHash, d: nat)
    requires c.Consistent() && Inv(c, n, received) && b in n.store.extra
    ensures b in c.headers
    ensures M.NaiveWalk(n.store.metas, b, d) == c.Ancestor(b, d)
  {
    WalkIsAncestor(c, n.store.metas, received, n.store.extra.Keys, b, d);
  }

  /** After any run whatever, stops included: a lookup from an applied block that returns a
      block returns the one the one-step walk returns. */
  lemma LookupNeverWrong(c: Chain, steps: seq<Step>, chainId: ChainId, json: B.JsonData, data: AdditionalData, b: BlockHash, d: nat)
    requires c.Consistent() && Legal(c, steps)
    requires b in Applied(Run(c, Fresh(c, chainId, json, data), steps, chainId).store.metas)
    ensures var s := Run(c, Fresh(c, chainId, json, data), steps, chainId).store;
            M.Find(s.slots, b, d).Some? ==> M.Find(s.slots, b, d) == M.NaiveWalk(s.metas, b, d)
  {
    FreshInv(c, chainId, json, data);
    RunKeepsInv(c, Fresh(c, chainId, json, data), {}, steps, chainId);
    var n := Run(c, Fresh(c, chainId, json, data), steps, chainId);
    assert HasResult(c, n.store, b);
    NaiveWalkIsAncestor(c, n, {} + ReceivedBy(steps), b, d);
    M.FindSound(c, n.store.slots, b, d);
  }

  /** A block is applied only on top of a block that is marked applied. The worker itself only
      checks that the predecessor's additional data is there. */
  ghost predicate OnAppliedParent(n: Node, step: Step) {
    step.Handle? && step.outcome.Succeeds? && AsksProtocol(n.store, step.block, n.cache) ==>
      n.store.blocks[step.block].header.predecessor in Applied(n.store.metas)
  }

  ghost predicate AlwaysOnAppliedParent(c: Chain, n: Node, steps: seq<Step>, chainId: ChainId)
    requires c.Consistent() && Legal(c, steps)
    decreases |steps|
  {
    steps != [] ==>
      assert LegalStep(c, steps[0]);
      assert forall i :: 0 <= i < |steps[1..]| ==> steps[1..][i] == steps[i + 1];
      && OnAppliedParent(n, steps[0])
      && AlwaysOnAppliedParent(c, TakeStep(n, steps[0], chainId), steps[1..], chainId)
  }

  lemma StepKeepsCover(c: Chain, n: Node, received: set<BlockHash>, step: Step, chainId: ChainId)
    requires c.Consistent() && Inv(c, n, received) && LegalStep(c, step)
    requires Covers(c, n.store.slots, Applied(n.store.metas)) && OnAppliedParent(n, step)
    ensures var t := TakeStep(n, step, chainId).store; Covers(c, t.slots, Applied(t.metas))
  {
    match step
    case Receive(h) => ReceiveKeepsInv(c, n, received, h, chainId);
    case NextBatch =>
    case Handle(b, o, during) => HandleKeepsCover(c, n, received, b, o, during, chainId);
  }

  lemma HandleKeepsCover(c: Chain, n: Node, received: set<BlockHash>, b: BlockHash, o: Outcome, during: seq<Header>, chainId: ChainId)
    requires c.Consistent() && Inv(c, n, received) && LegalStep(c, Handle(b, o, during))
    requires Covers(c, n.store.slots, Applied(n.store.metas)) && OnAppliedParent(n, Handle(b, o, during))
    ensures var t := TakeStep(n, Handle(b, o, during), chainId).store; Covers(c, t.slots, Applied(t.metas))
  {
    hide TakeStep, ReceiveAll, StoreCut, AsksProtocol, Covers;
    HandleCases(n, b, o, during, chainId);
    ReceiveAllKeepsInv(c, n, received, during, chainId);
    if AsksProtocol(n.store, b, n.cache) {
      var mid, now := n.(store := ReceiveAll(n.store, during, chainId)), received + H.HashesOf(during);
      AskedAmid(c, n, received, b, during, chainId);
      assert n.store.blocks[b].header.predecessor == c.Parent(b);
      match o
      case Succeeds(r) => StoreKeepsCover(c, mid, now, b, n.store.metas[b], r);
      case Stops(r, stage) => CutKeepsCover(c, mid, now, b, n.store.metas[b], r, StopStage(stage));
      case Rejects(_) =>
      case ContextTimeout =>
    }
  }

  lemma StoreKeepsCover(c: Chain, n: Node, received: set<BlockHash>, b: BlockHash, meta: Meta, r: ApplyBlockResponse)
    requires c.Consistent() && ReadyToStore(c, n, received, b, meta)
    requires Covers(c, n.store.slots, Applied(n.store.metas)) && c.Parent(b) in Applied(n.store.metas)
    ensures var t := StoreCut(n.store, b, meta, r, LAST_STAGE); Covers(c, t.slots, Applied(t.metas))
  {
    StoreKeepsInv(c, n, received, b, meta, r);
    StoreExtendsCover(c, n.store.slots, Applied(n.store.metas), b);
  }

  lemma CutKeepsCover(c: Chain, n: Node, received: set<BlockHash>, b: BlockHash, meta: Meta, r: ApplyBlockResponse, stage: nat)
    requires c.Consistent() && ReadyToStore(c, n, received, b, meta) && stage < LAST_STAGE
    requires Covers(c, n.store.slots, Applied(n.store.metas))
    ensures var t := StoreCut(n.store, b, meta, r, stage); Covers(c, t.slots, Applied(t.metas))
  {
    var s := n.store;
    CutTouchesOnly(s, b, meta, r, stage);
    CutKeepsInv(c, n, received, b, meta, r, stage);
    CoverGrows(c, s.slots, StoreCut(s, b, meta, r, stage).slots, Applied(s.metas));
  }

  lemma {:induction false} RunKeepsCover(c: Chain, n: Node, received: set<BlockHash>, steps: seq<Step>, chainId: ChainId)
    requires c.Consistent() && Inv(c, n, received) && Legal(c, steps)
    requires Covers(c, n.store.slots, Applied(n.store.metas))
    requires AlwaysOnAppliedParent(c, n, steps, chainId)
    ensures var t := Run(c, n, steps, chainId).store; Covers(c, t.slots, Applied(t.metas))
    decreases |steps|
  {
    if steps != [] {
      assert LegalStep(c, steps[0]);
      StepKeepsInv(c, n, received, steps[0], chainId);
      StepKeepsCover(c, n, received, steps[0], chainId);
      RunKeepsCover(c, TakeStep(n, steps[0], chainId), received + ReceivedIn(steps[0]), steps[1..], chainId);
    }
  }

  lemma FreshCover(c: Chain, chainId: ChainId, json: B.JsonData, data: AdditionalData)
    requires c.Consistent()
    ensures var t := Fresh(c, chainId, json, data).store; Covers(c, t.slots, Applied(t.metas))
  {
    var t := Fresh(c, chainId, json, data).store;
    assert Applied(t.metas) == {c.genesis};
    forall i | 0 <= i < STORED_PREDECESSORS_SIZE ensures SlotPresent(c, t.slots, c.genesis, i) {
    }
  }

  /** The main result, with stops allowed: if blocks are only applied on top of applied blocks,
      a lookup from any applied block at any distance is the one-step walk, and finds nothing
      exactly when the distance passes genesis. */
  lemma LookupIsNaiveWalk(c: Chain, steps: seq<Step>, chainId: ChainId, json: B.JsonData, data: AdditionalData, b: BlockHash, d: nat)
    requires c.Consistent() && Legal(c, steps)
    requires AlwaysOnAppliedParent(c, Fresh(c, chainId, json, data), steps, chainId)
    requires b in Applied(Run(c, Fresh(c, chainId, json, data), steps, chainId).store.metas)
    ensures var s := Run(c, Fresh(c, chainId, json, data), steps, chainId).store;
            && b in c.headers
            && M.Find(s.slots, b, d) == M.NaiveWalk(s.metas, b, d)
            && (M.Find(s.slots, b, d).None? <==> d > c.Depth(b))
  {
    var start := Fresh(c, chainId, json, data);
    FreshInv(c, chainId, json, data);
    FreshCover(c, chainId, json, data);
    RunKeepsInv(c, start, {}, steps, chainId);
    RunKeepsCover(c, start, {}, steps, chainId);
    var n := Run(c, start, steps, chainId);
    assert HasResult(c, n.store, b);
    NaiveWalkIsAncestor(c, n, {} + ReceivedBy(steps), b, d);
    M.FindExact(c, n.store.slots, Applied(n.store.metas), b, d);
    c.AncestorDepth(b, d);
  }

  // ------------------------------------------------------------------ the slot table after a run

  /** A block becomes applied only by its own full store: with the flag come its JSON data, its
      additional data and the result of the whole slot loop. */
  lemma FlagComesLast(c: Chain, n: Node, received: set<BlockHash>, step: Step, chainId: ChainId, b: BlockHash)
    requires c.Consistent() && Inv(c, n, received) && LegalStep(c, step)
    requires b !in Applied(n.store.metas) && b in Applied(TakeStep(n, step, chainId).store.metas)
    ensures step.Handle? && step.block == b && step.outcome.Succeeds? && AsksProtocol(n.store, b, n.cache)
    ensures b in c.headers && b != c.genesis
    ensures var s, r := TakeStep(n, step, chainId).store, step.outcome.response;
            && b in s.blocks && s.blocks[b].json == Some(r.json)
            && b in s.extra && TakenFrom(s.extra[b], r)
            && s.slots == StoreSlots(n.store.slots, b, Some(c.Parent(b)), STORED_PREDECESSORS_SIZE)
  {
    match step
    case Receive(h) => ReceiveKeepsInv(c, n, received, h, chainId);
    case NextBatch =>
    case Handle(x, o, during) =>
      HandleMarks(c, n, received, x, o, during, chainId);
      assert x == b;
      HandleCases(n, b, o, during, chainId);
      AskedAmid(c, n, received, b, during, chainId);
  }

  /** Only a block that is stored in full gets marked. */
  lemma HandleMarks(c: Chain, n: Node, received: set<BlockHash>, b: BlockHash, o: Outcome, during: seq<Header>, chainId: ChainId)
    requires c.Consistent() && Inv(c, n, received) && LegalStep(c, Handle(b, o, during))
    ensures Applied(TakeStep(n, Handle(b, o, during), chainId).store.metas) ==
            Applied(n.store.metas) + (if AsksProtocol(n.store, b, n.cache) && o.Succeeds? then {b} else {})
  {
    hide TakeStep, ReceiveAll, StoreCut, AsksProtocol, Applied;
    HandleCases(n, b, o, during, chainId);
    ReceiveAllKeepsInv(c, n, received, during, chainId);
    if AsksProtocol(n.store, b, n.cache) {
      var mid, now := n.(store := ReceiveAll(n.store, during, chainId)), received + H.HashesOf(during);
      AskedAmid(c, n, received, b, during, chainId);
      match o
      case Succeeds(r) => StoreMarksApplied(c, mid, now, b, n.store.metas[b], r);
      case Stops(r, stage) => CutKeepsInv(c, mid, now, b, n.store.metas[b], r, StopStage(stage));
      case Rejects(_) =>
      case ContextTimeout =>
    }
  }

  lemma StepKeepsSlots(n: Node, step: Step, chainId: ChainId)
    requires Storable(step)
    ensures n.store.slots.Keys <= TakeStep(n, step, chainId).store.slots.Keys
  {
    if step.Handle? {
      var b, o := step.block, step.outcome;
      HandleCases(n, b, o, step.during, chainId);
      if AsksProtocol(n.store, b, n.cache) && (o.Succeeds? || o.Stops?) {
        CutTouchesOnly(ReceiveAll(n.store, step.during, chainId), b, n.store.metas[b], o.response,
                       if o.Succeeds? then LAST_STAGE else StopStage(o.stage));
      }
    }
  }

  /** A slot that was written keeps its content for ever, whatever is applied or stopped after. */
  lemma {:induction false} SlotsNeverChange(c: Chain, n: Node, received: set<BlockHash>, steps: seq<Step>, chainId: ChainId, k: PredecessorKey)
    requires c.Consistent() && Inv(c, n, received) && Legal(c, steps) && k in n.store.slots
    ensures var s := Run(c, n, steps, chainId).store; k in s.slots && s.slots[k] == n.store.slots[k]
    decreases |steps|
  {
    if steps != [] {
      assert LegalStep(c, steps[0]);
      var next := TakeStep(n, steps[0], chainId);
      StepKeepsInv(c, n, received, steps[0], chainId);
      StepKeepsSlots(n, steps[0], chainId);
      assert SlotCorrect(c, n.store.slots, k) && SlotCorrect(c, next.store.slots, k);
      SlotsNeverChange(c, next, received + ReceivedIn(steps[0]), steps[1..], chainId, k);
    }
  }

  /** The slots of an applied block are final: handling it again writes nothing. */
  lemma AppliedSlotsFinal(c: Chain, n: Node, received: set<BlockHash>, step: Step, chainId: ChainId, b: BlockHash)
    requires c.Consistent() && Inv(c, n, received) && LegalStep(c, step) && b in Applied(n.store.metas)
    ensures var t := TakeStep(n, step, chainId).store;
            && b in Applied(t.metas)
            && forall i: nat :: PredecessorKey(b, i) in t.slots <==> PredecessorKey(b, i) in n.store.slots
  {
    hide StoreCut;
    StepKeepsSlots(n, step, chainId);
    match step
    case Receive(h) => ReceiveKeepsInv(c, n, received, h, chainId);
    case NextBatch =>
    case Handle(x, o, during) =>
      HandleCases(n, x, o, during, chainId);
      HandleMarks(c, n, received, x, o, during, chainId);
      if AsksProtocol(n.store, x, n.cache) && (o.Succeeds? || o.Stops?) {
        AskedIsReady(c, n, received, x);
        assert x != b;
        CutTouchesOnly(ReceiveAll(n.store, during, chainId), x, n.store.metas[x], o.response,
                       if o.Succeeds? then LAST_STAGE else StopStage(o.stage));
      }
  }

  lemma {:induction false} AppliedSlotsFixed(c: Chain, n: Node, received: set<BlockHash>, steps: seq<Step>, chainId: ChainId, b: BlockHash)
    requires c.Consistent() && Inv(c, n, received) && Legal(c, steps) && b in Applied(n.store.metas)
    ensures var t := Run(c, n, steps, chainId).store;
            forall i: nat :: PredecessorKey(b, i) in t.slots <==> PredecessorKey(b, i) in n.store.slots
    decreases |steps|
  {
    hide TakeStep, Inv, Applied;
    if steps != [] {
      assert LegalStep(c, steps[0]);
      StepKeepsInv(c, n, received, steps[0], chainId);
      AppliedSlotsFinal(c, n, received, steps[0], chainId, b);
      AppliedSlotsFixed(c, TakeStep(n, steps[0], chainId), received + ReceivedIn(steps[0]), steps[1..], chainId, b);
    }
  }

  /** The slots of `b` in `slots` are those in `given`. */
  ghost predicate SameSlots(slots: Slots, given: Slots, b: BlockHash) {
    forall i: nat :: var k := PredecessorKey(b, i);
                     (k in slots <==> k in given) && (k in slots ==> slots[k] == given[k])
  }

  lemma SlotsStay(c: Chain, n: Node, received: set<BlockHash>, steps: seq<Step>, chainId: ChainId, b: BlockHash)
    requires c.Consistent() && Inv(c, n, received) && Legal(c, steps) && b in Applied(n.store.metas)
    ensures SameSlots(Run(c, n, steps, chainId).store.slots, n.store.slots, b)
  {
    hide Run, Inv, Applied;
    AppliedSlotsFixed(c, n, received, steps, chainId, b);
    forall i: nat | PredecessorKey(b, i) in n.store.slots
      ensures PredecessorKey(b, i) in Run(c, n, steps, chainId).store.slots
      ensures Run(c, n, steps, chainId).store.slots[PredecessorKey(b, i)] == n.store.slots[PredecessorKey(b, i)]
    {
      SlotsNeverChange(c, n, received, steps, chainId, PredecessorKey(b, i));
    }
  }

  /** Step `i` of the run is the full store of `b`, and `b` ends with exactly the slots that the
      slot loop gave it then. */
  ghost predicate FlaggedAt(c: Chain, n: Node, steps: seq<Step>, chainId: ChainId, b: BlockHash, i: nat)
    requires c.Consistent() && Legal(c, steps) && b in c.headers
  {
    && i < |steps| && Legal(c, steps[..i])
    && steps[i].Handle? && steps[i].block == b && steps[i].outcome.Succeeds?
    && var before, after := Run(c, n, steps[..i], chainId), Run(c, n, steps, chainId);
       && b !in Applied(before.store.metas) && AsksProtocol(before.store, b, before.cache)
       && SameSlots(after.store.slots,
                    StoreSlots(before.store.slots, b, Some(c.Parent(b)), STORED_PREDECESSORS_SIZE), b)
  }

  /** Over whole runs: a block that became applied was flagged by its full store. */
  lemma {:induction false} SlotsFromFlagging(c: Chain, n: Node, received: set<BlockHash>, steps: seq<Step>, chainId: ChainId, b: BlockHash)
    returns (i: nat)
    requires c.Consistent() && Inv(c, n, received) && Legal(c, steps)
    requires b !in Applied(n.store.metas) && b in Applied(Run(c, n, steps, chainId).store.metas)
    ensures b in c.headers && FlaggedAt(c, n, steps, chainId, b, i)
    decreases |steps|
  {
    hide TakeStep, Inv, Applied, AsksProtocol, StoreSlots;
    assert LegalStep(c, steps[0]);
    var next := TakeStep(n, steps[0], chainId);
    StepKeepsInv(c, n, received, steps[0], chainId);
    if b in Applied(next.store.metas) {
      i := 0;
      assert steps[..0] == [];
      FlagComesLast(c, n, received, steps[0], chainId, b);
      SlotsStay(c, next, received + ReceivedIn(steps[0]), steps[1..], chainId, b);
    } else {
      var j := SlotsFromFlagging(c, next, received + ReceivedIn(steps[0]), steps[1..], chainId, b);
      i := j + 1;
      assert steps[..i][1..] == steps[1..][..j];
    }
  }

  /** If blocks are only applied on top of applied blocks, slot `i` of an applied block exists
      exactly when `i < 12` and 2^i does not pass genesis, and holds the ancestor at distance
      2^i. */
  lemma SlotTableExact(c: Chain, steps: seq<Step>, chainId: ChainId, json: B.JsonData, data: AdditionalData, b: BlockHash, i: nat)
    requires c.Consistent() && Legal(c, steps)
    requires AlwaysOnAppliedParent(c, Fresh(c, chainId, json, data), steps, chainId)
    requires b in Applied(Run(c, Fresh(c, chainId, json, data), steps, chainId).store.metas)
    ensures var slots := Run(c, Fresh(c, chainId, json, data), steps, chainId).store.slots;
            && b in c.headers
            && (PredecessorKey(b, i) in slots <==> i < STORED_PREDECESSORS_SIZE && Pow2(i) <= c.Depth(b))
            && (PredecessorKey(b, i) in slots ==> c.Ancestor(b, Pow2(i)) == Some(slots[PredecessorKey(b, i)]))
  {
    var start := Fresh(c, chainId, json, data);
    FreshInv(c, chainId, json, data);
    FreshCover(c, chainId, json, data);
    RunKeepsInv(c, start, {}, steps, chainId);
    RunKeepsCover(c, start, {}, steps, chainId);
    var s := Run(c, start, steps, chainId).store;
    CoveredSlotsExact(c, s.slots, Applied(s.metas), b, i);
  }

  /** In every state of every run: the blocks with stored additional data reach down to genesis
      without a gap; a block marked applied has its JSON data and additional data and exactly the
      slots its full store gave it; the protocol is only asked for a block that is not marked
      applied, with the block's own header and the header and stored data of its parent; the cache
      never changes what is asked; and the head manager was told at most once of each block. */
  lemma EveryRunIsSafe(c: Chain, steps: seq<Step>, chainId: ChainId, json: B.JsonData, data: AdditionalData)
    requires c.Consistent() && Legal(c, steps)
    ensures var start := Fresh(c, chainId, json, data);
            var n := Run(c, start, steps, chainId);
            && DataClosed(c, n.store)
            && AppliedHaveResults(c, n.store)
            && (forall b {:trigger HasResult(c, n.store, b)} :: b in Applied(n.store.metas) && b != c.genesis ==>
                  exists i: nat :: FlaggedAt(c, start, steps, chainId, b, i))
            && (forall b {:trigger AsksProtocol(n.store, b, n.cache)} :: AsksProtocol(n.store, b, n.cache) ==>
                  b in n.store.metas && b !in Applied(n.store.metas) && RequestRight(c, n, b))
            && (forall b {:trigger Prepare(n.store, b, n.cache)} :: Prepare(n.store, b, n.cache) == Prepare(n.store, b, None))
            && ToldOnce(c, n)
  {
    hide Run, FlaggedAt;
    var start := Fresh(c, chainId, json, data);
    var n := Run(c, start, steps, chainId);
    var received := {} + ReceivedBy(steps);
    FreshInv(c, chainId, json, data);
    RunKeepsInv(c, start, {}, steps, chainId);
    forall b | b in Applied(n.store.metas) && b != c.genesis ensures exists i: nat :: FlaggedAt(c, start, steps, chainId, b, i) {
      var i := SlotsFromFlagging(c, start, {}, steps, chainId, b);
    }
    forall b | AsksProtocol(n.store, b, n.cache)
      ensures b in n.store.metas && b !in Applied(n.store.metas) && RequestRight(c, n, b)
    {
      AskedIsReady(c, n, received, b);
    }
    forall b ensures Prepare(n.store, b, n.cache) == Prepare(n.store, b, None) {
      CacheChangesNothing(n, b, ContextTimeout);
    }
  }

  // ------------------------------------------------------------------ where stored data comes from

  /** The step gets an answer for `b` and stores it at least up to a stage: the JSON data are
      written from stage 1 on and the additional data from stage 2 on. */
  predicate StoresData(n: Node, step: Step, b: BlockHash, least: nat) {
    && step.Handle? && step.block == b && AsksProtocol(n.store, b, n.cache)
    && match step.outcome
       case Succeeds(_) => true
       case Stops(_, stage) => stage >= least
       case Rejects(_) => false
       case ContextTimeout => false
  }

  /** The answer that the last such step of a run got. */
  ghost function LastStored(c: Chain, n: Node, steps: seq<Step>, chainId: ChainId, b: BlockHash, least: nat): Option<ApplyBlockResponse>
    requires c.Consistent() && Legal(c, steps)
    decreases |steps|
  {
    if steps == [] then None
    else
      assert LegalStep(c, steps[0]);
      assert forall i :: 0 <= i < |steps[1..]| ==> steps[1..][i] == steps[i + 1];
      var later := LastStored(c, TakeStep(n, steps[0], chainId), steps[1..], chainId, b, least);
      if later.Some? then later
      else if StoresData(n, steps[0], b, least) then Some(steps[0].outcome.response)
      else None
  }

  lemma StepStoresData(n: Node, step: Step, chainId: ChainId, b: BlockHash)
    requires Storable(step)
    ensures var s, t := n.store, TakeStep(n, step, chainId).store;
            && (if StoresData(n, step, b, 2) then b in t.extra && TakenFrom(t.extra[b], step.outcome.response)
                else (b in t.extra <==> b in s.extra) && (b in s.extra ==> t.extra[b] == s.extra[b]))
            && JsonOf(t, b) == if StoresData(n, step, b, 1) then Some(step.outcome.response.json) else JsonOf(s, b)
  {
    hide AsksProtocol, ReceiveAll;
    if step.Handle? {
      HandleCases(n, step.block, step.outcome, step.during, chainId);
      ReceiveAllKeepsJson(n.store, step.during, chainId, b);
    }
  }

  lemma {:induction false} ReceiveAllKeepsJson(s: Store, hs: seq<Header>, chainId: ChainId, b: BlockHash)
    requires forall i :: 0 <= i < |hs| ==> hs[i].level > -0x8000_0000
    ensures JsonOf(ReceiveAll(s, hs, chainId), b) == JsonOf(s, b)
  {
    if hs != [] {
      ReceiveAllKeepsJson(s, hs[..|hs| - 1], chainId, b);
    }
  }

  /** After every run the additional data and the JSON data of a block are those of the last answer
      stored for it, and untouched when there was none. */
  lemma {:induction false} DataFromLastStore(c: Chain, n: Node, steps: seq<Step>, chainId: ChainId, b: BlockHash)
    requires c.Consistent() && Legal(c, steps)
    ensures var t := Run(c, n, steps, chainId).store;
            && (match LastStored(c, n, steps, chainId, b, 2)
                case Some(r) => b in t.extra && TakenFrom(t.extra[b], r)
                case None => (b in t.extra <==> b in n.store.extra) && (b in t.extra ==> t.extra[b] == n.store.extra[b]))
            && (match LastStored(c, n, steps, chainId, b, 1)
                case Some(r) => JsonOf(t, b) == Some(r.json)
                case None => JsonOf(t, b) == JsonOf(n.store, b))
    decreases |steps|
  {
    hide TakeStep, StoresData, TakenFrom, JsonOf;
    if steps != [] {
      assert LegalStep(c, steps[0]);
      StepStoresData(n, steps[0], chainId, b);
      DataFromLastStore(c, TakeStep(n, steps[0], chainId), steps[1..], chainId, b);
    }
  }

  /** So a request after any run from committed genesis carries what the protocol last answered for
      the parent, or the genesis data. */
  lemma RequestCarriesAnswer(c: Chain, steps: seq<Step>, chainId: ChainId, json: B.JsonData, data: AdditionalData, b: BlockHash)
    requires c.Consistent() && Legal(c, steps)
    requires var n := Run(c, Fresh(c, chainId, json, data), steps, chainId); AsksProtocol(n.store, b, n.cache)
    ensures var start := Fresh(c, chainId, json, data);
            var n := Run(c, start, steps, chainId);
            && RequestRight(c, n, b)
            && var carried := Prepare(n.store, b, n.cache).request.predecessorData;
               match LastStored(c, start, steps, chainId, c.Parent(b), 2)
               case Some(r) => TakenFrom(carried, r)
               case None => c.Parent(b) == c.genesis && carried == data
  {
    hide Run, TakeStep, AsksProtocol;
    var start := Fresh(c, chainId, json, data);
    FreshInv(c, chainId, json, data);
    RunKeepsInv(c, start, {}, steps, chainId);
    AskedIsReady(c, Run(c, start, steps, chainId), {} + ReceivedBy(steps), b);
    DataFromLastStore(c, start, steps, chainId, c.Parent(b));
  }

  // ------------------------------------------------------------------ the chain of the records

  ghost predicate OneChain(metas: MetaColumn, chainId: ChainId) {
    forall b :: b in metas ==> metas[b].chainId == chainId
  }

  lemma {:induction false} ReceiveAllKeepsChain(s: Store, hs: seq<Header>, chainId: ChainId)
    requires forall i :: 0 <= i < |hs| ==> hs[i].level > -0x8000_0000
    requires OneChain(s.metas, chainId)
    ensures OneChain(ReceiveAll(s, hs, chainId).metas, chainId)
  {
    if hs != [] {
      ReceiveAllKeepsChain(s, hs[..|hs| - 1], chainId);
    }
  }

  lemma StepKeepsChain(n: Node, step: Step, chainId: ChainId)
    requires Storable(step) && OneChain(n.store.metas, chainId)
    ensures OneChain(TakeStep(n, step, chainId).store.metas, chainId)
  {
    hide AsksProtocol, ReceiveAll;
    if step.Handle? {
      HandleCases(n, step.block, step.outcome, step.during, chainId);
      ReceiveAllKeepsChain(n.store, step.during, chainId);
    }
  }

  /** Every record names the node's own chain, after every run. */
  lemma {:induction false} RecordsNameChain(c: Chain, n: Node, steps: seq<Step>, chainId: ChainId)
    requires c.Consistent() && Legal(c, steps) && OneChain(n.store.metas, chainId)
    ensures OneChain(Run(c, n, steps, chainId).store.metas, chainId)
    decreases |steps|
  {
    hide TakeStep, OneChain;
    if steps != [] {
      assert LegalStep(c, steps[0]);
      StepKeepsChain(n, steps[0], chainId);
      RecordsNameChain(c, TakeStep(n, steps[0], chainId), steps[1..], chainId);
    }
  }

  // ------------------------------------------------------------------ the records after a run

  /** No header arrives while a block is being applied. */
  ghost predicate Serialised(steps: seq<Step>) {
    forall i :: 0 <= i < |steps| && steps[i].Handle? ==> steps[i].during == []
  }

  lemma SerialStepKeepsRecords(c: Chain, n: Node, received: set<BlockHash>, step: Step, chainId: ChainId)
    requires c.Consistent() && Inv(c, n, received) && H.Recorded(c, n.store.metas, received, true) && LegalStep(c, step)
    requires step.Handle? ==> step.during == []
    ensures H.Recorded(c, TakeStep(n, step, chainId).store.metas, received + ReceivedIn(step), true)
  {
    match step
    case Receive(h) => H.HeaderKeepsRecorded(c, n.store.metas, received, true, h, chainId);
    case NextBatch => assert received + {} == received;
    case Handle(b, o, during) =>
      assert received + H.HashesOf(during) == received;
      if AsksProtocol(n.store, b, n.cache) {
        AskedIsReady(c, n, received, b);
        H.MarkAppliedKeepsRecorded(c, n.store.metas, received, true, b);
      }
  }

  /** Then the records, successor lists included, are exactly those of the headers received. */
  lemma {:induction false} SerialRunKeepsRecords(c: Chain, n: Node, received: set<BlockHash>, steps: seq<Step>, chainId: ChainId)
    requires c.Consistent() && Inv(c, n, received) && H.Recorded(c, n.store.metas, received, true)
    requires Legal(c, steps) && Serialised(steps)
    ensures H.Recorded(c, Run(c, n, steps, chainId).store.metas, received + ReceivedBy(steps), true)
    decreases |steps|
  {
    if steps == [] {
      assert received + ReceivedBy(steps) == received;
    } else {
      assert LegalStep(c, steps[0]);
      StepKeepsInv(c, n, received, steps[0], chainId);
      SerialStepKeepsRecords(c, n, received, steps[0], chainId);
      assert received + ReceivedBy(steps) == received + ReceivedIn(steps[0]) + ReceivedBy(steps[1..]);
      SerialRunKeepsRecords(c, TakeStep(n, steps[0], chainId), received + ReceivedIn(steps[0]), steps[1..], chainId);
    }
  }

  // ------------------------------------------------------------------ runs without stops

  ghost predicate NoStops(steps: seq<Step>) {
    forall i :: 0 <= i < |steps| && steps[i].Handle? ==> !steps[i].outcome.Stops?
  }

  /** Without stops additional data and flags agree, so the worker's check is enough. */
  lemma {:induction false} NoStopsOnAppliedParent(c: Chain, n: Node, received: set<BlockHash>, steps: seq<Step>, chainId: ChainId)
    requires c.Consistent() && Inv(c, n, received) && Legal(c, steps) && NoStops(steps)
    requires n.store.extra.Keys == Applied(n.store.metas)
    ensures AlwaysOnAppliedParent(c, n, steps, chainId)
    ensures var t := Run(c, n, steps, chainId).store; t.extra.Keys == Applied(t.metas)
    decreases |steps|
  {
    if steps != [] {
      var step := steps[0];
      assert LegalStep(c, step);
      StepKeepsInv(c, n, received, step, chainId);
      DataFollowsFlag(c, n, received, step, chainId);
      NoStopsOnAppliedParent(c, TakeStep(n, step, chainId), received + ReceivedIn(step), steps[1..], chainId);
    }
  }

  lemma DataFollowsFlag(c: Chain, n: Node, received: set<BlockHash>, step: Step, chainId: ChainId)
    requires c.Consistent() && Inv(c, n, received) && LegalStep(c, step)
    requires step.Handle? ==> !step.outcome.Stops?
    requires n.store.extra.Keys == Applied(n.store.metas)
    ensures OnAppliedParent(n, step)
    ensures var t := TakeStep(n, step, chainId).store; t.extra.Keys == Applied(t.metas)
  {
    match step
    case Receive(h) => ReceiveKeepsInv(c, n, received, h, chainId);
    case NextBatch =>
    case Handle(b, o, during) =>
      HandleCases(n, b, o, during, chainId);
      HandleMarks(c, n, received, b, o, during, chainId);
      if AsksProtocol(n.store, b, n.cache) {
        AskedIsReady(c, n, received, b);
        assert c.Linked(b);
      }
  }

  /** In every state reached without a stop, for every applied block and every distance, the
      skip lookup is the one-step walk. */
  lemma LookupIsNaiveWalkWithoutStops(c: Chain, steps: seq<Step>, chainId: ChainId, json: B.JsonData, data: AdditionalData, b: BlockHash, d: nat)
    requires c.Consistent() && Legal(c, steps) && NoStops(steps)
    requires b in Applied(Run(c, Fresh(c, chainId, json, data), steps, chainId).store.metas)
    ensures var s := Run(c, Fresh(c, chainId, json, data), steps, chainId).store;
            && b in c.headers
            && M.Find(s.slots, b, d) == M.NaiveWalk(s.metas, b, d)
            && (M.Find(s.slots, b, d).None? <==> d > c.Depth(b))
  {
    var start := Fresh(c, chainId, json, data);
    FreshInv(c, chainId, json, data);
    assert Applied(start.store.metas) == {c.genesis};
    NoStopsOnAppliedParent(c, start, {}, steps, chainId);
    LookupIsNaiveWalk(c, steps, chainId, json, data, b, d);
  }
}
