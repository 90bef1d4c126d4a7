/** Storing the result of an applied block: a fixed order of writes, with the applied flag
    last, so that a stop between any two writes leaves a usable store. */
module ApplyStore {
  import opened Numbers
  import opened Blocks
  import opened MetaMerge
  import opened PredecessorIndex
  import B = BlockStorage
  import M = BlockMetaStorage

  type Hash = seq<byte>

  /** The parts of the protocol's answer that are stored. A time to live that does not fit makes
      the source panic. */
  datatype ApplyBlockResponse = ApplyBlockResponse(
    json: B.JsonData,
    maxOperationsTtl: nat,
    lastAllowedForkLevel: Level,
    protocolHash: Hash,
    nextProtocolHash: Hash,
    blockMetadataHash: Option<Hash>,
    opsMetadataHash: Option<Hash>,
    opsMetadataHashes: Option<seq<seq<Hash>>>)

  datatype AdditionalData = AdditionalData(
    maxOperationsTtl: nat,
    lastAllowedForkLevel: Level,
    protocolHash: Hash,
    nextProtocolHash: Hash,
    blockMetadataHash: Option<Hash>,
    opsMetadataHash: Option<Hash>,
    opsMetadataHashes: Option<seq<seq<Hash>>>)

  /** The hash over the operations' metadata is kept only when there are operations. */
  function AdditionalDataOf(r: ApplyBlockResponse): (d: AdditionalData)
    ensures TakenFrom(d, r)
  {
    AdditionalData(
      r.maxOperationsTtl, r.lastAllowedForkLevel, r.protocolHash, r.nextProtocolHash, r.blockMetadataHash,
      if r.opsMetadataHashes.Some? && r.opsMetadataHashes.value != [] then r.opsMetadataHash else None,
      r.opsMetadataHashes)
  }

  /** What additional data must hold of the answer it came with: every field of the same name, and
      the hash over the operations' metadata only when there are operations. */
  predicate TakenFrom(d: AdditionalData, r: ApplyBlockResponse) {
    && d.maxOperationsTtl == r.maxOperationsTtl
    && d.lastAllowedForkLevel == r.lastAllowedForkLevel
    && d.protocolHash == r.protocolHash
    && d.nextProtocolHash == r.nextProtocolHash
    && d.blockMetadataHash == r.blockMetadataHash
    && d.opsMetadataHashes == r.opsMetadataHashes
    && match r.opsMetadataHashes
       case None => d.opsMetadataHash == None
       case Some(hashes) => d.opsMetadataHash == if |hashes| == 0 then None else r.opsMetadataHash
  }

  /** Everything the node keeps about blocks. */
  datatype Store = Store(
    blocks: map<BlockHash, B.Stored>,
    metas: MetaColumn,
    slots: Slots,
    extra: map<BlockHash, AdditionalData>)

  /** JSON data, additional data, up to twelve slots, the flag. */
  const LAST_STAGE: nat := 3 + STORED_PREDECESSORS_SIZE

  /** The store when storing the result of `b` has come as far as `stage`. */
  function StoreCut(s: Store, b: BlockHash, meta: Meta, r: ApplyBlockResponse, stage: nat): Store
    requires b in s.blocks
  {
    Store(
      if stage < 1 then s.blocks else s.blocks[b := s.blocks[b].(json := Some(r.json))],
      if stage < LAST_STAGE then s.metas else Put(s.metas, b, meta.(isApplied := true)),
      CutSlots(s.slots, b, meta.predecessor, SlotsAt(stage)),
      if stage < 2 then s.extra else s.extra[b := AdditionalDataOf(r)])
  }

  /** How many slots are written by then, at most. */
  function SlotsAt(stage: nat): nat {
    if stage < 2 then 0 else if stage < LAST_STAGE then stage - 2 else STORED_PREDECESSORS_SIZE
  }

  function JsonOf(s: Store, b: BlockHash): Option<B.JsonData> {
    if b in s.blocks then s.blocks[b].json else None
  }

  ghost function View(blockStorage: B.BlockStorage, metaStorage: M.BlockMetaStorage<AdditionalData>): Store
    reads blockStorage, metaStorage, metaStorage.predecessorsIndex
  {
    Store(blockStorage.contents, metaStorage.kv, metaStorage.predecessorsIndex.kv, metaStorage.additionalData)
  }

  /** The first writes of `store_applied_block_result`, on a database that fails at a stage. */
  method StoreData(
    blockStorage: B.BlockStorage, metaStorage: M.BlockMetaStorage<AdditionalData>,
    blockHash: BlockHash, r: ApplyBlockResponse, ghost blockMetadata: Meta, stage: nat)
    returns (res: Result<AdditionalData>, ghost history: seq<Store>)
    requires blockStorage.Valid()
    modifies blockStorage, metaStorage`additionalData
    ensures blockStorage.Valid()
    ensures blockHash !in old(View(blockStorage, metaStorage)).blocks ==>
              && res == Err(if stage == 0 then DbError else MissingKey)
              && View(blockStorage, metaStorage) == old(View(blockStorage, metaStorage))
    ensures blockHash in old(View(blockStorage, metaStorage)).blocks ==>
              var before := old(View(blockStorage, metaStorage));
              && res == (if stage < 2 then Err(DbError) else Ok(AdditionalDataOf(r)))
              && history == DataStates(before, blockHash, blockMetadata, r, stage)
              && View(blockStorage, metaStorage) ==
                 StoreCut(before, blockHash, blockMetadata, r, if stage < 2 then stage else 2)
  {
    history := [];
    ghost var before := View(blockStorage, metaStorage);
    if stage == 0 {
      return Err(DbError), [];
    }
    var stored, _ := blockStorage.PutBlockJsonData(blockHash, r.json);
    if stored.Err? {
      return Err(MissingKey), [];
    }
    history := [before, View(blockStorage, metaStorage), View(blockStorage, metaStorage)];
    if stage == 1 {
      return Err(DbError), history;
    }
    var data := AdditionalDataOf(r);
    metaStorage.PutBlockAdditionalData(blockHash, data);
    history := history + [View(blockStorage, metaStorage)];
    res := Ok(data);
  }

  /** The store after each write before the slots: the JSON data goes to the log, where no reader
      sees it yet, to the index by hash and to the index by level. */
  ghost function DataStates(s: Store, b: BlockHash, meta: Meta, r: ApplyBlockResponse, stage: nat): seq<Store>
    requires b in s.blocks
  {
    (if stage < 1 then [] else [s, StoreCut(s, b, meta, r, 1), StoreCut(s, b, meta, r, 1)])
    + (if stage < 2 then [] else [StoreCut(s, b, meta, r, 2)])
  }

  /** The store after each slot write. */
  ghost function SlotStates(data: Store, tables: seq<Slots>): seq<Store> {
    seq(|tables|, i requires 0 <= i < |tables| => data.(slots := tables[i]))
  }

  /** `store_applied_block_result` on a database that fails at a stage; from `LAST_STAGE` on it
      does not. `history` is the store after each write and `tables` the slot table after each slot
      write. */
  method StoreAppliedBlockResult(
    blockStorage: B.BlockStorage, metaStorage: M.BlockMetaStorage<AdditionalData>,
    blockHash: BlockHash, r: ApplyBlockResponse, blockMetadata: Meta, stage: nat)
    returns (res: Result<AdditionalData>, ghost history: seq<Store>, ghost tables: seq<Slots>)
    requires blockStorage.Valid()
    modifies blockStorage, metaStorage, metaStorage.predecessorsIndex
    ensures blockStorage.Valid()
    ensures blockHash !in old(View(blockStorage, metaStorage)).blocks ==>
              && res == Err(if stage == 0 then DbError else MissingKey)
              && View(blockStorage, metaStorage) == old(View(blockStorage, metaStorage))
    ensures blockHash in old(View(blockStorage, metaStorage)).blocks ==>
              var before, after := old(View(blockStorage, metaStorage)), View(blockStorage, metaStorage);
              && res == (if stage < LAST_STAGE then Err(DbError) else Ok(AdditionalDataOf(r)))
              && (res.Ok? ==> TakenFrom(res.value, r))
              && (stage >= 1 ==> JsonOf(after, blockHash) == Some(r.json))
              && (stage >= 2 ==> blockHash in after.extra && TakenFrom(after.extra[blockHash], r))
              && after == StoreCut(before, blockHash, blockMetadata, r, stage)
              && SlotTrace(before.slots, blockHash, tables, after.slots)
              && history == DataStates(before, blockHash, blockMetadata, r, stage)
                            + SlotStates(StoreCut(before, blockHash, blockMetadata, r, 2), tables)
                            + (if stage < LAST_STAGE then [] else [after])
              && (forall t :: t in history ==> IsCut(before, blockHash, blockMetadata, r, t))
  {
    hide StoreSlots, IsCut, StoreCut, SlotTrace, SlotStates, DataStates;
    ghost var before := View(blockStorage, metaStorage);
    tables := [];
    NoTables(before, blockHash);
    res, history := StoreData(blockStorage, metaStorage, blockHash, r, blockMetadata, stage);
    if blockHash in before.blocks {
      DataCuts(before, blockHash, blockMetadata, r, stage);
      DataStored(before, blockHash, blockMetadata, r, stage);
    }
    if res.Err? {
      return;
    }
    ghost var data := View(blockStorage, metaStorage);
    LastCut(before, blockHash, blockMetadata, r, stage);

    var stored;
    stored, tables := metaStorage.StorePredecessors(blockHash, blockMetadata, SlotsAt(stage));
    TableCuts(before, blockHash, blockMetadata, r, tables);
    history := history + SlotStates(data, tables);
    if stored.Err? || stage < LAST_STAGE {
      return Err(DbError), history, tables;
    }
    var flagged := blockMetadata.(isApplied := true);
    metaStorage.PutMeta(blockHash, flagged);
    CutIsCut(before, blockHash, blockMetadata, r, LAST_STAGE);
    LastCut(before, blockHash, blockMetadata, r, LAST_STAGE);
    history := history + [View(blockStorage, metaStorage)];
  }

  lemma DataStored(s: Store, b: BlockHash, meta: Meta, r: ApplyBlockResponse, stage: nat)
    requires b in s.blocks
    ensures var t := StoreCut(s, b, meta, r, stage);
            && (stage >= 1 ==> JsonOf(t, b) == Some(r.json))
            && (stage >= 2 ==> b in t.extra && TakenFrom(t.extra[b], r))
  {
  }

  lemma NoTables(s: Store, b: BlockHash)
    ensures SlotTrace(s.slots, b, [], s.slots)
    ensures forall data :: SlotStates(data, []) == []
  {
  }

  lemma DataCuts(s: Store, b: BlockHash, meta: Meta, r: ApplyBlockResponse, stage: nat)
    requires b in s.blocks
    ensures forall t :: t in DataStates(s, b, meta, r, stage) ==> IsCut(s, b, meta, r, t)
    ensures stage < 3 ==> StoreCut(s, b, meta, r, stage).slots == s.slots
  {
    CutIsCut(s, b, meta, r, 0);
    CutIsCut(s, b, meta, r, 1);
    CutIsCut(s, b, meta, r, 2);
    assert StoreCut(s, b, meta, r, 0) == s;
  }

  /** The store at a stage past the additional data, part by part. */
  lemma LastCut(s: Store, b: BlockHash, meta: Meta, r: ApplyBlockResponse, stage: nat)
    requires b in s.blocks && stage >= 2
    ensures var data := StoreCut(s, b, meta, r, 2);
            && data.slots == s.slots && data.metas == s.metas
            && StoreCut(s, b, meta, r, stage) ==
               data.(slots := CutSlots(s.slots, b, meta.predecessor, SlotsAt(stage)),
                     metas := if stage < LAST_STAGE then s.metas else Put(s.metas, b, meta.(isApplied := true)))
  {
  }

  lemma TableCuts(s: Store, b: BlockHash, meta: Meta, r: ApplyBlockResponse, tables: seq<Slots>)
    requires b in s.blocks && |tables| <= STORED_PREDECESSORS_SIZE
    requires forall i :: 0 <= i < |tables| ==> tables[i] == StoreSlots(s.slots, b, meta.predecessor, i + 1)
    ensures forall t :: t in SlotStates(StoreCut(s, b, meta, r, 2), tables) ==> IsCut(s, b, meta, r, t)
  {
    hide StoreSlots;
    var states := SlotStates(StoreCut(s, b, meta, r, 2), tables);
    forall i | 0 <= i < |tables| ensures IsCut(s, b, meta, r, states[i]) {
      CutIsCut(s, b, meta, r, i + 3);
    }
  }

  /** A state that a stop during the writes can leave behind. */
  ghost predicate IsCut(s: Store, b: BlockHash, meta: Meta, r: ApplyBlockResponse, t: Store)
    requires b in s.blocks
  {
    exists stage: nat :: stage <= LAST_STAGE && t == StoreCut(s, b, meta, r, stage)
  }

  lemma CutIsCut(s: Store, b: BlockHash, meta: Meta, r: ApplyBlockResponse, stage: nat)
    requires b in s.blocks && stage <= LAST_STAGE
    ensures IsCut(s, b, meta, r, StoreCut(s, b, meta, r, stage))
  {
  }
}
