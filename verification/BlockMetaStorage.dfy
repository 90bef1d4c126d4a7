/** The block-metadata storage: recording headers as they arrive, and looking up an ancestor
    through the skip index. */
module BlockMetaStorage {
  import opened Numbers
  import opened Blocks
  import opened MetaMerge
  import opened PredecessorIndex

  // ------------------------------------------------------------------ powers of two

  /** The exponent of the largest power of two that is at most `d`. */
  function Log2(d: nat): (p: nat)
    requires d >= 1
    ensures Pow2(p) <= d < Pow2(p + 1)
  {
    if d == 1 then 0 else 1 + Log2(d / 2)
  }

  lemma {:induction false} Log2Unique(d: nat, p: nat)
    requires Pow2(p) <= d < Pow2(p + 1)
    ensures d >= 1 && p == Log2(d)
  {
    var q := Log2(d);
    if p < q {
      Pow2Monotone(p + 1, q);
    } else if q < p {
      Pow2Monotone(q + 1, p);
    }
  }

  /** `closest_power_two_and_rest`. Every variable stays an `i32`. */
  method ClosestPowerTwoAndRest(distance: Level) returns (r: Result<(nat, Level)>)
    ensures distance < 0 <==> r == Err(PredecessorLookupError)
    ensures distance >= 1 ==> r.Ok? && r.value.0 == Log2(distance) &&
                              0 <= r.value.1 < Pow2(r.value.0) && Pow2(r.value.0) + r.value.1 == distance
    ensures distance == 0 ==> r == Ok((0, 0))
  {
    if distance < 0 {
      return Err(PredecessorLookupError);
    }
    var closestPower: nat := 0;
    var rest: Level := 0;
    var left: Level := distance;
    while left > 1
      invariant distance == 0 ==> left == 0 && closestPower == 0 && rest == 0
      invariant distance >= 1 ==> left >= 1
      invariant 0 <= rest < Pow2(closestPower)
      invariant distance == Pow2(closestPower) * left + rest
      decreases left
    {
      var p := Pow2(closestPower);
      HalveStep(p, left);
      var weight: Level := p * (left % 2);
      rest := rest + weight;
      left := left / 2;
      closestPower := closestPower + 1;
    }
    if distance >= 1 {
      Log2Unique(distance, closestPower);
    }
    r := Ok((closestPower, rest));
  }

  lemma HalveStep(p: nat, left: nat)
    ensures p * left == (2 * p) * (left / 2) + p * (left % 2)
    ensures 0 <= p * (left % 2) <= p
    ensures left > 1 ==> p <= p * left
  {
    Distribute(p, left / 2, left % 2);
    assert left == 2 * (left / 2) + left % 2;
    if left % 2 == 0 {
      assert p * 0 == 0;
    } else {
      assert p * 1 == p;
    }
    if left > 1 {
      AtLeastOnce(p, left);
    }
  }

  lemma Distribute(p: nat, h: nat, r: nat)
    ensures p * (2 * h + r) == (2 * p) * h + p * r
  {
  }

  lemma AtLeastOnce(p: nat, n: nat)
    requires n >= 1
    ensures p <= p * n
  {
    assert p * n == p + p * (n - 1);
  }

  // ------------------------------------------------------------------ the lookup

  /** The slot a lookup at distance `d` jumps through: the largest stored one that fits. */
  function HopExponent(d: nat): (p: nat)
    requires d >= 1
    ensures p < STORED_PREDECESSORS_SIZE && Pow2(p) <= d
  {
    var p := Log2(d);
    if p >= STORED_PREDECESSORS_SIZE then
      Pow2Monotone(STORED_PREDECESSORS_SIZE - 1, p);
      STORED_PREDECESSORS_SIZE - 1
    else p
  }

  /** Greedy descent through the slots. */
  function Find(slots: Slots, b: BlockHash, d: nat): Option<BlockHash>
    decreases d
  {
    if d == 0 then Some(b)
    else
      var key := PredecessorKey(b, HopExponent(d));
      if key in slots then Find(slots, slots[key], d - Pow2(HopExponent(d))) else None
  }

  /** The number of slots a successful lookup reads. */
  function ReadsFor(d: nat): nat {
    d / 2048 + OneBits(d % 2048)
  }

  lemma HopExponentByRange(d: nat)
    requires d >= 1
    ensures HopExponent(d) == if d >= Pow2(11) then 11 else Log2(d)
  {
    if d >= Pow2(11) {
      if Log2(d) < 11 {
        Pow2Monotone(Log2(d) + 1, 11);
      }
    } else if Log2(d) >= 11 {
      Pow2Monotone(11, Log2(d));
    }
  }

  lemma ReadsBelowCap(d: nat, p: nat)
    requires d < 2048 && Pow2(p) <= d < Pow2(p + 1)
    ensures ReadsFor(d) == 1 + ReadsFor(d - Pow2(p))
  {
    var rest := d - Pow2(p);
    OneBitsAddPower(p, rest);
    assert d / 2048 == 0 && d % 2048 == d;
    assert rest / 2048 == 0 && rest % 2048 == rest;
  }

  lemma ReadsAboveCap(d: nat)
    requires d >= 2048
    ensures ReadsFor(d) == 1 + ReadsFor(d - 2048)
  {
    assert (d - 2048) / 2048 == d / 2048 - 1;
    assert (d - 2048) % 2048 == d % 2048;
  }

  /** Each hop uses up one read. */
  lemma ReadsAfterHop(d: nat)
    requires d >= 1
    ensures ReadsFor(d) == 1 + ReadsFor(d - Pow2(HopExponent(d)))
  {
    hide HopExponent, Pow2, ReadsFor, Log2;
    HopExponentByRange(d);
    Pow2Values();
    if d >= 2048 {
      ReadsAboveCap(d);
    } else {
      ReadsBelowCap(d, Log2(d));
    }
  }

  /** The closest power, limited to the stored slots. */
  method NextHop(distance: Level) returns (power: nat, rest: Level)
    requires distance >= 1
    ensures power == HopExponent(distance) && rest == distance - Pow2(power) >= 0
  {
    var closest := ClosestPowerTwoAndRest(distance);
    power, rest := closest.value.0, closest.value.1;
    if power >= STORED_PREDECESSORS_SIZE {
      Pow2Monotone(STORED_PREDECESSORS_SIZE - 1, power);
      power := STORED_PREDECESSORS_SIZE - 1;
      rest := distance - Pow2(power);
    }
  }

  lemma ShortestLookups()
    ensures ReadsFor(0) == 0
    ensures HopExponent(1) == 0 && Pow2(0) == 1
  {
  }

  /** No slot being wrong is enough for no answer to be wrong: whatever was cut short, a lookup
      that returns a block returns the ancestor at that distance. */
  lemma {:induction false} FindSound(c: Chain, slots: Slots, b: BlockHash, d: nat)
    requires c.Consistent() && Sound(c, slots) && b in c.headers
    ensures Find(slots, b, d).Some? ==> Find(slots, b, d) == c.Ancestor(b, d)
    decreases d
  {
    hide HopExponent, Pow2;
    if d > 0 {
      var hop := Pow2(HopExponent(d));
      var key := PredecessorKey(b, HopExponent(d));
      if key in slots {
        assert SlotCorrect(c, slots, key);
        c.AncestorDepth(b, hop);
        c.AncestorCompose(b, hop, d - hop);
        FindSound(c, slots, slots[key], d - hop);
      }
    }
  }

  /** In a covered chain the lookup is the one-step walk: same block, and nothing exactly when
      the distance passes genesis. */
  lemma {:induction false} FindExact(c: Chain, slots: Slots, done: set<BlockHash>, b: BlockHash, d: nat)
    requires c.Consistent() && Sound(c, slots) && Covers(c, slots, done) && b in done
    ensures Find(slots, b, d) == c.Ancestor(b, d)
    decreases d
  {
    hide HopExponent;
    c.AncestorDepth(b, d);
    if d > 0 {
      var p := HopExponent(d);
      var key := PredecessorKey(b, p);
      CoveredSlotsExact(c, slots, done, b, p);
      if key in slots {
        c.AncestorCompose(b, Pow2(p), d - Pow2(p));
        AncestorCovered(c, slots, done, b, Pow2(p));
        FindExact(c, slots, done, slots[key], d - Pow2(p));
      }
    }
  }

  // ------------------------------------------------------------------ missing slots

  lemma HopOfPower(k: nat)
    ensures Pow2(k) >= 1 && Pow2(k + 1) == Pow2(k) + Pow2(k)
    ensures HopExponent(Pow2(k)) == if k < STORED_PREDECESSORS_SIZE then k else STORED_PREDECESSORS_SIZE - 1
  {
    Log2Unique(Pow2(k), k);
  }

  /** A lookup at distance 2^k needs slot `k`. */
  lemma MissingSlotFails(slots: Slots, b: BlockHash, k: nat)
    requires k < STORED_PREDECESSORS_SIZE && PredecessorKey(b, k) !in slots
    ensures Find(slots, b, Pow2(k)) == None
  {
    HopOfPower(k);
  }

  /** One hop of a lookup at distance 2^(k+1). */
  lemma FirstHop(slots: Slots, x: BlockHash, k: nat)
    requires k < STORED_PREDECESSORS_SIZE
    ensures k + 1 < STORED_PREDECESSORS_SIZE && PredecessorKey(x, k + 1) !in slots ==>
              Find(slots, x, Pow2(k + 1)) == None
    ensures k + 1 == STORED_PREDECESSORS_SIZE ==>
              Find(slots, x, Pow2(k + 1)) == if PredecessorKey(x, k) in slots
                                             then Find(slots, slots[PredecessorKey(x, k)], Pow2(k)) else None
  {
    hide HopExponent, Pow2;
    HopOfPower(k);
    HopOfPower(k + 1);
  }

  lemma TwiceAbove(c: Chain, b: BlockHash, k: nat, x: BlockHash)
    requires c.Consistent() && b in c.headers && x in c.headers
    requires Pow2(k) <= c.Depth(b) && c.Ancestor(x, Pow2(k)) == Some(b)
    ensures c.Ancestor(x, Pow2(k + 1)) == c.Ancestor(b, Pow2(k)) && c.Ancestor(b, Pow2(k)).Some?
    ensures Pow2(k + 1) <= c.Depth(x)
  {
    c.AncestorDepth(x, Pow2(k));
    c.AncestorDepth(b, Pow2(k));
    AncestorDoubling(c, x, k);
  }

  /** A missing slot also misleads the lookups from the block 2^k above, at twice the distance. */
  lemma MissingSlotMisleads(c: Chain, slots: Slots, b: BlockHash, k: nat, x: BlockHash)
    requires c.Consistent() && Sound(c, slots) && AllSupported(c, slots)
    requires k < STORED_PREDECESSORS_SIZE && b in c.headers && PredecessorKey(b, k) !in slots && Pow2(k) <= c.Depth(b)
    requires x in c.headers && c.Ancestor(x, Pow2(k)) == Some(b)
    ensures c.Ancestor(x, Pow2(k + 1)) == c.Ancestor(b, Pow2(k)) && c.Ancestor(b, Pow2(k)).Some?
    ensures Find(slots, x, Pow2(k + 1)) == None
  {
    hide HopExponent, Find, Pow2, Chain.Ancestor, Chain.Consistent;
    TwiceAbove(c, b, k, x);
    FirstHop(slots, x, k);
    MissingSlotFails(slots, b, k);
    assert Supported(c, slots, x);
    assert PredecessorKey(x, k + 1) in slots ==> SourcePresent(c, slots, x, (k + 1) - 1);
    assert PredecessorKey(x, k) in slots ==> SlotCorrect(c, slots, PredecessorKey(x, k));
  }

  lemma HopRange(d: nat)
    requires d >= 1
    ensures Pow2(HopExponent(d)) >= 1
    ensures HopExponent(d) + 1 < STORED_PREDECESSORS_SIZE ==> d < 2 * Pow2(HopExponent(d))
  {
    HopExponentByRange(d);
  }

  /** Nearer than 2^k above a block cut after `k` slots, lookups are right; from the block itself
      they are right below that distance. */
  lemma {:induction false} FindNear(c: Chain, slots: Slots, done: set<BlockHash>, b: BlockHash, k: nat, x: BlockHash, up: nat, d: nat)
    requires c.Consistent() && Sound(c, slots)
    requires Covers(c, slots, done) && b in c.headers && b != c.genesis && c.Parent(b) in done
    requires SlotsBelow(c, slots, b, k) && k < STORED_PREDECESSORS_SIZE
    requires x in c.headers && c.Ancestor(x, up) == Some(b) && up < Pow2(k) && ChainComplete(c, slots, x, up)
    requires up == 0 ==> d < Pow2(k)
    ensures Find(slots, x, d) == c.Ancestor(x, d)
    decreases d
  {
    hide Pow2, HopExponent, Log2, Covers, ChainComplete;
    c.AncestorDepth(x, d);
    if d > 0 {
      var p := HopExponent(d);
      var key := PredecessorKey(x, p);
      HopRange(d);
      NearSlot(c, slots, b, k, x, up, p);
      if key in slots {
        assert SlotCorrect(c, slots, key);
        NearHop(c, slots, done, b, k, x, up, d);
      }
    }
  }

  lemma NearSlot(c: Chain, slots: Slots, b: BlockHash, k: nat, x: BlockHash, up: nat, p: nat)
    requires c.Consistent() && b in c.headers && SlotsBelow(c, slots, b, k) && p < STORED_PREDECESSORS_SIZE
    requires x in c.headers && c.Ancestor(x, up) == Some(b) && ChainComplete(c, slots, x, up)
    requires up == 0 ==> Pow2(p) < Pow2(k)
    ensures Pow2(p) <= c.Depth(x) ==> PredecessorKey(x, p) in slots
  {
    if up == 0 {
      if p >= k {
        Pow2Monotone(k, p);
      }
      assert SlotPresent(c, slots, b, p);
    } else {
      assert Complete(c, slots, x);
      assert SlotPresent(c, slots, x, p);
    }
  }

  /** The rest of the lookup after one hop. */
  lemma {:induction false} NearHop(c: Chain, slots: Slots, done: set<BlockHash>, b: BlockHash, k: nat, x: BlockHash, up: nat, d: nat)
    requires c.Consistent() && Sound(c, slots)
    requires Covers(c, slots, done) && b in c.headers && b != c.genesis && c.Parent(b) in done
    requires SlotsBelow(c, slots, b, k) && k < STORED_PREDECESSORS_SIZE
    requires x in c.headers && c.Ancestor(x, up) == Some(b) && up < Pow2(k) && ChainComplete(c, slots, x, up)
    requires d >= 1 && c.Ancestor(x, Pow2(HopExponent(d))).Some?
    ensures var h := Pow2(HopExponent(d)); Find(slots, c.Ancestor(x, h).value, d - h) == c.Ancestor(x, d)
    decreases d, 0
  {
    hide Pow2, HopExponent, Log2, Covers, ChainComplete, Find, SlotsBelow, Sound;
    var p := HopExponent(d);
    var h := Pow2(p);
    HopRange(d);
    c.AncestorDepth(x, h);
    c.AncestorDepth(x, up);
    c.AncestorCompose(x, h, d - h);
    var y := c.Ancestor(x, h).value;
    if h < up {
      ChainCompleteBelow(c, slots, x, up, h);
      c.AncestorCompose(x, h, up - h);
      FindNear(c, slots, done, b, k, y, up - h, d - h);
    } else if h == up {
      if p + 1 >= STORED_PREDECESSORS_SIZE {
        Pow2Monotone(k, p);
      }
      NothingAbove(c, slots, b);
      FindNear(c, slots, done, b, k, b, 0, d - h);
    } else {
      BelowCut(c, slots, done, b, x, up, h);
      FindExact(c, slots, done, y, d - h);
    }
  }

  lemma NothingAbove(c: Chain, slots: Slots, b: BlockHash)
    requires c.Consistent() && b in c.headers
    ensures ChainComplete(c, slots, b, 0) && c.Ancestor(b, 0) == Some(b)
  {
  }

  // ------------------------------------------------------------------ the naive walk

  /** One predecessor at a time, stopping at the genesis level or at a missing record. */
  function NaiveWalk(column: MetaColumn, b: BlockHash, d: nat): Option<BlockHash>
    decreases d
  {
    if d == 0 then Some(b)
    else if b !in column || column[b].predecessor.None? || column[b].level <= 0 then None
    else NaiveWalk(column, column[b].predecessor.value, d - 1)
  }

  /** The loop that `find_block_at_distance` replaced. */
  method FindBlockAtDistanceOld(column: MetaColumn, blockHash: BlockHash, requestedDistance: Level)
    returns (r: Option<BlockHash>)
    requires requestedDistance >= 0
    ensures r == NaiveWalk(column, blockHash, requestedDistance)
  {
    if requestedDistance == 0 {
      return Some(blockHash);
    }
    var currentBlock, currentDistance := blockHash, 0;
    while true
      invariant 0 <= currentDistance < requestedDistance
      invariant NaiveWalk(column, currentBlock, requestedDistance - currentDistance) ==
                NaiveWalk(column, blockHash, requestedDistance)
      decreases requestedDistance - currentDistance
    {
      if currentBlock !in column {
        return None;
      }
      var meta := column[currentBlock];
      if meta.predecessor.None? || meta.level <= 0 {
        return None;
      }
      if currentDistance + 1 == requestedDistance {
        return meta.predecessor;
      }
      currentBlock, currentDistance := meta.predecessor.value, currentDistance + 1;
    }
  }

  // ------------------------------------------------------------------ recording headers

  /** The records after a header arrived. Its own record is created, or completed when it was a
      placeholder; its predecessor's record gains it as a successor, or is created as a
      placeholder. */
  function PutOwnRecord(column: MetaColumn, h: Header, chainId: ChainId): MetaColumn {
    if h.hash !in column then Put(column, h.hash, Meta(false, Some(h.predecessor), [], h.level, chainId))
    else if column[h.hash].predecessor.None? then
      Put(column, h.hash, column[h.hash].(predecessor := Some(h.predecessor)))
    else column
  }

  function PutSuccessor(column: MetaColumn, h: Header, chainId: ChainId): MetaColumn
    requires h.level > -0x8000_0000
  {
    if h.predecessor !in column then
      Put(column, h.predecessor, Meta(false, None, [h.hash], h.level - 1, chainId))
    else if h.hash !in column[h.predecessor].successors then
      Put(column, h.predecessor,
          column[h.predecessor].(successors := column[h.predecessor].successors + [h.hash]))
    else column
  }

  function PutHeader(column: MetaColumn, h: Header, chainId: ChainId): MetaColumn
    requires h.level > -0x8000_0000
  {
    PutSuccessor(PutOwnRecord(column, h, chainId), h, chainId)
  }

  class BlockMetaStorage<AdditionalData(==)> {
    var kv: MetaColumn
    var additionalData: map<BlockHash, AdditionalData>
    const predecessorsIndex: PredecessorStorage

    constructor ()
      ensures kv == map[] && additionalData == map[] && predecessorsIndex.kv == map[]
      ensures fresh(predecessorsIndex)
    {
      kv, additionalData := map[], map[];
      predecessorsIndex := new PredecessorStorage();
    }

    method PutMeta(blockHash: BlockHash, meta: Meta)
      modifies this`kv
      ensures kv == Put(old(kv), blockHash, meta)
    {
      kv := Put(kv, blockHash, meta);
    }

    /** `BlockMetaStorage::put_block_header`. A level of `i32::MIN` overflows in the source. */
    method PutBlockHeader(h: Header, chainId: ChainId) returns (blockMetadata: Meta)
      requires h.level > -0x8000_0000
      modifies this`kv
      ensures kv == PutHeader(old(kv), h, chainId)
      ensures h.hash in PutOwnRecord(old(kv), h, chainId)
      ensures blockMetadata == PutOwnRecord(old(kv), h, chainId)[h.hash]
    {
      if h.hash in kv {
        blockMetadata := kv[h.hash];
        if blockMetadata.predecessor.None? {
          blockMetadata := blockMetadata.(predecessor := Some(h.predecessor));
          PutMeta(h.hash, blockMetadata);
        }
      } else {
        blockMetadata := Meta(false, Some(h.predecessor), [], h.level, chainId);
        PutMeta(h.hash, blockMetadata);
      }

      if h.predecessor in kv {
        var meta := kv[h.predecessor];
        var needChange := |meta.successors| == 0 || h.hash !in meta.successors;
        if needChange {
          meta := meta.(successors := meta.successors + [h.hash]);
          PutMeta(h.predecessor, meta);
        }
      } else {
        PutMeta(h.predecessor, Meta(false, None, [h.hash], h.level - 1, chainId));
      }
    }

    /** `BlockMetaStorage::find_block_at_distance`, for the distances it implements. */
    method FindBlockAtDistance(blockHash: BlockHash, requestedDistance: Level)
      returns (r: Option<BlockHash>, ghost slotReads: nat)
      requires requestedDistance >= 0
      ensures r == Find(predecessorsIndex.kv, blockHash, requestedDistance)
      ensures r.Some? ==> slotReads == ReadsFor(requestedDistance)
    {
      slotReads := 0;
      ShortestLookups();
      hide ReadsFor, HopExponent, Pow2;
      if requestedDistance == 0 {
        return Some(blockHash), 0;
      }
      var slots := predecessorsIndex.kv;
      var distance: Level, current := requestedDistance, blockHash;
      while true
        invariant distance >= 1
        invariant Find(slots, current, distance) == Find(slots, blockHash, requestedDistance)
        invariant slotReads + ReadsFor(distance) == ReadsFor(requestedDistance)
        decreases distance
      {
        ReadsAfterHop(distance);
        slotReads := slotReads + 1;
        if distance == 1 {
          var key := PredecessorKey(current, 0);
          if key in slots {
            return Some(slots[key]), slotReads;
          }
          return None, slotReads;
        }
        var power, rest := NextHop(distance);
        var key := PredecessorKey(current, power);
        if key !in slots {
          return None, slotReads;
        }
        if rest == 0 {
          return Some(slots[key]), slotReads;
        }
        current := slots[key];
        distance := rest;
      }
    }

    /** `BlockMetaStorage::store_predecessors`. */
    method StorePredecessors(blockHash: BlockHash, blockMeta: Meta, writes: nat)
      returns (r: Result<()>, ghost history: seq<Slots>)
      modifies predecessorsIndex
      ensures writes <= STORED_PREDECESSORS_SIZE ==>
                predecessorsIndex.kv == CutSlots(old(predecessorsIndex.kv), blockHash, blockMeta.predecessor, writes)
      ensures r.Ok? ==>
                predecessorsIndex.kv ==
                StoreSlots(old(predecessorsIndex.kv), blockHash, blockMeta.predecessor, STORED_PREDECESSORS_SIZE)
      ensures r.Err? ==> r == Err(DbError)
      ensures writes >= STORED_PREDECESSORS_SIZE ==> r.Ok?
      ensures SlotTrace(old(predecessorsIndex.kv), blockHash, history, predecessorsIndex.kv)
      ensures |history| <= STORED_PREDECESSORS_SIZE
      ensures forall i :: 0 <= i < |history| ==>
                history[i] == StoreSlots(old(predecessorsIndex.kv), blockHash, blockMeta.predecessor, i + 1)
    {
      r, history := predecessorsIndex.StorePredecessors(blockHash, blockMeta, STORED_PREDECESSORS_SIZE, writes);
    }

    method PutBlockAdditionalData(blockHash: BlockHash, data: AdditionalData)
      modifies this`additionalData
      ensures additionalData == old(additionalData)[blockHash := data]
    {
      additionalData := additionalData[blockHash := data];
    }
  }
}
