/** The skip index: for every applied block, its ancestors at distances 1, 2, 4, ... 2048. */
module PredecessorIndex {
  import opened Numbers
  import opened Blocks
  import opened MetaMerge

  const STORED_PREDECESSORS_SIZE: nat := 12

  datatype PredecessorKey = PredecessorKey(blockHash: BlockHash, exponentSlot: nat)

  type Slots = map<PredecessorKey, BlockHash>

  // ------------------------------------------------------------------ writing a block's slots

  /** The slots after the loop has run from slot `i`, with `predecessor` the content of slot
      `i - 1`. */
  function FillFrom(slots: Slots, b: BlockHash, predecessor: BlockHash, i: nat, size: nat): Slots
    requires i >= 1
    decreases size - i
  {
    var key := PredecessorKey(predecessor, i - 1);
    if i >= size || key !in slots then slots
    else FillFrom(slots[PredecessorKey(b, i) := slots[key]], b, slots[key], i + 1, size)
  }

  /** The slots after `store_predecessors`. A smaller `size` also describes a run that was cut
      after that many slot writes. */
  function StoreSlots(slots: Slots, b: BlockHash, predecessor: Option<BlockHash>, size: nat): Slots {
    if predecessor.None? || predecessor.value == b then slots
    else FillFrom(slots[PredecessorKey(b, 0) := predecessor.value], b, predecessor.value, 1, size)
  }

  /** `next` is `prev` with slot `i` of `b` written. */
  predicate OneSlotMore(prev: Slots, b: BlockHash, i: nat, next: Slots) {
    var key := PredecessorKey(b, i);
    key in next && next == prev[key := next[key]]
  }

  function TableBefore(before: Slots, history: seq<Slots>, i: nat): Slots
    requires i <= |history|
  {
    if i == 0 then before else history[i - 1]
  }

  /** One state per slot write, in order. */
  ghost predicate SlotTrace(before: Slots, b: BlockHash, history: seq<Slots>, after: Slots) {
    && (forall i: nat {:trigger history[i]} :: i < |history| ==>
          OneSlotMore(TableBefore(before, history, i), b, i, history[i]))
    && after == TableBefore(before, history, |history|)
  }

  lemma TraceStarts(before: Slots, b: BlockHash)
    ensures SlotTrace(before, b, [], before)
  {
  }

  lemma TraceGrows(before: Slots, b: BlockHash, history: seq<Slots>, after: Slots, p: BlockHash)
    requires SlotTrace(before, b, history, after)
    ensures var next := after[PredecessorKey(b, |history|) := p]; SlotTrace(before, b, history + [next], next)
  {
    var next := after[PredecessorKey(b, |history|) := p];
    var longer := history + [next];
    forall i: nat | i < |longer| ensures OneSlotMore(TableBefore(before, longer, i), b, i, longer[i]) {
      if i < |history| {
        assert longer[i] == history[i] && TableBefore(before, longer, i) == TableBefore(before, history, i);
      }
    }
  }

  class PredecessorStorage {
    var kv: Slots

    constructor ()
      ensures kv == map[]
    {
      kv := map[];
    }

    /** `PredecessorStorage::store_predecessors` on a database that fails after `writes` writes.
        `history` is the slot table after each write: the state a stop at that point leaves
        behind. */
    method StorePredecessors(blockHash: BlockHash, blockMeta: Meta, storedPredecessorsSize: nat, writes: nat)
      returns (r: Result<()>, ghost history: seq<Slots>)
      modifies this
      ensures kv == if writes == 0 then old(kv)
                    else StoreSlots(old(kv), blockHash, blockMeta.predecessor,
                                    if writes < storedPredecessorsSize then writes else storedPredecessorsSize)
      ensures r.Ok? ==> kv == StoreSlots(old(kv), blockHash, blockMeta.predecessor, storedPredecessorsSize)
      ensures r.Err? ==> r == Err(DbError) && |history| == writes
      ensures writes >= 1 && writes >= storedPredecessorsSize ==> r.Ok?
      ensures SlotTrace(old(kv), blockHash, history, kv)
      ensures |history| <= 1 || |history| <= storedPredecessorsSize
      ensures forall i :: 0 <= i < |history| ==>
                history[i] == StoreSlots(old(kv), blockHash, blockMeta.predecessor, i + 1)
    {
      hide SlotTrace;
      history := [];
      r := Ok(());
      TraceStarts(kv, blockHash);
      match blockMeta.predecessor {
        case None =>
        case Some(directPredecessor) =>
          if directPredecessor == blockHash {
            return;
          }
          if writes == 0 {
            return Err(DbError), history;
          }
          TraceGrows(kv, blockHash, [], kv, directPredecessor);
          kv := kv[PredecessorKey(blockHash, 0) := directPredecessor];
          history := history + [kv];
          var predecessor := directPredecessor;
          var slot: nat := 1;
          while slot < storedPredecessorsSize
            invariant 1 <= slot == |history| && (slot == 1 || slot <= storedPredecessorsSize) && slot <= writes
            invariant SlotTrace(old(kv), blockHash, history, kv)
            invariant forall size :: size >= slot || size == storedPredecessorsSize ==>
                        FillFrom(kv, blockHash, predecessor, slot, size) ==
                        StoreSlots(old(kv), blockHash, blockMeta.predecessor, size)
            invariant forall i :: 0 <= i < |history| ==>
                        history[i] == StoreSlots(old(kv), blockHash, blockMeta.predecessor, i + 1)
          {
            var predecessorKey := PredecessorKey(predecessor, slot - 1);
            assert FillFrom(kv, blockHash, predecessor, slot, slot + 1) ==
                   StoreSlots(old(kv), blockHash, blockMeta.predecessor, slot + 1);
            if predecessorKey !in kv {
              return;
            }
            var p := kv[predecessorKey];
            if slot == writes {
              return Err(DbError), history;
            }
            TraceGrows(old(kv), blockHash, history, kv, p);
            kv := kv[PredecessorKey(blockHash, slot) := p];
            predecessor := p;
            slot := slot + 1;
            history := history + [kv];
          }
      }
    }
  }

  // ------------------------------------------------------------------ what the slots mean

  /** A slot holds the ancestor its exponent names. */
  ghost predicate SlotCorrect(c: Chain, slots: Slots, k: PredecessorKey)
    requires c.Consistent() && k in slots
  {
    && k.blockHash in c.headers
    && k.exponentSlot < STORED_PREDECESSORS_SIZE
    && c.Ancestor(k.blockHash, Pow2(k.exponentSlot)) == Some(slots[k])
  }

  /** No slot is wrong. This survives a stop at any point. */
  ghost predicate Sound(c: Chain, slots: Slots)
    requires c.Consistent()
  {
    forall k {:trigger SlotCorrect(c, slots, k)} :: k in slots ==> SlotCorrect(c, slots, k)
  }

  /** Slot `i` of `b` is present whenever the ancestor at distance 2^i exists. */
  ghost predicate SlotPresent(c: Chain, slots: Slots, b: BlockHash, i: nat)
    requires c.Consistent() && b in c.headers
  {
    Pow2(i) <= c.Depth(b) ==> PredecessorKey(b, i) in slots
  }

  ghost predicate Complete(c: Chain, slots: Slots, b: BlockHash)
    requires c.Consistent() && b in c.headers
  {
    forall i :: 0 <= i < STORED_PREDECESSORS_SIZE ==> SlotPresent(c, slots, b, i)
  }

  /** The blocks in `done` form a chain down to genesis and have all their slots. */
  ghost predicate Covers(c: Chain, slots: Slots, done: set<BlockHash>)
    requires c.Consistent()
  {
    && done <= c.headers.Keys
    && (forall b {:trigger c.Parent(b)} :: b in done ==> c.Parent(b) in done)
    && (forall b {:trigger Complete(c, slots, b)} :: b in done ==> Complete(c, slots, b))
  }

  lemma {:induction false} AncestorCovered(c: Chain, slots: Slots, done: set<BlockHash>, b: BlockHash, d: nat)
    requires c.Consistent() && Covers(c, slots, done) && b in done
    requires c.Ancestor(b, d).Some?
    ensures c.Ancestor(b, d).value in done
    decreases d
  {
    if d > 0 {
      AncestorCovered(c, slots, done, c.Parent(b), d - 1);
    }
  }

  /** The ancestor at distance 2^(i+1) is the one at distance 2^i, twice. */
  lemma AncestorDoubling(c: Chain, b: BlockHash, i: nat)
    requires c.Consistent() && b in c.headers
    requires Pow2(i) <= c.Depth(b)
    ensures c.Ancestor(b, Pow2(i)).Some?
    ensures c.Ancestor(b, Pow2(i + 1)) == c.Ancestor(c.Ancestor(b, Pow2(i)).value, Pow2(i))
  {
    c.AncestorCompose(b, Pow2(i), Pow2(i));
    assert Pow2(i + 1) == Pow2(i) + Pow2(i);
  }

  // ------------------------------------------------------------------ what writing keeps

  /** Slots of other blocks never change, and slots are never removed. */
  lemma {:induction false} FillTouchesOnly(slots: Slots, b: BlockHash, predecessor: BlockHash, i: nat, size: nat)
    requires i >= 1
    ensures var after := FillFrom(slots, b, predecessor, i, size);
            && slots.Keys <= after.Keys
            && (forall k :: k in after && (k.blockHash != b || k.exponentSlot < i) ==>
                  k in slots && after[k] == slots[k])
            && (forall k :: k in after && k !in slots ==> k.blockHash == b && k.exponentSlot < size)
    decreases size - i
  {
    var key := PredecessorKey(predecessor, i - 1);
    if i < size && key in slots {
      FillTouchesOnly(slots[PredecessorKey(b, i) := slots[key]], b, slots[key], i + 1, size);
    }
  }

  lemma StoreTouchesOnly(slots: Slots, b: BlockHash, predecessor: Option<BlockHash>, size: nat)
    ensures var after := StoreSlots(slots, b, predecessor, size);
            && slots.Keys <= after.Keys
            && (forall k :: k in after && k.blockHash != b ==> k in slots && after[k] == slots[k])
  {
    if predecessor.Some? && predecessor.value != b {
      FillTouchesOnly(slots[PredecessorKey(b, 0) := predecessor.value], b, predecessor.value, 1, size);
    }
  }

  lemma {:induction false} FillSound(c: Chain, slots: Slots, b: BlockHash, predecessor: BlockHash, i: nat, size: nat)
    requires c.Consistent() && Sound(c, slots) && b in c.headers
    requires 1 <= i && size <= STORED_PREDECESSORS_SIZE
    requires c.Ancestor(b, Pow2(i - 1)) == Some(predecessor)
    ensures Sound(c, FillFrom(slots, b, predecessor, i, size))
    decreases size - i
  {
    var key := PredecessorKey(predecessor, i - 1);
    if i < size && key in slots {
      assert SlotCorrect(c, slots, key);
      c.AncestorDepth(b, Pow2(i - 1));
      AncestorDoubling(c, b, i - 1);
      var next := slots[PredecessorKey(b, i) := slots[key]];
      SoundAfterPut(c, slots, PredecessorKey(b, i), slots[key]);
      FillSound(c, next, b, slots[key], i + 1, size);
    }
  }

  lemma SoundAfterPut(c: Chain, slots: Slots, key: PredecessorKey, h: BlockHash)
    requires c.Consistent() && Sound(c, slots)
    requires key.blockHash in c.headers && key.exponentSlot < STORED_PREDECESSORS_SIZE
    requires c.Ancestor(key.blockHash, Pow2(key.exponentSlot)) == Some(h)
    ensures Sound(c, slots[key := h])
  {
    var next := slots[key := h];
    forall k | k in next ensures SlotCorrect(c, next, k) {
      if k != key {
        assert SlotCorrect(c, slots, k);
      }
    }
  }

  /** Storing a block's slots, in full or cut after any number of writes, keeps every slot
      right. */
  lemma StoreSound(c: Chain, slots: Slots, b: BlockHash, size: nat)
    requires c.Consistent() && Sound(c, slots) && b in c.headers
    requires size <= STORED_PREDECESSORS_SIZE
    ensures Sound(c, StoreSlots(slots, b, Some(c.Parent(b)), size))
  {
    var p := c.Parent(b);
    if p != b {
      assert c.Ancestor(b, Pow2(0)) == c.Ancestor(p, 0) == Some(p);
      SoundAfterPut(c, slots, PredecessorKey(b, 0), p);
      FillSound(c, slots[PredecessorKey(b, 0) := p], b, p, 1, size);
    }
  }

  /** The slot the loop reads to fill slot `i + 1` of `b`. */
  ghost predicate SourcePresent(c: Chain, slots: Slots, b: BlockHash, i: nat)
    requires c.Consistent() && b in c.headers
  {
    var a := c.Ancestor(b, Pow2(i));
    Pow2(i + 1) <= c.Depth(b) ==> a.Some? && PredecessorKey(a.value, i) in slots
  }

  /** Slots are written in order, each from the slot of a deeper block. */
  ghost predicate Supported(c: Chain, slots: Slots, b: BlockHash)
    requires c.Consistent() && b in c.headers
  {
    forall i :: i >= 1 && PredecessorKey(b, i) in slots ==> SourcePresent(c, slots, b, i - 1)
  }

  ghost predicate AllSupported(c: Chain, slots: Slots)
    requires c.Consistent()
  {
    forall b {:trigger Supported(c, slots, b)} :: b in c.headers ==> Supported(c, slots, b)
  }

  lemma SupportedAfterPut(c: Chain, slots: Slots, b: BlockHash, i: nat, h: BlockHash)
    requires c.Consistent() && AllSupported(c, slots) && b in c.headers
    requires i >= 1 ==> SourcePresent(c, slots, b, i - 1)
    ensures AllSupported(c, slots[PredecessorKey(b, i) := h])
  {
    var next := slots[PredecessorKey(b, i) := h];
    forall x | x in c.headers ensures Supported(c, next, x) {
      assert Supported(c, slots, x);
      forall j | j >= 1 && PredecessorKey(x, j) in next ensures SourcePresent(c, next, x, j - 1) {
        assert SourcePresent(c, slots, x, j - 1);
      }
    }
  }

  lemma {:induction false} FillSupported(c: Chain, slots: Slots, b: BlockHash, predecessor: BlockHash, i: nat, size: nat)
    requires c.Consistent() && Sound(c, slots) && AllSupported(c, slots) && b in c.headers
    requires 1 <= i && size <= STORED_PREDECESSORS_SIZE
    requires c.Ancestor(b, Pow2(i - 1)) == Some(predecessor)
    ensures AllSupported(c, FillFrom(slots, b, predecessor, i, size))
    decreases size - i
  {
    var key := PredecessorKey(predecessor, i - 1);
    if i < size && key in slots {
      assert SlotCorrect(c, slots, key);
      c.AncestorDepth(b, Pow2(i - 1));
      AncestorDoubling(c, b, i - 1);
      SoundAfterPut(c, slots, PredecessorKey(b, i), slots[key]);
      SupportedAfterPut(c, slots, b, i, slots[key]);
      FillSupported(c, slots[PredecessorKey(b, i) := slots[key]], b, slots[key], i + 1, size);
    }
  }

  /** Storing slots, in full or cut, leaves every slot supported. */
  lemma StoreSupported(c: Chain, slots: Slots, b: BlockHash, size: nat)
    requires c.Consistent() && Sound(c, slots) && AllSupported(c, slots) && b in c.headers
    requires size <= STORED_PREDECESSORS_SIZE
    ensures AllSupported(c, StoreSlots(slots, b, Some(c.Parent(b)), size))
  {
    var p := c.Parent(b);
    if p != b {
      assert c.Ancestor(b, Pow2(0)) == c.Ancestor(p, 0) == Some(p);
      SoundAfterPut(c, slots, PredecessorKey(b, 0), p);
      SupportedAfterPut(c, slots, b, 0, p);
      FillSupported(c, slots[PredecessorKey(b, 0) := p], b, p, 1, size);
    }
  }

  /** Filling from slot `i` leaves slot `j` present exactly when it was there before or every
      slot it is built from is there. */
  lemma {:induction false} FillPresence(c: Chain, slots: Slots, b: BlockHash, predecessor: BlockHash, i: nat, size: nat, j: nat)
    requires c.Consistent() && Sound(c, slots) && b in c.headers && b != c.genesis
    requires 1 <= i <= j < size <= STORED_PREDECESSORS_SIZE
    requires c.Ancestor(b, Pow2(i - 1)) == Some(predecessor)
    requires Pow2(j) <= c.Depth(b)
    ensures PredecessorKey(b, j) in FillFrom(slots, b, predecessor, i, size) <==>
            PredecessorKey(b, j) in slots
            || forall k :: i - 1 <= k < j ==> SourcePresent(c, slots, b, k)
    decreases size - i
  {
    var key := PredecessorKey(predecessor, i - 1);
    Pow2Monotone(i, j);
    c.AncestorDepth(b, Pow2(i - 1));
    assert Pow2(i) == 2 * Pow2(i - 1);
    assert SourcePresent(c, slots, b, i - 1) <==> key in slots;
    if key in slots {
      assert SlotCorrect(c, slots, key);
      AncestorDoubling(c, b, i - 1);
      var next := slots[PredecessorKey(b, i) := slots[key]];
      if i < j {
        SoundAfterPut(c, slots, PredecessorKey(b, i), slots[key]);
        FillPresence(c, next, b, slots[key], i + 1, size, j);
        forall k | i - 1 <= k < j
          ensures SourcePresent(c, next, b, k) <==> SourcePresent(c, slots, b, k)
        {
          SourceIsDeeper(c, b, k);
        }
        assert (forall k :: i - 1 <= k < j ==> SourcePresent(c, slots, b, k)) <==>
               (forall k :: i <= k < j ==> SourcePresent(c, next, b, k));
      } else {
        FillTouchesOnly(next, b, slots[key], i + 1, size);
      }
    }
  }

  lemma SourceIsDeeper(c: Chain, b: BlockHash, k: nat)
    requires c.Consistent() && b in c.headers
    ensures Pow2(k + 1) <= c.Depth(b) ==>
              c.Ancestor(b, Pow2(k)).Some? && c.Ancestor(b, Pow2(k)).value != b
  {
    c.AncestorDepth(b, Pow2(k));
  }

  /** Exactly when storing a block's slots gives it all of them: every ancestor at a distance
      2^i that the loop visits must already have its own slot i. */
  lemma StoreCompleteIff(c: Chain, slots: Slots, b: BlockHash)
    requires c.Consistent() && Sound(c, slots) && b in c.headers && Supported(c, slots, b)
    ensures Complete(c, StoreSlots(slots, b, Some(c.Parent(b)), STORED_PREDECESSORS_SIZE), b) <==>
            forall i :: 0 <= i < STORED_PREDECESSORS_SIZE - 1 ==> SourcePresent(c, slots, b, i)
  {
    var size := STORED_PREDECESSORS_SIZE;
    var p := c.Parent(b);
    if b == c.genesis {
      assert forall i: nat :: c.Depth(b) < Pow2(i);
      assert forall i: nat :: SourcePresent(c, slots, b, i);
      assert forall i: nat :: SlotPresent(c, slots, b, i);
    } else {
      var start := slots[PredecessorKey(b, 0) := p];
      assert c.Ancestor(b, Pow2(0)) == c.Ancestor(p, 0) == Some(p);
      SoundAfterPut(c, slots, PredecessorKey(b, 0), p);
      var after := FillFrom(start, b, p, 1, size);
      FillTouchesOnly(start, b, p, 1, size);
      forall i | 0 <= i
        ensures SourcePresent(c, start, b, i) <==> SourcePresent(c, slots, b, i)
      {
        SourceIsDeeper(c, b, i);
      }
      forall j | 1 <= j < size && Pow2(j) <= c.Depth(b)
        ensures PredecessorKey(b, j) in after <==>
                PredecessorKey(b, j) in slots || forall k :: 0 <= k < j ==> SourcePresent(c, slots, b, k)
      {
        FillPresence(c, start, b, p, 1, size, j);
      }
      if Complete(c, after, b) {
        forall i | 0 <= i < size - 1 ensures SourcePresent(c, slots, b, i) {
          assert SlotPresent(c, after, b, i + 1);
          if Pow2(i + 1) <= c.Depth(b) && PredecessorKey(b, i + 1) in slots {
            assert SourcePresent(c, slots, b, (i + 1) - 1);
          }
        }
      }
      if forall i :: 0 <= i < size - 1 ==> SourcePresent(c, slots, b, i) {
        forall j | 0 <= j < size ensures SlotPresent(c, after, b, j) {
        }
      }
    }
  }

  /** On top of a covered chain the new block gets exactly its slots, so the chain stays
      covered. */
  lemma StoreExtendsCover(c: Chain, slots: Slots, done: set<BlockHash>, b: BlockHash)
    requires c.Consistent() && Sound(c, slots) && Covers(c, slots, done)
    requires b in c.headers && c.Parent(b) in done
    ensures var after := StoreSlots(slots, b, Some(c.Parent(b)), STORED_PREDECESSORS_SIZE);
            Sound(c, after) && Covers(c, after, done + {b})
  {
    var after := StoreSlots(slots, b, Some(c.Parent(b)), STORED_PREDECESSORS_SIZE);
    StoreSound(c, slots, b, STORED_PREDECESSORS_SIZE);
    StoreTouchesOnly(slots, b, Some(c.Parent(b)), STORED_PREDECESSORS_SIZE);
    forall i | 0 <= i ensures i < STORED_PREDECESSORS_SIZE ==> SourcePresent(c, slots, b, i) {
      SourceCovered(c, slots, done, b, i);
    }
    assert Complete(c, after, b) by {
      SourcesGiveComplete(c, slots, b);
    }
    forall x | x in done ensures Complete(c, after, x) {
      assert Complete(c, slots, x);
      forall i | 0 <= i < STORED_PREDECESSORS_SIZE ensures SlotPresent(c, after, x, i) {
        assert SlotPresent(c, slots, x, i);
      }
    }
  }

  lemma SourceCovered(c: Chain, slots: Slots, done: set<BlockHash>, b: BlockHash, i: nat)
    requires c.Consistent() && Covers(c, slots, done)
    requires b in c.headers && c.Parent(b) in done
    ensures i < STORED_PREDECESSORS_SIZE ==> SourcePresent(c, slots, b, i)
  {
    if i < STORED_PREDECESSORS_SIZE && Pow2(i + 1) <= c.Depth(b) {
      c.AncestorDepth(b, Pow2(i));
      assert c.Ancestor(b, Pow2(i)) == c.Ancestor(c.Parent(b), Pow2(i) - 1);
      AncestorCovered(c, slots, done, c.Parent(b), Pow2(i) - 1);
      var a := c.Ancestor(b, Pow2(i)).value;
      assert Pow2(i + 1) == Pow2(i) + Pow2(i);
      assert Complete(c, slots, a);
      assert SlotPresent(c, slots, a, i);
    }
  }

  lemma SourcesGiveComplete(c: Chain, slots: Slots, b: BlockHash)
    requires c.Consistent() && Sound(c, slots) && b in c.headers
    requires forall i :: 0 <= i < STORED_PREDECESSORS_SIZE ==> SourcePresent(c, slots, b, i)
    ensures Complete(c, StoreSlots(slots, b, Some(c.Parent(b)), STORED_PREDECESSORS_SIZE), b)
  {
    forall i | i >= 1 && PredecessorKey(b, i) in slots ensures SourcePresent(c, slots, b, i - 1) {
      assert SlotCorrect(c, slots, PredecessorKey(b, i));
    }
    StoreCompleteIff(c, slots, b);
  }

  /** More slots cover no less. */
  lemma CoverGrows(c: Chain, slots: Slots, after: Slots, done: set<BlockHash>)
    requires c.Consistent() && Covers(c, slots, done)
    requires slots.Keys <= after.Keys
    ensures Covers(c, after, done)
  {
    forall x | x in done ensures Complete(c, after, x) {
      assert Complete(c, slots, x);
      forall i | 0 <= i < STORED_PREDECESSORS_SIZE ensures SlotPresent(c, after, x, i) {
        assert SlotPresent(c, slots, x, i);
      }
    }
  }

  /** The slots when storing those of `b` was cut after `k` writes. */
  function CutSlots(slots: Slots, b: BlockHash, predecessor: Option<BlockHash>, k: nat): Slots {
    if k == 0 then slots else StoreSlots(slots, b, predecessor, k)
  }

  /** After `k` writes on top of a covered chain exactly the slots below `k` are there. */
  lemma CutSlotsPresent(c: Chain, slots: Slots, done: set<BlockHash>, b: BlockHash, k: nat, j: nat)
    requires c.Consistent() && Sound(c, slots) && Covers(c, slots, done)
    requires b in c.headers && b != c.genesis && c.Parent(b) in done
    requires forall i: nat :: PredecessorKey(b, i) !in slots
    requires k <= STORED_PREDECESSORS_SIZE && Pow2(j) <= c.Depth(b)
    ensures PredecessorKey(b, j) in CutSlots(slots, b, Some(c.Parent(b)), k) <==> j < k
  {
    if k > 0 {
      var p := c.Parent(b);
      var start := slots[PredecessorKey(b, 0) := p];
      FillTouchesOnly(start, b, p, 1, k);
      if 1 <= j < k {
        assert c.Ancestor(b, Pow2(0)) == c.Ancestor(p, 0) == Some(p);
        SoundAfterPut(c, slots, PredecessorKey(b, 0), p);
        forall i | 0 <= i < j ensures SourcePresent(c, start, b, i) {
          SourceCovered(c, slots, done, b, i);
        }
        FillPresence(c, start, b, p, 1, k, j);
      }
    }
  }

  /** So the block is complete exactly when `k` slots are all it has. */
  lemma CutCompleteIff(c: Chain, slots: Slots, done: set<BlockHash>, b: BlockHash, k: nat)
    requires c.Consistent() && Sound(c, slots) && Covers(c, slots, done)
    requires b in c.headers && b != c.genesis && c.Parent(b) in done
    requires forall i: nat :: PredecessorKey(b, i) !in slots
    requires k <= STORED_PREDECESSORS_SIZE
    ensures Complete(c, CutSlots(slots, b, Some(c.Parent(b)), k), b) <==>
            k == STORED_PREDECESSORS_SIZE || Pow2(k) > c.Depth(b)
  {
    var after := CutSlots(slots, b, Some(c.Parent(b)), k);
    if k < STORED_PREDECESSORS_SIZE && Pow2(k) <= c.Depth(b) {
      CutSlotsPresent(c, slots, done, b, k, k);
      assert !SlotPresent(c, after, b, k);
    } else {
      forall j | 0 <= j < STORED_PREDECESSORS_SIZE ensures SlotPresent(c, after, b, j) {
        if Pow2(j) <= c.Depth(b) {
          if j >= k {
            Pow2Monotone(k, j);
          }
          CutSlotsPresent(c, slots, done, b, k, j);
        }
      }
    }
  }

  // ------------------------------------------------------------------ above a cut block

  /** The slots of `b` below `k` are there. */
  ghost predicate SlotsBelow(c: Chain, slots: Slots, b: BlockHash, k: nat)
    requires c.Consistent() && b in c.headers
  {
    forall j: nat :: j < k ==> SlotPresent(c, slots, b, j)
  }

  /** `x` and the `up - 1` blocks below it have all their slots. */
  ghost predicate ChainComplete(c: Chain, slots: Slots, x: BlockHash, up: nat)
    requires c.Consistent() && x in c.headers
    decreases up
  {
    up > 0 ==> Complete(c, slots, x) && ChainComplete(c, slots, c.Parent(x), up - 1)
  }

  lemma {:induction false} ChainCompleteBelow(c: Chain, slots: Slots, x: BlockHash, up: nat, j: nat)
    requires c.Consistent() && x in c.headers && ChainComplete(c, slots, x, up) && j <= up <= c.Depth(x)
    ensures c.Ancestor(x, j).Some? && ChainComplete(c, slots, c.Ancestor(x, j).value, up - j)
    decreases j
  {
    if j > 0 {
      ChainCompleteBelow(c, slots, c.Parent(x), up - 1, j - 1);
    }
  }

  lemma {:induction false} ChainCompleteGrows(c: Chain, slots: Slots, after: Slots, x: BlockHash, up: nat)
    requires c.Consistent() && x in c.headers && ChainComplete(c, slots, x, up) && slots.Keys <= after.Keys
    ensures ChainComplete(c, after, x, up)
    decreases up
  {
    if up > 0 {
      forall i | 0 <= i < STORED_PREDECESSORS_SIZE ensures SlotPresent(c, after, x, i) {
        assert SlotPresent(c, slots, x, i);
      }
      ChainCompleteGrows(c, slots, after, c.Parent(x), up - 1);
    }
  }

  /** An ancestor of `x` below `b` is covered when the parent of `b` is. */
  lemma BelowCut(c: Chain, slots: Slots, done: set<BlockHash>, b: BlockHash, x: BlockHash, up: nat, d: nat)
    requires c.Consistent() && Covers(c, slots, done) && b in c.headers && b != c.genesis && c.Parent(b) in done
    requires x in c.headers && c.Ancestor(x, up) == Some(b) && up < d <= c.Depth(x)
    ensures c.Ancestor(x, d).Some? && c.Ancestor(x, d).value in done
  {
    c.AncestorDepth(x, d);
    c.AncestorDepth(x, up);
    c.AncestorCompose(x, up, d - up);
    assert c.Ancestor(b, d - up) == c.Ancestor(c.Parent(b), d - up - 1);
    AncestorCovered(c, slots, done, c.Parent(b), d - up - 1);
  }

  /** Nearer than 2^k above a block cut after `k` slots, every slot the loop reads is there. */
  lemma NearSource(c: Chain, slots: Slots, done: set<BlockHash>, b: BlockHash, k: nat, x: BlockHash, up: nat, i: nat)
    requires c.Consistent() && Covers(c, slots, done) && b in c.headers && b != c.genesis && c.Parent(b) in done
    requires SlotsBelow(c, slots, b, k) && x in c.headers && x != c.genesis && c.Ancestor(x, up) == Some(b)
    requires 1 <= up < Pow2(k) && ChainComplete(c, slots, c.Parent(x), up - 1) && i < STORED_PREDECESSORS_SIZE
    ensures SourcePresent(c, slots, x, i)
  {
    hide Pow2;
    PowDoubles(i);
    if Pow2(i + 1) <= c.Depth(x) {
      c.AncestorDepth(x, Pow2(i));
      c.AncestorDepth(x, up);
      var y := c.Ancestor(x, Pow2(i)).value;
      if Pow2(i) < up {
        ChainCompleteBelow(c, slots, c.Parent(x), up - 1, Pow2(i) - 1);
        assert c.Ancestor(x, Pow2(i)) == c.Ancestor(c.Parent(x), Pow2(i) - 1);
        assert Complete(c, slots, y);
        assert SlotPresent(c, slots, y, i);
      } else if Pow2(i) == up {
        if i >= k {
          Pow2Monotone(k, i);
        }
        assert SlotPresent(c, slots, b, i);
      } else {
        BelowCut(c, slots, done, b, x, up, Pow2(i));
        assert Complete(c, slots, y);
        assert SlotPresent(c, slots, y, i);
      }
    }
  }

  lemma PowDoubles(i: nat)
    ensures Pow2(i) >= 1 && Pow2(i + 1) == Pow2(i) + Pow2(i)
  {
  }

  /** So a block stored there gets all its slots. */
  lemma NearComplete(c: Chain, slots: Slots, done: set<BlockHash>, b: BlockHash, k: nat, x: BlockHash, up: nat)
    requires c.Consistent() && Sound(c, slots)
    requires Covers(c, slots, done) && b in c.headers && b != c.genesis && c.Parent(b) in done
    requires SlotsBelow(c, slots, b, k) && x in c.headers && x != c.genesis && c.Ancestor(x, up) == Some(b)
    requires 1 <= up < Pow2(k) && ChainComplete(c, slots, c.Parent(x), up - 1)
    ensures ChainComplete(c, StoreSlots(slots, x, Some(c.Parent(x)), STORED_PREDECESSORS_SIZE), x, up)
  {
    forall i | 0 <= i < STORED_PREDECESSORS_SIZE ensures SourcePresent(c, slots, x, i) {
      NearSource(c, slots, done, b, k, x, up, i);
    }
    SourcesGiveComplete(c, slots, x);
    var after := StoreSlots(slots, x, Some(c.Parent(x)), STORED_PREDECESSORS_SIZE);
    StoreTouchesOnly(slots, x, Some(c.Parent(x)), STORED_PREDECESSORS_SIZE);
    ChainCompleteGrows(c, slots, after, c.Parent(x), up - 1);
  }

  /** A covered chain with `b` cut after `k` writes on top is covered exactly when `b` was covered
      before or needs no more slots. */
  lemma CutCoversIff(c: Chain, slots: Slots, done: set<BlockHash>, b: BlockHash, k: nat)
    requires c.Consistent() && Sound(c, slots) && Covers(c, slots, done)
    requires b in c.headers && b != c.genesis && c.Parent(b) in done
    requires b !in done ==> forall i: nat :: PredecessorKey(b, i) !in slots
    requires k <= STORED_PREDECESSORS_SIZE
    ensures Covers(c, CutSlots(slots, b, Some(c.Parent(b)), k), done + {b}) <==>
            b in done || k == STORED_PREDECESSORS_SIZE || Pow2(k) > c.Depth(b)
  {
    var after := CutSlots(slots, b, Some(c.Parent(b)), k);
    StoreTouchesOnly(slots, b, Some(c.Parent(b)), k);
    CoverGrows(c, slots, after, done);
    if b in done {
      assert done + {b} == done;
    } else {
      CutCompleteIff(c, slots, done, b, k);
      assert Covers(c, after, done + {b}) ==> Complete(c, after, b);
    }
  }

  /** In a covered chain slot `i` of a block exists exactly when `i < 12` and 2^i does not pass
      genesis, and then holds the ancestor at distance 2^i. */
  lemma CoveredSlotsExact(c: Chain, slots: Slots, done: set<BlockHash>, b: BlockHash, i: nat)
    requires c.Consistent() && Sound(c, slots) && Covers(c, slots, done) && b in done
    ensures PredecessorKey(b, i) in slots <==> i < STORED_PREDECESSORS_SIZE && Pow2(i) <= c.Depth(b)
    ensures PredecessorKey(b, i) in slots ==>
              c.Ancestor(b, Pow2(i)) == Some(slots[PredecessorKey(b, i)])
  {
    var key := PredecessorKey(b, i);
    c.AncestorDepth(b, Pow2(i));
    if key in slots {
      assert SlotCorrect(c, slots, key);
    }
    if i < STORED_PREDECESSORS_SIZE {
      assert Complete(c, slots, b);
      assert SlotPresent(c, slots, b, i);
    }
  }
}
