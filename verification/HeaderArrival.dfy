/** Headers reach the node in any order and more than once. The metadata column that results
    depends only on which headers arrived. */
module HeaderArrival {
  import opened Blocks
  import opened MetaMerge
  import opened BlockMetaStorage

  // ------------------------------------------------------------------ what is recorded

  ghost predicate HasChild(c: Chain, received: set<BlockHash>, b: BlockHash)
    requires c.Consistent() && received <= c.headers.Keys
  {
    exists x :: x in received && c.Parent(x) == b
  }

  ghost predicate NoDuplicates(s: seq<BlockHash>) {
    forall i, j :: 0 <= i < j < |s| ==> s[i] != s[j]
  }

  /** The part of a record that is about the block itself: its level and predecessor. */
  ghost predicate LinkCorrect(c: Chain, received: set<BlockHash>, seeded: bool, b: BlockHash, m: Meta)
    requires c.Consistent() && received <= c.headers.Keys && b in c.headers
  {
    && m.level == c.Depth(b)
    && m.predecessor == (if b in received || (seeded && b == c.genesis) then Some(c.Parent(b)) else None)
  }

  /** The record of `b` once the headers in `received` have arrived. Genesis may have been
      recorded by the node itself (`seeded`). Whether the block is applied is not the headers'
      business. */
  ghost predicate RecordCorrect(c: Chain, received: set<BlockHash>, seeded: bool, b: BlockHash, m: Meta)
    requires c.Consistent() && received <= c.headers.Keys && b in c.headers
  {
    && LinkCorrect(c, received, seeded, b, m)
    && NoDuplicates(m.successors)
    && (forall x :: x in m.successors <==> x in received && c.Parent(x) == b)
  }

  ghost predicate Known(c: Chain, received: set<BlockHash>, seeded: bool, b: BlockHash)
    requires c.Consistent() && received <= c.headers.Keys
  {
    b in received || (seeded && b == c.genesis) || HasChild(c, received, b)
  }

  ghost predicate EntryCorrect(c: Chain, column: MetaColumn, received: set<BlockHash>, seeded: bool, b: BlockHash)
    requires c.Consistent() && received <= c.headers.Keys && b in c.headers
  {
    && (b in column <==> Known(c, received, seeded, b))
    && (b in column ==> RecordCorrect(c, received, seeded, b, column[b]))
  }

  /** The column holds the right record for every known block and nothing else. */
  ghost predicate Recorded(c: Chain, column: MetaColumn, received: set<BlockHash>, seeded: bool)
    requires c.Consistent()
  {
    && received <= c.headers.Keys
    && column.Keys <= c.headers.Keys
    && forall b {:trigger EntryCorrect(c, column, received, seeded, b)} :: b in c.headers ==>
         EntryCorrect(c, column, received, seeded, b)
  }

  // ------------------------------------------------------------------ one header

  lemma PutHeaderTouches(column: MetaColumn, h: Header, chainId: ChainId)
    requires h.level > -0x8000_0000
    ensures PutHeader(column, h, chainId).Keys == column.Keys + {h.hash, h.predecessor}
    ensures forall b :: b in column && b != h.hash && b != h.predecessor ==>
              PutHeader(column, h, chainId)[b] == column[b]
  {
  }

  lemma ChildrenAfter(c: Chain, received: set<BlockHash>, x: BlockHash, b: BlockHash)
    requires c.Consistent() && received <= c.headers.Keys && x in c.headers
    ensures HasChild(c, received + {x}, b) <==> HasChild(c, received, b) || c.Parent(x) == b
  {
    if HasChild(c, received, b) {
      var y :| y in received && c.Parent(y) == b;
      assert y in received + {x};
    }
    if c.Parent(x) == b {
      assert x in received + {x};
    }
  }

  /** The predecessor's record gains the new block exactly once. */
  lemma SuccessorRecordCorrect(c: Chain, received: set<BlockHash>, seeded: bool, m: Meta, x: BlockHash)
    requires c.Consistent() && received <= c.headers.Keys && x in c.headers
    requires RecordCorrect(c, received, seeded, c.Parent(x), m)
    ensures var p := c.Parent(x);
            var n := if x in m.successors then m else m.(successors := m.successors + [x]);
            && NoDuplicates(n.successors)
            && forall y :: y in n.successors <==> y in received + {x} && c.Parent(y) == p
  {
    var p := c.Parent(x);
    if x !in m.successors {
      var s := m.successors + [x];
      forall y ensures y in s <==> y in received + {x} && c.Parent(y) == p {
        assert y in s <==> y in m.successors || y == x;
      }
    }
  }

  ghost predicate IsHeaderOf(c: Chain, h: Header)
    requires c.Consistent()
  {
    h.hash in c.headers && h == c.headers[h.hash]
  }

  lemma OwnRecordCorrect(c: Chain, column: MetaColumn, received: set<BlockHash>, seeded: bool, h: Header, chainId: ChainId)
    requires c.Consistent() && Recorded(c, column, received, seeded) && IsHeaderOf(c, h)
    ensures var x := h.hash; var mid := PutOwnRecord(column, h, chainId);
            && x in mid
            && mid[x].level == c.Depth(x)
            && mid[x].predecessor == Some(c.Parent(x))
            && mid[x].successors == (if x in column then column[x].successors else [])
            && (forall b :: b in column && b != x ==> mid[b] == column[b])
            && mid.Keys == column.Keys + {x}
  {
    var x := h.hash;
    assert c.Linked(x);
    assert EntryCorrect(c, column, received, seeded, x);
  }

  /** One header, new or repeated, whether its record or its predecessor's is missing, a
      placeholder or complete. */
  lemma HeaderKeepsRecorded(c: Chain, column: MetaColumn, received: set<BlockHash>, seeded: bool, h: Header, chainId: ChainId)
    requires c.Consistent() && Recorded(c, column, received, seeded) && IsHeaderOf(c, h)
    ensures h.level > -0x8000_0000
    ensures Recorded(c, PutHeader(column, h, chainId), received + {h.hash}, seeded)
    ensures forall b :: b in column ==>
              b in PutHeader(column, h, chainId) &&
              PutHeader(column, h, chainId)[b].isApplied == column[b].isApplied
  {
    var x := h.hash;
    var p := c.Parent(x);
    assert c.Depth(x) == h.level && p == h.predecessor;
    var after := PutHeader(column, h, chainId);
    var now := received + {x};
    PutHeaderTouches(column, h, chainId);
    forall b | b in c.headers ensures EntryCorrect(c, after, now, seeded, b) {
      assert EntryCorrect(c, column, received, seeded, b);
      ChildrenAfter(c, received, x, b);
      if b in after {
        RecordAfterHeader(c, column, received, seeded, h, chainId, b);
      }
    }
    AppliedUntouched(column, h, chainId);
  }

  lemma AppliedUntouched(column: MetaColumn, h: Header, chainId: ChainId)
    requires h.level > -0x8000_0000
    ensures forall b :: b in column ==>
              b in PutHeader(column, h, chainId) &&
              PutHeader(column, h, chainId)[b].isApplied == column[b].isApplied
  {
    var mid := PutOwnRecord(column, h, chainId);
    assert forall b :: b in column ==> b in mid && mid[b].isApplied == column[b].isApplied;
  }

  lemma RecordAfterHeader(c: Chain, column: MetaColumn, received: set<BlockHash>, seeded: bool, h: Header, chainId: ChainId, b: BlockHash)
    requires c.Consistent() && Recorded(c, column, received, seeded) && IsHeaderOf(c, h)
    requires h.level > -0x8000_0000 && b in PutHeader(column, h, chainId) && b in c.headers
    ensures RecordCorrect(c, received + {h.hash}, seeded, b, PutHeader(column, h, chainId)[b])
  {
    var x := h.hash;
    var p := c.Parent(x);
    assert c.Depth(x) == h.level && p == h.predecessor;
    var mid := PutOwnRecord(column, h, chainId);
    var after := PutHeader(column, h, chainId);
    PutHeaderTouches(column, h, chainId);
    OwnRecordCorrect(c, column, received, seeded, h, chainId);
    if b == p {
      ParentRecordAfter(c, column, received, seeded, h, chainId);
    } else {
      assert EntryCorrect(c, column, received, seeded, b);
      assert after[b] == mid[b];
      OtherRecordAfter(c, column, received, seeded, x, b, mid[b]);
    }
  }

  /** A record that is not the new block's parent lists the children it listed before. */
  lemma OtherRecordAfter(c: Chain, column: MetaColumn, received: set<BlockHash>, seeded: bool, x: BlockHash, b: BlockHash, m: Meta)
    requires c.Consistent() && received <= c.headers.Keys && x in c.headers && b in c.headers
    requires EntryCorrect(c, column, received, seeded, b)
    requires b != c.Parent(x)
    requires m.successors == (if b in column then column[b].successors else [])
    requires if b == x then m.level == c.Depth(x) && m.predecessor == Some(c.Parent(x))
             else b in column && m == column[b]
    ensures RecordCorrect(c, received + {x}, seeded, b, m)
  {
    if b !in column {
      assert !HasChild(c, received, b);
    }
    forall y ensures y in m.successors <==> y in received + {x} && c.Parent(y) == b {
    }
  }

  lemma ParentRecordAfter(c: Chain, column: MetaColumn, received: set<BlockHash>, seeded: bool, h: Header, chainId: ChainId)
    requires c.Consistent() && Recorded(c, column, received, seeded) && IsHeaderOf(c, h)
    requires h.level > -0x8000_0000
    ensures h.predecessor in c.headers
    ensures RecordCorrect(c, received + {h.hash}, seeded, h.predecessor, PutHeader(column, h, chainId)[h.predecessor])
  {
    var x := h.hash;
    var p := c.Parent(x);
    assert c.Depth(x) == h.level && p == h.predecessor;
    OwnRecordCorrect(c, column, received, seeded, h, chainId);
    var mid := PutOwnRecord(column, h, chainId);
    assert EntryCorrect(c, column, received, seeded, p);
    if p in column {
      SuccessorRecordCorrect(c, received, seeded, column[p], x);
    } else {
      assert !HasChild(c, received, p) && p !in received;
      if p == x {
        assert mid[p].successors == [];
      } else {
        assert p !in mid;
      }
      var s := [x];
      assert PutHeader(column, h, chainId)[p].successors == s;
      forall y ensures y in s <==> y in received + {x} && c.Parent(y) == p {
        if y in received {
          assert c.Parent(y) != p;
        }
      }
    }
  }

  // ------------------------------------------------------------------ any sequence of headers

  function PutHeaders(column: MetaColumn, hs: seq<Header>, chainId: ChainId): MetaColumn
    requires forall i :: 0 <= i < |hs| ==> hs[i].level > -0x8000_0000
  {
    if hs == [] then column
    else PutHeader(PutHeaders(column, hs[..|hs| - 1], chainId), hs[|hs| - 1], chainId)
  }

  ghost function HashesOf(hs: seq<Header>): set<BlockHash> {
    set i | 0 <= i < |hs| :: hs[i].hash
  }

  ghost predicate HeadersOf(c: Chain, hs: seq<Header>)
    requires c.Consistent()
  {
    forall i :: 0 <= i < |hs| ==> IsHeaderOf(c, hs[i])
  }

  lemma HeadersHaveLevels(c: Chain, hs: seq<Header>)
    requires c.Consistent() && HeadersOf(c, hs)
    ensures forall i :: 0 <= i < |hs| ==> hs[i].level > -0x8000_0000
  {
    forall i | 0 <= i < |hs| ensures hs[i].level > -0x8000_0000 {
      assert IsHeaderOf(c, hs[i]);
      assert c.Depth(hs[i].hash) == hs[i].level;
    }
  }

  /** Any headers of the chain, in any order, with repeats: the column records exactly those
      received. */
  lemma {:induction false} ArrivalRecords(c: Chain, column: MetaColumn, received: set<BlockHash>, seeded: bool, hs: seq<Header>, chainId: ChainId)
    requires c.Consistent() && Recorded(c, column, received, seeded) && HeadersOf(c, hs)
    ensures forall i :: 0 <= i < |hs| ==> hs[i].level > -0x8000_0000
    ensures Recorded(c, PutHeaders(column, hs, chainId), received + HashesOf(hs), seeded)
  {
    HeadersHaveLevels(c, hs);
    if hs == [] {
      assert received + HashesOf(hs) == received;
    } else {
      var front, h := hs[..|hs| - 1], hs[|hs| - 1];
      ArrivalRecords(c, column, received, seeded, front, chainId);
      assert IsHeaderOf(c, h);
      HeaderKeepsRecorded(c, PutHeaders(column, front, chainId), received + HashesOf(front), seeded, h, chainId);
      assert HashesOf(hs) == HashesOf(front) + {h.hash};
      assert received + HashesOf(hs) == received + HashesOf(front) + {h.hash};
    }
  }

  /** Equal but for the order in which a parent lists its children. */
  ghost predicate SameUpToSuccessorOrder(m: MetaColumn, n: MetaColumn) {
    && m.Keys == n.Keys
    && forall b :: b in m ==>
         && m[b].level == n[b].level
         && m[b].predecessor == n[b].predecessor
         && multiset(m[b].successors) == multiset(n[b].successors)
         && m[b].isApplied == n[b].isApplied
         && m[b].chainId == n[b].chainId
  }

  lemma {:induction false} NoDuplicatesCount(s: seq<BlockHash>, x: BlockHash)
    requires NoDuplicates(s)
    ensures multiset(s)[x] == if x in s then 1 else 0
  {
    if s != [] {
      var front, last := s[..|s| - 1], s[|s| - 1];
      assert s == front + [last];
      NoDuplicatesCount(front, x);
      assert last !in front;
    }
  }

  /** Two columns that record the same headers agree up to the order of successors, exactly when
      they agree on what headers do not determine: flags and chains. */
  lemma RecordedIsDetermined(c: Chain, m: MetaColumn, n: MetaColumn, received: set<BlockHash>, seeded: bool)
    requires c.Consistent()
    requires Recorded(c, m, received, seeded) && Recorded(c, n, received, seeded)
    ensures m.Keys == n.Keys
    ensures SameUpToSuccessorOrder(m, n) <==>
            forall b :: b in m ==> m[b].isApplied == n[b].isApplied && m[b].chainId == n[b].chainId
  {
    forall b | b in c.headers ensures b in m <==> b in n {
      assert EntryCorrect(c, m, received, seeded, b) && EntryCorrect(c, n, received, seeded, b);
    }
    forall b | b in m
      ensures m[b].level == n[b].level && m[b].predecessor == n[b].predecessor
      ensures multiset(m[b].successors) == multiset(n[b].successors)
    {
      assert EntryCorrect(c, m, received, seeded, b) && EntryCorrect(c, n, received, seeded, b);
      forall x ensures multiset(m[b].successors)[x] == multiset(n[b].successors)[x] {
        NoDuplicatesCount(m[b].successors, x);
        NoDuplicatesCount(n[b].successors, x);
      }
    }
  }

  /** What a record keeps from before and what a new one starts with. */
  ghost predicate FlagsFrom(column: MetaColumn, after: MetaColumn, chainId: ChainId) {
    forall b :: b in after ==>
      if b in column then after[b].isApplied == column[b].isApplied && after[b].chainId == column[b].chainId
      else !after[b].isApplied && after[b].chainId == chainId
  }

  lemma PutHeaderFlags(column: MetaColumn, h: Header, chainId: ChainId)
    requires h.level > -0x8000_0000
    ensures FlagsFrom(column, PutHeader(column, h, chainId), chainId)
  {
    var mid := PutOwnRecord(column, h, chainId);
    assert FlagsFrom(column, mid, chainId);
    assert FlagsFrom(mid, PutSuccessor(mid, h, chainId), chainId);
  }

  lemma {:induction false} PutHeadersFlags(column: MetaColumn, hs: seq<Header>, chainId: ChainId)
    requires forall i :: 0 <= i < |hs| ==> hs[i].level > -0x8000_0000
    ensures FlagsFrom(column, PutHeaders(column, hs, chainId), chainId)
    ensures column.Keys <= PutHeaders(column, hs, chainId).Keys
  {
    if hs != [] {
      var front, h := hs[..|hs| - 1], hs[|hs| - 1];
      PutHeadersFlags(column, front, chainId);
      PutHeaderFlags(PutHeaders(column, front, chainId), h, chainId);
      PutHeaderTouches(PutHeaders(column, front, chainId), h, chainId);
    }
  }

  /** Arrival order and repetition do not matter, from whatever was recorded before. */
  lemma ArrivalOrderIrrelevant(c: Chain, column: MetaColumn, received: set<BlockHash>, seeded: bool,
                               hs: seq<Header>, hs': seq<Header>, chainId: ChainId)
    requires c.Consistent() && Recorded(c, column, received, seeded) && HeadersOf(c, hs) && HeadersOf(c, hs')
    requires HashesOf(hs) == HashesOf(hs')
    ensures forall i :: 0 <= i < |hs| ==> hs[i].level > -0x8000_0000
    ensures forall i :: 0 <= i < |hs'| ==> hs'[i].level > -0x8000_0000
    ensures SameUpToSuccessorOrder(PutHeaders(column, hs, chainId), PutHeaders(column, hs', chainId))
  {
    hide PutHeaders, Recorded;
    ArrivalRecords(c, column, received, seeded, hs, chainId);
    ArrivalRecords(c, column, received, seeded, hs', chainId);
    RecordedIsDetermined(c, PutHeaders(column, hs, chainId), PutHeaders(column, hs', chainId), received + HashesOf(hs), seeded);
    PutHeadersFlags(column, hs, chainId);
    PutHeadersFlags(column, hs', chainId);
  }

  function SuccessorsOf(column: MetaColumn, b: BlockHash): seq<BlockHash> {
    if b in column then column[b].successors else []
  }

  /** The children of `b` in the order in which they first arrived, after those of `start`. */
  function FirstArrivals(start: seq<BlockHash>, hs: seq<Header>, b: BlockHash): seq<BlockHash> {
    if hs == [] then start
    else
      var before, h := FirstArrivals(start, hs[..|hs| - 1], b), hs[|hs| - 1];
      if h.predecessor == b && h.hash !in before then before + [h.hash] else before
  }

  lemma PutHeaderAppends(column: MetaColumn, h: Header, chainId: ChainId, b: BlockHash)
    requires h.level > -0x8000_0000
    ensures var s := SuccessorsOf(column, b);
            SuccessorsOf(PutHeader(column, h, chainId), b) == if h.predecessor == b && h.hash !in s then s + [h.hash] else s
  {
    var mid := PutOwnRecord(column, h, chainId);
    assert SuccessorsOf(mid, b) == SuccessorsOf(column, b);
  }

  /** Successors are listed in the order of first arrival. */
  lemma {:induction false} SuccessorsInArrivalOrder(column: MetaColumn, hs: seq<Header>, chainId: ChainId, b: BlockHash)
    requires forall i :: 0 <= i < |hs| ==> hs[i].level > -0x8000_0000
    ensures SuccessorsOf(PutHeaders(column, hs, chainId), b) == FirstArrivals(SuccessorsOf(column, b), hs, b)
  {
    hide PutHeader, SuccessorsOf;
    if hs != [] {
      var front, h := hs[..|hs| - 1], hs[|hs| - 1];
      SuccessorsInArrivalOrder(column, front, chainId, b);
      PutHeaderAppends(PutHeaders(column, front, chainId), h, chainId, b);
    }
  }

  /** Nothing is recorded before the first header. */
  lemma EmptyRecorded(c: Chain)
    requires c.Consistent()
    ensures Recorded(c, map[], {}, false)
  {
    forall b | b in c.headers ensures EntryCorrect(c, map[], {}, false, b) {
    }
  }

  // ------------------------------------------------------------------ marking a block applied

  /** The feeder reads a record, applies the block and writes the record back marked applied.
      When nothing was written in between the column still records the same headers. */
  lemma MarkAppliedKeepsRecorded(c: Chain, column: MetaColumn, received: set<BlockHash>, seeded: bool, b: BlockHash)
    requires c.Consistent() && Recorded(c, column, received, seeded) && b in column
    ensures Recorded(c, Put(column, b, column[b].(isApplied := true)), received, seeded)
    ensures Put(column, b, column[b].(isApplied := true)) == column[b := column[b].(isApplied := true)]
  {
    var after := Put(column, b, column[b].(isApplied := true));
    forall x | x in c.headers ensures EntryCorrect(c, after, received, seeded, x) {
      assert EntryCorrect(c, column, received, seeded, x);
    }
  }

  /** The feeder's copy is stale when headers arrived meanwhile. Writing it back keeps the
      stored successors exactly when none of those headers was a child of the block. */
  lemma StaleMarkAppliedIff(c: Chain, column: MetaColumn, received: set<BlockHash>, seeded: bool, b: BlockHash, hs: seq<Header>, chainId: ChainId)
    requires c.Consistent() && Recorded(c, column, received, seeded) && HeadersOf(c, hs)
    requires b in column
    ensures forall i :: 0 <= i < |hs| ==> hs[i].level > -0x8000_0000
    ensures b in PutHeaders(column, hs, chainId)
    ensures var current := PutHeaders(column, hs, chainId);
            var written := Put(current, b, column[b].(isApplied := true));
            written[b].successors == current[b].successors <==>
            forall x :: x in HashesOf(hs) - received ==> c.Parent(x) != b
  {
    ArrivalRecords(c, column, received, seeded, hs, chainId);
    var current := PutHeaders(column, hs, chainId);
    var now := received + HashesOf(hs);
    assert EntryCorrect(c, column, received, seeded, b);
    PutHeadersExtend(column, hs, chainId, b);
    assert EntryCorrect(c, current, now, seeded, b);
    var before, after := column[b].successors, current[b].successors;
    assert before <= after;
    if |before| == |after| {
      assert before == after;
      forall x | x in HashesOf(hs) - received ensures c.Parent(x) != b {
        assert x !in before;
      }
    } else {
      var x := LongerHasNew(before, after);
      assert x in HashesOf(hs) - received;
    }
  }

  lemma LongerHasNew(before: seq<BlockHash>, after: seq<BlockHash>) returns (x: BlockHash)
    requires NoDuplicates(after) && before <= after && |before| < |after|
    ensures x in after && x !in before
  {
    x := after[|before|];
  }

  /** Successor lists only grow while headers arrive. */
  lemma {:induction false} PutHeadersExtend(column: MetaColumn, hs: seq<Header>, chainId: ChainId, b: BlockHash)
    requires forall i :: 0 <= i < |hs| ==> hs[i].level > -0x8000_0000
    requires b in column
    ensures b in PutHeaders(column, hs, chainId)
    ensures column[b].successors <= PutHeaders(column, hs, chainId)[b].successors
  {
    if hs != [] {
      var front, h := hs[..|hs| - 1], hs[|hs| - 1];
      PutHeadersExtend(column, front, chainId, b);
      var m := PutHeaders(column, front, chainId);
      var mid := PutOwnRecord(m, h, chainId);
      assert mid[b].successors == m[b].successors;
    }
  }

  // ------------------------------------------------------------------ under any interleaving

  ghost predicate LinkEntry(c: Chain, column: MetaColumn, received: set<BlockHash>, seeded: bool, b: BlockHash)
    requires c.Consistent() && received <= c.headers.Keys && b in c.headers
  {
    && (b in column <==> Known(c, received, seeded, b))
    && (b in column ==> LinkCorrect(c, received, seeded, b, column[b]))
  }

  /** Everything but the successor lists is right. */
  ghost predicate LinksRecorded(c: Chain, column: MetaColumn, received: set<BlockHash>, seeded: bool)
    requires c.Consistent()
  {
    && received <= c.headers.Keys
    && column.Keys <= c.headers.Keys
    && forall b {:trigger LinkEntry(c, column, received, seeded, b)} :: b in c.headers ==>
         LinkEntry(c, column, received, seeded, b)
  }

  lemma RecordedHasLinks(c: Chain, column: MetaColumn, received: set<BlockHash>, seeded: bool)
    requires c.Consistent() && Recorded(c, column, received, seeded)
    ensures LinksRecorded(c, column, received, seeded)
  {
    forall b | b in c.headers ensures LinkEntry(c, column, received, seeded, b) {
      assert EntryCorrect(c, column, received, seeded, b);
    }
  }

  /** What a header does to levels and predecessors. */
  lemma PutHeaderLinks(column: MetaColumn, h: Header, chainId: ChainId, b: BlockHash)
    requires h.level > -0x8000_0000 && b in PutHeader(column, h, chainId)
    ensures var m := PutHeader(column, h, chainId)[b];
            && m.level == (if b in column then column[b].level else if b == h.hash then h.level else h.level - 1)
            && m.predecessor == (if b in column && column[b].predecessor.Some? then column[b].predecessor
                                 else if b == h.hash then Some(h.predecessor) else None)
  {
    var mid := PutOwnRecord(column, h, chainId);
    assert b in column ==> b in mid && mid[b].level == column[b].level;
    assert b in mid && b !in column ==> b == h.hash && mid[b].level == h.level;
  }

  lemma LinkAfterHeader(c: Chain, column: MetaColumn, received: set<BlockHash>, seeded: bool, h: Header, chainId: ChainId, b: BlockHash)
    requires c.Consistent() && received <= c.headers.Keys && b in c.headers && IsHeaderOf(c, h)
    requires LinkEntry(c, column, received, seeded, b) && h.level > -0x8000_0000
    ensures LinkEntry(c, PutHeader(column, h, chainId), received + {h.hash}, seeded, b)
  {
    hide PutHeader, Chain.Consistent;
    var x := h.hash;
    assert c.Depth(x) == h.level && c.Parent(x) == h.predecessor;
    PutHeaderTouches(column, h, chainId);
    ChildrenAfter(c, received, x, b);
    if b in PutHeader(column, h, chainId) {
      PutHeaderLinks(column, h, chainId, b);
    }
  }

  /** A header keeps them right even when successors were lost before. */
  lemma HeaderKeepsLinks(c: Chain, column: MetaColumn, received: set<BlockHash>, seeded: bool, h: Header, chainId: ChainId)
    requires c.Consistent() && LinksRecorded(c, column, received, seeded) && IsHeaderOf(c, h)
    ensures h.level > -0x8000_0000
    ensures LinksRecorded(c, PutHeader(column, h, chainId), received + {h.hash}, seeded)
  {
    hide PutHeader, LinkEntry;
    assert c.Depth(h.hash) == h.level && c.Parent(h.hash) == h.predecessor;
    PutHeaderTouches(column, h, chainId);
    forall b | b in c.headers ensures LinkEntry(c, PutHeader(column, h, chainId), received + {h.hash}, seeded, b) {
      assert LinkEntry(c, column, received, seeded, b);
      LinkAfterHeader(c, column, received, seeded, h, chainId, b);
    }
  }

  /** Writing back a record that was read some time ago keeps them right too. */
  lemma WriteBackKeepsLinks(c: Chain, column: MetaColumn, received: set<BlockHash>, seeded: bool, b: BlockHash, read: Meta)
    requires c.Consistent() && LinksRecorded(c, column, received, seeded) && b in column
    requires column[b].predecessor.None? ==> read.predecessor.None?
    ensures LinksRecorded(c, Put(column, b, read.(isApplied := true)), received, seeded)
  {
    var after := Put(column, b, read.(isApplied := true));
    forall x | x in c.headers ensures LinkEntry(c, after, received, seeded, x) {
      assert LinkEntry(c, column, received, seeded, x);
    }
  }
}
