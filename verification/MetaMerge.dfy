/** Block metadata records and the merge of two of them.

    Every write to the block-metadata column is a merge: the stored record is combined with the
    written one. RocksDB may combine pending writes in any grouping before it reaches the stored
    record, so what a read returns must not depend on the grouping. */
module MetaMerge {
  import opened Blocks

  datatype Meta = Meta(
    isApplied: bool,
    predecessor: Option<BlockHash>,
    successors: seq<BlockHash>,
    level: Level,
    chainId: ChainId)

  function FirstSet(a: Option<BlockHash>, b: Option<BlockHash>): Option<BlockHash> {
    if a.Some? then a else b
  }

  /** The record a reader sees after `op` was merged into `val`. The successor list is replaced
      when the two lists have different lengths and kept otherwise; level and chain never
      change. */
  function Merge(val: Meta, op: Meta): Meta {
    Meta(
      val.isApplied || op.isApplied,
      FirstSet(val.predecessor, op.predecessor),
      if |val.successors| != |op.successors| then op.successors else val.successors,
      val.level,
      val.chainId)
  }

  // ------------------------------------------------------------------ regrouping

  /** Merging three records in either grouping gives the same record exactly when the middle
      write does not change the successor count away from a count that the outer two share with
      different contents. */
  lemma MergeAssociativeIff(a: Meta, b: Meta, c: Meta)
    ensures Merge(Merge(a, b), c) == Merge(a, Merge(b, c)) <==>
            !(|a.successors| == |c.successors| != |b.successors| && a.successors != c.successors)
  {
    var left := Merge(Merge(a, b), c);
    var right := Merge(a, Merge(b, c));
    assert left == right <==> left.successors == right.successors;
  }

  /** A successor list that is replaced by one of the same length through an empty one shows
      that the grouping matters in general. */
  lemma MergeNotAssociative(x: BlockHash, y: BlockHash, chainId: ChainId)
    requires x != y
    ensures var a := Meta(false, None, [x], 1, chainId);
            var b := Meta(false, None, [], 1, chainId);
            var c := Meta(false, None, [y], 1, chainId);
            Merge(Merge(a, b), c).successors == [y] &&
            Merge(a, Merge(b, c)).successors == [x]
  {
  }

  /** A grouping of pending operands. */
  datatype Grouping = Operand(meta: Meta) | Group(left: Grouping, right: Grouping)

  function Evaluate(g: Grouping): Meta {
    match g
    case Operand(meta) => meta
    case Group(left, right) => Merge(Evaluate(left), Evaluate(right))
  }

  function Operands(g: Grouping): (ops: seq<Meta>)
    ensures |ops| > 0
  {
    match g
    case Operand(meta) => [meta]
    case Group(left, right) => Operands(left) + Operands(right)
  }

  /** The operands merged one after the other, oldest first. */
  function MergeAll(ops: seq<Meta>): Meta
    requires |ops| > 0
  {
    if |ops| == 1 then ops[0] else Merge(MergeAll(ops[..|ops| - 1]), ops[|ops| - 1])
  }

  lemma {:induction false} MergeAllHead(a: Meta, b: Meta, rest: seq<Meta>)
    ensures MergeAll([a, b] + rest) == MergeAll([Merge(a, b)] + rest)
  {
    if rest == [] {
      assert [a, b] + rest == [a, b] && [Merge(a, b)] + rest == [Merge(a, b)];
      assert [a, b][..1] == [a];
    } else {
      var front := rest[..|rest| - 1];
      assert ([a, b] + rest)[..|rest| + 1] == [a, b] + front;
      assert ([Merge(a, b)] + rest)[..|rest|] == [Merge(a, b)] + front;
      MergeAllHead(a, b, front);
    }
  }

  /** Each writer extends the successor list it read. */
  ghost predicate GrowingSuccessors(ops: seq<Meta>) {
    forall i, j :: 0 <= i <= j < |ops| ==> ops[i].successors <= ops[j].successors
  }

  /** What a series of growing writes amounts to: applied if any says so, the first predecessor
      set, the newest successor list, the first level and chain. */
  ghost predicate Summarises(r: Meta, ops: seq<Meta>)
    requires |ops| > 0
  {
    && (r.isApplied <==> exists i :: 0 <= i < |ops| && ops[i].isApplied)
    && (r.predecessor.None? <==> forall i :: 0 <= i < |ops| ==> ops[i].predecessor.None?)
    && (r.predecessor.Some? ==> exists i :: IsFirstSet(ops, i) && r.predecessor == ops[i].predecessor)
    && r.successors == ops[|ops| - 1].successors
    && r.level == ops[0].level
    && r.chainId == ops[0].chainId
  }

  ghost predicate IsFirstSet(ops: seq<Meta>, i: int) {
    && 0 <= i < |ops|
    && ops[i].predecessor.Some?
    && forall j :: 0 <= j < i ==> ops[j].predecessor.None?
  }

  lemma SummaryIsUnique(r: Meta, s: Meta, ops: seq<Meta>)
    requires |ops| > 0
    requires Summarises(r, ops) && Summarises(s, ops)
    ensures r == s
  {
    if r.predecessor.Some? {
      var i :| IsFirstSet(ops, i) && r.predecessor == ops[i].predecessor;
      var j :| IsFirstSet(ops, j) && s.predecessor == ops[j].predecessor;
      assert i == j;
    }
  }

  lemma SummaryOfMerge(r: Meta, xs: seq<Meta>, s: Meta, ys: seq<Meta>)
    requires |xs| > 0 && |ys| > 0
    requires GrowingSuccessors(xs + ys)
    requires Summarises(r, xs) && Summarises(s, ys)
    ensures Summarises(Merge(r, s), xs + ys)
  {
    var ops := xs + ys;
    var m := Merge(r, s);
    assert r.successors == ops[|xs| - 1].successors;
    assert s.successors == ops[|ops| - 1].successors;
    assert m.successors == s.successors;
    SummaryApplied(r, xs, s, ys);
    SummaryPredecessor(r, xs, s, ys);
  }

  lemma SummaryApplied(r: Meta, xs: seq<Meta>, s: Meta, ys: seq<Meta>)
    requires |xs| > 0 && |ys| > 0
    requires Summarises(r, xs) && Summarises(s, ys)
    ensures Merge(r, s).isApplied <==> exists i :: 0 <= i < |xs + ys| && (xs + ys)[i].isApplied
  {
    var ops := xs + ys;
    if r.isApplied {
      var i :| 0 <= i < |xs| && xs[i].isApplied;
      assert ops[i].isApplied;
    }
    if s.isApplied {
      var i :| 0 <= i < |ys| && ys[i].isApplied;
      assert ops[|xs| + i].isApplied;
    }
  }

  lemma SummaryPredecessor(r: Meta, xs: seq<Meta>, s: Meta, ys: seq<Meta>)
    requires |xs| > 0 && |ys| > 0
    requires Summarises(r, xs) && Summarises(s, ys)
    ensures var m := Merge(r, s); var ops := xs + ys;
            && (m.predecessor.None? <==> forall i :: 0 <= i < |ops| ==> ops[i].predecessor.None?)
            && (m.predecessor.Some? ==> exists i :: IsFirstSet(ops, i) && m.predecessor == ops[i].predecessor)
  {
    var ops := xs + ys;
    if r.predecessor.Some? {
      var i :| IsFirstSet(xs, i) && r.predecessor == xs[i].predecessor;
      assert IsFirstSet(ops, i) && ops[i] == xs[i];
    } else if s.predecessor.Some? {
      var i :| IsFirstSet(ys, i) && s.predecessor == ys[i].predecessor;
      assert IsFirstSet(ops, |xs| + i) && ops[|xs| + i] == ys[i];
    }
  }

  lemma {:induction false} EvaluateSummarises(g: Grouping)
    requires GrowingSuccessors(Operands(g))
    ensures Summarises(Evaluate(g), Operands(g))
  {
    match g
    case Operand(meta) =>
      assert meta.predecessor.Some? ==> IsFirstSet([meta], 0);
      assert meta.isApplied ==> [meta][0].isApplied;
    case Group(left, right) =>
      var xs, ys := Operands(left), Operands(right);
      GrowingParts(xs, ys);
      EvaluateSummarises(left);
      EvaluateSummarises(right);
      SummaryOfMerge(Evaluate(left), xs, Evaluate(right), ys);
  }

  lemma GrowingParts(xs: seq<Meta>, ys: seq<Meta>)
    requires GrowingSuccessors(xs + ys)
    ensures GrowingSuccessors(xs) && GrowingSuccessors(ys)
  {
    var ops := xs + ys;
    forall i, j | 0 <= i <= j < |xs| ensures xs[i].successors <= xs[j].successors {
      assert ops[i].successors <= ops[j].successors;
    }
    forall i, j | 0 <= i <= j < |ys| ensures ys[i].successors <= ys[j].successors {
      assert ops[|xs| + i].successors <= ops[|xs| + j].successors;
    }
  }

  /** The chain of merges that groups to the left: how RocksDB's full merge runs. */
  function LeftChain(ops: seq<Meta>): (g: Grouping)
    requires |ops| > 0
    ensures Operands(g) == ops
    ensures Evaluate(g) == MergeAll(ops)
  {
    if |ops| == 1 then Operand(ops[0])
    else
      assert ops == ops[..|ops| - 1] + [ops[|ops| - 1]];
      Group(LeftChain(ops[..|ops| - 1]), Operand(ops[|ops| - 1]))
  }

  /** However RocksDB groups a series of writes that only extend the successor list, a reader
      sees the record that merging them in order gives. */
  lemma GroupingIrrelevant(g: Grouping)
    requires GrowingSuccessors(Operands(g))
    ensures Evaluate(g) == MergeAll(Operands(g))
  {
    var ops := Operands(g);
    EvaluateSummarises(g);
    EvaluateSummarises(LeftChain(ops));
    SummaryIsUnique(Evaluate(g), Evaluate(LeftChain(ops)), ops);
  }

  // ------------------------------------------------------------------ the column

  type MetaColumn = map<BlockHash, Meta>

  /** `BlockMetaStorage::put`: a merge into the column. */
  function Put(column: MetaColumn, key: BlockHash, meta: Meta): MetaColumn {
    column[key := if key in column then Merge(column[key], meta) else meta]
  }

  datatype Write = Write(key: BlockHash, meta: Meta)

  function PutAll(column: MetaColumn, writes: seq<Write>): MetaColumn
    decreases |writes|
  {
    if writes == [] then column
    else PutAll(Put(column, writes[0].key, writes[0].meta), writes[1..])
  }

  /** Whatever writes follow, in whatever order, from whatever stale copies: a record stays,
      an applied block stays applied, a set predecessor keeps its value, and the level and chain
      of the first write stay. */
  lemma {:induction false} FactsAreForever(column: MetaColumn, writes: seq<Write>, b: BlockHash)
    requires b in column
    ensures var after := PutAll(column, writes);
            && b in after
            && (column[b].isApplied ==> after[b].isApplied)
            && (column[b].predecessor.Some? ==> after[b].predecessor == column[b].predecessor)
            && after[b].level == column[b].level
            && after[b].chainId == column[b].chainId
    decreases |writes|
  {
    if writes != [] {
      FactsAreForever(Put(column, writes[0].key, writes[0].meta), writes[1..], b);
    }
  }

  /** Conversely, a block is only ever marked applied, or given a predecessor, by a write for
      that block that says so. */
  lemma {:induction false} FactsComeFromWrites(column: MetaColumn, writes: seq<Write>, b: BlockHash)
    ensures var after := PutAll(column, writes);
            && (b in after && after[b].isApplied && !(b in column && column[b].isApplied) ==>
                  exists w :: w in writes && w.key == b && w.meta.isApplied)
            && (b in after && after[b].predecessor.Some? && !(b in column && column[b].predecessor.Some?) ==>
                  exists w :: w in writes && w.key == b && w.meta.predecessor == after[b].predecessor)
    decreases |writes|
  {
    if writes != [] {
      var w, rest := writes[0], writes[1..];
      var next := Put(column, w.key, w.meta);
      FactsComeFromWrites(next, rest, b);
      assert forall x :: x in rest ==> x in writes;
      if b in next && next[b].predecessor.Some? {
        FactsAreForever(next, rest, b);
      }
    }
  }
}
