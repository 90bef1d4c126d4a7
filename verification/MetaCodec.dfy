/** The byte format of block metadata and the merge operator that edits it in place.

    Layout: mask (1), predecessor (32), level (4), chain id (4), successor count (8) and the
    successors (32 each). Numbers are big-endian; `usize` is 8 bytes. */
module MetaCodec {
  import opened Numbers
  import opened Blocks
  import opened MetaMerge

  const LEN_BLOCK_HASH := 32
  const LEN_CHAIN_ID := 4
  const IDX_MASK := 0
  const IDX_PREDECESSOR := IDX_MASK + 1
  const IDX_LEVEL := IDX_PREDECESSOR + LEN_BLOCK_HASH
  const IDX_CHAIN_ID := IDX_LEVEL + 4
  const IDX_SUCCESSOR_COUNT := IDX_CHAIN_ID + LEN_CHAIN_ID
  const IDX_SUCCESSOR := IDX_SUCCESSOR_COUNT + 8
  const LEN_FIXED_META := 1 + LEN_BLOCK_HASH + 4 + LEN_CHAIN_ID + 8

  const BIT_IS_APPLIED: nat := 0
  const BIT_HAS_SUCCESSOR: nat := 1
  const BIT_HAS_PREDECESSOR: nat := 2

  type Bytes = seq<byte>

  function TotalLen(successors: nat): nat {
    LEN_FIXED_META + successors * LEN_BLOCK_HASH
  }

  // ------------------------------------------------------------------ field formats

  function Flatten(hashes: seq<BlockHash>): (s: Bytes)
    ensures |s| == |hashes| * LEN_BLOCK_HASH
  {
    if hashes == [] then []
    else Flatten(hashes[..|hashes| - 1]) + hashes[|hashes| - 1].bytes
  }

  lemma {:induction false} FlattenAt(hashes: seq<BlockHash>, i: nat)
    requires i < |hashes|
    ensures (i + 1) * LEN_BLOCK_HASH <= |Flatten(hashes)|
    ensures Flatten(hashes)[i * LEN_BLOCK_HASH..(i + 1) * LEN_BLOCK_HASH] == hashes[i].bytes
  {
    var front := hashes[..|hashes| - 1];
    if i < |front| {
      FlattenAt(front, i);
    }
  }

  // ------------------------------------------------------------------ encoding

  function Mask(m: Meta): byte {
    (if m.isApplied then 1 else 0)
    + (if m.successors != [] then 2 else 0)
    + (if m.predecessor.Some? then 4 else 0)
  }

  lemma MaskBits(m: Meta)
    ensures Bit(Mask(m), BIT_IS_APPLIED) <==> m.isApplied
    ensures Bit(Mask(m), BIT_HAS_SUCCESSOR) <==> m.successors != []
    ensures Bit(Mask(m), BIT_HAS_PREDECESSOR) <==> m.predecessor.Some?
  {
    var x: nat := Mask(m);
    assert Bit(x, 0) <==> x % 2 == 1;
    assert Bit(x, 1) <==> x / 2 % 2 == 1;
    assert Bit(x, 2) == Bit(x / 2, 1) == Bit(x / 2 / 2, 0);
  }

  lemma MaskByOr(m: Meta)
    ensures var applied := if m.isApplied then BitOr(0, 1) else 0;
            var linked := if m.predecessor.Some? then BitOr(applied, 4) else applied;
            var mask := if m.successors != [] then BitOr(linked, 2) else linked;
            mask == Mask(m)
  {
    assert BitOr(1, 4) == 5 && BitOr(1, 2) == 3 && BitOr(4, 2) == 6 && BitOr(5, 2) == 7;
  }

  function PredecessorBytes(p: Option<BlockHash>): Bytes32 {
    if p.Some? then p.value.bytes else seq(32, _ => 0)
  }

  /** The count must fit the eight bytes reserved for it. */
  predicate Encodable(m: Meta) {
    |m.successors| < Pow256(8)
  }

  function Encode(m: Meta): (s: Bytes)
    requires Encodable(m)
    ensures |s| == TotalLen(|m.successors|)
  {
    [Mask(m)] + PredecessorBytes(m.predecessor) + EncodeI32(m.level) + m.chainId.bytes
    + ToBe(|m.successors|, 8) + Flatten(m.successors)
  }

  /** `Meta::encode`, byte vector and all. */
  method EncodeMeta(m: Meta) returns (value: Bytes)
    requires Encodable(m)
    ensures value == Encode(m)
  {
    var mask: nat := 0;
    if m.isApplied {
      mask := BitOr(mask, 1);
    }
    if m.predecessor.Some? {
      mask := BitOr(mask, 4);
    }
    if m.successors != [] {
      mask := BitOr(mask, 2);
    }
    MaskByOr(m);
    value := [mask];
    match m.predecessor {
      case Some(predecessor) => value := value + predecessor.bytes;
      case None => value := value + seq(32, _ => 0);
    }
    value := value + EncodeI32(m.level);
    value := value + m.chainId.bytes;
    value := value + ToBe(|m.successors|, 8);
    ghost var fixed := value;
    for i := 0 to |m.successors|
      invariant value == fixed + Flatten(m.successors[..i])
    {
      assert m.successors[..i + 1][..i] == m.successors[..i];
      value := value + m.successors[i].bytes;
    }
    assert m.successors[..|m.successors|] == m.successors;
  }

  // ------------------------------------------------------------------ decoding

  function SuccessorCount(s: Bytes): nat
    requires |s| >= LEN_FIXED_META
  {
    FromBe(s[IDX_SUCCESSOR_COUNT..IDX_SUCCESSOR])
  }

  function SuccessorAt(s: Bytes, i: nat): BlockHash
    requires |s| >= TotalLen(i + 1)
  {
    BlockHash(s[IDX_SUCCESSOR + i * LEN_BLOCK_HASH..IDX_SUCCESSOR + i * LEN_BLOCK_HASH + LEN_BLOCK_HASH])
  }

  /** Reading the successors stays inside the bytes. Shorter input makes the source panic. */
  predicate SuccessorsInBounds(s: Bytes) {
    |s| >= LEN_FIXED_META && Bit(s[IDX_MASK], BIT_HAS_SUCCESSOR) ==>
      |s| >= TotalLen(SuccessorCount(s))
  }

  function SuccessorsOf(s: Bytes): seq<BlockHash>
    requires |s| >= LEN_FIXED_META && SuccessorsInBounds(s)
  {
    if Bit(s[IDX_MASK], BIT_HAS_SUCCESSOR)
    then seq(SuccessorCount(s), i requires 0 <= i < SuccessorCount(s) => SuccessorAt(s, i))
    else []
  }

  function Decode(s: Bytes): (r: Result<Meta>)
    requires SuccessorsInBounds(s)
    ensures r.Ok? <==> |s| >= LEN_FIXED_META
  {
    if |s| < LEN_FIXED_META then Err(DecodeError)
    else Ok(Meta(
      Bit(s[IDX_MASK], BIT_IS_APPLIED),
      if Bit(s[IDX_MASK], BIT_HAS_PREDECESSOR) then Some(BlockHash(s[IDX_PREDECESSOR..IDX_LEVEL])) else None,
      SuccessorsOf(s),
      DecodeI32(s[IDX_LEVEL..IDX_CHAIN_ID]),
      ChainId(s[IDX_CHAIN_ID..IDX_SUCCESSOR_COUNT])))
  }

  /** `Meta::decode`, with its loop over the successors. */
  method DecodeMeta(s: Bytes) returns (r: Result<Meta>)
    requires SuccessorsInBounds(s)
    ensures r == Decode(s)
  {
    if LEN_FIXED_META <= |s| {
      var mask: nat := s[IDX_MASK];
      var predecessor := None;
      if Bit(mask, BIT_HAS_PREDECESSOR) {
        predecessor := Some(BlockHash(s[IDX_PREDECESSOR..IDX_LEVEL]));
      }
      var successors: seq<BlockHash> := [];
      if Bit(mask, BIT_HAS_SUCCESSOR) {
        var count := SuccessorCount(s);
        for i := 0 to count
          invariant |successors| == i
          invariant forall j :: 0 <= j < i ==> successors[j] == SuccessorAt(s, j)
        {
          var next := IDX_SUCCESSOR + i * LEN_BLOCK_HASH;
          successors := successors + [BlockHash(s[next..next + LEN_BLOCK_HASH])];
        }
      }
      assert successors == SuccessorsOf(s);
      r := Ok(Meta(
        Bit(mask, BIT_IS_APPLIED), predecessor, successors,
        DecodeI32(s[IDX_LEVEL..IDX_CHAIN_ID]), ChainId(s[IDX_CHAIN_ID..IDX_SUCCESSOR_COUNT])));
    } else {
      r := Err(DecodeError);
    }
  }

  /** Every record survives a write and a read. */
  lemma RoundTrip(m: Meta)
    requires Encodable(m)
    ensures WellFormed(Encode(m))
    ensures Decode(Encode(m)) == Ok(m)
  {
    var s := Encode(m);
    EncodedFields(m);
    MaskBits(m);
    I32RoundTrip(m.level);
    FromToBe(|m.successors|, 8);
    forall i | 0 <= i < |m.successors| ensures SuccessorAt(s, i) == m.successors[i] {
      EncodedSuccessor(m.successors, s, i);
    }
    assert SuccessorsOf(s) == m.successors;
  }

  lemma EncodedSuccessor(hashes: seq<BlockHash>, s: Bytes, i: nat)
    requires i < |hashes| && |s| == TotalLen(|hashes|)
    requires s[IDX_SUCCESSOR..] == Flatten(hashes)
    ensures SuccessorAt(s, i) == hashes[i]
  {
    FlattenAt(hashes, i);
    SliceOfTail(s, IDX_SUCCESSOR, i * LEN_BLOCK_HASH, (i + 1) * LEN_BLOCK_HASH);
  }

  lemma SliceOfTail(s: Bytes, from: nat, a: nat, b: nat)
    requires from <= |s| && a <= b <= |s| - from
    ensures s[from + a..from + b] == s[from..][a..b]
  {
  }

  lemma EncodedFields(m: Meta)
    requires Encodable(m)
    ensures var s := Encode(m);
            && s[IDX_MASK] == Mask(m)
            && s[IDX_PREDECESSOR..IDX_LEVEL] == PredecessorBytes(m.predecessor)
            && s[IDX_LEVEL..IDX_CHAIN_ID] == EncodeI32(m.level)
            && s[IDX_CHAIN_ID..IDX_SUCCESSOR_COUNT] == m.chainId.bytes
            && s[IDX_SUCCESSOR_COUNT..IDX_SUCCESSOR] == ToBe(|m.successors|, 8)
            && s[IDX_SUCCESSOR..] == Flatten(m.successors)
  {
  }

  /** The layout in plain numbers: flags, predecessor, level, chain id, successor count and the
      successors. */
  lemma EncodedLayout(m: Meta)
    requires Encodable(m)
    ensures var s := Encode(m);
            && |s| == 49 + 32 * |m.successors|
            && (Bit(s[0], 0) <==> m.isApplied)
            && (Bit(s[0], 1) <==> m.successors != [])
            && (Bit(s[0], 2) <==> m.predecessor.Some?)
            && s[0] < 8
            && (m.predecessor.Some? ==> s[1..33] == m.predecessor.value.bytes)
            && (m.predecessor.None? ==> forall i :: 1 <= i < 33 ==> s[i] == 0)
            && m.level == Signed32(s[33], s[34], s[35], s[36])
            && s[37..41] == m.chainId.bytes
            && FromBe(s[41..49]) == |m.successors|
            && forall i :: 0 <= i < |m.successors| ==> s[49 + 32 * i..81 + 32 * i] == m.successors[i].bytes
  {
    hide Encode, Flatten, EncodeI32, DecodeI32, Signed32, Bit, ToBe, FromBe;
    var s := Encode(m);
    EncodedFields(m);
    MaskBits(m);
    I32RoundTrip(m.level);
    DecodeI32Bytes(s[33..37]);
    FromToBe(|m.successors|, 8);
    assert forall i :: 1 <= i < 33 ==> s[i] == s[1..33][i - 1];
    forall i | 0 <= i < |m.successors| ensures s[49 + 32 * i..81 + 32 * i] == m.successors[i].bytes {
      FlattenAt(m.successors, i);
      SliceOfTail(s, 49, i * 32, (i + 1) * 32);
    }
  }

  // ------------------------------------------------------------------ the merge operator

  /** The shape every stored value has: the length matches the successor count, and a non-zero
      count is announced in the mask. Merging can leave the mask bit set with a count of zero. */
  predicate WellFormed(s: Bytes) {
    && |s| >= LEN_FIXED_META
    && |s| == TotalLen(SuccessorCount(s))
    && (SuccessorCount(s) > 0 ==> Bit(s[IDX_MASK], BIT_HAS_SUCCESSOR))
  }

  /** The record a well-formed value stands for. */
  function MetaOf(s: Bytes): (m: Meta)
    requires WellFormed(s)
    ensures |m.successors| == SuccessorCount(s)
  {
    Decode(s).value
  }

  function Splice(val: Bytes, from: nat, to: nat, part: Bytes): Bytes
    requires from <= to <= |val|
  {
    val[..from] + part + val[to..]
  }

  lemma MaskOr(x: byte, y: byte)
    ensures 0 <= BitOr(x, y) < 256
  {
    assert Pow2(8) == 256 by { Pow2Values(); }
    BitOrBounded(x, y, 8);
  }

  /** What one operand does to the value's bytes. */
  function MergeStep(val: Bytes, op: Bytes): (r: Bytes)
    requires |val| >= LEN_FIXED_META && |op| >= LEN_FIXED_META
    ensures |r| >= LEN_FIXED_META
  {
    MaskOr(val[IDX_MASK], op[IDX_MASK]);
    var masked: Bytes := val[IDX_MASK := BitOr(val[IDX_MASK], op[IDX_MASK])];
    var linked :=
      if Bit(op[IDX_MASK], BIT_HAS_PREDECESSOR) && !Bit(val[IDX_MASK], BIT_HAS_PREDECESSOR)
      then Splice(masked, IDX_PREDECESSOR, IDX_LEVEL, op[IDX_PREDECESSOR..IDX_LEVEL])
      else masked;
    if (Bit(op[IDX_MASK], BIT_HAS_SUCCESSOR) && !Bit(val[IDX_MASK], BIT_HAS_SUCCESSOR))
       || SuccessorCount(linked) != SuccessorCount(op)
    then linked[..IDX_SUCCESSOR_COUNT] + op[IDX_SUCCESSOR_COUNT..]
    else linked
  }

  /** The operands merged into `val` in order; too short an operand makes the result `None`. */
  function MergeFrom(val: Bytes, operands: seq<Bytes>): Option<Bytes>
    requires operands != [] && |operands[0]| >= LEN_FIXED_META ==> |val| >= LEN_FIXED_META
    decreases |operands|
  {
    if operands == [] then Some(val)
    else if |operands[0]| < LEN_FIXED_META then None
    else MergeFrom(MergeStep(val, operands[0]), operands[1..])
  }

  /** A first operand that is too short is stored unchecked; a second one of proper length on top
      of it makes the source panic. */
  predicate OnlyShortAlone(existing: Option<Bytes>, operands: seq<Bytes>) {
    existing.None? && |operands| > 1 && |operands[1]| >= LEN_FIXED_META ==> |operands[0]| >= LEN_FIXED_META
  }

  /** The full merge, with or without a stored value. */
  function MergeBytes(existing: Option<Bytes>, operands: seq<Bytes>): Option<Bytes>
    requires OnlyShortAlone(existing, operands)
  {
    match existing
    case Some(val) => if |val| < LEN_FIXED_META then None else MergeFrom(val, operands)
    case None => if operands == [] then None else MergeFrom(operands[0], operands[1..])
  }

  lemma {:induction false} MergeFromFailsIff(val: Bytes, operands: seq<Bytes>)
    requires operands != [] && |operands[0]| >= LEN_FIXED_META ==> |val| >= LEN_FIXED_META
    ensures MergeFrom(val, operands).None? <==> exists i :: 0 <= i < |operands| && |operands[i]| < LEN_FIXED_META
    decreases |operands|
  {
    hide MergeStep;
    if operands != [] && |operands[0]| >= LEN_FIXED_META {
      var rest := operands[1..];
      MergeFromFailsIff(MergeStep(val, operands[0]), rest);
      assert forall i :: 0 <= i < |rest| ==> rest[i] == operands[i + 1];
      if i :| 0 <= i < |operands| && |operands[i]| < LEN_FIXED_META {
        assert rest[i - 1] == operands[i];
      }
    }
  }

  /** The merge fails exactly when there is nothing to merge, the stored value is too short, or an
      operand that is merged into another value is. */
  lemma MergeFailsIff(existing: Option<Bytes>, operands: seq<Bytes>)
    requires OnlyShortAlone(existing, operands)
    ensures MergeBytes(existing, operands).None? <==>
            || (existing.None? && operands == [])
            || (existing.Some? && |existing.value| < 49)
            || exists i :: (if existing.Some? then 0 else 1) <= i < |operands| && |operands[i]| < 49
  {
    hide MergeFrom;
    if existing.Some? {
      if |existing.value| >= 49 {
        MergeFromFailsIff(existing.value, operands);
      }
    } else if operands != [] {
      var rest := operands[1..];
      MergeFromFailsIff(operands[0], rest);
      if i :| 1 <= i < |operands| && |operands[i]| < 49 {
        assert rest[i - 1] == operands[i];
      }
      if i :| 0 <= i < |rest| && |rest[i]| < 49 {
        assert operands[i + 1] == rest[i];
      }
    }
  }

  /** The body of the merge loop: edits the value in place. */
  method MergeOperand(value: Bytes, op: Bytes) returns (val: Bytes)
    requires |value| >= LEN_FIXED_META && |op| >= LEN_FIXED_META
    ensures val == MergeStep(value, op)
  {
    val := value;
    var maskVal, maskOp := val[IDX_MASK], op[IDX_MASK];
    MaskOr(maskVal, maskOp);
    val := val[IDX_MASK := BitOr(maskVal, maskOp)];
    if Bit(maskOp, BIT_HAS_PREDECESSOR) && !Bit(maskVal, BIT_HAS_PREDECESSOR) {
      val := Splice(val, IDX_PREDECESSOR, IDX_LEVEL, op[IDX_PREDECESSOR..IDX_LEVEL]);
    }
    if (Bit(maskOp, BIT_HAS_SUCCESSOR) && !Bit(maskVal, BIT_HAS_SUCCESSOR))
       || SuccessorCount(val) != SuccessorCount(op)
    {
      ghost var linked := val;
      val := val[..LEN_FIXED_META];
      val := Splice(val, IDX_SUCCESSOR_COUNT, |val|, op[IDX_SUCCESSOR_COUNT..]);
      assert val == linked[..IDX_SUCCESSOR_COUNT] + op[IDX_SUCCESSOR_COUNT..];
    }
  }

  /** `merge_meta_value`. */
  method MergeMetaValue(existing: Option<Bytes>, operands: seq<Bytes>) returns (result: Option<Bytes>)
    requires OnlyShortAlone(existing, operands)
    ensures result == MergeBytes(existing, operands)
  {
    if existing.Some? && |existing.value| < LEN_FIXED_META {
      return None;
    }
    result := existing;
    for i := 0 to |operands|
      invariant result.None? ==> existing.None? && i == 0
      invariant result.Some? && i < |operands| && |operands[i]| >= LEN_FIXED_META ==> |result.value| >= LEN_FIXED_META
      invariant result.Some? ==> MergeFrom(result.value, operands[i..]) == MergeBytes(existing, operands)
    {
      var op := operands[i];
      assert operands[i..][0] == op && operands[i..][1..] == operands[i + 1..];
      match result {
        case Some(val) =>
          if |op| < LEN_FIXED_META {
            return None;
          }
          var merged := MergeOperand(val, op);
          result := Some(merged);
        case None =>
          result := Some(op);
      }
    }
  }

  // ------------------------------------------------------------------ refinement

  lemma StepFields(val: Bytes, op: Bytes)
    requires |val| >= LEN_FIXED_META && |op| >= LEN_FIXED_META
    ensures var r := MergeStep(val, op);
            && r[IDX_MASK] == BitOr(val[IDX_MASK], op[IDX_MASK])
            && r[IDX_PREDECESSOR..IDX_LEVEL] ==
                 (if Bit(op[IDX_MASK], BIT_HAS_PREDECESSOR) && !Bit(val[IDX_MASK], BIT_HAS_PREDECESSOR)
                  then op[IDX_PREDECESSOR..IDX_LEVEL] else val[IDX_PREDECESSOR..IDX_LEVEL])
            && r[IDX_LEVEL..IDX_SUCCESSOR_COUNT] == val[IDX_LEVEL..IDX_SUCCESSOR_COUNT]
  {
  }

  lemma StepTail(val: Bytes, op: Bytes)
    requires |val| >= LEN_FIXED_META && |op| >= LEN_FIXED_META
    ensures MergeStep(val, op)[IDX_SUCCESSOR_COUNT..] ==
            (if (Bit(op[IDX_MASK], BIT_HAS_SUCCESSOR) && !Bit(val[IDX_MASK], BIT_HAS_SUCCESSOR))
                || SuccessorCount(val) != SuccessorCount(op)
             then op[IDX_SUCCESSOR_COUNT..] else val[IDX_SUCCESSOR_COUNT..])
  {
    MaskOr(val[IDX_MASK], op[IDX_MASK]);
    var masked: Bytes := val[IDX_MASK := BitOr(val[IDX_MASK], op[IDX_MASK])];
    var linked :=
      if Bit(op[IDX_MASK], BIT_HAS_PREDECESSOR) && !Bit(val[IDX_MASK], BIT_HAS_PREDECESSOR)
      then Splice(masked, IDX_PREDECESSOR, IDX_LEVEL, op[IDX_PREDECESSOR..IDX_LEVEL])
      else masked;
    assert linked[IDX_SUCCESSOR_COUNT..] == val[IDX_SUCCESSOR_COUNT..];
    assert linked[IDX_SUCCESSOR_COUNT..IDX_SUCCESSOR] == val[IDX_SUCCESSOR_COUNT..IDX_SUCCESSOR];
  }

  lemma SameTailSameSuccessors(r: Bytes, s: Bytes)
    requires |r| >= LEN_FIXED_META && WellFormed(s)
    requires r[IDX_SUCCESSOR_COUNT..] == s[IDX_SUCCESSOR_COUNT..]
    requires Bit(s[IDX_MASK], BIT_HAS_SUCCESSOR) ==> Bit(r[IDX_MASK], BIT_HAS_SUCCESSOR)
    ensures WellFormed(r)
    ensures SuccessorsOf(r) == SuccessorsOf(s)
  {
    var tr, ts := r[IDX_SUCCESSOR_COUNT..], s[IDX_SUCCESSOR_COUNT..];
    assert |r| == |s|;
    assert r[IDX_SUCCESSOR_COUNT..IDX_SUCCESSOR] == tr[..8] == ts[..8] == s[IDX_SUCCESSOR_COUNT..IDX_SUCCESSOR];
    forall i | 0 <= i < SuccessorCount(s)
      ensures SuccessorAt(r, i) == SuccessorAt(s, i)
    {
      var a := 8 + i * LEN_BLOCK_HASH;
      SliceOfTail(r, IDX_SUCCESSOR_COUNT, a, a + LEN_BLOCK_HASH);
      SliceOfTail(s, IDX_SUCCESSOR_COUNT, a, a + LEN_BLOCK_HASH);
    }
  }

  /** One in-place edit of the bytes is one merge of the records, and keeps the shape: in
      particular the length always matches the successor count. */
  lemma StepRefinesMerge(val: Bytes, op: Bytes)
    requires WellFormed(val) && WellFormed(op)
    ensures WellFormed(MergeStep(val, op))
    ensures MetaOf(MergeStep(val, op)) == Merge(MetaOf(val), MetaOf(op))
  {
    hide MergeStep, Bit, BitOr;
    var r := MergeStep(val, op);
    StepFields(val, op);
    StepTail(val, op);
    var mv: nat, mo: nat := val[IDX_MASK], op[IDX_MASK];
    BitOrBits(mv, mo, BIT_IS_APPLIED);
    BitOrBits(mv, mo, BIT_HAS_SUCCESSOR);
    BitOrBits(mv, mo, BIT_HAS_PREDECESSOR);
    var replaced := (Bit(mo, BIT_HAS_SUCCESSOR) && !Bit(mv, BIT_HAS_SUCCESSOR))
                    || SuccessorCount(val) != SuccessorCount(op);
    if replaced {
      SameTailSameSuccessors(r, op);
    } else {
      SameTailSameSuccessors(r, val);
    }
    assert SuccessorsOf(r) == Merge(MetaOf(val), MetaOf(op)).successors;
    assert r[IDX_LEVEL..IDX_CHAIN_ID] == r[IDX_LEVEL..IDX_SUCCESSOR_COUNT][..4];
    assert val[IDX_LEVEL..IDX_CHAIN_ID] == val[IDX_LEVEL..IDX_SUCCESSOR_COUNT][..4];
    assert r[IDX_CHAIN_ID..IDX_SUCCESSOR_COUNT] == r[IDX_LEVEL..IDX_SUCCESSOR_COUNT][4..];
    assert val[IDX_CHAIN_ID..IDX_SUCCESSOR_COUNT] == val[IDX_LEVEL..IDX_SUCCESSOR_COUNT][4..];
  }

  ghost predicate AllWellFormed(values: seq<Bytes>) {
    forall i :: 0 <= i < |values| ==> WellFormed(values[i])
  }

  /** The records of a series of well-formed values. */
  ghost function MetasOf(values: seq<Bytes>): (ms: seq<Meta>)
    requires AllWellFormed(values)
    ensures |ms| == |values|
  {
    seq(|values|, i requires 0 <= i < |values| => MetaOf(values[i]))
  }

  lemma MetasOfCons(val: Bytes, rest: seq<Bytes>)
    requires WellFormed(val) && AllWellFormed(rest)
    ensures AllWellFormed([val] + rest)
    ensures MetasOf([val] + rest) == [MetaOf(val)] + MetasOf(rest)
  {
  }

  /** The merge operator on bytes refines merging records, for any number of operands. */
  lemma {:induction false} MergeFromRefinesMergeAll(val: Bytes, operands: seq<Bytes>)
    requires WellFormed(val) && AllWellFormed(operands)
    ensures MergeFrom(val, operands).Some?
    ensures WellFormed(MergeFrom(val, operands).value)
    ensures MetaOf(MergeFrom(val, operands).value) == MergeAll([MetaOf(val)] + MetasOf(operands))
    decreases |operands|
  {
    if operands == [] {
      assert [MetaOf(val)] + MetasOf(operands) == [MetaOf(val)];
    } else {
      var op, rest := operands[0], operands[1..];
      assert operands == [op] + rest;
      StepRefinesMerge(val, op);
      MergeFromRefinesMergeAll(MergeStep(val, op), rest);
      MetasOfCons(op, rest);
      assert [MetaOf(val)] + MetasOf(operands) == [MetaOf(val), MetaOf(op)] + MetasOf(rest);
      MergeAllHead(MetaOf(val), MetaOf(op), MetasOf(rest));
    }
  }

  /** The same for the operator as RocksDB calls it: a stored value counts like a first
      operand. */
  lemma MergeBytesRefinesMergeAll(values: seq<Bytes>)
    requires |values| > 0 && AllWellFormed(values)
    ensures OnlyShortAlone(None, values)
    ensures MergeBytes(None, values) == MergeBytes(Some(values[0]), values[1..])
    ensures MergeBytes(None, values).Some?
    ensures WellFormed(MergeBytes(None, values).value)
    ensures MetaOf(MergeBytes(None, values).value) == MergeAll(MetasOf(values))
  {
    hide MetaOf, MergeFrom, MergeAll, MetasOf;
    assert WellFormed(values[0]);
    MergeFromRefinesMergeAll(values[0], values[1..]);
    MetasOfCons(values[0], values[1..]);
    assert [values[0]] + values[1..] == values;
  }

  // ------------------------------------------------------------------ regrouping bytes

  /** Pending writes, grouped by partial merges that each run the operator without a stored
      value. */
  datatype ByteGrouping = Pending(bytes: Bytes) | Combined(left: ByteGrouping, right: ByteGrouping)

  ghost predicate GroupingWellFormed(g: ByteGrouping) {
    match g
    case Pending(bytes) => WellFormed(bytes)
    case Combined(left, right) => GroupingWellFormed(left) && GroupingWellFormed(right)
  }

  ghost function Records(g: ByteGrouping): Grouping
    requires GroupingWellFormed(g)
  {
    match g
    case Pending(bytes) => Operand(MetaOf(bytes))
    case Combined(left, right) => Group(Records(left), Records(right))
  }

  /** The bytes the grouping evaluates to. */
  ghost function CombineBytes(g: ByteGrouping): (r: Bytes)
    requires GroupingWellFormed(g)
    ensures WellFormed(r) && MetaOf(r) == Evaluate(Records(g))
  {
    match g
    case Pending(bytes) => bytes
    case Combined(left, right) =>
      var l, r := CombineBytes(left), CombineBytes(right);
      StepRefinesMerge(l, r);
      assert MergeBytes(None, [l, r]) == MergeFrom(l, [r]) == Some(MergeStep(l, r));
      MergeBytes(None, [l, r]).value
  }

  /** However RocksDB combines encoded writes that only extend the successor list, decoding
      gives the record that merging them in order gives. */
  lemma ByteGroupingIrrelevant(g: ByteGrouping)
    requires GroupingWellFormed(g) && GrowingSuccessors(Operands(Records(g)))
    ensures Decode(CombineBytes(g)) == Ok(MergeAll(Operands(Records(g))))
  {
    GroupingIrrelevant(Records(g));
  }
}
