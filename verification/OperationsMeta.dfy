/** Which of a block's validation passes have arrived. Threads read, change and merge back the
    record of a block; the record must not claim completeness too early. */
module OperationsMeta {
  import opened Numbers
  import opened Blocks

  type Bytes = seq<byte>

  /** `present` has one byte per validation pass: 1 if its operations are stored. */
  datatype Meta = Meta(validationPasses: byte, present: Bytes, isComplete: bool)

  /** The number of presence bytes is the announced one, and they are flags. */
  predicate Shaped(m: Meta) {
    |m.present| == m.validationPasses && forall i :: 0 <= i < |m.present| ==> m.present[i] <= 1
  }

  function Fresh(validationPasses: byte): (m: Meta)
    ensures Shaped(m)
  {
    Meta(validationPasses, seq(validationPasses, _ => 0), validationPasses == 0)
  }

  predicate AllPresent(m: Meta) {
    forall i :: 0 <= i < |m.present| ==> m.present[i] == 1
  }

  function AllPasses(n: nat): (s: set<nat>)
    ensures forall i: nat :: i in s <==> i < n
  {
    if n == 0 then {} else AllPasses(n - 1) + {n - 1}
  }

  ghost function PresentSet(m: Meta): set<nat> {
    set i: nat | i < |m.present| && m.present[i] == 1
  }

  /** `get_missing_validation_passes`. */
  function Missing(m: Meta): Option<set<nat>> {
    if m.isComplete then None else Some(set i: nat | i < |m.present| && m.present[i] == 0)
  }

  // ------------------------------------------------------------------ merging

  lemma {:induction false} BitOrCommutes(x: nat, y: nat)
    ensures BitOr(x, y) == BitOr(y, x)
  {
    if x != 0 && y != 0 {
      BitOrCommutes(x / 2, y / 2);
    }
  }

  lemma {:induction false} BitOrAssociates(x: nat, y: nat, z: nat)
    ensures BitOr(BitOr(x, y), z) == BitOr(x, BitOr(y, z))
  {
    if x != 0 && y != 0 && z != 0 {
      var a, b := BitOr(x, y), BitOr(y, z);
      BitOrZero(x, y);
      BitOrZero(y, z);
      assert a / 2 == BitOr(x / 2, y / 2) && a % 2 == (if x % 2 == 1 || y % 2 == 1 then 1 else 0) && a != 0;
      assert b / 2 == BitOr(y / 2, z / 2) && b % 2 == (if y % 2 == 1 || z % 2 == 1 then 1 else 0) && b != 0;
      BitOrAssociates(x / 2, y / 2, z / 2);
    }
  }

  lemma {:induction false} BitOrIdempotent(x: nat)
    ensures BitOr(x, x) == x
  {
    if x != 0 {
      BitOrIdempotent(x / 2);
    }
  }

  lemma {:induction false} BitOrZero(x: nat, y: nat)
    ensures BitOr(x, y) == 0 <==> x == 0 && y == 0
  {
    if x != 0 && y != 0 {
      BitOrZero(x / 2, y / 2);
    }
  }

  function OrByte(x: byte, y: byte): (r: byte)
    ensures x <= 1 && y <= 1 ==> r == (if x == 1 || y == 1 then 1 else 0)
  {
    Pow2Values();
    BitOrBounded(x, y, 8);
    BitOr(x, y)
  }

  predicate SameShape(a: Meta, b: Meta) {
    a.validationPasses == b.validationPasses && |a.present| == |b.present| == a.validationPasses
  }

  /** The record a reader sees after `b` was merged into `a`. */
  function Merge(a: Meta, b: Meta): (m: Meta)
    requires SameShape(a, b)
    ensures SameShape(m, a)
  {
    Meta(a.validationPasses,
         seq(|a.present|, i requires 0 <= i < |a.present| => OrByte(a.present[i], b.present[i])),
         a.isComplete || b.isComplete)
  }

  lemma MergeCommutes(a: Meta, b: Meta)
    requires SameShape(a, b)
    ensures Merge(a, b) == Merge(b, a)
  {
    forall i | 0 <= i < |a.present| ensures Merge(a, b).present[i] == Merge(b, a).present[i] {
      BitOrCommutes(a.present[i], b.present[i]);
    }
  }

  /** RocksDB may regroup pending merges freely. */
  lemma MergeAssociates(a: Meta, b: Meta, c: Meta)
    requires SameShape(a, b) && SameShape(b, c)
    ensures Merge(Merge(a, b), c) == Merge(a, Merge(b, c))
  {
    var l, r := Merge(Merge(a, b), c), Merge(a, Merge(b, c));
    forall i | 0 <= i < |a.present| ensures l.present[i] == r.present[i] {
      BitOrAssociates(a.present[i], b.present[i], c.present[i]);
    }
  }

  lemma MergeIdempotent(a: Meta)
    requires |a.present| == a.validationPasses
    ensures Merge(a, a) == a
  {
    forall i | 0 <= i < |a.present| ensures Merge(a, a).present[i] == a.present[i] {
      BitOrIdempotent(a.present[i]);
    }
  }

  // ------------------------------------------------------------------ bytes

  function ExpectedLength(validationPasses: byte): nat {
    2 + validationPasses
  }

  function Encode(m: Meta): Result<Bytes> {
    if |m.present| == m.validationPasses
    then Ok([m.validationPasses] + m.present + [if m.isComplete then 1 else 0])
    else Err(DecodeError)
  }

  /** The pass count a value announces. */
  function Passes(val: Bytes): nat
    requires val != []
  {
    val[0]
  }

  function Decode(s: Bytes): Result<Meta> {
    if s == [] || |s| != ExpectedLength(s[0]) then Err(DecodeError)
    else Ok(Meta(s[0], s[1..Passes(s) + 1], s[Passes(s) + 1] != 0))
  }

  lemma RoundTrip(m: Meta)
    ensures Encode(m).Ok? <==> |m.present| == m.validationPasses
    ensures Encode(m).Ok? ==> Decode(Encode(m).value) == Ok(m)
    ensures Encode(m).Ok? ==> var s := Encode(m).value; s != [] && s[|s| - 1] == if m.isComplete then 1 else 0
  {
    if Encode(m).Ok? {
      var s := Encode(m).value;
      assert s[1..Passes(s) + 1] == m.present;
    }
  }

  /** The layout: the pass count, one byte per pass, the completeness flag. A value is readable
      exactly when its length is the announced one. */
  lemma Layout(s: Bytes)
    ensures Decode(s).Ok? <==> s != [] && |s| == 2 + Passes(s)
    ensures Decode(s).Ok? ==>
              var m := Decode(s).value;
              && m.validationPasses == s[0] && |m.present| == s[0]
              && (forall i :: 0 <= i < |m.present| ==> m.present[i] == s[i + 1])
              && (m.isComplete <==> s[|s| - 1] != 0)
  {
  }

  /** Values the operator refuses to combine. */
  predicate Inconsistent(val: Bytes, op: Bytes) {
    val == [] || |val| != |op| || val[0] != op[0]
  }

  /** A value shorter than its pass count announces makes the source panic. */
  predicate LongEnough(val: Bytes) {
    val != [] ==> |val| >= ExpectedLength(val[0])
  }

  /** The bytes after one operand: flags and completeness are or-ed, the pass count stays. */
  ghost predicate Merged(val: Bytes, op: Bytes, r: Bytes)
    requires !Inconsistent(val, op) && LongEnough(val)
  {
    && |r| == |val| && r[0] == val[0]
    && (forall i :: 1 <= i <= Passes(val) + 1 ==> r[i] == OrByte(val[i], op[i]))
    && (forall i :: Passes(val) + 1 < i < |val| ==> r[i] == val[i])
  }

  /** The loop over one operand. */
  method MergeOperand(value: Bytes, op: Bytes) returns (val: Bytes)
    requires !Inconsistent(value, op) && LongEnough(value)
    ensures Merged(value, op, val)
  {
    val := value;
    var validationPasses := Passes(val);
    for i := 1 to validationPasses + 1
      invariant |val| == |value| && val[0] == value[0]
      invariant forall j :: 1 <= j < i ==> val[j] == OrByte(value[j], op[j])
      invariant forall j :: i <= j < |val| ==> val[j] == value[j]
    {
      val := val[i := OrByte(val[i], op[i])];
    }
    var isCompleteIdx := validationPasses + 1;
    val := val[isCompleteIdx := OrByte(val[isCompleteIdx], op[isCompleteIdx])];
  }

  /** What the operator makes of two encoded records is the encoding of their merge. */
  lemma MergedRefinesMerge(val: Bytes, op: Bytes, r: Bytes)
    requires Decode(val).Ok? && Decode(op).Ok? && !Inconsistent(val, op)
    requires Merged(val, op, r)
    ensures SameShape(Decode(val).value, Decode(op).value)
    ensures Decode(r) == Ok(Merge(Decode(val).value, Decode(op).value))
  {
    var a, b := Decode(val).value, Decode(op).value;
    var m := Merge(a, b);
    forall i | 0 <= i < |a.present| ensures r[1..Passes(r) + 1][i] == m.present[i] {
      assert r[i + 1] == OrByte(val[i + 1], op[i + 1]);
    }
    assert r[1..Passes(r) + 1] == m.present;
    BitOrZero(val[Passes(val) + 1], op[Passes(val) + 1]);
  }

  /** The stored value, if any, and the operands after it. */
  function Values(existing: Option<Bytes>, operands: seq<Bytes>): seq<Bytes> {
    (if existing.Some? then [existing.value] else []) + operands
  }

  predicate NeverTooShort(values: seq<Bytes>) {
    |values| > 1 && !Inconsistent(values[0], values[1]) ==> LongEnough(values[0])
  }

  /** `merge_meta_value`: `None` for inconsistent values, else the operands merged in order. */
  method MergeMetaValue(existing: Option<Bytes>, operands: seq<Bytes>) returns (result: Option<Bytes>)
    requires NeverTooShort(Values(existing, operands))
    ensures var all := Values(existing, operands);
            && (result.None? <==> all == [] || exists i :: 0 < i < |all| && Inconsistent(all[0], all[i]))
            && (result.Some? ==> MergedAll(all, result.value))
  {
    ghost var all := Values(existing, operands);
    ghost var base := if existing.Some? then 1 else 0;
    result := existing;
    for i := 0 to |operands|
      invariant result.None? <==> base + i == 0
      invariant result.Some? ==>
                  |result.value| == |all[0]| && (all[0] != [] ==> result.value[0] == all[0][0])
      invariant forall j :: 0 < j < base + i ==> !Inconsistent(all[0], all[j])
      invariant result.Some? ==> forall k :: 1 <= k < |all[0]| ==>
                  result.value[k] == if k <= Passes(all[0]) + 1 then OrAll(all[..base + i], k) else all[0][k]
    {
      var op := operands[i];
      assert all[base + i] == op;
      assert all[..base + i + 1] == all[..base + i] + [op];
      assert all[..base + i + 1][..base + i] == all[..base + i];
      match result {
        case Some(val) =>
          assert Inconsistent(val, op) <==> Inconsistent(all[0], op);
          if val == [] || |val| != |op| || val[0] != op[0] {
            return None;
          }
          var merged := MergeOperand(val, op);
          result := Some(merged);
        case None =>
          assert all[..1] == [op];
          result := Some(op);
      }
    }
    assert all[..|all|] == all;
  }

  /** Byte `k` of all values or-ed together. */
  function OrAll(values: seq<Bytes>, k: nat): byte
    requires |values| > 0 && k < |values[0]|
  {
    if |values| == 1 then values[0][k]
    else
      var last := values[|values| - 1];
      OrByte(OrAll(values[..|values| - 1], k), if k < |last| then last[k] else 0)
  }

  /** The bytes after all operands. */
  ghost predicate MergedAll(values: seq<Bytes>, r: Bytes)
    requires |values| > 0
  {
    && |r| == |values[0]| && (r != [] ==> r[0] == values[0][0])
    && forall k :: 1 <= k < |r| ==>
         r[k] == if k <= Passes(values[0]) + 1 then OrAll(values, k) else values[0][k]
  }

  /** Encoded records of the same number of passes. */
  ghost predicate Consistent(values: seq<Bytes>) {
    && |values| > 0 && values[0] != []
    && forall i :: 0 <= i < |values| ==> Decode(values[i]).Ok? && values[i][0] == values[0][0]
  }

  /** The records merged one after the other, oldest first. */
  ghost function MergeRecords(values: seq<Bytes>): (m: Meta)
    requires Consistent(values)
    ensures SameShape(m, Decode(values[0]).value)
  {
    if |values| == 1 then Decode(values[0]).value
    else Merge(MergeRecords(values[..|values| - 1]), Decode(values[|values| - 1]).value)
  }

  /** For any number of operands the operator on bytes is the merge of the records. */
  lemma {:induction false} MergedAllRefinesMerge(values: seq<Bytes>, r: Bytes)
    requires Consistent(values) && MergedAll(values, r)
    ensures Decode(r) == Ok(MergeRecords(values))
    decreases |values|
  {
    if |values| == 1 {
      assert r == values[0];
    } else {
      var front, last := values[..|values| - 1], values[|values| - 1];
      var before: Bytes := [values[0][0]] + seq(|r| - 1, k requires 0 <= k < |r| - 1 => OrAll(front, k + 1));
      MergedAllRefinesMerge(front, before);
      assert Merged(before, last, r);
      MergedRefinesMerge(before, last, r);
    }
  }

  // ------------------------------------------------------------------ the storage

  /** The record with one more pass, as `put_operations` writes it. */
  function WithPass(m: Meta, pass: nat): (r: Meta)
    requires Shaped(m) && pass < m.validationPasses
    ensures Shaped(r) && SameShape(m, r)
    ensures r.isComplete <==> AllPresent(r)
  {
    var present := m.present[pass := 1];
    Meta(m.validationPasses, present, forall i :: 0 <= i < |present| ==> present[i] == 1)
  }

  class OperationsMetaStorage {
    var kv: map<BlockHash, Meta>

    constructor ()
      ensures kv == map[]
    {
      kv := map[];
    }

    method PutMeta(blockHash: BlockHash, meta: Meta)
      requires blockHash in kv ==> SameShape(kv[blockHash], meta)
      modifies this
      ensures kv == old(kv)[blockHash := if blockHash in old(kv) then Merge(old(kv)[blockHash], meta) else meta]
    {
      kv := kv[blockHash := if blockHash in kv then Merge(kv[blockHash], meta) else meta];
    }

    /** `OperationsMetaStorage::put_block_header`. A block keeps its number of passes. The answer
        is about the fresh record, not about what is stored. */
    method PutBlockHeader(blockHash: BlockHash, validationPass: byte) returns (r: (bool, Option<set<nat>>))
      requires blockHash in kv ==> SameShape(kv[blockHash], Fresh(validationPass))
      modifies this
      ensures kv == old(kv)[blockHash := if blockHash in old(kv) then Merge(old(kv)[blockHash], Fresh(validationPass))
                                         else Fresh(validationPass)]
      ensures r.0 <==> validationPass == 0
      ensures validationPass == 0 ==> r.1 == None
      ensures validationPass > 0 ==> r.1 == Some(AllPasses(validationPass))
    {
      var meta := Fresh(validationPass);
      PutMeta(blockHash, meta);
      r := (meta.isComplete, Missing(meta));
      assert (set i: nat | i < |meta.present| && meta.present[i] == 0) == AllPasses(validationPass);
    }

    /** `OperationsMetaStorage::put_operations`, undisturbed by other threads. A pass number out
        of range makes the source panic. */
    method PutOperations(blockHash: BlockHash, pass: nat) returns (r: Result<(bool, Option<set<nat>>)>)
      requires blockHash in kv ==> Shaped(kv[blockHash]) && pass < kv[blockHash].validationPasses
      modifies this
      ensures blockHash !in old(kv) ==> r == Err(MissingKey) && kv == old(kv)
      ensures blockHash in old(kv) ==>
                var written := WithPass(old(kv)[blockHash], pass);
                && r == Ok((written.isComplete, Missing(written)))
                && kv == old(kv)[blockHash := Merge(old(kv)[blockHash], written)]
    {
      if blockHash !in kv {
        return Err(MissingKey);
      }
      var meta := kv[blockHash];
      var present := meta.present[pass := 1];
      var all := true;
      for i := 0 to |present|
        invariant all <==> forall j :: 0 <= j < i ==> present[j] == 1
      {
        all := all && present[i] == 1;
      }
      var written := Meta(meta.validationPasses, present, all);
      PutMeta(blockHash, written);
      r := Ok((all, Missing(written)));
    }
  }

  // ------------------------------------------------------------------ concurrent puts

  /** A thread between its read and its write: the record it will write and the passes that were
      stored when it read. */
  datatype InFlight = InFlight(pass: nat, record: Meta, seen: set<nat>)

  datatype Ended = Ended(pass: nat, seen: set<nat>)

  /** The record of one block, the threads working on it and the puts that ended. */
  datatype Threads = Threads(stored: Option<Meta>, inFlight: map<nat, InFlight>, ended: seq<Ended>)

  datatype Action = PutHeader | Begin(thread: nat, pass: nat) | End(thread: nat)

  const START := Threads(None, map[], [])

  ghost function EndedPasses(t: Threads): set<nat> {
    set i | 0 <= i < |t.ended| :: t.ended[i].pass
  }

  /** Reading the record of an unknown block changes nothing; a pass out of range panics. */
  ghost predicate Enabled(t: Threads, a: Action) {
    match a
    case PutHeader => true
    case Begin(thread, pass) =>
      t.stored.Some? && thread !in t.inFlight && Shaped(t.stored.value) && pass < t.stored.value.validationPasses
    case End(thread) => thread in t.inFlight
  }

  /** A merge into the stored record; records of different shape are not combined. */
  function MergeInto(stored: Option<Meta>, m: Meta): Meta {
    if stored.None? then m else if SameShape(stored.value, m) then Merge(stored.value, m) else stored.value
  }

  ghost function Act(t: Threads, n: byte, a: Action): Threads
    requires Enabled(t, a)
  {
    match a
    case PutHeader => t.(stored := Some(MergeInto(t.stored, Fresh(n))))
    case Begin(thread, pass) =>
      t.(inFlight := t.inFlight[thread := InFlight(pass, WithPass(t.stored.value, pass), EndedPasses(t))])
    case End(thread) =>
      var f := t.inFlight[thread];
      Threads(Some(MergeInto(t.stored, f.record)), t.inFlight - {thread}, t.ended + [Ended(f.pass, f.seen)])
  }

  /** A put that began when every other pass was stored. */
  ghost predicate SawAllOthers(e: Ended, n: byte) {
    e.seen + {e.pass} == AllPasses(n)
  }

  ghost predicate SomeSawAllOthers(t: Threads, n: byte) {
    exists i :: 0 <= i < |t.ended| && SawAllOthers(t.ended[i], n)
  }

  ghost predicate FlightCorrect(t: Threads, n: byte, f: InFlight) {
    && Shaped(f.record) && f.record.validationPasses == n && f.pass < n
    && PresentSet(f.record) == f.seen + {f.pass}
    && f.seen <= EndedPasses(t)
    && (f.record.isComplete <==> AllPresent(f.record))
  }

  /** After any interleaving: the record shows exactly the passes whose puts ended, and claims
      completeness exactly when there are none to wait for or some put began after all others
      had ended. */
  ghost predicate Inv(t: Threads, n: byte) {
    && (t.stored.None? ==> t.inFlight == map[] && t.ended == [])
    && (t.stored.Some? ==>
          && Shaped(t.stored.value) && t.stored.value.validationPasses == n
          && PresentSet(t.stored.value) == EndedPasses(t)
          && (t.stored.value.isComplete <==> n == 0 || SomeSawAllOthers(t, n)))
    && (forall i :: 0 <= i < |t.ended| ==> t.ended[i].seen <= EndedPasses(t))
    && (forall x {:trigger t.inFlight[x]} :: x in t.inFlight ==> t.stored.Some? && FlightCorrect(t, n, t.inFlight[x]))
  }

  lemma PresentAfterMerge(a: Meta, b: Meta)
    requires SameShape(a, b) && Shaped(a) && Shaped(b)
    ensures Shaped(Merge(a, b))
    ensures PresentSet(Merge(a, b)) == PresentSet(a) + PresentSet(b)
  {
    var m := Merge(a, b);
    forall i: nat ensures i in PresentSet(m) <==> i in PresentSet(a) + PresentSet(b) {
      if i < |m.present| {
        assert m.present[i] == OrByte(a.present[i], b.present[i]);
      }
    }
  }

  lemma AllPresentIsAllPasses(m: Meta)
    requires Shaped(m)
    ensures AllPresent(m) <==> PresentSet(m) == AllPasses(m.validationPasses)
  {
    if AllPresent(m) {
      forall i: nat ensures i in PresentSet(m) <==> i in AllPasses(m.validationPasses) {
      }
    }
    if PresentSet(m) == AllPasses(m.validationPasses) {
      forall i | 0 <= i < |m.present| ensures m.present[i] == 1 {
        assert i in AllPasses(m.validationPasses);
      }
    }
  }

  lemma HeaderKeepsInv(t: Threads, n: byte)
    requires Inv(t, n)
    ensures Inv(Act(t, n, PutHeader), n)
  {
    var t' := Act(t, n, PutHeader);
    assert PresentSet(Fresh(n)) == {};
    assert EndedPasses(t') == EndedPasses(t);
    if t.stored.Some? {
      PresentAfterMerge(t.stored.value, Fresh(n));
    } else {
      assert !SomeSawAllOthers(t', n);
    }
    forall x | x in t'.inFlight ensures FlightCorrect(t', n, t'.inFlight[x]) {
      assert FlightCorrect(t, n, t.inFlight[x]);
    }
  }

  lemma BeginKeepsInv(t: Threads, n: byte, thread: nat, pass: nat)
    requires Inv(t, n) && Enabled(t, Begin(thread, pass))
    ensures Inv(Act(t, n, Begin(thread, pass)), n)
  {
    var t' := Act(t, n, Begin(thread, pass));
    var m := WithPass(t.stored.value, pass);
    assert PresentSet(m) == PresentSet(t.stored.value) + {pass};
    assert EndedPasses(t') == EndedPasses(t);
    assert SomeSawAllOthers(t', n) <==> SomeSawAllOthers(t, n);
    forall x | x in t'.inFlight ensures FlightCorrect(t', n, t'.inFlight[x]) {
      if x != thread {
        assert FlightCorrect(t, n, t.inFlight[x]);
      }
    }
  }

  lemma EndedAppend(t: Threads, e: Ended, n: byte, t': Threads)
    requires t'.ended == t.ended + [e]
    ensures EndedPasses(t') == EndedPasses(t) + {e.pass}
    ensures SomeSawAllOthers(t', n) <==> SomeSawAllOthers(t, n) || SawAllOthers(e, n)
  {
    forall x | x in EndedPasses(t) + {e.pass} ensures x in EndedPasses(t') {
      if x in EndedPasses(t) {
        var i :| 0 <= i < |t.ended| && t.ended[i].pass == x;
        assert t'.ended[i].pass == x;
      } else {
        assert t'.ended[|t.ended|].pass == x;
      }
    }
    if SomeSawAllOthers(t, n) {
      var i :| 0 <= i < |t.ended| && SawAllOthers(t.ended[i], n);
      assert SawAllOthers(t'.ended[i], n);
    }
    if SawAllOthers(e, n) {
      assert SawAllOthers(t'.ended[|t.ended|], n);
    }
  }

  lemma SawAllIsFull(t: Threads, n: byte, f: InFlight)
    requires FlightCorrect(t, n, f)
    ensures f.record.isComplete <==> SawAllOthers(Ended(f.pass, f.seen), n)
  {
    AllPresentIsAllPasses(f.record);
  }

  lemma EndKeepsInv(t: Threads, n: byte, thread: nat)
    requires Inv(t, n) && Enabled(t, End(thread))
    ensures Inv(Act(t, n, End(thread)), n)
  {
    var t' := Act(t, n, End(thread));
    var f := t.inFlight[thread];
    assert FlightCorrect(t, n, f);
    assert SameShape(t.stored.value, f.record);
    PresentAfterMerge(t.stored.value, f.record);
    EndedAppend(t, Ended(f.pass, f.seen), n, t');
    var m := Merge(t.stored.value, f.record);
    assert t'.stored == Some(m) && m.validationPasses == n && Shaped(m);
    assert m.isComplete <==> t.stored.value.isComplete || f.record.isComplete;
    hide SomeSawAllOthers, EndedPasses, PresentSet, Shaped, AllPresent, Merge, SawAllOthers;
    assert PresentSet(m) == EndedPasses(t');
    assert f.record.isComplete <==> SawAllOthers(Ended(f.pass, f.seen), n) by { SawAllIsFull(t, n, f); }
    assert m.isComplete <==> n == 0 || SomeSawAllOthers(t', n);
    assert EndedPasses(t) <= EndedPasses(t');
    forall i | 0 <= i < |t'.ended| ensures t'.ended[i].seen <= EndedPasses(t') {
      if i < |t.ended| {
        assert t'.ended[i] == t.ended[i];
      }
    }
    forall x | x in t'.inFlight ensures FlightCorrect(t', n, t'.inFlight[x]) {
      assert FlightCorrect(t, n, t.inFlight[x]);
    }
  }

  lemma ActKeepsInv(t: Threads, n: byte, a: Action)
    requires Inv(t, n) && Enabled(t, a)
    ensures Inv(Act(t, n, a), n)
  {
    match a
    case PutHeader => HeaderKeepsInv(t, n);
    case Begin(thread, pass) => BeginKeepsInv(t, n, thread, pass);
    case End(thread) => EndKeepsInv(t, n, thread);
  }

  /** States and actions of threads working on one block with `n` passes. */
  ghost predicate IsRun(states: seq<Threads>, actions: seq<Action>, n: byte) {
    && |states| == |actions| + 1 && states[0] == START
    && forall i :: 0 <= i < |actions| ==>
         Enabled(states[i], actions[i]) && states[i + 1] == Act(states[i], n, actions[i])
  }

  lemma {:induction false} RunKeepsInv(states: seq<Threads>, actions: seq<Action>, n: byte, i: nat)
    requires IsRun(states, actions, n) && i <= |actions|
    ensures Inv(states[i], n)
  {
    hide Inv, Enabled, Act;
    if i == 0 {
      StartInv(n);
    } else {
      RunKeepsInv(states, actions, n, i - 1);
      assert Enabled(states[i - 1], actions[i - 1]) && states[(i - 1) + 1] == Act(states[i - 1], n, actions[i - 1]);
      ActKeepsInv(states[i - 1], n, actions[i - 1]);
    }
  }

  lemma StartInv(n: byte)
    ensures Inv(START, n)
  {
  }

  /** Whatever the interleaving, after every action: the record shows exactly the passes whose
      puts ended; if it is complete it has every pass; and it is complete exactly when the block
      has no passes or some put began after the puts of all other passes had ended. */
  lemma RecordAfterAnyInterleaving(states: seq<Threads>, actions: seq<Action>, n: byte, i: nat)
    requires IsRun(states, actions, n) && i <= |actions| && states[i].stored.Some?
    ensures var m := states[i].stored.value;
            && PresentSet(m) == EndedPasses(states[i])
            && (m.isComplete ==> AllPresent(m))
            && (m.isComplete <==> n == 0 || SomeSawAllOthers(states[i], n))
  {
    RunKeepsInv(states, actions, n, i);
    var t := states[i];
    if t.stored.value.isComplete {
      CompleteHasAll(t, n);
    }
  }

  lemma CompleteHasAll(t: Threads, n: byte)
    requires Inv(t, n) && t.stored.Some? && t.stored.value.isComplete
    ensures AllPresent(t.stored.value)
  {
    var m := t.stored.value;
    AllPresentIsAllPasses(m);
    if n > 0 {
      var i :| 0 <= i < |t.ended| && SawAllOthers(t.ended[i], n);
      assert t.ended[i].pass in EndedPasses(t);
      assert AllPasses(n) <= PresentSet(m);
      assert PresentSet(m) <= AllPasses(n);
    }
  }

  /** Two puts that overlap can leave a record that has every pass and is not complete. */
  lemma OverlappingPutsMissCompletion() returns (states: seq<Threads>, actions: seq<Action>)
    ensures IsRun(states, actions, 2)
    ensures var m := states[|actions|].stored;
            m.Some? && AllPresent(m.value) && !m.value.isComplete && states[|actions|].inFlight == map[]
  {
    hide Merge, WithPass, Fresh;
    var m0, m1, m2 := Meta(2, [0, 0], false), Meta(2, [1, 0], false), Meta(2, [0, 1], false);
    var full := Meta(2, [1, 1], false);
    OverlappingRecords(m0, m1, m2, full);
    var f1, f2 := InFlight(0, m1, {}), InFlight(1, m2, {});
    var t1 := Threads(Some(m0), map[], []);
    var t2 := t1.(inFlight := map[0 := f1]);
    var t3 := t1.(inFlight := map[0 := f1, 1 := f2]);
    var t4 := Threads(Some(m1), map[1 := f2], [Ended(0, {})]);
    var t5 := Threads(Some(full), map[], [Ended(0, {}), Ended(1, {})]);
    assert EndedPasses(t1) == {} && EndedPasses(t2) == {};
    assert t3.inFlight - {0} == map[1 := f2] && t4.inFlight - {1} == map[];
    assert t1 == Act(START, 2, PutHeader);
    assert t2 == Act(t1, 2, Begin(0, 0));
    assert t3 == Act(t2, 2, Begin(1, 1));
    assert t4 == Act(t3, 2, End(0));
    assert t5 == Act(t4, 2, End(1));
    states := [START, t1, t2, t3, t4, t5];
    actions := [PutHeader, Begin(0, 0), Begin(1, 1), End(0), End(1)];
  }

  lemma OverlappingRecords(m0: Meta, m1: Meta, m2: Meta, full: Meta)
    requires m0 == Meta(2, [0, 0], false) && m1 == Meta(2, [1, 0], false) && m2 == Meta(2, [0, 1], false)
    requires full == Meta(2, [1, 1], false)
    ensures Fresh(2) == m0 && Shaped(m0) && SameShape(m0, m1) && SameShape(m1, m2)
    ensures WithPass(m0, 0) == m1 && WithPass(m0, 1) == m2
    ensures Merge(m0, m1) == m1 && Merge(m1, m2) == full
  {
    assert m0.present[0 := 1] == [1, 0] && m0.present[1 := 1] == [0, 1];
    assert m1.present[1] == 0 && m2.present[0] == 0;
  }

  // ------------------------------------------------------------------ serial puts

  datatype Call = HeaderCall | OperationsCall(pass: nat)

  /** The record after calls that do not overlap. */
  function Serial(n: byte, calls: seq<Call>): Option<Meta>
    requires forall i :: 0 <= i < |calls| && calls[i].OperationsCall? ==> calls[i].pass < n
    ensures Serial(n, calls).Some? ==> Shaped(Serial(n, calls).value) && Serial(n, calls).value.validationPasses == n
  {
    if calls == [] then None
    else
      var before := Serial(n, calls[..|calls| - 1]);
      match calls[|calls| - 1]
      case HeaderCall => Some(MergeInto(before, Fresh(n)))
      case OperationsCall(pass) =>
        if before.None? then None else Some(MergeInto(before, WithPass(before.value, pass)))
  }

  /** The passes put since the header first came. */
  ghost function PassesPut(calls: seq<Call>): set<nat> {
    set i | 0 <= i < |calls| && calls[i].OperationsCall? && HeaderBefore(calls, i) :: calls[i].pass
  }

  ghost predicate HeaderBefore(calls: seq<Call>, i: nat) {
    exists j :: 0 <= j < i && j < |calls| && calls[j].HeaderCall?
  }

  lemma PassesPutAppend(calls: seq<Call>)
    requires calls != []
    ensures var front, last := calls[..|calls| - 1], calls[|calls| - 1];
            PassesPut(calls) == PassesPut(front) +
              (if last.OperationsCall? && HeaderBefore(calls, |calls| - 1) then {last.pass} else {})
  {
    var front, last := calls[..|calls| - 1], calls[|calls| - 1];
    forall i | 0 <= i < |front| ensures HeaderBefore(front, i) <==> HeaderBefore(calls, i) {
      if HeaderBefore(calls, i) {
        var j :| 0 <= j < i && calls[j].HeaderCall?;
        assert front[j].HeaderCall?;
      }
      if HeaderBefore(front, i) {
        var j :| 0 <= j < i && j < |front| && front[j].HeaderCall?;
        assert calls[j].HeaderCall?;
      }
    }
    forall x | x in PassesPut(front) ensures x in PassesPut(calls) {
      var i :| 0 <= i < |front| && front[i].OperationsCall? && HeaderBefore(front, i) && front[i].pass == x;
      assert calls[i] == front[i];
    }
  }

  /** Without overlap the record is complete exactly when every pass was put since the header
      came, and the passes it reports missing are exactly the others. */
  lemma {:induction false} SerialPutsExact(n: byte, calls: seq<Call>)
    requires forall i :: 0 <= i < |calls| && calls[i].OperationsCall? ==> calls[i].pass < n
    ensures var r := Serial(n, calls);
            && (r.Some? <==> HeaderBefore(calls, |calls|))
            && (r.None? ==> PassesPut(calls) == {})
            && (r.Some? ==>
                  && PresentSet(r.value) == PassesPut(calls)
                  && (r.value.isComplete <==> AllPresent(r.value))
                  && (r.value.isComplete <==> PassesPut(calls) == AllPasses(n))
                  && (r.value.isComplete ==> Missing(r.value) == None)
                  && (!r.value.isComplete ==> Missing(r.value) == Some(AllPasses(n) - PassesPut(calls))))
    decreases |calls|
  {
    var r := Serial(n, calls);
    if calls != [] {
      var front, last := calls[..|calls| - 1], calls[|calls| - 1];
      SerialPutsExact(n, front);
      PassesPutAppend(calls);
      HeaderBeforeLast(calls);
      RecordStep(n, Serial(n, front), last, r);
    }
    if r.Some? {
      AllPresentIsAllPasses(r.value);
      if !r.value.isComplete {
        MissingIsComplement(r.value);
      }
    }
  }

  lemma HeaderBeforeLast(calls: seq<Call>)
    requires calls != []
    ensures var front, last := calls[..|calls| - 1], calls[|calls| - 1];
            && (HeaderBefore(calls, |calls| - 1) <==> HeaderBefore(front, |front|))
            && (HeaderBefore(calls, |calls|) <==> HeaderBefore(front, |front|) || last.HeaderCall?)
  {
    var front, last := calls[..|calls| - 1], calls[|calls| - 1];
    if HeaderBefore(front, |front|) {
      var j :| 0 <= j < |front| && front[j].HeaderCall?;
      assert calls[j].HeaderCall?;
    }
    if HeaderBefore(calls, |calls|) {
      var j :| 0 <= j < |calls| && calls[j].HeaderCall?;
      assert j < |front| ==> front[j].HeaderCall?;
    }
    if HeaderBefore(calls, |calls| - 1) {
      var j :| 0 <= j < |front| && calls[j].HeaderCall?;
      assert front[j].HeaderCall?;
    }
  }

  lemma MissingIsComplement(m: Meta)
    requires Shaped(m) && !m.isComplete
    ensures Missing(m) == Some(AllPasses(m.validationPasses) - PresentSet(m))
  {
    assert (set i: nat | i < |m.present| && m.present[i] == 0) == AllPasses(m.validationPasses) - PresentSet(m);
  }

  /** One call: what the record gains, and that it stays complete exactly when it is full. */
  lemma RecordStep(n: byte, before: Option<Meta>, call: Call, after: Option<Meta>)
    requires before.Some? ==> Shaped(before.value) && before.value.validationPasses == n
                              && (before.value.isComplete <==> AllPresent(before.value))
    requires call.OperationsCall? ==> call.pass < n
    requires after == match call
                      case HeaderCall => Some(MergeInto(before, Fresh(n)))
                      case OperationsCall(pass) =>
                        if before.None? then None else Some(MergeInto(before, WithPass(before.value, pass)))
    ensures after.Some? <==> before.Some? || call.HeaderCall?
    ensures after.Some? ==>
              && PresentSet(after.value) == (if before.Some? then PresentSet(before.value) else {})
                                            + (if call.OperationsCall? then {call.pass} else {})
              && (after.value.isComplete <==> AllPresent(after.value))
  {
    FreshRecord(n);
    hide PresentSet, AllPresent, WithPass, Merge;
    if before.Some? {
      if call.HeaderCall? {
        FullMerge(before.value, Fresh(n));
      } else {
        PassRecord(before.value, call.pass);
        FullMerge(before.value, WithPass(before.value, call.pass));
      }
    }
  }

  lemma FreshRecord(n: byte)
    ensures PresentSet(Fresh(n)) == {}
    ensures Fresh(n).isComplete <==> AllPresent(Fresh(n))
  {
    assert n > 0 ==> Fresh(n).present[0] == 0;
  }

  lemma PassRecord(m: Meta, pass: nat)
    requires Shaped(m) && pass < m.validationPasses
    ensures PresentSet(WithPass(m, pass)) == PresentSet(m) + {pass}
  {
  }

  /** When one record contains the other, their merge is complete exactly when it is full. */
  lemma FullMerge(a: Meta, b: Meta)
    requires Shaped(a) && Shaped(b) && SameShape(a, b)
    requires a.isComplete <==> AllPresent(a)
    requires b.isComplete <==> AllPresent(b)
    requires PresentSet(a) <= PresentSet(b) || PresentSet(b) <= PresentSet(a)
    ensures PresentSet(Merge(a, b)) == PresentSet(a) + PresentSet(b)
    ensures Merge(a, b).isComplete <==> AllPresent(Merge(a, b))
  {
    PresentAfterMerge(a, b);
    AllPresentIsAllPasses(a);
    AllPresentIsAllPasses(b);
    AllPresentIsAllPasses(Merge(a, b));
    hide PresentSet, AllPresent, Shaped;
    assert PresentSet(Merge(a, b)) == PresentSet(a) || PresentSet(Merge(a, b)) == PresentSet(b);
    PresentBounded(a);
    PresentBounded(b);
  }

  lemma PresentBounded(m: Meta)
    requires Shaped(m)
    ensures PresentSet(m) <= AllPasses(m.validationPasses)
  {
  }
}
