/** The rotating log file: bytes go to the current file; once it is large enough, a flush shifts
    the rotated files up by one number, makes the current file number 1 and drops the oldest.

    Compression of rotated files preserves content and ends before a flush returns, so it is not
    visible here. Nobody else touches the files. */
module LogRotation {
  import opened Numbers
  import opened Blocks

  type Bytes = seq<byte>

  datatype LogPath = Current | Rotated(number: nat)

  type FileSystem = map<LogPath, Bytes>

  datatype Config = Config(rotateSize: nat, rotateKeep: nat, truncate: bool)

  /** The files, the open file's unwritten buffer, and the size the appender keeps track of. */
  datatype Log = Log(fs: FileSystem, file: Option<Bytes>, writtenSize: nat)

  // ------------------------------------------------------------------ specification

  function Rename(fs: FileSystem, from: LogPath, to: LogPath): FileSystem {
    if from in fs then (fs - {from})[to := fs[from]] else fs
  }

  /** Numbers `i` down to 1, each renamed to the next. */
  function ShiftUp(fs: FileSystem, i: nat): FileSystem
    decreases i
  {
    if i == 0 then fs else ShiftUp(Rename(fs, Rotated(i), Rotated(i + 1)), i - 1)
  }

  /** An open file is on disk, and the tracked size is what it will have once flushed. */
  predicate Valid(l: Log) {
    l.file.Some? ==> Current in l.fs && l.writtenSize == |l.fs[Current]| + |l.file.value|
  }

  function Open(l: Log, cfg: Config): (r: Log)
    ensures Valid(r)
  {
    var fs := if cfg.truncate || Current !in l.fs then l.fs[Current := []] else l.fs;
    Log(fs, Some([]), |fs[Current]|)
  }

  function EnsureOpen(l: Log, cfg: Config): (r: Log)
    ensures Valid(l) ==> Valid(r)
  {
    if l.file.None? then Open(l, cfg) else l
  }

  function RotateFiles(fs: FileSystem, keep: nat): FileSystem {
    Rename(ShiftUp(fs, keep), Current, Rotated(1)) - {Rotated(keep + 1)}
  }

  function Rotate(l: Log, cfg: Config): (r: Log)
    ensures Valid(r)
  {
    Open(Log(RotateFiles(l.fs, cfg.rotateKeep), None, 0), cfg)
  }

  /** `spill` bytes of the buffer reach the file before the flush. */
  function WriteTo(l: Log, cfg: Config, buf: Bytes, spill: nat): (r: Log)
    requires Valid(l)
    ensures Valid(r)
  {
    var o := EnsureOpen(l, cfg);
    var pending := o.file.value + buf;
    var k := if spill <= |pending| then spill else |pending|;
    Log(o.fs[Current := o.fs[Current] + pending[..k]], Some(pending[k..]), o.writtenSize + |buf|)
  }

  function FlushBuffer(l: Log): (r: Log)
    requires Valid(l)
    ensures Valid(r)
  {
    if l.file.None? then l
    else l.(fs := l.fs[Current := l.fs[Current] + l.file.value], file := Some([]))
  }

  predicate MustRotate(l: Log, cfg: Config) {
    l.writtenSize >= cfg.rotateSize
  }

  function Flush(l: Log, cfg: Config): (r: Log)
    requires Valid(l)
    ensures Valid(r)
  {
    var f := FlushBuffer(l);
    if MustRotate(f, cfg) then Rotate(f, cfg) else f
  }

  // ------------------------------------------------------------------ the appender

  class FileAppender {
    var fs: FileSystem
    var file: Option<Bytes>
    var writtenSize: nat
    const cfg: Config

    ghost function State(): Log
      reads this
    {
      Log(fs, file, writtenSize)
    }

    constructor (files: FileSystem, cfg: Config)
      ensures State() == Log(files, None, 0) && this.cfg == cfg
    {
      fs, file, writtenSize, this.cfg := files, None, 0, cfg;
    }

    /** `reopen_if_needed`; the path exists once the file is open. */
    method ReopenIfNeeded()
      modifies this
      ensures State() == EnsureOpen(old(State()), cfg)
      ensures old(file).None? ==> file == Some([]) && Current in fs && writtenSize == |fs[Current]|
      ensures old(file).None? ==> Content(fs, Current) == (if cfg.truncate then [] else Content(old(fs), Current))
      ensures old(file).Some? ==> unchanged(this)
      ensures forall j: nat :: SameFile(fs, Rotated(j), old(fs), Rotated(j))
    {
      if file.None? {
        if cfg.truncate || Current !in fs {
          fs := fs[Current := []];
        }
        writtenSize := |fs[Current]|;
        file := Some([]);
      }
    }

    /** The renames, highest number first. */
    method ShiftFiles()
      modifies this`fs
      ensures fs == ShiftUp(old(fs), cfg.rotateKeep)
    {
      var i := cfg.rotateKeep;
      while i >= 1
        invariant i >= 0
        invariant ShiftUp(fs, i) == ShiftUp(old(fs), cfg.rotateKeep)
      {
        if Rotated(i) in fs {
          fs := (fs - {Rotated(i)})[Rotated(i + 1) := fs[Rotated(i)]];
        }
        i := i - 1;
      }
    }

    /** `rotate`, which only follows a flush. */
    method RotateNow()
      requires file.None? || file == Some([])
      modifies this
      ensures State() == Rotate(old(State()), cfg)
    {
      file := None;
      ShiftFiles();
      if Current in fs {
        fs := (fs - {Current})[Rotated(1) := fs[Current]];
      }
      if Rotated(cfg.rotateKeep + 1) in fs {
        fs := fs - {Rotated(cfg.rotateKeep + 1)};
      } else {
        assert fs - {Rotated(cfg.rotateKeep + 1)} == fs;
      }
      writtenSize := 0;
      ReopenIfNeeded();
    }

    /** `write`. How much of the buffer spills to the file is up to the buffered writer. */
    method WriteBytes(buf: Bytes, spill: nat) returns (size: nat)
      requires Valid(State())
      modifies this
      ensures State() == WriteTo(old(State()), cfg, buf, spill)
      ensures size == |buf|
    {
      ReopenIfNeeded();
      var pending := file.value + buf;
      var k := if spill <= |pending| then spill else |pending|;
      fs := fs[Current := fs[Current] + pending[..k]];
      file := Some(pending[k..]);
      writtenSize := writtenSize + |buf|;
      size := |buf|;
    }

    /** `flush`. */
    method FlushNow()
      requires Valid(State())
      modifies this
      ensures State() == Flush(old(State()), cfg)
    {
      if file.Some? {
        fs := fs[Current := fs[Current] + file.value];
        file := Some([]);
      }
      if writtenSize >= cfg.rotateSize {
        RotateNow();
      }
    }
  }

  // ------------------------------------------------------------------ what a rotation does

  /** Presence and content of a path agree. */
  ghost predicate SameFile(fs: FileSystem, p: LogPath, fs': FileSystem, p': LogPath) {
    (p in fs <==> p' in fs') && (p in fs ==> fs[p] == fs'[p'])
  }

  lemma {:induction false} ShiftUpMoves(fs: FileSystem, i: nat)
    ensures var r := ShiftUp(fs, i);
            && SameFile(r, Current, fs, Current)
            && (i >= 1 ==> Rotated(1) !in r)
            && (forall j :: 1 <= j <= i && Rotated(j) in fs ==> Rotated(j + 1) in r && r[Rotated(j + 1)] == fs[Rotated(j)])
            && (forall j :: 2 <= j <= i && Rotated(j) in r ==> Rotated(j - 1) in fs)
            && (forall j :: j > i + 1 ==> SameFile(r, Rotated(j), fs, Rotated(j)))
            && (Rotated(i + 1) in r && i >= 1 ==> Rotated(i) in fs || Rotated(i + 1) in fs)
    decreases i
  {
    if i > 0 {
      var mid := Rename(fs, Rotated(i), Rotated(i + 1));
      ShiftUpMoves(mid, i - 1);
      assert Rotated(i) !in mid;
    }
  }

  /** Every rotated file moves up by one number, the current file becomes number 1, and what
      would get a number past the limit is gone. */
  lemma RotationMoves(fs: FileSystem, keep: nat)
    requires Current in fs
    ensures var r := RotateFiles(fs, keep);
            && Current !in r
            && Rotated(keep + 1) !in r
            && (keep >= 1 ==> Rotated(1) in r && r[Rotated(1)] == fs[Current])
            && (forall j :: 2 <= j <= keep ==> SameFile(r, Rotated(j), fs, Rotated(j - 1)))
            && (forall j :: j > keep + 1 ==> SameFile(r, Rotated(j), fs, Rotated(j)))
  {
    ShiftUpMoves(fs, keep);
    var s := ShiftUp(fs, keep);
    hide ShiftUp;
    var r := RotateFiles(fs, keep);
    forall j | 2 <= j <= keep ensures SameFile(r, Rotated(j), fs, Rotated(j - 1)) {
      assert Rotated(j - 1) in fs ==> Rotated((j - 1) + 1) in s && s[Rotated((j - 1) + 1)] == fs[Rotated(j - 1)];
    }
    forall j | j > keep + 1 ensures SameFile(r, Rotated(j), fs, Rotated(j)) {
      assert SameFile(s, Rotated(j), fs, Rotated(j));
    }
  }

  // ------------------------------------------------------------------ the bytes that are kept

  function Content(fs: FileSystem, p: LogPath): Bytes {
    if p in fs then fs[p] else []
  }

  /** Rotated files from number `k` down to 1: oldest first. */
  function Older(fs: FileSystem, k: nat): Bytes {
    if k == 0 then [] else Content(fs, Rotated(k)) + Older(fs, k - 1)
  }

  /** Everything that can still be read, oldest first, including what is only buffered. */
  function Retained(l: Log, keep: nat): Bytes {
    Older(l.fs, keep) + Content(l.fs, Current) + (if l.file.Some? then l.file.value else [])
  }

  /** The file a rotation drops. */
  function Dropped(fs: FileSystem, keep: nat): Bytes {
    if keep == 0 then Content(fs, Current) else Content(fs, Rotated(keep))
  }

  lemma {:induction false} OlderAfterRotation(fs: FileSystem, keep: nat, k: nat)
    requires Current in fs && 1 <= k <= keep
    ensures Older(RotateFiles(fs, keep), k) == Older(fs, k - 1) + fs[Current]
    decreases k
  {
    RotationMoves(fs, keep);
    hide RotateFiles;
    var r := RotateFiles(fs, keep);
    if k == 1 {
      assert Older(r, 1) == r[Rotated(1)] + Older(r, 0);
    } else {
      OlderAfterRotation(fs, keep, k - 1);
      assert SameFile(r, Rotated(k), fs, Rotated(k - 1));
      assert Older(r, k) == Content(fs, Rotated(k - 1)) + (Older(fs, k - 2) + fs[Current]);
    }
  }

  /** A rotation loses the dropped file and nothing else. */
  lemma RotationConserves(l: Log, cfg: Config)
    requires Valid(l) && l.file == Some([])
    ensures Valid(Rotate(l, cfg)) && Rotate(l, cfg).file == Some([])
    ensures Dropped(l.fs, cfg.rotateKeep) + Retained(Rotate(l, cfg), cfg.rotateKeep) == Retained(l, cfg.rotateKeep)
  {
    var keep := cfg.rotateKeep;
    RotationMoves(l.fs, keep);
    if keep > 0 {
      OlderAfterRotation(l.fs, keep, keep);
    }
    hide RotateFiles;
    var r := RotateFiles(l.fs, keep);
    OlderIgnoresCurrent(r, [], keep);
  }

  lemma {:induction false} OlderIgnoresCurrent(fs: FileSystem, current: Bytes, k: nat)
    ensures Older(fs[Current := current], k) == Older(fs, k)
  {
    if k > 0 {
      OlderIgnoresCurrent(fs, current, k - 1);
    }
  }

  lemma WriteConserves(l: Log, cfg: Config, buf: Bytes, spill: nat)
    requires Valid(l) && l.file.Some?
    ensures Valid(WriteTo(l, cfg, buf, spill)) && WriteTo(l, cfg, buf, spill).file.Some?
    ensures Retained(WriteTo(l, cfg, buf, spill), cfg.rotateKeep) == Retained(l, cfg.rotateKeep) + buf
  {
    var pending := l.file.value + buf;
    var k := if spill <= |pending| then spill else |pending|;
    OlderIgnoresCurrent(l.fs, l.fs[Current] + pending[..k], cfg.rotateKeep);
    assert pending == pending[..k] + pending[k..];
  }

  lemma FlushBufferConserves(l: Log, keep: nat)
    requires Valid(l) && l.file.Some?
    ensures Valid(FlushBuffer(l)) && FlushBuffer(l).file == Some([])
    ensures Retained(FlushBuffer(l), keep) == Retained(l, keep)
  {
    OlderIgnoresCurrent(l.fs, l.fs[Current] + l.file.value, keep);
  }

  // ------------------------------------------------------------------ runs

  datatype Operation = WriteOp(buf: Bytes, spill: nat) | FlushOp

  /** A log with what was ever written to it, what was lost and how often it was rotated. */
  datatype Traced = Traced(log: Log, written: Bytes, lost: Bytes, rotations: nat)

  function Apply(t: Traced, op: Operation, cfg: Config): (r: Traced)
    requires Valid(t.log)
    ensures Valid(r.log)
  {
    match op
    case WriteOp(buf, spill) => t.(log := WriteTo(t.log, cfg, buf, spill), written := t.written + buf)
    case FlushOp =>
      var f := FlushBuffer(t.log);
      if MustRotate(f, cfg)
      then Traced(Flush(t.log, cfg), t.written, t.lost + Dropped(f.fs, cfg.rotateKeep), t.rotations + 1)
      else t.(log := Flush(t.log, cfg))
  }

  /** The log once its file is open. */
  function Started(files: FileSystem, cfg: Config): Traced {
    Traced(Open(Log(files, None, 0), cfg), [], [], 0)
  }

  /** The log after a list of operations. */
  function After(files: FileSystem, ops: seq<Operation>, cfg: Config): (t: Traced)
    ensures Valid(t.log)
  {
    if ops == [] then Started(files, cfg)
    else Apply(After(files, ops[..|ops| - 1], cfg), ops[|ops| - 1], cfg)
  }

  /** What was there and what was written is what was lost and what is retained, in order: so
      what can be read is always a suffix of everything logged. */
  ghost predicate Conserved(t: Traced, cfg: Config, start: Bytes) {
    && Valid(t.log) && t.log.file.Some?
    && t.lost + Retained(t.log, cfg.rotateKeep) == start + t.written
  }

  lemma ApplyConserves(t: Traced, op: Operation, cfg: Config, start: Bytes)
    requires Conserved(t, cfg, start)
    ensures Conserved(Apply(t, op, cfg), cfg, start)
  {
    var keep := cfg.rotateKeep;
    hide Retained, Rotate, Dropped;
    match op
    case WriteOp(buf, spill) =>
      WriteConserves(t.log, cfg, buf, spill);
      assert t.lost + (Retained(t.log, keep) + buf) == (t.lost + Retained(t.log, keep)) + buf;
      assert start + t.written + buf == start + (t.written + buf);
    case FlushOp =>
      FlushBufferConserves(t.log, keep);
      var f := FlushBuffer(t.log);
      if MustRotate(f, cfg) {
        RotationConserves(f, cfg);
        var d := Dropped(f.fs, keep);
        assert t.lost + (d + Retained(Rotate(f, cfg), keep)) == (t.lost + d) + Retained(Rotate(f, cfg), keep);
      }
  }

  /** Opening keeps the current file unless it is told to truncate it, creates it if needed, and
      leaves every rotated file alone. */
  lemma OpeningKeeps(files: FileSystem, cfg: Config)
    ensures var fs := Started(files, cfg).log.fs;
            && Current in fs
            && Content(fs, Current) == (if cfg.truncate then [] else Content(files, Current))
            && (forall j: nat :: SameFile(fs, Rotated(j), files, Rotated(j)))
            && Started(files, cfg).log.writtenSize == |Content(fs, Current)|
  {
  }

  /** The bytes a run starts with: those of the files that were there, without the current file if
      it is truncated. */
  function FoundBytes(files: FileSystem, cfg: Config): Bytes {
    Older(files, cfg.rotateKeep) + (if cfg.truncate then [] else Content(files, Current))
  }

  lemma {:induction false} OlderOfSame(fs: FileSystem, fs': FileSystem, k: nat)
    requires forall j: nat :: SameFile(fs, Rotated(j), fs', Rotated(j))
    ensures Older(fs, k) == Older(fs', k)
  {
    if k > 0 {
      assert SameFile(fs, Rotated(k), fs', Rotated(k));
      OlderOfSame(fs, fs', k - 1);
    }
  }

  lemma StartConserves(files: FileSystem, cfg: Config)
    ensures Conserved(Started(files, cfg), cfg, FoundBytes(files, cfg))
  {
    var t := Started(files, cfg);
    OpeningKeeps(files, cfg);
    OlderOfSame(t.log.fs, files, cfg.rotateKeep);
    assert Retained(t.log, cfg.rotateKeep) == FoundBytes(files, cfg) + [];
    assert [] + Retained(t.log, cfg.rotateKeep) == FoundBytes(files, cfg) + [];
  }

  /** After every list of operations, from whatever files were there: what was lost and what can
      be read are what was found and what was written. */
  lemma {:induction false} EveryRunConserves(files: FileSystem, ops: seq<Operation>, cfg: Config)
    ensures var t := After(files, ops, cfg);
            && Conserved(t, cfg, FoundBytes(files, cfg))
            && t.lost + Retained(t.log, cfg.rotateKeep) ==
               Older(files, cfg.rotateKeep) + (if cfg.truncate then [] else Content(files, Current)) + WrittenBy(ops)
  {
    hide Retained, Apply, Started, Older, FoundBytes;
    if ops == [] {
      StartConserves(files, cfg);
      NothingWritten(files, cfg);
    } else {
      EveryRunConserves(files, ops[..|ops| - 1], cfg);
      ApplyConserves(After(files, ops[..|ops| - 1], cfg), ops[|ops| - 1], cfg, FoundBytes(files, cfg));
    }
    WrittenIsLogged(files, ops, cfg);
    FoundParts(files, cfg);
  }

  lemma FoundParts(files: FileSystem, cfg: Config)
    ensures FoundBytes(files, cfg) == Older(files, cfg.rotateKeep) + (if cfg.truncate then [] else Content(files, Current))
  {
  }

  lemma NothingWritten(files: FileSystem, cfg: Config)
    ensures Started(files, cfg).written == []
  {
  }

  /** The bytes of all write operations, in order. */
  function WrittenBy(ops: seq<Operation>): Bytes {
    if ops == [] then []
    else WrittenBy(ops[..|ops| - 1]) + (if ops[|ops| - 1].WriteOp? then ops[|ops| - 1].buf else [])
  }

  lemma {:induction false} WrittenIsLogged(files: FileSystem, ops: seq<Operation>, cfg: Config)
    ensures After(files, ops, cfg).written == WrittenBy(ops)
  {
    if ops != [] {
      WrittenIsLogged(files, ops[..|ops| - 1], cfg);
    }
  }

  /** A flush rotates exactly when the bytes of the current file have reached the limit. */
  lemma RotatesIff(files: FileSystem, ops: seq<Operation>, cfg: Config)
    ensures var t := After(files, ops, cfg);
            && t.log.file.Some?
            && (After(files, ops + [FlushOp], cfg).rotations == t.rotations + 1 <==>
                |Content(t.log.fs, Current)| + |t.log.file.value| >= cfg.rotateSize)
            && (After(files, ops + [FlushOp], cfg).rotations == t.rotations <==>
                |Content(t.log.fs, Current)| + |t.log.file.value| < cfg.rotateSize)
  {
    EveryRunConserves(files, ops, cfg);
    assert (ops + [FlushOp])[..|ops|] == ops;
  }

  // ------------------------------------------------------------------ from an empty directory

  function Min(a: nat, b: nat): nat {
    if a <= b then a else b
  }

  /** After `r` rotations exactly the files 1 to min(r, keep) exist, each at least as large as
      the limit, and nothing is lost before the rotation after the limit's. */
  ghost predicate Counted(t: Traced, cfg: Config) {
    && Valid(t.log) && t.log.file.Some?
    && (forall j: nat :: Rotated(j) in t.log.fs <==> 1 <= j <= Min(t.rotations, cfg.rotateKeep))
    && (forall j :: 1 <= j <= Min(t.rotations, cfg.rotateKeep) ==> |t.log.fs[Rotated(j)]| >= cfg.rotateSize)
    && (t.rotations <= cfg.rotateKeep ==> t.lost == [])
  }

  lemma ApplyCounts(t: Traced, op: Operation, cfg: Config)
    requires Counted(t, cfg)
    ensures Counted(Apply(t, op, cfg), cfg)
  {
    match op
    case WriteOp(buf, spill) =>
      WriteConserves(t.log, cfg, buf, spill);
    case FlushOp =>
      var keep := cfg.rotateKeep;
      FlushBufferConserves(t.log, keep);
      var f := FlushBuffer(t.log);
      if MustRotate(f, cfg) {
        RotationCounts(t.(log := f), cfg);
      }
  }

  lemma RotationCounts(t: Traced, cfg: Config)
    requires Counted(t, cfg) && t.log.file == Some([]) && MustRotate(t.log, cfg)
    ensures Counted(Traced(Rotate(t.log, cfg), t.written, t.lost + Dropped(t.log.fs, cfg.rotateKeep), t.rotations + 1), cfg)
  {
    var keep, fs := cfg.rotateKeep, t.log.fs;
    RotationConserves(t.log, cfg);
    RotationMoves(fs, keep);
    RotationTouchesNoZero(fs, keep);
    hide RotateFiles;
    var r := RotateFiles(fs, keep);
    var after := Rotate(t.log, cfg);
    assert after.fs == r[Current := []];
    forall j: nat ensures Rotated(j) in after.fs <==> 1 <= j <= Min(t.rotations + 1, keep) {
      if 2 <= j <= keep {
        assert SameFile(r, Rotated(j), fs, Rotated(j - 1));
      } else if j > keep + 1 {
        assert SameFile(r, Rotated(j), fs, Rotated(j));
      }
    }
    forall j | 1 <= j <= Min(t.rotations + 1, keep) ensures |after.fs[Rotated(j)]| >= cfg.rotateSize {
      if j >= 2 {
        assert SameFile(r, Rotated(j), fs, Rotated(j - 1));
      }
    }
  }

  lemma RotationTouchesNoZero(fs: FileSystem, keep: nat)
    requires Rotated(0) !in fs
    ensures Rotated(0) !in RotateFiles(fs, keep)
  {
    ShiftKeepsZero(fs, keep);
  }

  lemma {:induction false} ShiftKeepsZero(fs: FileSystem, i: nat)
    requires Rotated(0) !in fs
    ensures Rotated(0) !in ShiftUp(fs, i)
    decreases i
  {
    if i > 0 {
      ShiftKeepsZero(Rename(fs, Rotated(i), Rotated(i + 1)), i - 1);
    }
  }

  lemma {:induction false} EveryRunCounts(ops: seq<Operation>, cfg: Config)
    ensures Counted(After(map[], ops, cfg), cfg)
  {
    hide Counted, Apply, Started;
    if ops == [] {
      StartCounts(cfg);
    } else {
      var front := ops[..|ops| - 1];
      EveryRunCounts(front, cfg);
      ApplyCounts(After(map[], front, cfg), ops[|ops| - 1], cfg);
    }
  }

  lemma StartCounts(cfg: Config)
    ensures Counted(Started(map[], cfg), cfg)
  {
  }

  lemma {:induction false} OlderIsLarge(t: Traced, cfg: Config, k: nat)
    requires Counted(t, cfg) && k <= Min(t.rotations, cfg.rotateKeep)
    ensures |Older(t.log.fs, k)| >= k * cfg.rotateSize
  {
    if k > 0 {
      OlderIsLarge(t, cfg, k - 1);
      assert Rotated(k) in t.log.fs;
      assert k * cfg.rotateSize == (k - 1) * cfg.rotateSize + cfg.rotateSize;
    }
  }

  /** For any run of writes and flushes from an empty directory: what can be read is everything
      written until more rotations than the limit happened, a suffix of it always, and from the
      limit's rotation on never less than keep * size bytes. */
  lemma WhatIsKept(ops: seq<Operation>, cfg: Config)
    ensures var t := After(map[], ops, cfg);
            && t.lost + Retained(t.log, cfg.rotateKeep) == WrittenBy(ops)
            && (t.rotations <= cfg.rotateKeep ==> Retained(t.log, cfg.rotateKeep) == WrittenBy(ops))
            && (t.rotations >= cfg.rotateKeep ==> |Retained(t.log, cfg.rotateKeep)| >= cfg.rotateKeep * cfg.rotateSize)
            && (forall j: nat :: Rotated(j) in t.log.fs ==> 1 <= j <= cfg.rotateKeep)
  {
    var t := After(map[], ops, cfg);
    EveryRunConserves(map[], ops, cfg);
    EveryRunCounts(ops, cfg);
    hide After;
    EmptyStart(cfg);
    assert [] + WrittenBy(ops) == WrittenBy(ops);
    if t.rotations >= cfg.rotateKeep {
      OlderIsLarge(t, cfg, cfg.rotateKeep);
    }
  }

  lemma EmptyStart(cfg: Config)
    ensures Older(map[], cfg.rotateKeep) == [] && Content(map[], Current) == []
  {
    OlderOfNothing(map[], cfg.rotateKeep);
  }

  lemma {:induction false} OlderOfNothing(fs: FileSystem, k: nat)
    requires forall j: nat :: Rotated(j) !in fs
    ensures Older(fs, k) == []
  {
    if k > 0 {
      OlderOfNothing(fs, k - 1);
    }
  }
}
