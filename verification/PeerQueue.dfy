/**
 The peer queue as a state machine. Its steps are the sections that run under
 the worker's lock (enqueue, ack, checkpoint) and the sections of a group
 commit between which other callers run; every write, fsync, rename and reopen
 may fail. `files` are the files a power loss may leave at the log's path, the
 last of them being the one there now.
 */
module PeerQueue {
  import opened Lines
  import opened Options
  import opened PeerLog

  const CHECKPOINT_EVERY := 512

  /**
   One file. `durable` records of it are known to be fsynced, and `torn` is the
   beginning of a record that a failed write left. `base` is the position in
   the enqueue history of the file's first op.
   */
  datatype LogFile = LogFile(id: nat, base: nat, recs: seq<Rec>, torn: string, durable: nat, fsyncFailed: bool)

  /** Where the one caller that holds syncMu is. */
  datatype Phase =
    | Idle
    | Checked(wanted: nat)   // found `wanted` not synced; does not hold the worker's lock
    | Fsyncing(file: nat, target: nat, wanted: nat, covered: nat)
    | Fsynced(target: nat, wanted: nat)
    | FsyncErr(file: nat, wanted: nat)

  datatype State = State(
    pending: seq<SyncOp>,
    writes: nat,
    seqno: nat,
    needCheckpoint: bool,
    walFile: Option<nat>,
    synced: nat,
    phase: Phase,
    files: seq<LogFile>,
    nextId: nat,
    // History: the ops ever queued, how many were in the file at the start and
    // how many are acked; records rewritten by checkpoints; the highest number
    // a syncTo returned nil for. Until a checkpoint has replaced the file for good:
    // whether it was fsynced after a failed fsync; and whether a syncTo, or the
    // whole process, went on with it after a failed fsync, or the process with
    // one that an older file may still replace.
    hist: seq<SyncOp>,
    loaded: nat,
    acked: nat,
    rewritten: nat,
    promised: nat,
    refsynced: bool,
    late: bool)

  /** How a checkpoint ends. Only the last one returns nil. */
  datatype CkptOutcome =
    | NotReplaced   // failed before or at the rename
    | DirNotSynced  // renamed, but the directory fsync failed
    | NotReopened   // replaced for good, but the new file did not open
    | Rewritten

  /** How the file calls of one append end; `failsAfter` bytes of a failed write reach the file. */
  datatype Io = Io(openFails: bool, failsAfter: Option<nat>, ckpt: CkptOutcome)

  datatype Event =
    | Enqueue(op: SyncOp, io: Io)
    | AckN(n: nat, io: Io)
    | RewriteBroken(ckpt: CkptOutcome)
    | SyncFast(wanted: nat)
    | SyncStart(wanted: nat)
    | SyncLocked(ckpt: CkptOutcome)
    | FsyncReturn(ok: bool)
    | SyncFinish(ckpt: CkptOutcome)

  function Max(a: nat, b: nat): nat {
    if a < b then b else a
  }

  function Content(c: Codec, f: LogFile): string {
    Encode(c, f.recs) + f.torn
  }

  function Queued(ops: seq<SyncOp>): seq<Rec> {
    seq(|ops|, i requires 0 <= i < |ops| => E(ops[i]))
  }

  function Acks(n: nat): seq<Rec> {
    seq(n, _ => A)
  }

  // ---- the operations ----

  predicate Reclaimable(s: State) {
    var dead := s.writes - |s.pending|;
    dead >= CHECKPOINT_EVERY && dead >= |s.pending|
  }

  function Rewrite(s: State): LogFile {
    LogFile(s.nextId, s.acked, Queued(s.pending), "", |s.pending|, false)
  }

  function Checkpoint(s: State, o: CkptOutcome): State {
    match o
    case NotReplaced => s.(walFile := None, needCheckpoint := true)
    case DirNotSynced =>
      s.(walFile := None, needCheckpoint := true, files := s.files + [Rewrite(s)], nextId := s.nextId + 1)
    case _ =>
      s.(walFile := if o.Rewritten? then Some(s.nextId) else None,
         needCheckpoint := !o.Rewritten?,
         files := [Rewrite(s)], nextId := s.nextId + 1,
         writes := |s.pending|, synced := Max(s.synced, s.seqno),
         rewritten := s.rewritten + |s.pending|, refsynced := false, late := false)
  }

  /** The file at the log's path after `bytes` bytes of `recs` were appended to it. */
  function Partial(c: Codec, f: LogFile, recs: seq<Rec>, bytes: nat): LogFile {
    var n := WholeRecs(c, recs, bytes);
    var text := Encode(c, recs);
    var whole, end := |Encode(c, recs[..n])|, if bytes < |text| then bytes else |text|;
    f.(recs := f.recs + recs[..n], torn := if whole <= end then text[whole..end] else "")
  }

  function Last(s: State): LogFile
    requires s.files != []
  {
    s.files[|s.files| - 1]
  }

  function SetLast(s: State, f: LogFile): State
    requires s.files != []
  {
    s.(files := s.files[..|s.files| - 1] + [f])
  }

  /** A failed write leaves part of the records in the file, and a checkpoint due. */
  function AppendTorn(c: Codec, s: State, recs: seq<Rec>, bytes: nat): State
    requires s.files != []
  {
    SetLast(s, Partial(c, Last(s), recs, bytes)).(needCheckpoint := true)
  }

  function AppendWhole(s: State, recs: seq<Rec>): (t: State)
    requires s.files != []
    ensures t.files != []
  {
    SetLast(s, Last(s).(recs := Last(s).recs + recs)).(writes := s.writes + |recs|)
  }

  function Open(s: State): (t: State)
    requires s.files != []
    ensures t.files != []
  {
    s.(walFile := Some(Last(s).id))
  }

  function Reclaim(s: State, o: CkptOutcome): State {
    if Reclaimable(s) then Checkpoint(s, o) else s
  }

  /** appendLocked: after a failure the next append rewrites the log instead. */
  function Append(c: Codec, s: State, recs: seq<Rec>, io: Io): State
    requires s.files != []
  {
    if s.needCheckpoint then Checkpoint(s, io.ckpt)
    else if s.walFile.None? && io.openFails then s.(needCheckpoint := true)
    else
      match io.failsAfter
      case Some(bytes) => AppendTorn(c, Open(s), recs, bytes)
      case None => Reclaim(AppendWhole(Open(s), recs), io.ckpt)
  }

  function Push(s: State, op: SyncOp): State {
    s.(pending := s.pending + [op], seqno := s.seqno + 1, hist := s.hist + [op])
  }

  function Drop(s: State, n: nat): State
    requires n <= |s.pending|
  {
    s.(pending := s.pending[n..], acked := s.acked + n)
  }

  function Acked(c: Codec, s: State, count: nat, io: Io): State
    requires s.files != []
  {
    var n := if count < |s.pending| then count else |s.pending|;
    if n == 0 then s else Append(c, Drop(s, n), Acks(n), io)
  }

  function Promise(s: State, n: nat): State {
    s.(promised := Max(s.promised, n))
  }

  function MarkFiles(files: seq<LogFile>, id: nat, covered: nat, ok: bool): seq<LogFile> {
    seq(|files|, i requires 0 <= i < |files| =>
      var f := files[i];
      if f.id != id then f
      else if !ok then f.(fsyncFailed := true)
      // An fsync that succeeds after one failed proves nothing.
      else if f.fsyncFailed then f
      else f.(durable := Max(f.durable, covered)))
  }

  function BeginFsync(s: State, wanted: nat): State
    requires s.files != [] && s.walFile.Some?
  {
    s.(phase := Fsyncing(s.walFile.value, s.seqno, wanted, |Last(s).recs|),
       refsynced := s.refsynced || Last(s).fsyncFailed)
  }

  function EndFsync(s: State, ok: bool): State
    requires s.phase.Fsyncing?
  {
    s.(files := MarkFiles(s.files, s.phase.file, s.phase.covered, ok),
       phase := if ok then Fsynced(s.phase.target, s.phase.wanted) else FsyncErr(s.phase.file, s.phase.wanted))
  }

  function SyncByCheckpoint(s: State, wanted: nat, o: CkptOutcome): State {
    if o.Rewritten? then Promise(Checkpoint(s, o), wanted) else Checkpoint(s, o)
  }

  /** syncTo once it holds syncMu: its test of the number, which takes no other lock. */
  function SyncCheck(s: State, wanted: nat): State {
    if wanted <= s.synced then Promise(s, wanted) else s.(phase := Checked(wanted))
  }

  /** syncTo once it holds the worker's lock too, up to its fsync. It does not test the number again. */
  function SyncBegin(s: State, wanted: nat, o: CkptOutcome): State
    requires s.files != []
  {
    if s.needCheckpoint || s.walFile.None? then SyncByCheckpoint(s.(phase := Idle), wanted, o)
    else BeginFsync(s, wanted)
  }

  /** The fsync failed, the file is still in use, and yet its number is synced: nobody rewrites the file. */
  predicate Late(s: State) {
    && s.phase.FsyncErr? && s.phase.wanted <= s.synced
    && s.walFile == Some(s.phase.file) && !s.needCheckpoint
  }

  /** syncTo after its fsync: a failed one is fine if the file was replaced since, or so it takes it. */
  function SyncEnd(s: State, o: CkptOutcome): State {
    match s.phase
    case Fsynced(target, wanted) => Promise(s.(synced := Max(s.synced, target), phase := Idle), wanted)
    case FsyncErr(file, wanted) =>
      var t := s.(phase := Idle, late := s.late || Late(s));
      if wanted <= s.synced || s.walFile != Some(file) then Promise(t, wanted) else SyncByCheckpoint(t, wanted, o)
    case _ => s
  }

  /** One step; an event that cannot happen in `s` leaves it as it is. */
  function Step(c: Codec, s: State, e: Event): State
    requires s.files != []
  {
    match e
    case Enqueue(op, io) => Append(c, Push(s, op), [E(op)], io)
    case AckN(count, io) => Acked(c, s, count, io)
    case RewriteBroken(o) => if s.needCheckpoint then Checkpoint(s, o) else s
    case SyncFast(wanted) => if wanted <= s.synced then Promise(s, wanted) else s
    case SyncStart(wanted) => if s.phase.Idle? && wanted <= s.seqno then SyncCheck(s, wanted) else s
    case SyncLocked(o) => if s.phase.Checked? then SyncBegin(s, s.phase.wanted, o) else s
    case FsyncReturn(ok) => if s.phase.Fsyncing? then EndFsync(s, ok) else s
    case SyncFinish(o) => SyncEnd(s, o)
  }

  // ---- what a file holds ----

  function NumE(recs: seq<Rec>): nat {
    if recs == [] then 0 else NumE(recs[..|recs| - 1]) + if recs[|recs| - 1].E? then 1 else 0
  }

  function NumA(recs: seq<Rec>): nat {
    if recs == [] then 0 else NumA(recs[..|recs| - 1]) + if recs[|recs| - 1].A? then 1 else 0
  }

  /** The ops of `recs` follow one another in `hist` from `base`, and no ack comes before its op. */
  ghost predicate Shape(recs: seq<Rec>, hist: seq<SyncOp>, base: nat) {
    if recs == [] then base <= |hist|
    else
      var init := recs[..|recs| - 1];
      && Shape(init, hist, base)
      && match recs[|recs| - 1]
         case E(op) => base + NumE(init) < |hist| && op == hist[base + NumE(init)]
         case A => NumA(init) < NumE(init)
  }

  /** The slice [Lo, Hi) of the history that the first `j` records of `f` replay to. */
  function Lo(f: LogFile, j: nat): nat
    requires j <= |f.recs|
  {
    f.base + NumA(f.recs[..j])
  }

  function Hi(f: LogFile, j: nat): nat
    requires j <= |f.recs|
  {
    f.base + NumE(f.recs[..j])
  }

  lemma Snoc(recs: seq<Rec>, r: Rec, hist: seq<SyncOp>, base: nat)
    ensures NumE(recs + [r]) == NumE(recs) + if r.E? then 1 else 0
    ensures NumA(recs + [r]) == NumA(recs) + if r.A? then 1 else 0
    ensures Shape(recs + [r], hist, base) <==>
            && Shape(recs, hist, base)
            && match r
               case E(op) => base + NumE(recs) < |hist| && op == hist[base + NumE(recs)]
               case A => NumA(recs) < NumE(recs)
  {
    assert (recs + [r])[..|recs|] == recs;
  }

  lemma {:induction false} ShapeReplays(recs: seq<Rec>, hist: seq<SyncOp>, base: nat)
    requires Shape(recs, hist, base)
    ensures NumA(recs) <= NumE(recs) && base + NumE(recs) <= |hist|
    ensures Replay(recs) == hist[base + NumA(recs)..base + NumE(recs)]
  {
    if recs != [] {
      var init := recs[..|recs| - 1];
      ShapeReplays(init, hist, base);
      var lo, hi := base + NumA(init), base + NumE(init);
      match recs[|recs| - 1]
      case E(op) => assert hist[lo..hi] + [op] == hist[lo..hi + 1];
      case A => assert hist[lo..hi][1..] == hist[lo + 1..hi];
    }
  }

  lemma {:induction false} ShapePrefix(recs: seq<Rec>, hist: seq<SyncOp>, base: nat, j: nat)
    requires j <= |recs|
    requires Shape(recs, hist, base)
    ensures Shape(recs[..j], hist, base)
    ensures NumA(recs[..j]) <= NumA(recs) && NumE(recs[..j]) <= NumE(recs)
  {
    if j < |recs| {
      var init := recs[..|recs| - 1];
      ShapePrefix(init, hist, base, j);
      assert init[..j] == recs[..j];
    } else {
      assert recs[..j] == recs;
    }
  }

  lemma {:induction false} ShapeGrow(recs: seq<Rec>, hist: seq<SyncOp>, base: nat, op: SyncOp)
    requires Shape(recs, hist, base)
    ensures Shape(recs, hist + [op], base)
  {
    if recs != [] {
      ShapeGrow(recs[..|recs| - 1], hist, base, op);
    }
  }

  lemma {:induction false} ShapeAcks(recs: seq<Rec>, hist: seq<SyncOp>, base: nat, n: nat)
    requires Shape(recs, hist, base) && NumA(recs) + n <= NumE(recs)
    ensures Shape(recs + Acks(n), hist, base)
    ensures NumA(recs + Acks(n)) == NumA(recs) + n && NumE(recs + Acks(n)) == NumE(recs)
  {
    if n == 0 {
      assert recs + Acks(0) == recs;
    } else {
      ShapeAcks(recs, hist, base, n - 1);
      Snoc(recs + Acks(n - 1), A, hist, base);
      assert recs + Acks(n) == recs + Acks(n - 1) + [A];
    }
  }

  lemma {:induction false} ShapeQueued(hist: seq<SyncOp>, base: nat, n: nat)
    requires base + n <= |hist|
    ensures var recs := Queued(hist[base..base + n]);
            Shape(recs, hist, base) && NumE(recs) == n && NumA(recs) == 0
  {
    if n > 0 {
      ShapeQueued(hist, base, n - 1);
      var init := Queued(hist[base..base + n - 1]);
      QueuedNext(hist, base, n - 1);
      Snoc(init, E(hist[base + n - 1]), hist, base);
    }
  }

  lemma QueuedNext(hist: seq<SyncOp>, base: nat, n: nat)
    requires base + n < |hist|
    ensures Queued(hist[base..base + n + 1]) == Queued(hist[base..base + n]) + [E(hist[base + n])]
  {
  }

  // ---- the invariant ----

  ghost predicate FileOk(s: State, f: LogFile) {
    && Shape(f.recs, s.hist, f.base)
    && f.base + NumA(f.recs) <= s.acked
    && f.durable <= |f.recs|
    && NoNewline(f.torn)
    && f.id < s.nextId
  }

  /** An older file holds no op and no ack that the file at the path does not account for. */
  ghost predicate Behind(f: LogFile, g: LogFile) {
    f.id != g.id && f.base + NumA(f.recs) <= g.base + NumA(g.recs) && f.base + NumE(f.recs) <= g.base + NumE(g.recs)
  }

  ghost predicate AllBehind(files: seq<LogFile>) {
    files != [] && forall i :: 0 <= i < |files| - 1 ==> Behind(files[i], files[|files| - 1])
  }

  ghost predicate FilesOk(s: State) {
    && s.files != []
    && (forall f :: f in s.files ==> FileOk(s, f))
    && AllBehind(s.files)
    && (s.walFile.Some? ==> s.walFile.value == Last(s).id)
  }

  ghost predicate QueueOk(s: State) {
    && s.acked <= |s.hist|
    && s.pending == s.hist[s.acked..]
    && s.loaded + s.seqno == |s.hist|
    && s.synced <= s.seqno
    && (!s.late ==> !s.refsynced)
  }

  /** Every file a power loss may leave has fsynced every op up to number `n`. */
  ghost predicate Covered(s: State, n: nat) {
    n == 0 || forall f :: f in s.files ==> f.durable <= |f.recs| && s.loaded + n <= Hi(f, f.durable)
  }

  /** The oldest of them has fsynced none beyond it. */
  ghost predicate NotBeyond(s: State, n: nat) {
    s.files != [] && var f := s.files[0]; f.durable <= |f.recs| && Hi(f, f.durable) <= s.loaded + n
  }

  /** The file being fsynced holds the target; a file that replaced it has it on disk. */
  ghost predicate FsyncingOk(s: State, f: LogFile)
    requires s.phase.Fsyncing?
  {
    if f.id == s.phase.file then
      s.phase.covered <= |f.recs| && Hi(f, s.phase.covered) == s.loaded + s.phase.target && (!s.late ==> !f.fsyncFailed)
    else !s.late ==> f.durable <= |f.recs| && s.loaded + s.phase.target <= Hi(f, f.durable)
  }

  ghost predicate PhaseOk(s: State) {
    match s.phase
    case Idle => true
    case Checked(wanted) => wanted <= s.seqno
    case Fsyncing(file, target, wanted, covered) =>
      file < s.nextId && wanted <= target <= s.seqno && forall f :: f in s.files ==> FsyncingOk(s, f)
    case Fsynced(target, wanted) => wanted <= target <= s.seqno && (!s.late ==> Covered(s, target))
    case FsyncErr(file, wanted) =>
      file < s.nextId && wanted <= s.seqno && forall f :: f in s.files && f.id == file ==> f.fsyncFailed
  }

  /** `synced` is exact: neither more nor less is on disk in every file. */
  ghost predicate SyncedOk(s: State) {
    && Covered(s, s.synced)
    && NotBeyond(s, if s.phase.Fsynced? then Max(s.synced, s.phase.target) else s.synced)
  }

  ghost predicate Base(s: State) {
    QueueOk(s) && FilesOk(s) && PhaseOk(s) && (!s.late ==> SyncedOk(s))
  }

  /** A file whose fsync failed is about to be replaced. */
  ghost predicate FailedOk(s: State) {
    !s.late ==>
      forall f :: f in s.files && f.fsyncFailed ==> s.needCheckpoint || (s.phase.FsyncErr? && f.id == s.phase.file)
  }

  ghost predicate Core(s: State) {
    Base(s) && FailedOk(s)
  }

  /** Unless a checkpoint is due, the file at the path followed by `recs` is exactly the queue. */
  ghost predicate InStep(s: State, recs: seq<Rec>)
    requires FilesOk(s)
  {
    !s.needCheckpoint ==>
      var f := Last(s);
      && (|s.files| == 1 || s.late)
      && (s.late ==> f.fsyncFailed || |s.files| > 1)
      && f.torn == ""
      && s.writes == |f.recs|
      && Shape(f.recs + recs, s.hist, f.base)
      && f.base + NumA(f.recs + recs) == s.acked
      && f.base + NumE(f.recs + recs) == |s.hist|
      && ((s.phase.Fsyncing? || s.phase.FsyncErr?) && s.phase.file == f.id ==> s.walFile == Some(f.id))
  }

  ghost predicate Inv(s: State) {
    Core(s) && InStep(s, [])
  }

  /**
   A state as a load leaves it: the file at the path, cut nowhere, with any part
   of it on disk. A process that ends without a power loss leaves a failed fsync
   behind, and the older files that may still come back.
   */
  ghost predicate Loaded(s: State) {
    && s.files != [] && s.loaded == |s.hist| && s.seqno == 0 && s.synced == 0
    && s.acked <= |s.hist| && s.pending == s.hist[s.acked..]
    && !s.needCheckpoint && s.phase.Idle? && s.promised == 0 && !s.refsynced && s.rewritten == 0
    && FilesOk(s)
    && var f := Last(s);
    && f.torn == "" && (s.late <==> f.fsyncFailed || |s.files| > 1)
    && s.writes == |f.recs|
    && f.base + NumA(f.recs) == s.acked && f.base + NumE(f.recs) == |s.hist|
  }

  // ---- every step keeps it ----

  lemma HiOrder(s: State, f: LogFile, i: nat, j: nat)
    requires FileOk(s, f) && i <= j <= |f.recs|
    ensures Hi(f, i) <= Hi(f, j)
  {
    ShapePrefix(f.recs, s.hist, f.base, j);
    ShapePrefix(f.recs[..j], s.hist, f.base, i);
    assert f.recs[..j][..i] == f.recs[..i];
  }

  lemma HiMono(s: State, f: LogFile, j: nat)
    requires FileOk(s, f) && j <= |f.recs|
    ensures Lo(f, j) <= Hi(f, j) <= |s.hist| && Lo(f, j) <= s.acked
  {
    ShapePrefix(f.recs, s.hist, f.base, j);
    ShapeReplays(f.recs[..j], s.hist, f.base);
  }

  lemma LoadedInv(s: State)
    requires Loaded(s)
    ensures Inv(s)
  {
    var f := Last(s);
    assert f in s.files && FileOk(s, f);
    HiMono(s, f, f.durable);
    assert f.recs + [] == f.recs;
  }

  /** A checkpoint's file holds the queue, all of it on disk. */
  lemma RewriteOk(s: State)
    requires QueueOk(s)
    ensures FileOk(s.(nextId := s.nextId + 1), Rewrite(s))
    ensures Hi(Rewrite(s), Rewrite(s).durable) == |s.hist|
    ensures NumA(Rewrite(s).recs) == 0 && NumE(Rewrite(s).recs) == |s.pending|
  {
    ShapeQueued(s.hist, s.acked, |s.pending|);
    var recs := Queued(s.pending);
    assert s.hist[s.acked..s.acked + |s.pending|] == s.pending && recs[..|recs|] == recs;
  }

  lemma NewestAhead(s: State)
    requires QueueOk(s) && FilesOk(s)
    ensures AllBehind(s.files + [Rewrite(s)])
  {
    RewriteOk(s);
    var files := s.files + [Rewrite(s)];
    forall i | 0 <= i < |files| - 1
      ensures Behind(files[i], Rewrite(s))
    {
      var f := s.files[i];
      assert files[i] == f && f in s.files && FileOk(s, f);
      ShapeReplays(f.recs, s.hist, f.base);
    }
  }

  lemma NotReplacedKeeps(s: State)
    requires Base(s)
    ensures Inv(Checkpoint(s, NotReplaced))
  {
    assert forall f :: f in s.files ==> FileOk(Checkpoint(s, NotReplaced), f);
  }

  lemma DirNotSyncedKeeps(s: State)
    requires Base(s)
    ensures Inv(Checkpoint(s, DirNotSynced))
  {
    var t, g := Checkpoint(s, DirNotSynced), Rewrite(s);
    RewriteOk(s);
    NewestAhead(s);
    assert forall f :: f in s.files ==> FileOk(t, f);
    assert forall f :: f in t.files ==> f in s.files || f == g;
  }

  lemma CheckpointReplacedBase(s: State, o: CkptOutcome)
    requires Base(s) && (o.NotReopened? || o.Rewritten?)
    ensures Core(Checkpoint(s, o))
  {
    RewriteOk(s);
    assert FileOk(Checkpoint(s, o), Rewrite(s));
  }

  lemma CheckpointReplacedKeeps(s: State, o: CkptOutcome)
    requires Base(s) && (o.NotReopened? || o.Rewritten?)
    ensures Inv(Checkpoint(s, o))
  {
    CheckpointReplacedBase(s, o);
    RewriteOk(s);
    assert Rewrite(s).recs + [] == Rewrite(s).recs;
  }

  lemma CheckpointKeeps(s: State, o: CkptOutcome)
    requires Base(s)
    ensures Inv(Checkpoint(s, o))
  {
    match o
    case NotReplaced => NotReplacedKeeps(s);
    case DirNotSynced => DirNotSyncedKeeps(s);
    case _ => CheckpointReplacedKeeps(s, o);
  }

  lemma LongerFiles(s: State, g: LogFile)
    requires FilesOk(s) && FileOk(s, g)
    requires var f := Last(s); f.recs <= g.recs && g == f.(recs := g.recs, torn := g.torn)
    ensures FilesOk(SetLast(s, g))
  {
    var f, t := Last(s), SetLast(s, g);
    ShapePrefix(g.recs, s.hist, g.base, |f.recs|);
    assert g.recs[..|f.recs|] == f.recs;
    forall i | 0 <= i < |t.files| - 1
      ensures Behind(t.files[i], g)
    {
      assert Behind(s.files[i], f);
    }
    forall h | h in t.files
      ensures FileOk(t, h)
    {
      assert h == g || h in s.files;
    }
  }

  /** The file at the path, grown: what was fsynced of it stays so. */
  lemma LongerKeeps(s: State, g: LogFile)
    requires Core(s) && (|s.files| == 1 || s.late) && FileOk(s, g)
    requires var f := Last(s); f.recs <= g.recs && g == f.(recs := g.recs, torn := g.torn)
    ensures Core(SetLast(s, g)) && Last(SetLast(s, g)) == g && |SetLast(s, g).files| == |s.files|
  {
    var f, t := Last(s), SetLast(s, g);
    LongerFiles(s, g);
    assert f in s.files && FileOk(s, f);
    assert g.recs[..f.durable] == f.recs[..f.durable];
    LongerPhase(s, g);
    assert |s.files| == 1 ==> t.files == [g] && s.files == [f];
  }

  lemma LongerPhase(s: State, g: LogFile)
    requires s.files != [] && PhaseOk(s) && (|s.files| == 1 || s.late) && FileOk(s, g) && FileOk(s, Last(s))
    requires var f := Last(s); f.recs <= g.recs && g == f.(recs := g.recs, torn := g.torn)
    ensures PhaseOk(SetLast(s, g))
  {
    var f, t := Last(s), SetLast(s, g);
    assert f in s.files && forall h :: h in t.files ==> h == g || h in s.files;
    assert g.recs[..f.durable] == f.recs[..f.durable];
    assert |s.files| == 1 ==> t.files == [g] && s.files == [f];
    if s.phase.Fsyncing? {
      assert FsyncingOk(s, f);
      assert s.phase.covered <= |f.recs| ==> g.recs[..s.phase.covered] == f.recs[..s.phase.covered];
    }
  }

  // ---- appends ----

  /** A write that fails after some bytes leaves whole records and the beginning of the next one. */
  lemma WrittenPart(c: Codec, recs: seq<Rec>, bytes: nat, end: nat) returns (torn: string)
    requires Faithful(c)
    requires end == if bytes < |Encode(c, recs)| then bytes else |Encode(c, recs)|
    ensures Encode(c, recs)[..end] == Encode(c, recs[..WholeRecs(c, recs, bytes)]) + torn && NoNewline(torn)
  {
    if |Encode(c, recs)| <= bytes {
      WholeAll(c, recs, bytes);
      WholeAll(c, recs, end);
    }
    torn := CutRecords(c, recs, end);
  }

  lemma PartialText(c: Codec, f: LogFile, recs: seq<Rec>, bytes: nat, end: nat, torn: string)
    requires end == if bytes < |Encode(c, recs)| then bytes else |Encode(c, recs)|
    requires Encode(c, recs)[..end] == Encode(c, recs[..WholeRecs(c, recs, bytes)]) + torn
    requires f.torn == ""
    ensures Partial(c, f, recs, bytes).torn == torn
    ensures Content(c, Partial(c, f, recs, bytes)) == Content(c, f) + Encode(c, recs)[..end]
  {
    var n := WholeRecs(c, recs, bytes);
    AfterWhole(Encode(c, recs), end, Encode(c, recs[..n]), torn);
    EncodeConcat(c, f.recs, recs[..n]);
    JoinTorn(Encode(c, f.recs), Encode(c, recs[..n]), torn);
  }

  lemma JoinTorn(before: string, whole: string, torn: string)
    ensures (before + whole) + torn == (before + "") + (whole + torn)
  {
  }

  /** The text of the file after a failed write is what was there and the bytes that were written. */
  lemma PartialContent(c: Codec, f: LogFile, recs: seq<Rec>, bytes: nat, end: nat)
    requires Faithful(c) && f.torn == ""
    requires end == if bytes < |Encode(c, recs)| then bytes else |Encode(c, recs)|
    ensures Content(c, Partial(c, f, recs, bytes)) == Content(c, f) + Encode(c, recs)[..end]
    ensures NoNewline(Partial(c, f, recs, bytes).torn)
  {
    var torn := WrittenPart(c, recs, bytes, end);
    PartialText(c, f, recs, bytes, end, torn);
  }

  lemma AfterWhole(text: string, end: nat, whole: string, torn: string)
    requires end <= |text| && text[..end] == whole + torn
    ensures |whole| <= end && text[|whole|..end] == torn
  {
    assert text[|whole|..end] == text[..end][|whole|..];
  }

  lemma PartialOk(c: Codec, f: LogFile, recs: seq<Rec>, bytes: nat)
    requires Faithful(c) && f.torn == ""
    ensures var g := Partial(c, f, recs, bytes);
            && g == f.(recs := f.recs + recs[..WholeRecs(c, recs, bytes)], torn := g.torn)
            && NoNewline(g.torn)
  {
    PartialContent(c, f, recs, bytes, if bytes < |Encode(c, recs)| then bytes else |Encode(c, recs)|);
  }

  lemma {:induction false} WholeAll(c: Codec, recs: seq<Rec>, bytes: nat)
    requires |Encode(c, recs)| <= bytes
    ensures WholeRecs(c, recs, bytes) == |recs|
  {
    if recs != [] {
      assert recs == [recs[0]] + recs[1..];
      EncodeConcat(c, [recs[0]], recs[1..]);
      EncodeOne(c, recs[0]);
      WholeAll(c, recs[1..], bytes - (|EncLine(c, recs[0])| + 1));
    }
  }

  /** The file at the path after appending the first `n` of `recs`. */
  lemma AppendedOk(s: State, recs: seq<Rec>, n: nat, g: LogFile)
    requires Core(s) && InStep(s, recs) && !s.needCheckpoint
    requires n <= |recs| && NoNewline(g.torn)
    requires var f := Last(s); g == f.(recs := f.recs + recs[..n], torn := g.torn)
    requires s.walFile == Some(Last(s).id)
    ensures Core(SetLast(s, g)) && Last(SetLast(s, g)) == g && |SetLast(s, g).files| == |s.files|
  {
    var f := Last(s);
    assert f in s.files;
    assert f.recs <= g.recs == (f.recs + recs)[..|f.recs| + n];
    ShapePrefix(f.recs + recs, s.hist, f.base, |f.recs| + n);
    assert FileOk(s, g);
    LongerKeeps(s, g);
  }

  lemma AppendedInStep(s: State, recs: seq<Rec>, g: LogFile)
    requires Core(s) && InStep(s, recs) && !s.needCheckpoint
    requires var f := Last(s); g == f.(recs := f.recs + recs, torn := g.torn) && g.torn == ""
    requires s.walFile == Some(Last(s).id) && FilesOk(SetLast(s, g))
    ensures InStep(SetLast(s, g).(writes := s.writes + |recs|), [])
  {
    assert Last(SetLast(s, g)) == g && g.recs + [] == g.recs;
  }

  lemma OpenKeeps(s: State, recs: seq<Rec>)
    requires Core(s) && InStep(s, recs) && !s.needCheckpoint
    ensures Core(Open(s)) && InStep(Open(s), recs)
  {
    assert forall f :: f in s.files ==> FileOk(Open(s), f);
    assert Last(s) in s.files;
  }

  lemma AppendTornKeeps(c: Codec, s: State, recs: seq<Rec>, bytes: nat)
    requires Faithful(c)
    requires Core(s) && InStep(s, recs) && !s.needCheckpoint && s.walFile == Some(Last(s).id)
    ensures Inv(AppendTorn(c, s, recs, bytes))
  {
    var f := Last(s);
    var g := Partial(c, f, recs, bytes);
    PartialOk(c, f, recs, bytes);
    AppendedOk(s, recs, WholeRecs(c, recs, bytes), g);
    var t := SetLast(s, g);
    assert forall h :: h in t.files ==> FileOk(t.(needCheckpoint := true), h);
  }

  lemma AppendWholeKeeps(s: State, recs: seq<Rec>)
    requires Core(s) && InStep(s, recs) && !s.needCheckpoint && s.walFile == Some(Last(s).id)
    ensures Inv(AppendWhole(s, recs))
  {
    assert recs[..|recs|] == recs;
    var g := Last(s).(recs := Last(s).recs + recs);
    AppendedOk(s, recs, |recs|, g);
    AppendedInStep(s, recs, g);
    CountKeeps(SetLast(s, g), s.writes + |recs|);
  }

  lemma AppendKeeps(c: Codec, s: State, recs: seq<Rec>, io: Io)
    requires Faithful(c)
    requires Core(s) && InStep(s, recs)
    ensures Inv(Append(c, s, recs, io))
  {
    if s.needCheckpoint {
      CheckpointKeeps(s, io.ckpt);
    } else if s.walFile.None? && io.openFails {
      assert forall f :: f in s.files ==> FileOk(s.(needCheckpoint := true), f);
    } else {
      OpenKeeps(s, recs);
      match io.failsAfter
      case Some(bytes) => AppendTornKeeps(c, Open(s), recs, bytes);
      case None =>
        AppendWholeKeeps(Open(s), recs);
        ReclaimKeeps(AppendWhole(Open(s), recs), io.ckpt);
    }
  }

  lemma ReclaimKeeps(s: State, o: CkptOutcome)
    requires Inv(s)
    ensures Inv(Reclaim(s, o))
  {
    CheckpointKeeps(s, o);
  }

  lemma CountKeeps(s: State, writes: nat)
    requires Core(s)
    ensures Core(s.(writes := writes))
  {
    assert forall f :: f in s.files ==> FileOk(s.(writes := writes), f);
  }

  lemma PushKeeps(s: State, op: SyncOp)
    requires Inv(s)
    ensures Core(Push(s, op)) && InStep(Push(s, op), [E(op)])
  {
    var t := Push(s, op);
    forall f | f in s.files
      ensures FileOk(t, f)
    {
      ShapeGrow(f.recs, s.hist, f.base, op);
    }
    if !s.needCheckpoint {
      var f := Last(s);
      assert f in s.files;
      assert f.recs + [] == f.recs;
      Snoc(f.recs, E(op), t.hist, f.base);
    }
  }

  lemma DropCore(s: State, n: nat)
    requires Inv(s) && n <= |s.pending|
    ensures Core(Drop(s, n))
  {
    assert forall f :: f in s.files ==> FileOk(Drop(s, n), f);
  }

  lemma DropKeeps(s: State, n: nat)
    requires Inv(s) && n <= |s.pending|
    ensures Core(Drop(s, n)) && InStep(Drop(s, n), Acks(n))
  {
    DropCore(s, n);
    if !s.needCheckpoint {
      var f := Last(s);
      assert f.recs + [] == f.recs;
      ShapeAcks(f.recs, s.hist, f.base, n);
    }
  }

  lemma MarkedFile(s: State, ok: bool, i: nat)
    requires Inv(s) && s.phase.Fsyncing? && i < |s.files|
    ensures var f, g := s.files[i], EndFsync(s, ok).files[i];
            && f in s.files && g.(durable := f.durable, fsyncFailed := f.fsyncFailed) == f
            && f.durable <= g.durable <= |g.recs|
            && Hi(f, f.durable) <= Hi(g, g.durable)
            && (!s.late && ok ==> s.loaded + s.phase.target <= Hi(g, g.durable) && g.fsyncFailed == f.fsyncFailed)
            && (g.fsyncFailed ==> f.fsyncFailed || f.id == s.phase.file)
            && (f.durable < g.durable ==> ok && Hi(g, g.durable) == s.loaded + s.phase.target)
  {
    var f, g := s.files[i], EndFsync(s, ok).files[i];
    assert f in s.files && FsyncingOk(s, f);
    HiOrder(s, f, f.durable, g.durable);
    if f.id == s.phase.file {
      HiOrder(s, f, s.phase.covered, Max(f.durable, s.phase.covered));
    }
  }

  lemma EndFsyncFiles(s: State, ok: bool)
    requires Inv(s) && s.phase.Fsyncing?
    ensures FilesOk(EndFsync(s, ok))
  {
    var t := EndFsync(s, ok);
    forall i | 0 <= i < |s.files|
      ensures FileOk(t, t.files[i])
    {
      MarkedFile(s, ok, i);
    }
    MarkedFile(s, ok, |s.files| - 1);
    forall i | 0 <= i < |s.files| - 1
      ensures Behind(t.files[i], Last(t))
    {
      MarkedFile(s, ok, i);
      assert Behind(s.files[i], Last(s));
    }
  }

  lemma EndFsyncCovers(s: State, ok: bool, n: nat)
    requires Inv(s) && s.phase.Fsyncing? && !s.late && (n <= s.synced || (ok && n <= s.phase.target))
    ensures Covered(EndFsync(s, ok), n)
  {
    var t := EndFsync(s, ok);
    forall i | 0 <= i < |s.files|
      ensures n == 0 || (t.files[i].durable <= |t.files[i].recs| && s.loaded + n <= Hi(t.files[i], t.files[i].durable))
    {
      MarkedFile(s, ok, i);
    }
  }

  lemma EndFsyncBase(s: State, ok: bool)
    requires Inv(s) && s.phase.Fsyncing?
    ensures Base(EndFsync(s, ok))
  {
    EndFsyncFiles(s, ok);
    if !s.late {
      EndFsyncCovers(s, ok, s.synced);
      if ok {
        EndFsyncCovers(s, ok, s.phase.target);
      }
      MarkedFile(s, ok, 0);
    }
  }

  lemma EndFsyncKeeps(s: State, ok: bool)
    requires Inv(s) && s.phase.Fsyncing?
    ensures Inv(EndFsync(s, ok))
  {
    EndFsyncBase(s, ok);
    MarkedFile(s, ok, |s.files| - 1);
    forall i | 0 <= i < |s.files|
      ensures !s.late && EndFsync(s, ok).files[i].fsyncFailed ==>
                s.needCheckpoint || (!ok && EndFsync(s, ok).files[i].id == s.phase.file)
    {
      MarkedFile(s, ok, i);
    }
  }

  lemma PromiseKeeps(s: State, n: nat)
    requires Inv(s)
    ensures Inv(Promise(s, n))
  {
    assert forall f :: f in s.files ==> FileOk(Promise(s, n), f);
  }

  lemma SyncByCheckpointKeeps(s: State, wanted: nat, o: CkptOutcome)
    requires Base(s)
    ensures Inv(SyncByCheckpoint(s, wanted, o))
  {
    CheckpointKeeps(s, o);
    PromiseKeeps(Checkpoint(s, o), wanted);
  }

  lemma SyncCheckKeeps(s: State, wanted: nat)
    requires Inv(s) && s.phase.Idle? && wanted <= s.seqno
    ensures Inv(SyncCheck(s, wanted))
  {
    if wanted <= s.synced {
      PromiseKeeps(s, wanted);
    } else {
      assert forall f :: f in s.files ==> FileOk(SyncCheck(s, wanted), f);
    }
  }

  /** The state a checkpoint of a syncTo starts from. */
  lemma IdleBase(s: State)
    requires Base(s) && (s.phase.Checked? || s.phase.FsyncErr?)
    ensures Base(s.(phase := Idle))
  {
    assert forall f :: f in s.files ==> FileOk(s.(phase := Idle), f);
  }

  lemma BeginFsyncKeeps(s: State, wanted: nat)
    requires Inv(s) && s.phase == Checked(wanted) && !s.needCheckpoint && s.walFile.Some?
    ensures Inv(BeginFsync(s, wanted))
  {
    var t, f := BeginFsync(s, wanted), Last(s);
    assert f in s.files;
    assert f.recs + [] == f.recs && f.recs[..|f.recs|] == f.recs;
    assert FsyncingOk(t, f);
    forall i | 0 <= i < |s.files|
      ensures FileOk(t, s.files[i]) && FsyncingOk(t, s.files[i])
    {
      assert s.files[i] in s.files && (i < |s.files| - 1 ==> Behind(s.files[i], f));
    }
  }

  lemma SyncBeginKeeps(s: State, wanted: nat, o: CkptOutcome)
    requires Inv(s) && s.phase == Checked(wanted)
    ensures Inv(SyncBegin(s, wanted, o))
  {
    if s.needCheckpoint || s.walFile.None? {
      IdleBase(s);
      SyncByCheckpointKeeps(s.(phase := Idle), wanted, o);
    } else {
      BeginFsyncKeeps(s, wanted);
    }
  }

  lemma FsyncedKeeps(s: State)
    requires Inv(s) && s.phase.Fsynced?
    ensures Inv(s.(synced := Max(s.synced, s.phase.target), phase := Idle))
  {
    var t := s.(synced := Max(s.synced, s.phase.target), phase := Idle);
    assert forall f :: f in s.files ==> FileOk(t, f);
  }

  /** After a failed fsync a syncTo that is done leaves the files as they are. */
  lemma TrustedKeeps(s: State)
    requires Inv(s) && s.phase.FsyncErr?
    requires s.phase.wanted <= s.synced || s.walFile != Some(s.phase.file)
    ensures Inv(s.(phase := Idle, late := s.late || Late(s)))
  {
    var t := s.(phase := Idle, late := s.late || Late(s));
    assert forall f :: f in s.files ==> FileOk(t, f);
    if !s.needCheckpoint {
      assert Last(s) in s.files;
    }
  }

  lemma SyncEndKeeps(s: State, o: CkptOutcome)
    requires Inv(s)
    ensures Inv(SyncEnd(s, o))
  {
    match s.phase
    case Fsynced(target, wanted) =>
      FsyncedKeeps(s);
      PromiseKeeps(s.(synced := Max(s.synced, target), phase := Idle), wanted);
    case FsyncErr(file, wanted) =>
      var t := s.(phase := Idle, late := s.late || Late(s));
      if wanted <= s.synced || s.walFile != Some(file) {
        TrustedKeeps(s);
        PromiseKeeps(t, wanted);
      } else {
        IdleBase(s);
        SyncByCheckpointKeeps(t, wanted, o);
      }
    case _ =>
  }

  lemma AckedKeeps(c: Codec, s: State, count: nat, io: Io)
    requires Faithful(c) && Inv(s)
    ensures Inv(Acked(c, s, count, io))
  {
    var n := if count < |s.pending| then count else |s.pending|;
    if n > 0 {
      DropKeeps(s, n);
      AppendKeeps(c, Drop(s, n), Acks(n), io);
    }
  }

  lemma StepKeeps(c: Codec, s: State, e: Event)
    requires Faithful(c) && Inv(s)
    ensures Inv(Step(c, s, e))
  {
    match e
    case Enqueue(op, io) =>
      PushKeeps(s, op);
      AppendKeeps(c, Push(s, op), [E(op)], io);
    case AckN(count, io) => AckedKeeps(c, s, count, io);
    case RewriteBroken(o) => CheckpointKeeps(s, o);
    case SyncFast(wanted) => PromiseKeeps(s, wanted);
    case SyncStart(wanted) =>
      if s.phase.Idle? && wanted <= s.seqno {
        SyncCheckKeeps(s, wanted);
      }
    case SyncLocked(o) =>
      if s.phase.Checked? {
        SyncBeginKeeps(s, s.phase.wanted, o);
      }
    case FsyncReturn(ok) =>
      if s.phase.Fsyncing? {
        EndFsyncKeeps(s, ok);
      }
    case SyncFinish(o) => SyncEndKeeps(s, o);
  }
}
