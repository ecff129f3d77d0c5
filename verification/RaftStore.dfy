/**
 The Raft file store as a state machine: one call at a time changes memory and
 then its files, step by step, and the process may end or the power fail between
 any two steps. `snaps` and `wals` are the checkpoints and logs a power loss may
 leave at their paths, the last of each being the one there now.
 */
module RaftStore {
  import opened Options
  import opened RaftLog

  /** A log file; `durable` of its records are known to be fsynced. A failed fsync makes later ones prove nothing. */
  datatype WalFile = WalFile(recs: seq<Rec>, durable: nat, poisoned: bool)

  /** Where the call in progress is. */
  datatype Phase =
    | Idle
    | Writing       // its record is being written, any part of it may be there
    | Compacting    // writing the new checkpoint beside the old one
    | SnapRenamed
    | SnapSynced    // the new checkpoint is there to stay
    | WalRenamed    // an empty log has replaced the old one

  datatype State = State(
    lazySync: bool,
    mem: Contents,
    dirty: bool,
    phase: Phase,
    // A call failed: this process does not use the store again.
    failed: bool,
    // A directory fsync failed since the log at its path was put there.
    dirFailed: bool,
    base: Contents,  // what the log in use is replayed over
    snaps: seq<Contents>,
    wals: seq<WalFile>,
    // History since the last start: how many records of the log in use were loaded,
    // what was loaded, the calls that returned, the one in progress.
    loaded: nat,
    origin: Contents,
    returned: seq<Rec>,
    inflight: Option<Rec>)

  /** Which of the file calls of a call fails. */
  datatype FileCall = DirSync | LogSync | Other

  /**
   How the log that a process finds ends: whole, or in a torn record that the load
   cuts off. If the fsync after the cut fails that process ends too, and the next
   one finds a whole log.
   */
  datatype Cut = NotTorn | CutSynced | CutFailed

  datatype Event =
    | Begin(op: Rec)
    | Opened             // the log is open, and its directory fsynced
    | WriteDone          // the record is written; under lazySync an append of logs is done
    | Advance            // the next file call of a compaction
    | Fail(call: FileCall)
    | SyncEvery          // log appends become lazy
    | SyncLoop(ok: bool)
    | PowerLoss(snap: nat, wal: nat, kept: nat, cut: Cut)
    | Killed(kept: nat, cut: Cut)  // the process ends without a power loss, and starts again

  predicate NeedsSync(s: State) {
    s.inflight.Some? && (s.inflight.value.StoreLogs? ==> !s.lazySync)
  }

  function Fsynced(w: WalFile): WalFile {
    if w.poisoned then w else w.(durable := |w.recs|)
  }

  /** The log now at its path, and the checkpoint now at its. */
  function LastWal(s: State): WalFile
    requires s.wals != []
  {
    s.wals[|s.wals| - 1]
  }

  function LastSnap(s: State): Contents
    requires s.snaps != []
  {
    s.snaps[|s.snaps| - 1]
  }

  function SetWal(s: State, w: WalFile): (t: State)
    requires s.wals != []
    ensures t.wals != [] && LastWal(t) == w
  {
    s.(wals := s.wals[..|s.wals| - 1] + [w])
  }

  function Return(s: State): State {
    s.(phase := Idle, returned := s.returned + match s.inflight case Some(op) => [op] case None => [],
       inflight := None)
  }

  function Start(s: State, op: Rec): (t: State)
    requires s.wals != []
    ensures t.wals != []
  {
    var t := s.(mem := Apply(s.mem, op), inflight := Some(op));
    if op.DeleteRange? then t.(phase := Compacting)
    else SetWal(t, LastWal(s).(recs := LastWal(s).recs + [op])).(phase := Writing)
  }

  /**
   The first append of a process has opened the log and fsynced the directory: older
   files are gone for good, unless an fsync of the directory failed before.
   */
  function Settle(s: State, w: WalFile): (t: State)
    requires s.snaps != [] && s.wals != []
    ensures t.wals != [] && LastWal(t) == w && t.snaps != [] && LastSnap(t) == LastSnap(s)
  {
    if s.dirFailed then SetWal(s, w) else s.(snaps := [LastSnap(s)], wals := [w])
  }

  function Wrote(s: State): State
    requires s.wals != [] && s.snaps != []
  {
    if NeedsSync(s) then Return(Settle(s, Fsynced(LastWal(s))).(dirty := false))
    else Return(Settle(s, LastWal(s)).(dirty := true))
  }

  /**
   A file call of the call in progress fails. An append fsyncs the directory, then
   the log; a compaction fsyncs the directory after each of its two renames.
   */
  function Failed(s: State, call: FileCall): (t: State)
    requires s.wals != [] && s.snaps != []
    ensures t.wals != [] && t.snaps != []
  {
    match call
    case DirSync =>
      if s.phase in {Writing, SnapRenamed, WalRenamed} then s.(failed := true, dirFailed := true) else s
    case LogSync =>
      if s.phase == Writing && NeedsSync(s) then Settle(s, LastWal(s).(poisoned := true)).(failed := true) else s
    case Other => if s.phase in {Writing, Compacting, SnapSynced} then s.(failed := true) else s
  }

  /**
   The next file call of a compaction; the old log is not fsynced before. A
   directory fsync that works proves the rename before it, whatever failed earlier.
   */
  function NextCall(s: State): (t: State)
    requires s.wals != []
    ensures t.wals != []
  {
    match s.phase
    case Compacting => s.(phase := SnapRenamed, snaps := s.snaps + [s.mem])
    case SnapRenamed =>
      s.(phase := SnapSynced, snaps := [s.mem], wals := if s.dirFailed then s.wals else [LastWal(s)])
    case SnapSynced => s.(phase := WalRenamed, wals := s.wals + [WalFile([], 0, false)])
    case WalRenamed =>
      Return(s.(wals := [WalFile([], 0, false)], dirFailed := false, base := s.mem, dirty := false, loaded := 0))
    case _ => s
  }

  /** What a power loss leaves: one of the checkpoints, and a prefix of one of the logs. */
  predicate Leaves(s: State, snap: nat, wal: nat, kept: nat) {
    snap < |s.snaps| && wal < |s.wals| && s.wals[wal].durable <= kept <= |s.wals[wal].recs|
  }

  function Image(s: State, snap: nat, wal: nat, kept: nat): Contents
    requires Leaves(s, snap, wal, kept)
  {
    Replay(s.snaps[snap], s.wals[wal].recs[..kept])
  }

  /** A store that has just loaded the last of these files. */
  function Fresh(snaps: seq<Contents>, wals: seq<WalFile>, dirFailed: bool): State
    requires snaps != [] && wals != []
  {
    var base, recs := snaps[|snaps| - 1], wals[|wals| - 1].recs;
    var c := Replay(base, recs);
    State(false, c, false, Idle, false, dirFailed, base, snaps, wals, |recs|, c, [], None)
  }

  /** All that a power loss leaves is on disk, and a torn record may follow it. */
  predicate Lost(s: State, snap: nat, wal: nat, kept: nat, cut: Cut) {
    Leaves(s, snap, wal, kept) && (cut.NotTorn? || kept < |s.wals[wal].recs|)
  }

  function Restart(s: State, snap: nat, wal: nat, kept: nat, cut: Cut): State
    requires Leaves(s, snap, wal, kept)
  {
    Fresh([s.snaps[snap]], [WalFile(s.wals[wal].recs[..kept], kept, cut.CutFailed?)], false)
  }

  /** What the end of the process alone leaves: the newest files, the record being written whole, torn or not at all. */
  predicate Ends(s: State, kept: nat, cut: Cut) {
    && s.snaps != [] && s.wals != []
    && var recs := LastWal(s).recs;
    || (kept == |recs| && cut.NotTorn?)
    || (s.phase == Writing && kept + 1 == |recs|)
  }

  /** The load fsyncs the log only if it cuts a torn record off; a failed fsync stays failed. */
  function Reloaded(w: WalFile, kept: nat, cut: Cut): WalFile
    requires kept <= |w.recs|
  {
    var v := w.(recs := w.recs[..kept], durable := if w.durable < kept then w.durable else kept);
    match cut
    case NotTorn => v
    case CutSynced => Fsynced(v)
    case CutFailed => v.(poisoned := true)
  }

  function Reopen(s: State, kept: nat, cut: Cut): State
    requires Ends(s, kept, cut)
  {
    Fresh(s.snaps, s.wals[..|s.wals| - 1] + [Reloaded(LastWal(s), kept, cut)], s.dirFailed)
  }

  /** One step; an event that cannot happen in `s` leaves it as it is. */
  function Step(s: State, e: Event): State
    requires s.wals != [] && s.snaps != []
  {
    match e
    case Begin(op) => if s.failed || s.phase != Idle then s else Start(s, op)
    case Opened => if s.failed || s.phase != Writing then s else Settle(s, LastWal(s))
    case WriteDone =>
      if s.failed || s.phase != Writing then s else Wrote(s)
    case Advance =>
      if s.failed then s else NextCall(s)
    case Fail(call) => if s.failed then s else Failed(s, call)
    case SyncEvery => if s.failed || s.phase != Idle then s else s.(lazySync := true)
    case SyncLoop(ok) =>
      if s.failed || s.phase != Idle || !s.lazySync || !s.dirty then s
      else if ok then SetWal(s, Fsynced(LastWal(s))).(dirty := false)
      else SetWal(s, LastWal(s).(poisoned := true))
    case PowerLoss(snap, wal, kept, cut) =>
      if Lost(s, snap, wal, kept, cut) then Restart(s, snap, wal, kept, cut) else s
    case Killed(kept, cut) =>
      if Ends(s, kept, cut) then Reopen(s, kept, cut) else s
  }

  // ---- the invariant ----

  /** The store after the calls that returned. */
  function Kept(s: State): Contents {
    Replay(s.origin, s.returned)
  }

  /** The log that the calls in `returned` are in. */
  function InUse(s: State): WalFile
    requires s.wals != []
  {
    if s.phase == WalRenamed && |s.wals| > 1 then s.wals[|s.wals| - 2] else LastWal(s)
  }

  /**
   Unless an fsync failed: what may be lost are log appends and records that were
   loaded without being fsynced, and of a log that is not lazily fsynced only these.
   */
  ghost predicate TailOk(w: WalFile, end: nat, dirty: bool, loaded: nat)
    requires end <= |w.recs|
  {
    && w.durable <= end && loaded <= end
    && (!w.poisoned ==>
          && (forall i :: w.durable <= i < end && loaded <= i ==> w.recs[i].StoreLogs?)
          && (!dirty ==> w.durable == end || end == loaded))
  }

  ghost predicate FilesOk(s: State) {
    s.snaps != [] && s.wals != [] && forall i :: 0 <= i < |s.wals| ==> s.wals[i].durable <= |s.wals[i].recs|
  }

  ghost predicate IdleOk(s: State)
    requires FilesOk(s)
  {
    && s.inflight == None && s.mem == Kept(s) && s.base == LastSnap(s)
    && Replay(s.base, LastWal(s).recs) == Kept(s)
    && TailOk(LastWal(s), |LastWal(s).recs|, s.dirty, s.loaded)
  }

  ghost predicate WritingOk(s: State)
    requires FilesOk(s)
  {
    && s.inflight.Some? && !s.inflight.value.DeleteRange?
    && s.mem == Apply(Kept(s), s.inflight.value) && s.base == LastSnap(s)
    && var recs := LastWal(s).recs;
    && recs != [] && recs[|recs| - 1] == s.inflight.value
    && Replay(s.base, recs[..|recs| - 1]) == Kept(s)
    && TailOk(LastWal(s), |recs| - 1, s.dirty, s.loaded)
  }

  ghost predicate CompactingOk(s: State)
    requires FilesOk(s)
  {
    && s.inflight.Some? && s.inflight.value.DeleteRange?
    && s.mem == Apply(Kept(s), s.inflight.value)
    && (match s.phase
        case Compacting => s.base == LastSnap(s)
        case SnapRenamed => |s.snaps| > 1 && s.snaps[|s.snaps| - 2..] == [s.base, s.mem]
        case SnapSynced => s.snaps == [s.mem]
        case _ => s.snaps == [s.mem] && |s.wals| > 1 && LastWal(s) == WalFile([], 0, false))
    && Replay(s.base, InUse(s).recs) == Kept(s)
    && TailOk(InUse(s), |InUse(s).recs|, s.dirty, s.loaded)
  }

  ghost predicate Inv(s: State) {
    && FilesOk(s) && (s.dirty ==> s.lazySync)
    && match s.phase
       case Idle => IdleOk(s)
       case Writing => WritingOk(s)
       case _ => CompactingOk(s)
  }

  /**
   A store that has just been loaded. If the process before it ended without a power
   loss, older files may still come back, the log need not be fsynced, and fsyncs of
   it and of the directory may have failed.
   */
  ghost predicate Started(s: State) {
    FilesOk(s) && s == Fresh(s.snaps, s.wals, s.dirFailed).(lazySync := s.lazySync)
  }

  /** No file of an earlier process can come back. */
  predicate Alone(s: State) {
    match s.phase
    case SnapRenamed => |s.snaps| == 2 && |s.wals| == 1
    case SnapSynced => |s.wals| == 1
    case WalRenamed => |s.wals| == 2
    case _ => |s.snaps| == 1 && |s.wals| == 1
  }

  /** Nor has an fsync of the log failed, and what was loaded from it is fsynced. */
  predicate Steady(s: State) {
    Alone(s) && s.wals != [] && !InUse(s).poisoned && s.loaded <= InUse(s).durable
  }

  // ---- every step keeps it ----

  lemma StartedInv(s: State)
    requires Started(s)
    ensures Inv(s)
  {
  }

  lemma BeginKeeps(s: State, op: Rec)
    requires Inv(s) && s.phase == Idle
    ensures Inv(Start(s, op))
  {
    var recs := LastWal(s).recs;
    assert (recs + [op])[..|recs|] == recs;
  }

  lemma ReplayLast(c: Contents, recs: seq<Rec>)
    requires recs != []
    ensures Replay(c, recs) == Apply(Replay(c, recs[..|recs| - 1]), recs[|recs| - 1])
  {
  }

  lemma WroteMem(s: State)
    requires FilesOk(s) && WritingOk(s)
    ensures Kept(Wrote(s)) == s.mem && Replay(s.base, LastWal(s).recs) == s.mem
  {
    ReplaySnoc(s.origin, s.returned, s.inflight.value);
    ReplayLast(s.base, LastWal(s).recs);
  }

  lemma WriteDoneKeeps(s: State)
    requires Inv(s) && s.phase == Writing
    ensures Inv(Step(s, WriteDone))
  {
    WroteMem(s);
    if !s.failed {
      WroteKeeps(s);
    }
  }

  lemma TailSynced(w: WalFile, loaded: nat)
    requires w.durable <= |w.recs| && loaded <= |w.recs|
    ensures TailOk(Fsynced(w), |w.recs|, false, loaded)
  {
  }

  lemma TailGrown(w: WalFile, dirty: bool, loaded: nat)
    requires w.recs != [] && w.recs[|w.recs| - 1].StoreLogs? && TailOk(w, |w.recs| - 1, dirty, loaded)
    ensures TailOk(w, |w.recs|, true, loaded)
  {
  }

  lemma WroteTail(s: State)
    requires FilesOk(s) && WritingOk(s) && s.phase == Writing
    ensures var t := Wrote(s); TailOk(LastWal(t), |LastWal(t).recs|, t.dirty, t.loaded)
  {
    if NeedsSync(s) {
      TailSynced(LastWal(s), s.loaded);
    } else {
      TailGrown(LastWal(s), s.dirty, s.loaded);
    }
  }

  lemma WroteLast(s: State)
    requires s.wals != [] && s.snaps != [] && s.inflight.Some?
    ensures var t := Wrote(s);
            && t.wals != [] && t.snaps != [] && LastSnap(t) == LastSnap(s)
            && t == s.(phase := Idle, dirty := !NeedsSync(s), snaps := t.snaps, wals := t.wals, inflight := None,
                       returned := s.returned + [s.inflight.value])
            && LastWal(t) == (if NeedsSync(s) then Fsynced(LastWal(s)) else LastWal(s))
            && (!s.dirFailed ==> |t.snaps| == |t.wals| == 1)
  {
  }

  lemma SyncFailedLast(s: State)
    requires s.wals != [] && s.snaps != [] && s.phase == Writing && NeedsSync(s)
    ensures var t := Failed(s, LogSync);
            && t == s.(failed := true, snaps := t.snaps, wals := t.wals)
            && LastWal(t) == LastWal(s).(poisoned := true)
  {
  }

  lemma WroteIdle(s: State)
    requires FilesOk(s) && WritingOk(s) && s.phase == Writing
    requires Kept(Wrote(s)) == s.mem && Replay(s.base, LastWal(s).recs) == s.mem
    ensures FilesOk(Wrote(s)) && IdleOk(Wrote(s))
  {
    WroteFilesOk(s);
    WroteTail(s);
    WroteLast(s);
  }

  lemma WroteFilesOk(s: State)
    requires FilesOk(s)
    ensures FilesOk(Wrote(s))
  {
    SettleFiles(s, Fsynced(LastWal(s)));
    SettleFiles(s, LastWal(s));
  }

  lemma SettleFiles(s: State, w: WalFile)
    requires FilesOk(s) && w.durable <= |w.recs|
    ensures FilesOk(Settle(s, w))
  {
  }

  lemma WroteKeeps(s: State)
    requires Inv(s) && s.phase == Writing
    requires Kept(Wrote(s)) == s.mem && Replay(s.base, LastWal(s).recs) == s.mem
    ensures Inv(Wrote(s))
  {
    WroteIdle(s);
  }

  lemma SnapKeeps(s: State)
    requires FilesOk(s) && CompactingOk(s) && s.phase == Compacting
    ensures FilesOk(NextCall(s)) && CompactingOk(NextCall(s))
  {
  }

  lemma SnapSyncKeeps(s: State)
    requires FilesOk(s) && CompactingOk(s) && s.phase == SnapRenamed
    ensures FilesOk(NextCall(s)) && CompactingOk(NextCall(s))
  {
  }

  lemma WalKeeps(s: State)
    requires FilesOk(s) && CompactingOk(s) && s.phase == SnapSynced
    ensures FilesOk(NextCall(s)) && CompactingOk(NextCall(s))
  {
    assert InUse(NextCall(s)) == LastWal(s);
  }

  lemma WalSyncKeeps(s: State)
    requires FilesOk(s) && CompactingOk(s) && s.phase == WalRenamed
    ensures FilesOk(NextCall(s)) && IdleOk(NextCall(s))
  {
    ReplaySnoc(s.origin, s.returned, s.inflight.value);
  }

  lemma AdvanceKeeps(s: State)
    requires Inv(s) && s.phase != Idle && s.phase != Writing
    ensures Inv(NextCall(s))
  {
    match s.phase
    case Compacting => SnapKeeps(s);
    case SnapRenamed => SnapSyncKeeps(s);
    case SnapSynced => WalKeeps(s);
    case _ => WalSyncKeeps(s);
  }

  lemma SettleKeeps(s: State, w: WalFile)
    requires Inv(s) && s.phase == Writing
    requires w.recs == LastWal(s).recs && w.durable == LastWal(s).durable && (LastWal(s).poisoned ==> w.poisoned)
    ensures Inv(Settle(s, w))
  {
  }

  lemma FailedKeeps(s: State, call: FileCall)
    requires Inv(s)
    ensures Inv(Failed(s, call))
  {
    if call.LogSync? && s.phase == Writing {
      SettleKeeps(s, LastWal(s).(poisoned := true));
      FlagsKeep(Settle(s, LastWal(s).(poisoned := true)), true, s.dirFailed, s.lazySync);
    } else {
      FlagsKeep(s, true, true, s.lazySync);
      FlagsKeep(s, true, s.dirFailed, s.lazySync);
    }
  }

  lemma RestartStarts(s: State, snap: nat, wal: nat, kept: nat, cut: Cut)
    requires Leaves(s, snap, wal, kept)
    ensures Started(Restart(s, snap, wal, kept, cut))
    ensures !cut.CutFailed? ==> Steady(Restart(s, snap, wal, kept, cut))
  {
    var recs := s.wals[wal].recs[..kept];
    assert recs[..|recs|] == recs;
  }

  lemma ReopenStarts(s: State, kept: nat, cut: Cut)
    requires FilesOk(s) && Ends(s, kept, cut)
    ensures Started(Reopen(s, kept, cut))
  {
  }

  lemma SyncLoopKeeps(s: State, ok: bool)
    requires Inv(s)
    ensures Inv(Step(s, SyncLoop(ok)))
  {
  }

  lemma RestartKeeps(s: State, snap: nat, wal: nat, kept: nat, cut: Cut)
    requires Leaves(s, snap, wal, kept)
    ensures Inv(Restart(s, snap, wal, kept, cut))
  {
    RestartStarts(s, snap, wal, kept, cut);
    StartedInv(Restart(s, snap, wal, kept, cut));
  }

  lemma ReopenKeeps(s: State, kept: nat, cut: Cut)
    requires FilesOk(s) && Ends(s, kept, cut)
    ensures Inv(Reopen(s, kept, cut))
  {
    ReopenStarts(s, kept, cut);
    StartedInv(Reopen(s, kept, cut));
  }

  lemma CallKeeps(s: State, e: Event)
    requires Inv(s) && (e.Begin? || e.Opened? || e.WriteDone? || e.Advance?)
    ensures Inv(Step(s, e))
  {
    match e
    case Begin(op) =>
      if s.phase == Idle {
        BeginKeeps(s, op);
      }
    case Opened =>
      if s.phase == Writing {
        SettleKeeps(s, LastWal(s));
      }
    case WriteDone =>
      if s.phase == Writing {
        WriteDoneKeeps(s);
      }
    case _ =>
      if s.phase != Idle && s.phase != Writing {
        AdvanceKeeps(s);
      }
  }

  lemma FlagsKeep(s: State, failed: bool, dirFailed: bool, lazySync: bool)
    requires Inv(s) && (s.lazySync ==> lazySync)
    ensures Inv(s.(failed := failed, dirFailed := dirFailed, lazySync := lazySync))
  {
    var t := s.(failed := failed, dirFailed := dirFailed, lazySync := lazySync);
    assert InUse(t) == InUse(s) && LastWal(t) == LastWal(s) && LastSnap(t) == LastSnap(s) && Kept(t) == Kept(s);
  }

  lemma StepKeeps(s: State, e: Event)
    requires Inv(s)
    ensures Inv(Step(s, e))
  {
    match e
    case SyncLoop(ok) => SyncLoopKeeps(s, ok);
    case PowerLoss(snap, wal, kept, cut) =>
      if Lost(s, snap, wal, kept, cut) {
        RestartKeeps(s, snap, wal, kept, cut);
      }
    case Killed(kept, cut) =>
      if Ends(s, kept, cut) {
        ReopenKeeps(s, kept, cut);
      }
    case Fail(call) => FailedKeeps(s, call);
    case SyncEvery => FlagsKeep(s, s.failed, s.dirFailed, true);
    case _ => CallKeeps(s, e);
  }
}
