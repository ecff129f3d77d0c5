/** What every run of a peer queue guarantees. */
module PeerSafety {
  import opened Lines
  import opened Options
  import opened PeerLog
  import opened PeerQueue

  /** The events `es` lead through the states `ss`. */
  ghost predicate IsPath(c: Codec, ss: seq<State>, es: seq<Event>) {
    && |ss| == |es| + 1
    && forall i {:trigger es[i]} :: 0 <= i < |es| ==> ss[i].files != [] && ss[i + 1] == Step(c, ss[i], es[i])
  }

  /** They do so from a loaded queue. */
  ghost predicate IsRun(c: Codec, ss: seq<State>, es: seq<Event>) {
    IsPath(c, ss, es) && Loaded(ss[0])
  }

  lemma {:induction false} RunInv(c: Codec, ss: seq<State>, es: seq<Event>, i: nat)
    requires Faithful(c) && IsRun(c, ss, es) && i < |ss|
    ensures Inv(ss[i])
  {
    if i == 0 {
      LoadedInv(ss[0]);
    } else {
      RunInv(c, ss, es, i - 1);
      StepKeeps(c, ss[i - 1], es[i - 1]);
    }
  }

  // ---- crashes ----

  /** An image of file `f` that a crash or a power loss may leave: cut at byte `k`. */
  predicate CutOf(c: Codec, f: LogFile, k: nat) {
    f.durable <= |f.recs| && |Encode(c, f.recs[..f.durable])| <= k <= |Content(c, f)|
  }

  /**
   After any run, whichever file is left and wherever it is cut, a restart
   reads a contiguous slice of the enqueue history that starts no later than
   the first unacked op and holds every op of the file's fsynced part.
   */
  lemma CrashLoadsSlice(c: Codec, ss: seq<State>, es: seq<Event>, i: nat, f: LogFile, k: nat)
    returns (a: nat, b: nat)
    requires Faithful(c) && IsRun(c, ss, es) && i < |ss|
    requires f in ss[i].files && CutOf(c, f, k)
    ensures a <= b <= |ss[i].hist| && a <= ss[i].acked <= |ss[i].hist|
    ensures Load(c, Content(c, f)[..k]) == Some(ss[i].hist[a..b])
    ensures Hi(f, f.durable) <= b
    ensures ss[i].pending == ss[i].hist[ss[i].acked..]
  {
    RunInv(c, ss, es, i);
    a, b := CutLoadsSlice(c, ss[i], f, k);
  }

  lemma CutLoadsSlice(c: Codec, s: State, f: LogFile, k: nat) returns (a: nat, b: nat)
    requires Faithful(c) && FileOk(s, f) && CutOf(c, f, k)
    ensures a <= b <= |s.hist| && a <= s.acked
    ensures Load(c, Content(c, f)[..k]) == Some(s.hist[a..b])
    ensures Hi(f, f.durable) <= b
  {
    var j := LoadCut(c, f.recs, f.torn, f.durable, k);
    a, b := Lo(f, j), Hi(f, j);
    PrefixReplays(s, f, j);
    HiOrder(s, f, f.durable, j);
  }

  lemma PrefixReplays(s: State, f: LogFile, j: nat)
    requires FileOk(s, f) && j <= |f.recs|
    ensures Lo(f, j) <= Hi(f, j) <= |s.hist| && Lo(f, j) <= s.acked
    ensures Replay(f.recs[..j]) == s.hist[Lo(f, j)..Hi(f, j)]
  {
    HiMono(s, f, j);
    ShapePrefix(f.recs, s.hist, f.base, j);
    ShapeReplays(f.recs[..j], s.hist, f.base);
  }

  /**
   Between operations the log replays to exactly the queue unless a checkpoint is
   due; no older file may come back unless the process started with one.
   */
  lemma LogEqualsQueue(c: Codec, ss: seq<State>, es: seq<Event>, i: nat)
    requires Faithful(c) && IsRun(c, ss, es) && i < |ss|
    requires !ss[i].needCheckpoint
    ensures ss[i].files != [] && (|ss[i].files| > 1 ==> ss[i].late)
    ensures Load(c, Content(c, Last(ss[i]))) == Some(ss[i].pending)
  {
    RunInv(c, ss, es, i);
    InStepLoads(c, ss[i]);
  }

  lemma InStepLoads(c: Codec, s: State)
    requires Faithful(c) && FilesOk(s) && QueueOk(s) && InStep(s, []) && !s.needCheckpoint
    ensures Load(c, Content(c, Last(s))) == Some(s.pending)
  {
    var f := Last(s);
    assert f in s.files && FileOk(s, f) && f.recs + [] == f.recs;
    LoadEncoded(c, f.recs, "");
    ShapeReplays(f.recs, s.hist, f.base);
    assert s.hist[s.acked..|s.hist|] == s.pending;
  }

  // ---- across steps and restarts ----

  /** Every file that a power loss may leave has the first `h` ops of the history on disk. */
  ghost predicate OnDisk(s: State, h: nat) {
    h <= |s.hist| && forall f :: f in s.files ==> f.durable <= |f.recs| && h <= Hi(f, f.durable)
  }

  lemma CheckpointOnDisk(s: State, o: CkptOutcome, h: nat)
    requires QueueOk(s) && OnDisk(s, h)
    ensures OnDisk(Checkpoint(s, o), h)
  {
    RewriteOk(s);
  }

  /** More records in the file at the path change nothing about what is on disk. */
  lemma LongerOnDisk(s: State, g: LogFile, h: nat)
    requires s.files != [] && OnDisk(s, h)
    requires var f := Last(s); f.recs <= g.recs && g == f.(recs := g.recs, torn := g.torn)
    ensures OnDisk(SetLast(s, g), h)
  {
    var f := Last(s);
    assert f in s.files;
    assert g.recs[..g.durable] == f.recs[..f.durable];
  }

  lemma AppendOnDisk(c: Codec, s: State, recs: seq<Rec>, io: Io, h: nat)
    requires Faithful(c) && Core(s) && InStep(s, recs) && OnDisk(s, h)
    ensures OnDisk(Append(c, s, recs, io), h)
  {
    if s.needCheckpoint {
      CheckpointOnDisk(s, io.ckpt, h);
    } else if !(s.walFile.None? && io.openFails) {
      OpenKeeps(s, recs);
      match io.failsAfter
      case Some(bytes) =>
        PartialOk(c, Last(s), recs, bytes);
        LongerOnDisk(Open(s), Partial(c, Last(s), recs, bytes), h);
      case None => WholeOnDisk(Open(s), recs, io.ckpt, h);
    }
  }

  lemma WholeOnDisk(s: State, recs: seq<Rec>, o: CkptOutcome, h: nat)
    requires Core(s) && InStep(s, recs) && !s.needCheckpoint && s.walFile == Some(Last(s).id) && OnDisk(s, h)
    ensures OnDisk(Reclaim(AppendWhole(s, recs), o), h)
  {
    LongerOnDisk(s, Last(s).(recs := Last(s).recs + recs), h);
    AppendWholeKeeps(s, recs);
    CheckpointOnDisk(AppendWhole(s, recs), o, h);
  }

  lemma EndFsyncOnDisk(s: State, ok: bool, h: nat)
    requires Inv(s) && s.phase.Fsyncing? && OnDisk(s, h)
    ensures OnDisk(EndFsync(s, ok), h)
  {
    var t := EndFsync(s, ok);
    forall i | 0 <= i < |t.files|
      ensures t.files[i].durable <= |t.files[i].recs| && h <= Hi(t.files[i], t.files[i].durable)
    {
      MarkedFile(s, ok, i);
    }
  }

  lemma StepOnDisk(c: Codec, s: State, e: Event, h: nat)
    requires Faithful(c) && Inv(s) && OnDisk(s, h)
    ensures OnDisk(Step(c, s, e), h)
  {
    match e
    case Enqueue(op, io) =>
      PushKeeps(s, op);
      AppendOnDisk(c, Push(s, op), [E(op)], io, h);
    case AckN(count, io) =>
      var n := if count < |s.pending| then count else |s.pending|;
      if n > 0 {
        DropKeeps(s, n);
        AppendOnDisk(c, Drop(s, n), Acks(n), io, h);
      }
    case FsyncReturn(ok) =>
      if s.phase.Fsyncing? {
        EndFsyncOnDisk(s, ok, h);
      }
    case RewriteBroken(o) => CheckpointOnDisk(s, o, h);
    case _ => SyncOnDisk(c, s, e, h);
  }

  lemma SyncOnDisk(c: Codec, s: State, e: Event, h: nat)
    requires Base(s) && OnDisk(s, h) && (e.SyncFast? || e.SyncStart? || e.SyncLocked? || e.SyncFinish?)
    ensures OnDisk(Step(c, s, e), h)
  {
    match e
    case SyncLocked(o) => CheckpointOnDisk(s.(phase := Idle), o, h);
    case SyncFinish(o) => CheckpointOnDisk(s.(phase := Idle, late := s.late || Late(s)), o, h);
    case _ =>
  }

  /** What is on disk once stays on disk: no step, and no failing file call, takes it away. */
  lemma {:induction false} OnDiskStays(c: Codec, ss: seq<State>, es: seq<Event>, i: nat, j: nat, h: nat)
    requires Faithful(c) && IsRun(c, ss, es) && i <= j < |ss| && OnDisk(ss[i], h)
    ensures OnDisk(ss[j], h)
  {
    if i < j {
      OnDiskStays(c, ss, es, i, j - 1, h);
      RunInv(c, ss, es, j - 1);
      StepOnDisk(c, ss[j - 1], es[j - 1], h);
    }
  }

  /**
   The state after a load of `j` records of `f`. A power loss leaves nothing in
   memory of a failed fsync, and only what is on disk; a process that just ends
   leaves the file at the path and the failure as they were, and the older files
   that may still come back.
   */
  function Restarted(s: State, f: LogFile, j: nat, powerLost: bool): (t: State)
    requires s.files != [] && j <= |f.recs|
    requires Lo(f, j) <= Hi(f, j) <= |s.hist|
    ensures t.files != []
  {
    var hist := s.hist[..Hi(f, j)];
    var files :=
      if powerLost then [f.(recs := f.recs[..j], torn := "", durable := j, fsyncFailed := false)] else s.files;
    State(hist[Lo(f, j)..], j, 0, false, None, 0, Idle, files, s.nextId, hist, |hist|, Lo(f, j), 0, 0, false,
          !powerLost && (f.fsyncFailed || |s.files| > 1))
  }

  /**
   A file left after any run and cut between two records is a log that runs start
   from, and everything above holds of the next run too. A process that ends without
   a power loss loads the file at the path; it starts with one not to be trusted
   only after a failed fsync, or between a rename and the directory's fsync.
   */
  lemma RestartStarts(c: Codec, ss: seq<State>, es: seq<Event>, i: nat, f: LogFile, j: nat, powerLost: bool)
    requires Faithful(c) && IsRun(c, ss, es) && i < |ss|
    requires f in ss[i].files && f.durable <= j <= |f.recs|
    requires !powerLost ==> f == Last(ss[i]) && j == |f.recs| && f.torn == ""
    ensures ss[i].files != [] && Lo(f, j) <= Hi(f, j) <= |ss[i].hist|
    ensures var t := Restarted(ss[i], f, j, powerLost);
            && Loaded(t) && Load(c, Content(c, Last(t))) == Some(t.pending)
            && Content(c, Last(t)) <= Content(c, f) && NoNewline(f.torn)
            && (t.late <==> !powerLost && (f.fsyncFailed || |ss[i].files| > 1))
            && forall h: nat :: (if powerLost then h <= Hi(f, f.durable) else OnDisk(ss[i], h)) ==> OnDisk(t, h)
  {
    RunInv(c, ss, es, i);
    RestartLoads(c, ss[i], f, j, powerLost);
  }

  lemma RestartLoads(c: Codec, s: State, f: LogFile, j: nat, powerLost: bool)
    requires Faithful(c) && QueueOk(s) && FilesOk(s) && f in s.files && f.durable <= j <= |f.recs|
    requires !powerLost ==> f == Last(s) && j == |f.recs| && f.torn == ""
    ensures Lo(f, j) <= Hi(f, j) <= |s.hist| && NoNewline(f.torn)
    ensures var t := Restarted(s, f, j, powerLost);
            && Loaded(t) && Load(c, Content(c, Last(t))) == Some(t.pending)
            && Content(c, Last(t)) <= Content(c, f)
            && forall h: nat :: (if powerLost then h <= Hi(f, f.durable) else OnDisk(s, h)) ==> OnDisk(t, h)
  {
    assert FileOk(s, f);
    HiMono(s, f, j);
    if powerLost {
      PowerLostLoads(s, f, j);
    } else {
      assert f.recs[..j] == f.recs;
      KilledLoads(s);
    }
    LoadedText(c, f, Restarted(s, f, j, powerLost), j);
  }

  lemma LoadedText(c: Codec, f: LogFile, t: State, j: nat)
    requires Faithful(c) && Loaded(t) && j <= |f.recs| && Last(t).recs == f.recs[..j]
    ensures Load(c, Content(c, Last(t))) == Some(t.pending) && Content(c, Last(t)) <= Content(c, f)
  {
    LoadedInv(t);
    InStepLoads(c, t);
    PrefixText(c, f, Last(t), j);
  }

  lemma PrefixText(c: Codec, f: LogFile, g: LogFile, j: nat)
    requires j <= |f.recs| && g.recs == f.recs[..j] && g.torn == ""
    ensures Content(c, g) <= Content(c, f)
  {
    EncodeConcat(c, f.recs[..j], f.recs[j..]);
    assert f.recs[..j] + f.recs[j..] == f.recs;
    assert Encode(c, g.recs) + "" == Encode(c, g.recs);
  }

  lemma PowerLostLoads(s: State, f: LogFile, j: nat)
    requires s.files != [] && FileOk(s, f) && f.durable <= j <= |f.recs| && Lo(f, j) <= Hi(f, j) <= |s.hist|
    ensures var t := Restarted(s, f, j, true);
            Loaded(t) && Last(t).recs == f.recs[..j] && OnDisk(t, Hi(f, j)) && Hi(f, f.durable) <= Hi(f, j)
  {
    var t := Restarted(s, f, j, true);
    var g := Last(t);
    ShapePrefix(f.recs, s.hist, f.base, j);
    ShapeWithin(g.recs, s.hist, f.base, Hi(f, j));
    assert t.hist[t.acked..] == t.pending;
    assert g.recs[..j] == g.recs;
    HiOrder(s, f, f.durable, j);
  }

  lemma KilledLoads(s: State)
    requires QueueOk(s) && FilesOk(s) && Last(s).torn == ""
    ensures var f := Last(s);
            && FileOk(s, f) && Lo(f, |f.recs|) <= Hi(f, |f.recs|) <= |s.hist|
            && var t := Restarted(s, f, |f.recs|, false);
               Loaded(t) && forall h: nat :: OnDisk(s, h) ==> OnDisk(t, h)
  {
    var f := Last(s);
    assert f in s.files && f.recs[..|f.recs|] == f.recs;
    HiMono(s, f, |f.recs|);
    var t := Restarted(s, f, |f.recs|, false);
    forall g | g in s.files
      ensures FileOk(t, g)
    {
      assert FileOk(s, g) && (g == f || Behind(g, f));
      ShapeReplays(g.recs, s.hist, g.base);
      ShapeWithin(g.recs, s.hist, g.base, |t.hist|);
    }
    HiOrder(s, f, f.durable, |f.recs|);
    assert t.hist[t.acked..] == t.pending;
  }

  /** Records show only the part of the history that they hold. */
  lemma {:induction false} ShapeWithin(recs: seq<Rec>, hist: seq<SyncOp>, base: nat, end: nat)
    requires Shape(recs, hist, base) && base + NumE(recs) <= end <= |hist|
    ensures Shape(recs, hist[..end], base)
  {
    if recs != [] {
      ShapeWithin(recs[..|recs| - 1], hist, base, end);
    }
  }

  // ---- group commit ----

  /** Every op numbered 1 to `n` is acked or replayed from whatever a power loss leaves. */
  ghost predicate Survives(s: State, n: nat) {
    n == 0 ||
    forall f, j :: f in s.files && f.durable <= j <= |f.recs| ==> s.loaded + n <= Max(s.acked, Hi(f, j))
  }

  /**
   In every reachable state outside the instant between an fsync and its
   recording, and unless a syncTo went on with the file in use after a failed
   fsync, exactly the ops up to `synced`, or all acked ones, are safe.
   */
  lemma SurvivesExactly(s: State, n: nat)
    requires Inv(s) && !s.phase.Fsynced? && !s.late
    ensures Survives(s, n) <==> n <= s.synced || s.loaded + n <= s.acked
  {
    if n > 0 && (n <= s.synced || s.loaded + n <= s.acked) {
      forall f, j | f in s.files && f.durable <= j <= |f.recs|
        ensures s.loaded + n <= Max(s.acked, Hi(f, j))
      {
        HiOrder(s, f, f.durable, j);
      }
    }
    if n > s.synced && s.loaded + n > s.acked {
      var f := s.files[0];
      assert f in s.files && Hi(f, f.durable) <= s.loaded + s.synced;
      assert FileOk(s, f);
    }
  }

  /** In any state: those that every file has on disk, or all acked ones. */
  lemma SurvivesOnDisk(s: State, n: nat)
    requires Inv(s)
    ensures Survives(s, n) <==> n == 0 || s.loaded + n <= s.acked || OnDisk(s, s.loaded + n)
  {
    if n > 0 && Survives(s, n) && s.loaded + n > s.acked {
      forall f | f in s.files
        ensures f.durable <= |f.recs| && s.loaded + n <= Hi(f, f.durable) <= |s.hist|
      {
        assert FileOk(s, f);
        HiMono(s, f, f.durable);
      }
      assert Last(s) in s.files;
    }
    if OnDisk(s, s.loaded + n) {
      forall f, j | f in s.files && f.durable <= j <= |f.recs|
        ensures s.loaded + n <= Hi(f, j)
      {
        HiOrder(s, f, f.durable, j);
      }
    }
  }

  /** No file in use was fsynced again once an fsync of it failed, unless a syncTo went on with it. */
  lemma NeverFsyncedAgain(c: Codec, ss: seq<State>, es: seq<Event>, i: nat)
    requires Faithful(c) && IsRun(c, ss, es) && i < |ss| && !ss[i].late
    ensures !ss[i].refsynced
  {
    RunInv(c, ss, es, i);
  }

  // ---- the number is tested before the lock is taken ----

  /**
   Between syncTo's test and its lock a checkpoint may put the number on disk in
   a new file. If the fsync of that file then fails, nobody rewrites it: the file
   the next sync would fsync has failed before exactly if that happened.
   */
  lemma LateFinishExact(s: State, o: CkptOutcome)
    requires Inv(s) && s.phase.FsyncErr? && !s.late
    ensures var t := SyncEnd(s, o);
            && t.files != []
            && (t.needCheckpoint || t.walFile.None? || !Last(t).fsyncFailed <==> !Late(s))
            && t.late == Late(s)
  {
    SyncEndKeeps(s, o);
    assert Last(s) in s.files;
  }

  predicate Waits(s: State) {
    s.phase.Fsyncing? || s.phase.FsyncErr?
  }

  /** While syncTo(`wanted`) waits for its fsync of the file still in use, `synced` stays what it was. */
  ghost predicate Held(s: State, wanted: nat, synced: nat) {
    s.phase.Fsynced?
    || (Waits(s) && s.phase.wanted == wanted && (s.walFile == Some(s.phase.file) ==> s.synced == synced))
  }

  lemma CheckpointHeld(s: State, o: CkptOutcome, wanted: nat, synced: nat)
    requires Held(s, wanted, synced) && (Waits(s) ==> s.phase.file < s.nextId)
    ensures Held(Checkpoint(s, o), wanted, synced)
  {
  }

  lemma AppendHeld(c: Codec, s: State, recs: seq<Rec>, io: Io, wanted: nat, synced: nat)
    requires Core(s) && InStep(s, recs) && Held(s, wanted, synced)
    ensures Held(Append(c, s, recs, io), wanted, synced)
  {
    if s.needCheckpoint {
      CheckpointHeld(s, io.ckpt, wanted, synced);
    } else if !(s.walFile.None? && io.openFails) && io.failsAfter.None? {
      CheckpointHeld(AppendWhole(Open(s), recs), io.ckpt, wanted, synced);
    }
  }

  lemma StepHeld(c: Codec, s: State, e: Event, wanted: nat, synced: nat)
    requires Faithful(c) && Inv(s) && Held(s, wanted, synced) && !e.SyncFinish?
    ensures Held(Step(c, s, e), wanted, synced)
  {
    match e
    case Enqueue(op, io) =>
      PushKeeps(s, op);
      AppendHeld(c, Push(s, op), [E(op)], io, wanted, synced);
    case AckN(count, io) =>
      var n := if count < |s.pending| then count else |s.pending|;
      if n > 0 {
        DropKeeps(s, n);
        AppendHeld(c, Drop(s, n), Acks(n), io, wanted, synced);
      }
    case _ => SyncHeld(c, s, e, wanted, synced);
  }

  lemma SyncHeld(c: Codec, s: State, e: Event, wanted: nat, synced: nat)
    requires Base(s) && Held(s, wanted, synced) && !e.Enqueue? && !e.AckN? && !e.SyncFinish?
    ensures Held(Step(c, s, e), wanted, synced)
  {
  }

  /**
   A syncTo that takes the lock at event `i` goes on with a failed file exactly
   if its number was already synced there and the file is still in use.
   */
  lemma {:induction false} LateExactly(c: Codec, ss: seq<State>, es: seq<Event>, i: nat, j: nat)
    requires Faithful(c) && IsRun(c, ss, es) && i < j < |ss|
    requires es[i].SyncLocked? && ss[i].phase.Checked? && ss[i + 1].phase.Fsyncing?
    requires forall k {:trigger es[k]} :: i < k < j ==> !es[k].SyncFinish?
    ensures Held(ss[j], ss[i].phase.wanted, ss[i].synced)
    ensures Late(ss[j]) <==>
            && ss[j].phase.FsyncErr? && ss[i].phase.wanted <= ss[i].synced
            && ss[j].walFile == Some(ss[j].phase.file) && !ss[j].needCheckpoint
  {
    RunInv(c, ss, es, i);
    assert ss[i + 1] == Step(c, ss[i], es[i]);
    if i + 1 < j {
      LateExactly(c, ss, es, i, j - 1);
      RunInv(c, ss, es, j - 1);
      StepHeld(c, ss[j - 1], es[j - 1], ss[i].phase.wanted, ss[i].synced);
    }
  }

  const WORKS := Io(false, None, Rewritten)

  /** One more op, and syncTo for it. */
  function MoreEvents(op: SyncOp, n: nat): seq<Event> {
    [Enqueue(op, WORKS), SyncStart(n), SyncLocked(Rewritten), FsyncReturn(true), SyncFinish(Rewritten)]
  }

  function MoreState(s: State, op: SyncOp, i: nat): State
    requires s.files != []
  {
    var f, n := Last(s).(recs := Last(s).recs + [E(op)]), s.seqno + 1;
    var grown := SetLast(Push(s, op), f).(walFile := Some(f.id), writes := s.writes + 1);
    var again := grown.(refsynced := s.refsynced || f.fsyncFailed, phase := Fsyncing(f.id, n, n, |f.recs|));
    if i == 0 then s
    else if i == 1 then grown
    else if i == 2 then grown.(phase := Checked(n))
    else if i == 3 then again
    else if i == 4 then EndFsync(again, true)
    else EndFsync(again, true).(synced := n, phase := Idle, promised := Max(s.promised, n))
  }

  /** The worker goes on with a file that may not be there, or not whole, after a power loss. */
  ghost predicate GoesOn(s: State) {
    Inv(s) && s.late && s.phase.Idle? && !s.needCheckpoint
  }

  lemma MoreEnqueues(c: Codec, s: State, op: SyncOp)
    requires GoesOn(s) && !Reclaimable(MoreState(s, op, 1))
    ensures Step(c, MoreState(s, op, 0), MoreEvents(op, s.seqno + 1)[0]) == MoreState(s, op, 1)
  {
  }

  lemma MoreSyncs(c: Codec, s: State, op: SyncOp)
    requires GoesOn(s)
    ensures Step(c, MoreState(s, op, 1), MoreEvents(op, s.seqno + 1)[1]) == MoreState(s, op, 2)
    ensures Step(c, MoreState(s, op, 2), MoreEvents(op, s.seqno + 1)[2]) == MoreState(s, op, 3)
  {
    assert Last(MoreState(s, op, 2)) == Last(s).(recs := Last(s).recs + [E(op)]);
  }

  lemma MoreEnds(c: Codec, s: State, op: SyncOp)
    requires GoesOn(s)
    ensures Step(c, MoreState(s, op, 3), MoreEvents(op, s.seqno + 1)[3]) == MoreState(s, op, 4)
    ensures Step(c, MoreState(s, op, 4), MoreEvents(op, s.seqno + 1)[4]) == MoreState(s, op, 5)
  {
  }

  lemma MoreStep(c: Codec, s: State, op: SyncOp, i: nat)
    requires GoesOn(s) && !Reclaimable(MoreState(s, op, 1)) && i < 5
    ensures MoreState(s, op, i).files != []
    ensures Step(c, MoreState(s, op, i), MoreEvents(op, s.seqno + 1)[i]) == MoreState(s, op, i + 1)
  {
    match i
    case 0 => MoreEnqueues(c, s, op);
    case 1 | 2 => MoreSyncs(c, s, op);
    case _ => MoreEnds(c, s, op);
  }

  lemma FailedFileLoses(s: State, op: SyncOp)
    requires GoesOn(s) && Last(s).fsyncFailed
    ensures MoreState(s, op, 5).files != [] && !Survives(MoreState(s, op, 5), s.seqno + 1)
  {
    var t, f := MoreState(s, op, 5), Last(s);
    assert f in s.files && FileOk(s, f);
    var g := t.files[|t.files| - 1];
    assert g in t.files;
    assert g == f.(recs := f.recs + [E(op)]);
    assert g.recs[..f.durable] == f.recs[..f.durable];
    HiMono(s, f, f.durable);
    assert g.durable <= |g.recs| && Hi(g, g.durable) <= |s.hist|;
  }

  lemma OldFileLoses(s: State, op: SyncOp)
    requires GoesOn(s) && |s.files| > 1
    ensures MoreState(s, op, 5).files != [] && !Survives(MoreState(s, op, 5), s.seqno + 1)
  {
    var t, f := MoreState(s, op, 5), s.files[0];
    assert f in s.files && FileOk(s, f) && Behind(f, Last(s));
    HiMono(s, f, f.durable);
    assert t.files[0] == f && f in t.files;
  }

  /**
   From every such state, unless the next append rewrites the log anyway, one more
   op and one more syncTo are enough: it reports an op safe that is not.
   */
  lemma GoingOnBreaksPromise(c: Codec, s: State, op: SyncOp) returns (ss: seq<State>, es: seq<Event>)
    requires GoesOn(s) && !Reclaimable(MoreState(s, op, 1))
    ensures IsPath(c, ss, es) && ss[0] == s && es == MoreEvents(op, s.seqno + 1)
    ensures ss[5] == MoreState(s, op, 5)
    ensures var t := ss[|es|];
            && (Last(s).fsyncFailed ==> t.refsynced)
            && t.promised >= s.seqno + 1 && !Survives(t, s.seqno + 1)
  {
    es := MoreEvents(op, s.seqno + 1);
    ss := seq(6, i requires 0 <= i < 6 => MoreState(s, op, i));
    if Last(s).fsyncFailed {
      FailedFileLoses(s, op);
    } else {
      OldFileLoses(s, op);
    }
    forall i {:trigger es[i]} | 0 <= i < |es|
      ensures ss[i].files != [] && ss[i + 1] == Step(c, ss[i], es[i])
    {
      MoreStep(c, s, op, i);
    }
  }

  lemma PathConcat(c: Codec, ss: seq<State>, es: seq<Event>, ts: seq<State>, fs: seq<Event>,
      us: seq<State>, gs: seq<Event>)
    requires IsPath(c, ss, es) && IsPath(c, ts, fs) && ss[|es|] == ts[0]
    requires us == ss + ts[1..] && gs == es + fs
    ensures IsPath(c, us, gs) && us[0] == ss[0] && us[|gs|] == ts[|fs|]
  {
    forall i {:trigger us[i]} | 0 <= i < |gs|
      ensures us[i].files != [] && us[i + 1] == Step(c, us[i], gs[i])
    {
      if i < |es| {
        assert gs[i] == es[i];
      } else {
        var k := i - |es|;
        assert gs[i] == fs[k] && us[i] == ts[k] && us[i + 1] == ts[k + 1];
      }
    }
  }

  /** The state after a syncTo that went on with the file whose fsync failed. */
  function LateEnd(s: State): State
    requires s.phase.FsyncErr?
  {
    s.(phase := Idle, late := true, promised := Max(s.promised, s.phase.wanted))
  }

  lemma LateEnds(c: Codec, s: State, o: CkptOutcome)
    requires Inv(s) && Late(s)
    ensures LateEnd(s) == Step(c, s, SyncFinish(o)) && GoesOn(LateEnd(s)) && Last(LateEnd(s)).fsyncFailed
  {
    SyncEndKeeps(s, o);
    assert Last(s) in s.files;
  }

  /** So from the state a late finish leaves: the failed file is fsynced again. */
  lemma LateFinishBreaksPromise(c: Codec, s: State, op: SyncOp) returns (ss: seq<State>, es: seq<Event>)
    requires Inv(s) && Late(s) && !Reclaimable(MoreState(LateEnd(s), op, 1))
    ensures IsPath(c, ss, es) && ss[0] == s && es == [SyncFinish(Rewritten)] + MoreEvents(op, s.seqno + 1)
    ensures ss[|es|] == MoreState(LateEnd(s), op, 5)
    ensures var t := ss[|es|]; t.refsynced && t.promised >= s.seqno + 1 && !Survives(t, s.seqno + 1)
  {
    LateEnds(c, s, Rewritten);
    var ts, fs := GoingOnBreaksPromise(c, LateEnd(s), op);
    var us, gs := [s, LateEnd(s)], [SyncFinish(Rewritten)];
    ss, es := us + ts[1..], gs + fs;
    PathConcat(c, us, gs, ts, fs, ss, es);
  }

  /**
   A process killed between a rename and the directory's fsync never repeats that
   fsync when it starts again: its next syncTo reports an op safe that is not.
   */
  lemma KilledRenameBreaksPromise(c: Codec, s: State, op: SyncOp) returns (ss: seq<State>, es: seq<Event>)
    requires Loaded(s) && |s.files| > 1 && !Reclaimable(MoreState(s, op, 1))
    ensures IsRun(c, ss, es) && ss[0] == s && Quiet(ss, es, |es|)
    ensures ss[|es|].promised == 1 && !Survives(ss[|es|], 1)
  {
    LoadedInv(s);
    ss, es := GoingOnBreaksPromise(c, s, op);
  }

  // ---- syncTo keeps its promise ----

  predicate FailsCheckpoint(e: Event) {
    match e
    case Enqueue(_, io) => io.ckpt.NotReplaced? || io.ckpt.DirNotSynced?
    case AckN(_, io) => io.ckpt.NotReplaced? || io.ckpt.DirNotSynced?
    case RewriteBroken(o) => o.NotReplaced? || o.DirNotSynced?
    case _ => false
  }

  /** Up to event `n`, no other caller's checkpoint fails while a syncTo waits for its fsync. */
  ghost predicate Quiet(ss: seq<State>, es: seq<Event>, n: int)
    requires |ss| == |es| + 1
  {
    forall i {:trigger es[i]} :: 0 <= i < n && i < |es| && FailsCheckpoint(es[i]) ==> !Waits(ss[i])
  }

  ghost predicate Honest(s: State) {
    && s.promised <= s.synced
    && match s.phase
       case Fsyncing(file, target, wanted, _) => s.walFile == Some(file) || wanted <= s.synced
       case FsyncErr(file, wanted) => s.walFile == Some(file) || wanted <= s.synced
       case _ => true
  }

  lemma CheckpointHonest(s: State, o: CkptOutcome)
    requires Base(s) && Honest(s)
    requires o.NotReplaced? || o.DirNotSynced? ==> !Waits(s)
    ensures Honest(Checkpoint(s, o))
    ensures o.Rewritten? ==> Checkpoint(s, o).synced == s.seqno
  {
  }

  lemma AppendHonest(c: Codec, s: State, recs: seq<Rec>, io: Io)
    requires Faithful(c) && Core(s) && InStep(s, recs) && Honest(s)
    requires io.ckpt.NotReplaced? || io.ckpt.DirNotSynced? ==> !Waits(s)
    ensures Honest(Append(c, s, recs, io))
  {
    if s.needCheckpoint {
      CheckpointHonest(s, io.ckpt);
    } else if !(s.walFile.None? && io.openFails) {
      OpenKeeps(s, recs);
      if io.failsAfter.None? {
        AppendWholeKeeps(Open(s), recs);
        CheckpointHonest(AppendWhole(Open(s), recs), io.ckpt);
      }
    }
  }

  lemma EnqueueHonest(c: Codec, s: State, op: SyncOp, io: Io)
    requires Faithful(c) && Inv(s) && Honest(s)
    requires io.ckpt.NotReplaced? || io.ckpt.DirNotSynced? ==> !Waits(s)
    ensures Honest(Append(c, Push(s, op), [E(op)], io))
  {
    PushKeeps(s, op);
    AppendHonest(c, Push(s, op), [E(op)], io);
  }

  lemma AckHonest(c: Codec, s: State, n: nat, io: Io)
    requires Faithful(c) && Inv(s) && Honest(s) && n <= |s.pending|
    requires io.ckpt.NotReplaced? || io.ckpt.DirNotSynced? ==> !Waits(s)
    ensures Honest(Append(c, Drop(s, n), Acks(n), io))
  {
    DropKeeps(s, n);
    AppendHonest(c, Drop(s, n), Acks(n), io);
  }

  lemma SyncHonest(s: State, wanted: nat, o: CkptOutcome)
    requires Inv(s) && Honest(s) && s.phase == Checked(wanted)
    ensures Honest(SyncBegin(s, wanted, o))
  {
    if s.needCheckpoint || s.walFile.None? {
      IdleBase(s);
      CheckpointHonest(s.(phase := Idle), o);
    }
  }

  lemma EndHonest(s: State, o: CkptOutcome)
    requires Inv(s) && Honest(s)
    ensures Honest(SyncEnd(s, o))
  {
    if s.phase.FsyncErr? {
      IdleBase(s);
      CheckpointHonest(s.(phase := Idle, late := s.late || Late(s)), o);
    }
  }

  lemma StepHonest(c: Codec, s: State, e: Event)
    requires Faithful(c) && Inv(s) && Honest(s)
    requires FailsCheckpoint(e) ==> !Waits(s)
    ensures Honest(Step(c, s, e))
  {
    match e
    case Enqueue(op, io) => EnqueueHonest(c, s, op, io);
    case AckN(n, io) =>
      var n := if n < |s.pending| then n else |s.pending|;
      if n > 0 {
        AckHonest(c, s, n, io);
      }
    case RewriteBroken(o) => CheckpointHonest(s, o);
    case SyncLocked(o) =>
      if s.phase.Checked? {
        SyncHonest(s, s.phase.wanted, o);
      }
    case SyncFinish(o) => EndHonest(s, o);
    case _ =>
  }

  lemma {:induction false} RunHonest(c: Codec, ss: seq<State>, es: seq<Event>, i: nat)
    requires Faithful(c) && IsRun(c, ss, es) && i < |ss| && Quiet(ss, es, i)
    ensures Inv(ss[i]) && Honest(ss[i])
  {
    RunInv(c, ss, es, i);
    if i > 0 {
      RunHonest(c, ss, es, i - 1);
      StepHonest(c, ss[i - 1], es[i - 1]);
    }
  }

  /** A checkpoint that fails, or is cut off by a power loss, promises nothing. */
  lemma FailurePromisesNothing(c: Codec, s: State, e: Event)
    requires s.files != [] && FailsCheckpoint(e)
    ensures Step(c, s, e).promised == s.promised && Step(c, s, e).synced >= s.synced
  {
    match e
    case Enqueue(op, io) => AppendPromisesNothing(c, Push(s, op), [E(op)], io);
    case AckN(count, io) =>
      var n := if count < |s.pending| then count else |s.pending|;
      AppendPromisesNothing(c, Drop(s, n), Acks(n), io);
    case _ =>
  }

  lemma AppendPromisesNothing(c: Codec, s: State, recs: seq<Rec>, io: Io)
    requires s.files != []
    ensures var t := Append(c, s, recs, io); t.promised == s.promised && t.synced >= s.synced
  {
  }

  /**
   Whatever enqueues, acks, checkpoints and syncs interleave, once syncTo(n)
   has returned nil a power loss, also one inside the last step, loses no
   unacked op numbered up to n.
   */
  lemma SyncKeepsPromise(c: Codec, ss: seq<State>, es: seq<Event>, i: nat)
    requires Faithful(c) && IsRun(c, ss, es) && i < |ss| && Quiet(ss, es, i - 1) && !ss[i].late
    ensures Survives(ss[i], ss[i].promised)
  {
    RunInv(c, ss, es, i);
    if i == 0 || !FailsCheckpoint(es[i - 1]) || !Waits(ss[i - 1]) {
      RunHonest(c, ss, es, i);
    } else {
      RunHonest(c, ss, es, i - 1);
      FailurePromisesNothing(c, ss[i - 1], es[i - 1]);
    }
    CoveredSurvives(ss[i], ss[i].promised);
  }

  lemma CoveredSurvives(s: State, n: nat)
    requires Base(s) && n <= s.synced && !s.late
    ensures Survives(s, n)
  {
    forall f, j | f in s.files && f.durable <= j <= |f.recs|
      ensures n > 0 ==> s.loaded + n <= Hi(f, j)
    {
      HiOrder(s, f, f.durable, j);
    }
  }

  /**
   After a failed fsync, the branch that trusts another caller's checkpoint is
   right exactly when that checkpoint recorded the op, or the op is acked.
   */
  lemma TrustedCheckpointExact(s: State, o: CkptOutcome)
    requires Inv(s) && s.phase.FsyncErr? && s.walFile != Some(s.phase.file) && !s.late
    ensures SyncEnd(s, o).promised >= s.phase.wanted
    ensures Survives(SyncEnd(s, o), s.phase.wanted)
            <==> s.phase.wanted <= s.synced || s.loaded + s.phase.wanted <= s.acked
  {
    SyncEndKeeps(s, o);
    SurvivesExactly(SyncEnd(s, o), s.phase.wanted);
  }

  /** A syncTo whose fsync failed trusts the checkpoint of whoever closed or replaced the file. */
  predicate Trusts(s: State, e: Event) {
    e.SyncFinish? && s.phase.FsyncErr? && s.walFile != Some(s.phase.file) && !s.late
  }

  /** It is right to. */
  predicate Right(s: State)
    requires s.phase.FsyncErr?
  {
    s.phase.wanted <= s.synced || s.loaded + s.phase.wanted <= s.acked
  }

  /** What was promised is synced or acked. */
  ghost predicate Kept(s: State) {
    s.promised <= s.seqno && (!s.late ==> s.promised <= s.synced || s.loaded + s.promised <= s.acked)
  }

  lemma CheckpointKept(s: State, o: CkptOutcome)
    requires Base(s) && Kept(s)
    ensures Kept(Checkpoint(s, o))
  {
  }

  lemma AppendKept(c: Codec, s: State, recs: seq<Rec>, io: Io)
    requires Faithful(c) && Core(s) && InStep(s, recs) && Kept(s)
    ensures Kept(Append(c, s, recs, io))
  {
    if s.needCheckpoint {
      CheckpointKept(s, io.ckpt);
    } else if !(s.walFile.None? && io.openFails) {
      OpenKeeps(s, recs);
      if io.failsAfter.None? {
        AppendWholeKeeps(Open(s), recs);
        CheckpointKept(AppendWhole(Open(s), recs), io.ckpt);
      }
    }
  }

  lemma SyncKept(s: State, e: Event)
    requires Inv(s) && Kept(s)
    requires e.SyncFast? || e.SyncStart? || e.SyncLocked? || e.FsyncReturn?
    ensures forall c :: Kept(Step(c, s, e))
  {
    if e.SyncLocked? && s.phase.Checked? && (s.needCheckpoint || s.walFile.None?) {
      IdleBase(s);
      CheckpointKept(s.(phase := Idle), e.ckpt);
    }
  }

  lemma EndKept(s: State, o: CkptOutcome)
    requires Inv(s) && Kept(s) && (Trusts(s, SyncFinish(o)) ==> Right(s))
    ensures Kept(SyncEnd(s, o))
  {
    if s.phase.FsyncErr? {
      IdleBase(s);
      CheckpointKept(s.(phase := Idle, late := s.late || Late(s)), o);
    }
  }

  lemma StepKept(c: Codec, s: State, e: Event)
    requires Faithful(c) && Inv(s) && Kept(s) && (Trusts(s, e) ==> Right(s))
    ensures Kept(Step(c, s, e))
  {
    match e
    case Enqueue(op, io) =>
      PushKeeps(s, op);
      AppendKept(c, Push(s, op), [E(op)], io);
    case AckN(count, io) =>
      var n := if count < |s.pending| then count else |s.pending|;
      if n > 0 {
        DropKeeps(s, n);
        AppendKept(c, Drop(s, n), Acks(n), io);
      }
    case RewriteBroken(o) => CheckpointKept(s, o);
    case SyncFinish(o) => EndKept(s, o);
    case _ => SyncKept(s, e);
  }

  /** Every such trust is right. */
  ghost predicate TrustsRightly(ss: seq<State>, es: seq<Event>)
    requires |ss| == |es| + 1
  {
    forall i {:trigger es[i]} :: 0 <= i < |es| && Trusts(ss[i], es[i]) ==> Right(ss[i])
  }

  lemma {:induction false} RunKept(c: Codec, ss: seq<State>, es: seq<Event>, i: nat)
    requires Faithful(c) && IsRun(c, ss, es) && TrustsRightly(ss, es) && i < |ss|
    ensures Inv(ss[i]) && Kept(ss[i])
  {
    RunInv(c, ss, es, i);
    if i > 0 {
      RunKept(c, ss, es, i - 1);
      StepKept(c, ss[i - 1], es[i - 1]);
    }
  }

  lemma KeptSurvives(s: State)
    requires Inv(s) && Kept(s) && !s.late
    ensures Survives(s, s.promised)
  {
    if s.promised <= s.synced {
      CoveredSurvives(s, s.promised);
    }
  }

  lemma WrongTrustBreaks(c: Codec, s: State, e: Event)
    requires Inv(s) && Trusts(s, e) && !Right(s)
    ensures var t := Step(c, s, e); !t.late && !Survives(t, t.promised)
  {
    SyncEndKeeps(s, e.ckpt);
    SurvivesExactly(Step(c, s, e), Step(c, s, e).promised);
  }

  /**
   Whatever fails and whatever interleaves: what syncTo promised survives in every
   state of a run in which no file with a failed fsync, or one that may be replaced,
   is in use, exactly if every syncTo that trusted another caller's checkpoint
   found its op synced or acked.
   */
  lemma PromisesExactly(c: Codec, ss: seq<State>, es: seq<Event>)
    requires Faithful(c) && IsRun(c, ss, es)
    ensures (forall i :: 0 <= i < |ss| && !ss[i].late ==> Survives(ss[i], ss[i].promised)) <==> TrustsRightly(ss, es)
  {
    if TrustsRightly(ss, es) {
      forall i | 0 <= i < |ss| && !ss[i].late
        ensures Survives(ss[i], ss[i].promised)
      {
        RunKept(c, ss, es, i);
        KeptSurvives(ss[i]);
      }
    } else {
      var i :| 0 <= i < |es| && Trusts(ss[i], es[i]) && !Right(ss[i]);
      RunInv(c, ss, es, i);
      WrongTrustBreaks(c, ss[i], es[i]);
      assert ss[i + 1] == Step(c, ss[i], es[i]);
    }
  }

  // ---- in every state ----

  /** The number that a syncTo returns nil for at `e`, without a checkpoint of its own. */
  function NilFor(s: State, e: Event): Option<nat> {
    match e
    case SyncFast(wanted) => if wanted <= s.synced then Some(wanted) else None
    case SyncStart(wanted) => if s.phase.Idle? && wanted <= s.seqno && wanted <= s.synced then Some(wanted) else None
    case SyncFinish(_) =>
      (match s.phase
       case Fsynced(_, wanted) => Some(wanted)
       case FsyncErr(file, wanted) => if wanted <= s.synced || s.walFile != Some(file) then Some(wanted) else None
       case _ => None)
    case _ => None
  }

  /** Acked, or on disk in every file that may come back. */
  ghost predicate Lasting(s: State, n: nat) {
    n == 0 || s.loaded + n <= s.acked || OnDisk(s, s.loaded + n)
  }

  /** Going on with a file not to be trusted, a syncTo returns nil only for what lasts. */
  ghost predicate LateNilsLast(ss: seq<State>, es: seq<Event>)
    requires |ss| == |es| + 1
  {
    forall i {:trigger es[i]} :: 0 <= i < |es| && ss[i].late && NilFor(ss[i], es[i]).Some? ==>
      Lasting(ss[i], NilFor(ss[i], es[i]).value)
  }

  lemma AppendAcks(c: Codec, s: State, recs: seq<Rec>, io: Io)
    requires s.files != []
    ensures var t := Append(c, s, recs, io); t.acked == s.acked && t.loaded == s.loaded
  {
  }

  lemma StepAcks(c: Codec, s: State, e: Event)
    requires s.files != []
    ensures Step(c, s, e).acked >= s.acked && Step(c, s, e).loaded == s.loaded
  {
    match e
    case Enqueue(op, io) => AppendAcks(c, Push(s, op), [E(op)], io);
    case AckN(count, io) =>
      var n := if count < |s.pending| then count else |s.pending|;
      AppendAcks(c, Drop(s, n), Acks(n), io);
    case _ =>
  }

  lemma StepSurvives(c: Codec, s: State, e: Event, n: nat)
    requires Faithful(c) && Inv(s) && Survives(s, n)
    ensures Survives(Step(c, s, e), n)
  {
    var t := Step(c, s, e);
    StepKeeps(c, s, e);
    StepAcks(c, s, e);
    SurvivesOnDisk(s, n);
    SurvivesOnDisk(t, n);
    if OnDisk(s, s.loaded + n) {
      StepOnDisk(c, s, e, s.loaded + n);
    }
  }

  lemma NilSteps(c: Codec, s: State, e: Event)
    requires s.files != [] && NilFor(s, e).Some?
    ensures var t := Step(c, s, e);
            && t.promised == Max(s.promised, NilFor(s, e).value)
            && t.files == s.files && t.acked == s.acked && t.loaded == s.loaded
  {
  }

  /** Any other promise is one after a checkpoint. */
  lemma OtherSteps(c: Codec, s: State, e: Event)
    requires s.files != [] && NilFor(s, e).None?
    requires s.phase.Checked? || s.phase.FsyncErr? ==> s.phase.wanted <= s.seqno
    ensures var t := Step(c, s, e); t.promised == s.promised || (t.promised <= Max(s.promised, t.synced) && !t.late)
  {
    match e
    case Enqueue(op, io) => AppendPromisesNothing(c, Push(s, op), [E(op)], io);
    case AckN(count, io) =>
      var n := if count < |s.pending| then count else |s.pending|;
      AppendPromisesNothing(c, Drop(s, n), Acks(n), io);
    case _ =>
  }

  /** What is returned nil for when it should be. */
  lemma NilSurvives(s: State, e: Event)
    requires Inv(s) && NilFor(s, e).Some?
    requires Trusts(s, e) ==> Right(s)
    requires s.late ==> Lasting(s, NilFor(s, e).value)
    ensures Survives(s, NilFor(s, e).value)
  {
    var n := NilFor(s, e).value;
    SurvivesOnDisk(s, n);
    if !s.late && n <= s.synced {
      CoveredSurvives(s, n);
    } else if !s.late && s.phase.Fsynced? {
      TargetSurvives(s);
    }
  }

  lemma TargetSurvives(s: State)
    requires Base(s) && s.phase.Fsynced? && !s.late
    ensures Survives(s, s.phase.wanted)
  {
    forall f, j | f in s.files && f.durable <= j <= |f.recs|
      ensures s.phase.wanted > 0 ==> s.loaded + s.phase.wanted <= Hi(f, j)
    {
      HiOrder(s, f, f.durable, j);
    }
  }

  lemma Fewer(s: State, n: nat, m: nat)
    requires Survives(s, n) && m <= n
    ensures Survives(s, m)
  {
  }

  lemma StepPromised(c: Codec, s: State, e: Event)
    requires Faithful(c) && Inv(s) && Survives(s, s.promised)
    requires Trusts(s, e) ==> Right(s)
    requires s.late && NilFor(s, e).Some? ==> Lasting(s, NilFor(s, e).value)
    ensures var t := Step(c, s, e); Survives(t, t.promised)
  {
    var t := Step(c, s, e);
    StepKeeps(c, s, e);
    StepSurvives(c, s, e, s.promised);
    if NilFor(s, e).Some? {
      NilSurvives(s, e);
      StepSurvives(c, s, e, NilFor(s, e).value);
      NilSteps(c, s, e);
    } else {
      OtherSteps(c, s, e);
      if t.promised != s.promised && t.promised <= t.synced {
        CoveredSurvives(t, t.promised);
      }
    }
  }

  lemma {:induction false} RunPromised(c: Codec, ss: seq<State>, es: seq<Event>, i: nat)
    requires Faithful(c) && IsRun(c, ss, es) && TrustsRightly(ss, es) && LateNilsLast(ss, es) && i < |ss|
    ensures Survives(ss[i], ss[i].promised)
  {
    if i > 0 {
      RunPromised(c, ss, es, i - 1);
      RunInv(c, ss, es, i - 1);
      StepPromised(c, ss[i - 1], es[i - 1]);
    }
  }

  lemma NilLasts(c: Codec, s: State, e: Event)
    requires Inv(s) && NilFor(s, e).Some? && Survives(Step(c, s, e), Step(c, s, e).promised)
    ensures Lasting(s, NilFor(s, e).value)
  {
    var t, n := Step(c, s, e), NilFor(s, e).value;
    NilSteps(c, s, e);
    Fewer(t, t.promised, n);
    SurvivesOnDisk(s, n);
  }

  /**
   In every state of every run, whatever file is gone on with: what syncTo promised
   survives exactly if besides, while it went on with a file not to be trusted, it
   returned nil only for ops that were acked or on disk in every file.
   */
  lemma EveryPromiseExactly(c: Codec, ss: seq<State>, es: seq<Event>)
    requires Faithful(c) && IsRun(c, ss, es)
    ensures (forall i :: 0 <= i < |ss| ==> Survives(ss[i], ss[i].promised))
            <==> TrustsRightly(ss, es) && LateNilsLast(ss, es)
  {
    if TrustsRightly(ss, es) && LateNilsLast(ss, es) {
      forall i | 0 <= i < |ss|
        ensures Survives(ss[i], ss[i].promised)
      {
        RunPromised(c, ss, es, i);
      }
    }
    if forall i :: 0 <= i < |ss| ==> Survives(ss[i], ss[i].promised) {
      PromisesExactly(c, ss, es);
      forall i {:trigger es[i]} | 0 <= i < |es| && ss[i].late && NilFor(ss[i], es[i]).Some?
        ensures Lasting(ss[i], NilFor(ss[i], es[i]).value)
      {
        RunInv(c, ss, es, i);
        assert ss[i + 1] == Step(c, ss[i], es[i]);
        NilLasts(c, ss[i], es[i]);
      }
    }
  }

  function Empty(): State {
    State([], 0, 0, false, Some(0), 0, Idle, [LogFile(0, 0, [], "", 0, false)], 1, [], 0, 0, 0, 0, false, false)
  }

  // A checkpoint that fails while syncTo(1) waits for its fsync.
  function BrokenEvents(op: SyncOp): seq<Event> {
    [Enqueue(op, WORKS), SyncStart(1), SyncLocked(Rewritten), Enqueue(op, Io(false, Some(0), Rewritten)),
     RewriteBroken(NotReplaced), FsyncReturn(false), SyncFinish(Rewritten)]
  }

  function BrokenState(op: SyncOp, i: nat): State {
    var f := LogFile(0, 0, [E(op)], "", 0, i > 5);
    if i == 0 then Empty()
    else
      var s := Empty().(pending := [op], seqno := 1, hist := [op], writes := 1, files := [f]);
      if i == 1 then s
      else if i == 2 then s.(phase := Checked(1))
      else if i == 3 then s.(phase := Fsyncing(0, 1, 1, 1))
      else
        var s := s.(pending := [op, op], seqno := 2, hist := [op, op], needCheckpoint := true);
        if i == 4 then s.(phase := Fsyncing(0, 1, 1, 1))
        else if i == 5 then s.(phase := Fsyncing(0, 1, 1, 1), walFile := None)
        else if i == 6 then s.(phase := FsyncErr(0, 1), walFile := None)
        else s.(walFile := None, promised := 1)
  }

  lemma FirstEnqueued(c: Codec, op: SyncOp)
    ensures BrokenState(op, 1) == WindowState(op, 1) == Step(c, Empty(), Enqueue(op, WORKS))
  {
    assert [] + [E(op)] == [E(op)];
  }

  lemma BrokenEnqueues(c: Codec, op: SyncOp)
    ensures BrokenState(op, 4) == Step(c, BrokenState(op, 3), BrokenEvents(op)[3])
  {
    EnqueueOnFullDisk(c, BrokenState(op, 3), op);
    assert [op] + [op] == [op, op];
  }

  lemma BrokenSync(c: Codec, op: SyncOp)
    ensures BrokenState(op, 2) == Step(c, BrokenState(op, 1), BrokenEvents(op)[1])
    ensures BrokenState(op, 3) == Step(c, BrokenState(op, 2), BrokenEvents(op)[2])
    ensures BrokenState(op, 5) == Step(c, BrokenState(op, 4), BrokenEvents(op)[4])
  {
  }

  lemma BrokenEnd(c: Codec, op: SyncOp)
    ensures BrokenState(op, 6) == Step(c, BrokenState(op, 5), BrokenEvents(op)[5])
    ensures BrokenState(op, 7) == Step(c, BrokenState(op, 6), BrokenEvents(op)[6])
  {
    assert MarkFiles(BrokenState(op, 5).files, 0, 1, false) == BrokenState(op, 6).files;
  }

  lemma BrokenStep(c: Codec, op: SyncOp, i: nat)
    requires i < 7
    ensures BrokenState(op, i).files != []
    ensures BrokenState(op, i + 1) == Step(c, BrokenState(op, i), BrokenEvents(op)[i])
  {
    match i
    case 0 => FirstEnqueued(c, op);
    case 3 => BrokenEnqueues(c, op);
    case 1 | 2 | 4 => BrokenSync(c, op);
    case _ => BrokenEnd(c, op);
  }

  lemma OneFileLoaded(s: State, f: LogFile)
    requires s == Empty() && s.files == [f]
    ensures Loaded(s)
  {
    assert FileOk(s, f);
  }

  lemma BrokenPath(c: Codec, op: SyncOp) returns (ss: seq<State>, es: seq<Event>)
    ensures IsPath(c, ss, es) && ss[0] == BrokenState(op, 0) && es == BrokenEvents(op) && |ss| == 8
    ensures ss[4] == BrokenState(op, 4) && ss[7] == BrokenState(op, 7)
  {
    es := BrokenEvents(op);
    ss := seq(8, i requires 0 <= i < 8 => BrokenState(op, i));
    forall i {:trigger es[i]} | 0 <= i < |es|
      ensures ss[i].files != [] && ss[i + 1] == Step(c, ss[i], es[i])
    {
      BrokenStep(c, op, i);
    }
  }

  lemma BrokenRun(c: Codec, op: SyncOp) returns (ss: seq<State>, es: seq<Event>)
    ensures IsRun(c, ss, es) && es == BrokenEvents(op) && |ss| == 8
    ensures ss[4] == BrokenState(op, 4) && ss[7] == BrokenState(op, 7)
  {
    ss, es := BrokenPath(c, op);
    OneFileLoaded(ss[0], ss[0].files[0]);
  }

  lemma BrokenNotQuiet(ss: seq<State>, es: seq<Event>, op: SyncOp)
    requires |ss| == |es| + 1 && es == BrokenEvents(op) && ss[4] == BrokenState(op, 4)
    ensures !Quiet(ss, es, |es|)
  {
    assert FailsCheckpoint(es[4]) && ss[4].phase.Fsyncing?;
  }

  lemma BrokenLoses(op: SyncOp)
    ensures var t := BrokenState(op, 7); !t.late && t.promised == 1 && !Survives(t, 1)
  {
    var f := BrokenState(op, 7).files[0];
    assert f in BrokenState(op, 7).files && Hi(f, 0) == 0;
  }

  /**
   A checkpoint that fails during the fsync makes syncTo report an op safe
   that is not: the fsync of the closed file fails, the file is no longer
   the worker's, and nobody wrote the op anywhere else.
   */
  lemma FailedCheckpointBreaksPromise(c: Codec, op: SyncOp) returns (ss: seq<State>, es: seq<Event>)
    requires Faithful(c)
    ensures IsRun(c, ss, es) && !Quiet(ss, es, |es|) && !ss[|es|].late
    ensures ss[|es|].promised == 1 && !Survives(ss[|es|], 1)
  {
    ss, es := BrokenRun(c, op);
    BrokenNotQuiet(ss, es, op);
    BrokenLoses(op);
  }

  // A checkpoint between the test of syncTo(1) and its lock.
  function WindowEvents(op: SyncOp): seq<Event> {
    [Enqueue(op, WORKS), Enqueue(op, Io(false, Some(0), Rewritten)), SyncStart(1), RewriteBroken(Rewritten),
     SyncLocked(Rewritten), FsyncReturn(false)]
  }

  function WindowState(op: SyncOp, i: nat): State {
    if i == 0 then Empty()
    else
      var f := LogFile(0, 0, [E(op)], "", 0, false);
      var one := Empty().(pending := [op], seqno := 1, hist := [op], writes := 1, files := [f]);
      var two := one.(pending := [op, op], seqno := 2, hist := [op, op], needCheckpoint := true);
      var g := LogFile(1, 0, [E(op), E(op)], "", 2, i > 5);
      var next := two.(needCheckpoint := false, walFile := Some(1), synced := 2, writes := 2, rewritten := 2,
        files := [g], nextId := 2);
      if i == 1 then one
      else if i == 2 then two
      else if i == 3 then two.(phase := Checked(1))
      else if i == 4 then next.(phase := Checked(1))
      else if i == 5 then next.(phase := Fsyncing(1, 2, 1, 2))
      else next.(phase := FsyncErr(1, 1))
  }

  lemma WindowEnqueues(c: Codec, op: SyncOp)
    ensures WindowState(op, 2) == Step(c, WindowState(op, 1), WindowEvents(op)[1])
    ensures WindowState(op, 3) == Step(c, WindowState(op, 2), WindowEvents(op)[2])
  {
    EnqueueOnFullDisk(c, WindowState(op, 1), op);
    assert [op] + [op] == [op, op];
  }

  lemma WindowSyncs(c: Codec, op: SyncOp)
    ensures WindowState(op, 4) == Step(c, WindowState(op, 3), WindowEvents(op)[3])
    ensures WindowState(op, 5) == Step(c, WindowState(op, 4), WindowEvents(op)[4])
    ensures WindowState(op, 6) == Step(c, WindowState(op, 5), WindowEvents(op)[5])
  {
    assert Queued([op, op]) == [E(op), E(op)];
  }

  lemma WindowStep(c: Codec, op: SyncOp, i: nat)
    requires i < 6
    ensures WindowState(op, i).files != []
    ensures WindowState(op, i + 1) == Step(c, WindowState(op, i), WindowEvents(op)[i])
  {
    match i
    case 0 => FirstEnqueued(c, op);
    case 1 | 2 => WindowEnqueues(c, op);
    case _ => WindowSyncs(c, op);
  }

  lemma WindowPath(c: Codec, op: SyncOp) returns (ss: seq<State>, es: seq<Event>)
    ensures IsPath(c, ss, es) && ss[0] == WindowState(op, 0) && es == WindowEvents(op) && |ss| == 7
    ensures ss[6] == WindowState(op, 6)
  {
    es := WindowEvents(op);
    ss := seq(7, i requires 0 <= i < 7 => WindowState(op, i));
    forall i {:trigger es[i]} | 0 <= i < |es|
      ensures ss[i].files != [] && ss[i + 1] == Step(c, ss[i], es[i])
    {
      WindowStep(c, op, i);
    }
  }

  lemma WindowRun(c: Codec, op: SyncOp) returns (ss: seq<State>, es: seq<Event>)
    ensures IsRun(c, ss, es) && es == WindowEvents(op) && |ss| == 7
    ensures ss[6] == WindowState(op, 6)
  {
    ss, es := WindowPath(c, op);
    OneFileLoaded(ss[0], ss[0].files[0]);
  }

  lemma WindowIsLate(op: SyncOp)
    ensures var s := WindowState(op, 6);
            && s.files != [] && Late(s) && s.seqno == 2
            && !Reclaimable(MoreState(LateEnd(s), op, 1)) && MoreState(LateEnd(s), op, 5).promised == 3
  {
  }

  lemma NoFailingCheckpoint(op: SyncOp, es: seq<Event>)
    requires es == WindowEvents(op) + ([SyncFinish(Rewritten)] + MoreEvents(op, 3))
    ensures forall i {:trigger es[i]} :: 0 <= i < |es| ==> !FailsCheckpoint(es[i])
  {
  }

  /**
   No checkpoint fails, and yet syncTo(3) reports an op safe that is not. While
   syncTo(1) waits for the lock another caller's checkpoint puts ops 1 and 2 in a
   new file; the fsync of that file fails; syncTo(1) is content, as its op is
   synced; and syncTo(3) fsyncs the failed file again.
   */
  lemma LateCheckBreaksPromise(c: Codec, op: SyncOp) returns (ss: seq<State>, es: seq<Event>)
    requires Faithful(c)
    ensures IsRun(c, ss, es) && Quiet(ss, es, |es|) && ss[|es|].refsynced
    ensures ss[|es|].promised == 3 && !Survives(ss[|es|], 3)
  {
    var us, gs := WindowRun(c, op);
    RunInv(c, us, gs, 6);
    WindowIsLate(op);
    var ts, fs := LateFinishBreaksPromise(c, us[6], op);
    ss, es := us + ts[1..], gs + fs;
    PathConcat(c, us, gs, ts, fs, ss, es);
    NoFailingCheckpoint(op, es);
  }

  lemma EnqueueOnFullDisk(c: Codec, s: State, op: SyncOp)
    requires !s.needCheckpoint && s.files != [] && s.walFile == Some(Last(s).id) && Last(s).torn == ""
    ensures Step(c, s, Enqueue(op, Io(false, Some(0), Rewritten))) == Push(s, op).(needCheckpoint := true)
  {
    var f, text := Last(s), Encode(c, [E(op)]);
    assert [E(op)][..0] == [] && text[0..0] == "" && f.recs + [] == f.recs;
    assert Partial(c, f, [E(op)], 0) == f;
    assert s.files[..|s.files| - 1] + [f] == s.files;
  }

  // ---- the cost of checkpoints ----

  /** In every reachable state in step with its file, two dead records per op acked since the checkpoint. */
  lemma DeadRecords(c: Codec, ss: seq<State>, es: seq<Event>, i: nat)
    requires Faithful(c) && IsRun(c, ss, es) && i < |ss|
    requires !ss[i].needCheckpoint
    ensures ss[i].files != [] && Last(ss[i]).base <= ss[i].acked
    ensures ss[i].writes == |ss[i].pending| + 2 * (ss[i].acked - Last(ss[i]).base)
  {
    RunInv(c, ss, es, i);
    InStepDead(ss[i]);
  }

  lemma {:induction false} CountRecords(recs: seq<Rec>)
    ensures NumE(recs) + NumA(recs) == |recs|
  {
    if recs != [] {
      CountRecords(recs[..|recs| - 1]);
    }
  }

  lemma InStepDead(s: State)
    requires FilesOk(s) && QueueOk(s) && InStep(s, []) && !s.needCheckpoint
    ensures Last(s).base <= s.acked
    ensures s.writes == |s.pending| + 2 * (s.acked - Last(s).base)
  {
    assert Last(s).recs + [] == Last(s).recs;
    CountRecords(Last(s).recs);
  }

  /**
   An enqueue or an ack whose file calls work rewrites the log exactly if at least 512
   of its records are dead by then, two for each op acked since the last checkpoint,
   and no fewer than the ops that are left.
   */
  lemma RewritesExactly(c: Codec, ss: seq<State>, es: seq<Event>, i: nat)
    requires Faithful(c) && IsRun(c, ss, es) && i < |es| && !ss[i].needCheckpoint && Succeeds(es[i])
    requires es[i].Enqueue? || (es[i].AckN? && es[i].n > 0 && ss[i].pending != [])
    ensures RewritesAt512(ss[i], ss[i + 1])
  {
    RunInv(c, ss, es, i);
    assert ss[i + 1] == Step(c, ss[i], es[i]);
    match es[i]
    case Enqueue(op, _) => EnqueueRewrites(c, ss[i], op);
    case AckN(count, _) => AckRewrites(c, ss[i], count);
    case _ =>
  }

  ghost predicate RewritesAt512(s: State, t: State) {
    && s.files != [] && t.files != [] && Last(s).base <= t.acked && Last(s).id < s.nextId
    && var dead := 2 * (t.acked - Last(s).base);
       Last(t).id == if dead >= 512 && dead >= |t.pending| then s.nextId else Last(s).id
  }

  lemma EnqueueRewrites(c: Codec, s: State, op: SyncOp)
    requires Faithful(c) && Inv(s) && !s.needCheckpoint
    ensures RewritesAt512(s, Step(c, s, Enqueue(op, Io(false, None, Rewritten))))
  {
    assert Last(s) in s.files && FileOk(s, Last(s));
    PushKeeps(s, op);
    AppendRewrites(c, Push(s, op), [E(op)]);
  }

  lemma AckRewrites(c: Codec, s: State, count: nat)
    requires Faithful(c) && Inv(s) && !s.needCheckpoint && count > 0 && s.pending != []
    ensures RewritesAt512(s, Step(c, s, AckN(count, Io(false, None, Rewritten))))
  {
    var n := if count < |s.pending| then count else |s.pending|;
    assert Last(s) in s.files && FileOk(s, Last(s));
    DropKeeps(s, n);
    AppendRewrites(c, Drop(s, n), Acks(n));
  }

  lemma AppendRewrites(c: Codec, s: State, recs: seq<Rec>)
    requires Core(s) && InStep(s, recs) && !s.needCheckpoint
    ensures Last(s).base <= s.acked
    ensures var t := Append(c, s, recs, Io(false, None, Rewritten));
            var dead := 2 * (s.acked - Last(s).base);
            && t.files != [] && t.acked == s.acked && t.pending == s.pending
            && Last(t).id == if dead >= 512 && dead >= |s.pending| then s.nextId else Last(s).id
  {
    OpenKeeps(s, recs);
    AppendWholeKeeps(Open(s), recs);
    InStepDead(AppendWhole(Open(s), recs));
    ReclaimRewrites(AppendWhole(Open(s), recs));
  }

  lemma ReclaimRewrites(s: State)
    requires s.files != [] && s.writes >= |s.pending|
    ensures var t, dead := Reclaim(s, Rewritten), s.writes - |s.pending|;
            && t.files != [] && t.acked == s.acked && t.pending == s.pending
            && Last(t).id == if dead >= 512 && dead >= |s.pending| then s.nextId else Last(s).id
  {
  }

  /** Every file call succeeds. */
  predicate Succeeds(e: Event) {
    match e
    case Enqueue(_, io) => io == Io(false, None, Rewritten)
    case AckN(_, io) => io == Io(false, None, Rewritten)
    case RewriteBroken(o) => o.Rewritten?
    case SyncFast(_) => true
    case SyncStart(_) => true
    case SyncLocked(o) => o.Rewritten?
    case FsyncReturn(ok) => ok
    case SyncFinish(o) => o.Rewritten?
  }

  ghost predicate Amortized(s: State)
    requires s.files != []
  {
    && !s.needCheckpoint && !s.late && s.walFile.Some? && !s.phase.FsyncErr?
    && s.rewritten <= 2 * Last(s).base
    && s.writes < |s.pending| + Max(CHECKPOINT_EVERY, |s.pending|)
  }

  lemma AppendAmortized(c: Codec, s: State, recs: seq<Rec>)
    requires Core(s) && InStep(s, recs) && !s.needCheckpoint && !s.late && s.walFile.Some?
    requires s.rewritten <= 2 * Last(s).base
    ensures var t := Append(c, s, recs, Io(false, None, Rewritten));
            !t.needCheckpoint && !t.late && t.walFile.Some? && t.phase == s.phase
            && t.rewritten <= 2 * Last(t).base
            && t.writes < |t.pending| + Max(CHECKPOINT_EVERY, |t.pending|)
  {
    OpenKeeps(s, recs);
    AppendWholeKeeps(Open(s), recs);
    InStepDead(AppendWhole(Open(s), recs));
    ReclaimAmortized(AppendWhole(Open(s), recs));
  }

  lemma ReclaimAmortized(s: State)
    requires s.files != [] && !s.needCheckpoint && !s.late && s.walFile.Some?
    requires s.rewritten <= 2 * Last(s).base <= 2 * s.acked
    requires s.writes == |s.pending| + 2 * (s.acked - Last(s).base)
    ensures var t := Reclaim(s, Rewritten);
            && t.files != [] && !t.needCheckpoint && !t.late && t.walFile.Some? && t.phase == s.phase
            && t.rewritten <= 2 * Last(t).base
            && t.writes < |t.pending| + Max(CHECKPOINT_EVERY, |t.pending|)
  {
  }

  lemma StepAmortized(c: Codec, s: State, e: Event)
    requires Faithful(c) && Inv(s) && Amortized(s) && Succeeds(e)
    ensures Amortized(Step(c, s, e))
  {
    match e
    case Enqueue(op, io) =>
      PushKeeps(s, op);
      AppendAmortized(c, Push(s, op), [E(op)]);
    case AckN(n, io) =>
      var n := if n < |s.pending| then n else |s.pending|;
      if n > 0 {
        DropKeeps(s, n);
        AppendAmortized(c, Drop(s, n), Acks(n));
      }
    case _ => SyncAmortized(c, s, e);
  }

  lemma SyncAmortized(c: Codec, s: State, e: Event)
    requires Base(s) && Amortized(s) && Succeeds(e) && !e.Enqueue? && !e.AckN?
    ensures Amortized(Step(c, s, e))
  {
  }

  /** From an open and empty log that is trusted, and with no failing file call. */
  ghost predicate Smooth(ss: seq<State>, es: seq<Event>) {
    && ss != [] && ss[0].writes == 0 && ss[0].hist == [] && ss[0].walFile.Some? && !ss[0].late
    && forall e :: e in es ==> Succeeds(e)
  }

  lemma {:induction false} RunAmortized(c: Codec, ss: seq<State>, es: seq<Event>, i: nat)
    requires Faithful(c) && IsRun(c, ss, es) && i < |ss| && Smooth(ss, es)
    ensures Inv(ss[i]) && Amortized(ss[i])
  {
    RunInv(c, ss, es, i);
    if i > 0 {
      RunAmortized(c, ss, es, i - 1);
      assert es[i - 1] in es;
      StepAmortized(c, ss[i - 1], es[i - 1]);
    }
  }

  /**
   From an empty log and with no failing file call, checkpoints rewrite at most
   two records per op acked over the whole run, and the file never holds more
   than the queue and as much again (or 512 records, if that is more).
   */
  lemma CheckpointsAreAmortized(c: Codec, ss: seq<State>, es: seq<Event>, i: nat)
    requires Faithful(c) && IsRun(c, ss, es) && i < |ss| && Smooth(ss, es)
    ensures ss[i].rewritten <= 2 * ss[i].acked
    ensures |ss[i].files| == 1 && |ss[i].files[0].recs| == ss[i].writes
    ensures ss[i].writes < |ss[i].pending| + Max(512, |ss[i].pending|)
  {
    RunAmortized(c, ss, es, i);
    InStepDead(ss[i]);
  }
}
