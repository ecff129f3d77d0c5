/** What every run of the Raft file store guarantees, wherever the power fails. */
module RaftSafety {
  import opened Options
  import opened RaftLog
  import opened RaftStore

  /** `ss` are the states that the events `es` lead through from a loaded store. */
  ghost predicate IsRun(ss: seq<State>, es: seq<Event>) {
    && |ss| == |es| + 1
    && Started(ss[0])
    && forall i {:trigger es[i]} :: 0 <= i < |es| ==> Next(ss[i], es[i], ss[i + 1])
  }

  ghost predicate Next(s: State, e: Event, t: State) {
    s.wals != [] && s.snaps != [] && t == Step(s, e)
  }

  lemma {:induction false} RunInv(ss: seq<State>, es: seq<Event>, i: nat)
    requires IsRun(ss, es) && i < |ss|
    ensures Inv(ss[i])
  {
    if i == 0 {
      StartedInv(ss[0]);
    } else {
      RunInv(ss, es, i - 1);
      StepKeeps(ss[i - 1], es[i - 1]);
    }
  }

  // ---- the bytes of the files ----

  /**
   Whatever byte a power loss cuts the log at, after what was fsynced, the
   restart loads one of the machine's images, over the checkpoint that is
   left, and what it leaves of the log is the text of the records it loaded. It
   cuts something off only if a record may be torn there.
   */
  lemma CutIsImage(c: Codec, s: State, snap: nat, wal: nat, k: nat) returns (kept: nat)
    requires Faithful(c) && snap < |s.snaps| && wal < |s.wals|
    requires var w := s.wals[wal];
             w.durable <= |w.recs| && |Encode(c, w.recs[..w.durable])| <= k <= |Encode(c, w.recs)|
    ensures Leaves(s, snap, wal, kept)
    ensures Load(c, s.snaps[snap], Encode(c, s.wals[wal].recs)[..k]) == Some(Image(s, snap, wal, kept))
    ensures var image := Encode(c, s.wals[wal].recs)[..k];
            forall cut: Cut :: (cut.NotTorn? <==> image == Repaired(c, image)) ==>
              && Lost(s, snap, wal, kept, cut)
              && Repaired(c, image) == Encode(c, LastWal(Restart(s, snap, wal, kept, cut)).recs)
  {
    var recs := s.wals[wal].recs;
    kept := LoadCut(c, s.snaps[snap], recs, s.wals[wal].durable, k);
    if kept == |recs| {
      assert recs[..kept] == recs && Encode(c, recs)[..k] == Encode(c, recs);
    }
  }

  // ---- term and vote ----

  /** A prefix of a log that lost only log appends touches every key as the whole log does. */
  lemma KeysInPrefix(recs: seq<Rec>, j: nat, end: nat, x: Slot)
    requires j <= end <= |recs| && !x.LogAt?
    requires forall i :: j <= i < end ==> recs[i].StoreLogs?
    ensures LastTouch(recs[..j], x) == LastTouch(recs[..end], x)
  {
    var lost := recs[j..end];
    Untouched(lost, x);
    assert recs[..end] == recs[..j] + lost;
    LastTouchConcat(recs[..j], lost, x);
  }

  lemma PrefixKeys(s: State, c: Contents, w: WalFile, j: nat, end: nat, x: Slot)
    requires w.durable <= j <= end <= |w.recs| && !x.LogAt?
    requires TailOk(w, end, s.dirty, s.loaded) && !w.poisoned && s.loaded <= w.durable
    requires Replay(s.base, w.recs[..end]) == Kept(s)
    requires c == s.base || At(c, x) == At(Kept(s), x)
    ensures At(Replay(c, w.recs[..j]), x) == At(Kept(s), x)
  {
    var recs := w.recs;
    KeysInPrefix(recs, j, end, x);
    ReplayAt(c, recs[..j], x);
    ReplayAt(s.base, recs[..end], x);
  }

  /** During a compaction: one of two checkpoints with the log, or the new one with an empty log. */
  lemma CompactingImages(s: State, snap: nat, wal: nat, kept: nat)
    requires FilesOk(s) && CompactingOk(s) && Alone(s) && Leaves(s, snap, wal, kept)
    requires s.phase != Idle && s.phase != Writing
    ensures s.snaps[snap] == s.base || s.snaps[snap] == s.mem
    ensures if wal == 0 then s.wals[wal] == InUse(s) else s.snaps[snap] == s.mem && s.wals[wal].recs[..kept] == []
  {
  }

  lemma LogKeys(s: State, c: Contents, kept: nat, x: Slot)
    requires FilesOk(s) && CompactingOk(s) && !x.LogAt? && Steady(s)
    requires InUse(s).durable <= kept <= |InUse(s).recs|
    requires c == s.base || c == s.mem
    ensures At(Replay(c, InUse(s).recs[..kept]), x) == At(Kept(s), x)
  {
    var recs := InUse(s).recs;
    assert recs[..|recs|] == recs;
    ApplyAt(Kept(s), s.inflight.value, x);
    PrefixKeys(s, c, InUse(s), kept, |recs|, x);
  }

  lemma CompactingKeys(s: State, snap: nat, wal: nat, kept: nat, x: Slot)
    requires FilesOk(s) && CompactingOk(s) && Leaves(s, snap, wal, kept) && !x.LogAt? && Steady(s)
    requires s.phase != Idle && s.phase != Writing
    ensures At(Image(s, snap, wal, kept), x) == At(Kept(s), x)
  {
    CompactingImages(s, snap, wal, kept);
    if wal == 0 {
      LogKeys(s, s.snaps[snap], kept, x);
    } else {
      ApplyAt(Kept(s), s.inflight.value, x);
    }
  }

  lemma ImageKeys(s: State, snap: nat, wal: nat, kept: nat, x: Slot)
    requires Inv(s) && Leaves(s, snap, wal, kept) && !x.LogAt? && Steady(s)
    ensures At(Image(s, snap, wal, kept), x) == At(Kept(s), x)
            || (s.phase == Writing && Image(s, snap, wal, kept) == s.mem)
  {
    var recs := InUse(s).recs;
    assert recs[..|recs|] == recs;
    if s.phase == Writing && kept == |recs| {
      WroteMem(s);
    } else if s.phase == Idle || s.phase == Writing {
      PrefixKeys(s, s.base, InUse(s), kept, if s.phase == Idle then |recs| else |recs| - 1, x);
    } else {
      CompactingKeys(s, snap, wal, kept, x);
    }
  }

  /**
   In both fsync modes, wherever the power fails, in whatever step of whatever
   call: a key reads as the last set of it that returned left it, or as the one in
   progress does, never as an older one. That is unless an fsync of the log in use
   has failed, or the process before ended without a power loss and what it left is
   not fsynced yet.
   */
  lemma KeysNeverRegress(ss: seq<State>, es: seq<Event>, i: nat, snap: nat, wal: nat, kept: nat, x: Slot)
    requires IsRun(ss, es) && i < |ss|
    requires Leaves(ss[i], snap, wal, kept) && !x.LogAt? && Steady(ss[i])
    ensures var s, item := ss[i], At(Image(ss[i], snap, wal, kept), x);
            || item == (match LastTouch(s.returned, x) case Some(v) => v case None => At(s.origin, x))
            || (s.inflight.Some? && Touch(s.inflight.value, x) == Some(item))
  {
    var s := ss[i];
    RunInv(ss, es, i);
    ImageKeys(s, snap, wal, kept, x);
    ReplayAt(s.origin, s.returned, x);
    if s.phase == Writing {
      ApplyAt(Kept(s), s.inflight.value, x);
    }
  }

  // ---- values that no power loss takes back ----

  /** Memory and everything a power loss may leave have `v` at `x`. */
  ghost predicate Firm(s: State, x: Slot, v: Option<Item>) {
    && At(s.mem, x) == v
    && forall snap: nat, wal: nat, kept: nat :: Leaves(s, snap, wal, kept) ==> At(Image(s, snap, wal, kept), x) == v
  }

  /** Over `c`, already the fsynced part of the log gives `v`, and no record after it another value. */
  ghost predicate AlreadyThere(c: Contents, w: WalFile, x: Slot, v: Option<Item>)
    requires w.durable <= |w.recs|
  {
    && At(Replay(c, w.recs[..w.durable]), x) == v
    && forall k :: w.durable <= k < |w.recs| ==> Touch(w.recs[k], x) in {None, Some(v)}
  }

  lemma ReplayNext(c: Contents, recs: seq<Rec>, k: nat, x: Slot)
    requires k < |recs|
    ensures At(Replay(c, recs[..k + 1]), x) ==
            match Touch(recs[k], x) case Some(v) => v case None => At(Replay(c, recs[..k]), x)
  {
    assert recs[..k + 1] == recs[..k] + [recs[k]];
    ReplaySnoc(c, recs[..k], recs[k]);
    ApplyAt(Replay(c, recs[..k]), recs[k], x);
  }

  lemma {:induction false} PrefixThere(c: Contents, w: WalFile, x: Slot, v: Option<Item>, kept: nat)
    requires w.durable <= kept <= |w.recs| && AlreadyThere(c, w, x, v)
    ensures At(Replay(c, w.recs[..kept]), x) == v
  {
    if w.durable < kept {
      PrefixThere(c, w, x, v, kept - 1);
      ReplayNext(c, w.recs, kept - 1, x);
    }
  }

  lemma PrefixesThere(c: Contents, w: WalFile, x: Slot, v: Option<Item>)
    requires w.durable <= |w.recs|
    requires forall kept: nat {:trigger w.recs[..kept]} :: w.durable <= kept <= |w.recs| ==>
               At(Replay(c, w.recs[..kept]), x) == v
    ensures AlreadyThere(c, w, x, v)
  {
    forall k: nat | w.durable <= k < |w.recs|
      ensures Touch(w.recs[k], x) in {None, Some(v)}
    {
      ReplayNext(c, w.recs, k, x);
      assert At(Replay(c, w.recs[..k + 1]), x) == v;
    }
  }

  lemma FirmThere(s: State, x: Slot, v: Option<Item>, snap: nat, wal: nat)
    requires FilesOk(s) && Firm(s, x, v) && snap < |s.snaps| && wal < |s.wals|
    ensures AlreadyThere(s.snaps[snap], s.wals[wal], x, v)
  {
    var w := s.wals[wal];
    forall kept: nat {:trigger w.recs[..kept]} | w.durable <= kept <= |w.recs|
      ensures At(Replay(s.snaps[snap], w.recs[..kept]), x) == v
    {
      assert Leaves(s, snap, wal, kept);
    }
    PrefixesThere(s.snaps[snap], w, x, v);
  }

  /** So it is for each log that may come back, over each such checkpoint. */
  ghost predicate AllThere(s: State, x: Slot, v: Option<Item>)
    requires FilesOk(s)
  {
    forall snap, wal {:trigger s.snaps[snap], s.wals[wal]} ::
      0 <= snap < |s.snaps| && 0 <= wal < |s.wals| ==> AlreadyThere(s.snaps[snap], s.wals[wal], x, v)
  }

  /**
   In every state of every run, whatever fsyncs failed and whatever files may come
   back: a value is firm exactly if memory has it, and of each log over each
   checkpoint the fsynced part already gives it and no record after that another.
   */
  lemma FirmExactly(s: State, x: Slot, v: Option<Item>)
    requires Inv(s)
    ensures Firm(s, x, v) <==> At(s.mem, x) == v && AllThere(s, x, v)
  {
    if Firm(s, x, v) {
      forall snap, wal {:trigger s.snaps[snap], s.wals[wal]} | 0 <= snap < |s.snaps| && 0 <= wal < |s.wals|
        ensures AlreadyThere(s.snaps[snap], s.wals[wal], x, v)
      {
        FirmThere(s, x, v, snap, wal);
      }
    }
    if AllThere(s, x, v) {
      forall snap: nat, wal: nat, kept: nat | Leaves(s, snap, wal, kept)
        ensures At(Image(s, snap, wal, kept), x) == v
      {
        PrefixThere(s.snaps[snap], s.wals[wal], x, v, kept);
      }
    }
  }

  /**
   Between calls of a steady store that is every key, and every entry too once
   nothing waits for its fsync.
   */
  lemma FirmWhenReturned(s: State, x: Slot)
    requires Inv(s) && s.phase == Idle && Steady(s) && (!x.LogAt? || !s.dirty)
    ensures Firm(s, x, At(s.mem, x))
  {
    var w := s.wals[0];
    assert w.recs[..|w.recs|] == w.recs;
    forall snap: nat, wal: nat, kept: nat | Leaves(s, snap, wal, kept)
      ensures At(Image(s, snap, wal, kept), x) == At(s.mem, x)
    {
      if !x.LogAt? {
        ImageKeys(s, snap, wal, kept, x);
      }
    }
  }

  /** The files that may still come back once the append has opened the log. */
  predicate MayReturn(s: State, snap: nat, wal: nat) {
    && snap < |s.snaps| && wal < |s.wals|
    && (!s.dirFailed ==> snap + 1 == |s.snaps| && wal + 1 == |s.wals|)
  }

  /** The log is the one written to, and none of its fsyncs failed. */
  predicate InGoodLog(s: State, wal: nat) {
    wal + 1 == |s.wals| && !s.wals[wal].poisoned
  }

  /** An fsync that counts has the record of the call. */
  lemma SyncedThere(c: Contents, w: WalFile, op: Rec, x: Slot, v: Option<Item>)
    requires w.recs != [] && w.recs[|w.recs| - 1] == op && Touch(op, x) == Some(v) && !w.poisoned
    ensures AlreadyThere(c, Fsynced(w), x, v)
  {
    assert w.recs[..|w.recs|] == w.recs;
    ReplayLast(c, w.recs);
    ApplyAt(Replay(c, w.recs[..|w.recs| - 1]), op, x);
  }

  lemma WroteThere(s: State, x: Slot, v: Option<Item>, snap: nat, wal: nat)
    requires FilesOk(s) && WritingOk(s) && NeedsSync(s) && Touch(s.inflight.value, x) == Some(v)
    requires snap < |s.snaps| && wal < |s.wals|
    ensures var w := if wal + 1 == |s.wals| then Fsynced(s.wals[wal]) else s.wals[wal];
            && w.durable <= |w.recs|
            && (AlreadyThere(s.snaps[snap], w, x, v)
                <==> InGoodLog(s, wal) || AlreadyThere(s.snaps[snap], s.wals[wal], x, v))
  {
    if InGoodLog(s, wal) {
      SyncedThere(s.snaps[snap], s.wals[wal], s.inflight.value, x, v);
    }
  }

  /** The file of the call, and each that may still come back, has the value for good. */
  ghost predicate SetHolds(s: State, x: Slot, v: Option<Item>)
    requires FilesOk(s)
  {
    forall snap, wal {:trigger s.snaps[snap], s.wals[wal]} ::
      0 <= snap < |s.snaps| && 0 <= wal < |s.wals| && MayReturn(s, snap, wal) ==>
        InGoodLog(s, wal) || AlreadyThere(s.snaps[snap], s.wals[wal], x, v)
  }

  lemma SetAmongAll(s: State, t: State, x: Slot, v: Option<Item>)
    requires FilesOk(s) && WritingOk(s) && NeedsSync(s) && Touch(s.inflight.value, x) == Some(v) && s.dirFailed
    requires FilesOk(t) && t.snaps == s.snaps && t.wals == s.wals[..|s.wals| - 1] + [Fsynced(LastWal(s))]
    ensures AllThere(t, x, v) <==> SetHolds(s, x, v)
  {
    AllWroteThere(s, t.wals, x, v);
  }

  lemma AllWroteThere(s: State, wals: seq<WalFile>, x: Slot, v: Option<Item>)
    requires FilesOk(s) && WritingOk(s) && NeedsSync(s) && Touch(s.inflight.value, x) == Some(v)
    requires wals == s.wals[..|s.wals| - 1] + [Fsynced(LastWal(s))]
    ensures forall snap, wal {:trigger s.snaps[snap], s.wals[wal]} {:trigger s.snaps[snap], wals[wal]} ::
              0 <= snap < |s.snaps| && 0 <= wal < |s.wals| ==>
              && wals[wal].durable <= |wals[wal].recs|
              && (AlreadyThere(s.snaps[snap], wals[wal], x, v)
                  <==> InGoodLog(s, wal) || AlreadyThere(s.snaps[snap], s.wals[wal], x, v))
  {
    forall snap, wal {:trigger s.snaps[snap], wals[wal]} | 0 <= snap < |s.snaps| && 0 <= wal < |s.wals|
      ensures wals[wal].durable <= |wals[wal].recs|
      ensures AlreadyThere(s.snaps[snap], wals[wal], x, v)
              <==> InGoodLog(s, wal) || AlreadyThere(s.snaps[snap], s.wals[wal], x, v)
    {
      WroteThere(s, x, v, snap, wal);
    }
  }

  lemma SetAlone(s: State, t: State, x: Slot, v: Option<Item>)
    requires FilesOk(s) && WritingOk(s) && NeedsSync(s) && Touch(s.inflight.value, x) == Some(v) && !s.dirFailed
    requires FilesOk(t) && t.snaps == [LastSnap(s)] && t.wals == [Fsynced(LastWal(s))]
    ensures AllThere(t, x, v) <==> SetHolds(s, x, v)
  {
    var snap, wal := |s.snaps| - 1, |s.wals| - 1;
    WroteThere(s, x, v, snap, wal);
    assert s.snaps[snap] == t.snaps[0] && Fsynced(s.wals[wal]) == t.wals[0];
    assert MayReturn(s, snap, wal);
  }

  /**
   When a set of a term or a vote returns, it is on disk exactly if each log that
   may still come back, over each such checkpoint, is the one it was written to and
   no fsync of that has failed, or its fsynced part already gave that value and no
   record after it another.
   */
  lemma SetIsFirmExactly(s: State, x: Slot, v: Option<Item>)
    requires Inv(s) && s.phase == Writing && !s.failed
    requires !s.inflight.value.StoreLogs? && Touch(s.inflight.value, x) == Some(v)
    ensures Firm(Step(s, WriteDone), x, v) <==> SetHolds(s, x, v)
  {
    ApplyAt(Kept(s), s.inflight.value, x);
    WriteDoneKeeps(s);
    FirmExactly(Wrote(s), x, v);
    SetThere(s, x, v);
  }

  lemma SetThere(s: State, x: Slot, v: Option<Item>)
    requires FilesOk(s) && WritingOk(s) && NeedsSync(s) && Touch(s.inflight.value, x) == Some(v)
    ensures FilesOk(Wrote(s)) && (AllThere(Wrote(s), x, v) <==> SetHolds(s, x, v))
  {
    WroteFilesOk(s);
    if s.dirFailed {
      SetAmongAll(s, Wrote(s), x, v);
    } else {
      SetAlone(s, Wrote(s), x, v);
    }
  }

  /** A turn of the background loop that works makes every append that returned firm, if the store is steady. */
  lemma LoopIsFirm(s: State, x: Slot)
    requires Inv(s) && s.phase == Idle && !s.failed && Steady(s)
    ensures Firm(Step(s, SyncLoop(true)), x, At(s.mem, x))
  {
    var t := Step(s, SyncLoop(true));
    SyncLoopKeeps(s, true);
    assert LastWal(t).recs == LastWal(s).recs && !t.dirty;
    FirmWhenReturned(t, x);
  }

  /** After a power loss the store that is loaded fsyncs each append, entries too, until SyncEvery is called. */
  lemma LoadedSyncs(s: State, e: Event, op: Rec, x: Slot, v: Option<Item>)
    requires Inv(s) && e.PowerLoss? && Lost(s, e.snap, e.wal, e.kept, e.cut) && !e.cut.CutFailed?
    requires !op.DeleteRange? && Touch(op, x) == Some(v)
    ensures var t := Step(Step(Step(s, e), Begin(op)), WriteDone);
            t.phase == Idle && !t.failed && !t.dirFailed && !t.dirty && Steady(t) && Firm(t, x, v)
  {
    var r := Step(s, e);
    var b := Step(r, Begin(op));
    var t := Step(b, WriteDone);
    RestartKeeps(s, e.snap, e.wal, e.kept, e.cut);
    BeginKeeps(r, op);
    StepKeeps(b, WriteDone);
    ApplyAt(r.mem, op, x);
    FirmWhenReturned(t, x);
  }

  /** If the fsync after the cut of a torn record fails, no call that fsyncs the log alone keeps what came after. */
  lemma FailedCutLoses(s: State, e: Event, op: Rec, k: nat)
    requires Inv(s) && e.Killed? && Ends(s, e.kept, e.cut) && e.cut.CutFailed? && !op.DeleteRange?
    requires LastWal(s).durable <= k <= e.kept
    ensures var t := Step(Step(Step(s, e), Begin(op)), WriteDone);
            t.phase == Idle && !t.failed && Leaves(t, |t.snaps| - 1, |t.wals| - 1, k)
  {
  }

  /** A compaction that ends makes everything firm again. */
  lemma CompactionIsFirm(s: State, x: Slot)
    requires Inv(s) && s.phase == WalRenamed && !s.failed
    ensures Firm(Step(s, Advance), x, At(s.mem, x))
  {
    var t := Step(s, Advance);
    AdvanceKeeps(s);
    assert t.wals == [WalFile([], 0, false)] && !t.dirty;
    FirmWhenReturned(t, x);
  }

  lemma FirmBegin(s: State, op: Rec, x: Slot, v: Option<Item>)
    requires FilesOk(s) && Firm(s, x, v) && Touch(op, x) in {None, Some(v)}
    ensures Firm(Start(s, op), x, v)
  {
    ApplyAt(s.mem, op, x);
    if op.DeleteRange? {
      FirmPart(s, Start(s, op), x, v, 0, 0);
    } else {
      FirmWriting(s, op, x, v);
    }
  }

  lemma FirmWriting(s: State, op: Rec, x: Slot, v: Option<Item>)
    requires FilesOk(s) && Firm(s, x, v) && Touch(op, x) in {None, Some(v)} && !op.DeleteRange?
    requires At(Apply(s.mem, op), x) == v
    ensures Firm(Start(s, op), x, v)
  {
    var t, last := Start(s, op), |s.wals| - 1;
    forall snap: nat, wal: nat, kept: nat | Leaves(t, snap, wal, kept)
      ensures At(Image(t, snap, wal, kept), x) == v
    {
      if wal == last && kept > |s.wals[last].recs| {
        FirmAppended(s, op, x, v, snap);
      } else {
        assert Leaves(s, snap, wal, kept) && t.wals[wal].recs[..kept] == s.wals[wal].recs[..kept];
      }
    }
  }

  lemma FirmAppended(s: State, op: Rec, x: Slot, v: Option<Item>, snap: nat)
    requires FilesOk(s) && Firm(s, x, v) && snap < |s.snaps| && Touch(op, x) in {None, Some(v)}
    ensures var recs := LastWal(s).recs + [op]; recs[..|recs|] == recs && At(Replay(s.snaps[snap], recs), x) == v
  {
    var recs := LastWal(s).recs;
    assert Leaves(s, snap, |s.wals| - 1, |recs|) && recs[..|recs|] == recs;
    assert At(Image(s, snap, |s.wals| - 1, |recs|), x) == v;
    ReplaySnoc(s.snaps[snap], recs, op);
    ApplyAt(Replay(s.snaps[snap], recs), op, x);
  }

  /** A log over a new checkpoint with the same value there. */
  lemma FirmOver(s: State, x: Slot, v: Option<Item>, wal: nat, kept: nat)
    requires Firm(s, x, v) && Leaves(s, 0, wal, kept)
    ensures At(Replay(s.mem, s.wals[wal].recs[..kept]), x) == v
  {
    assert At(Image(s, 0, wal, kept), x) == v;
    ReplayAt(s.mem, s.wals[wal].recs[..kept], x);
    ReplayAt(s.snaps[0], s.wals[wal].recs[..kept], x);
  }

  lemma FirmSnap(s: State, x: Slot, v: Option<Item>)
    requires FilesOk(s) && Firm(s, x, v) && s.phase == Compacting
    ensures Firm(NextCall(s), x, v)
  {
    var t := NextCall(s);
    forall snap: nat, wal: nat, kept: nat | Leaves(t, snap, wal, kept)
      ensures At(Image(t, snap, wal, kept), x) == v
    {
      assert Leaves(s, if snap < |s.snaps| then snap else 0, wal, kept);
      FirmOver(s, x, v, wal, kept);
    }
  }

  lemma FirmSnapSync(s: State, x: Slot, v: Option<Item>)
    requires FilesOk(s) && Firm(s, x, v) && s.phase == SnapRenamed && LastSnap(s) == s.mem
    ensures Firm(NextCall(s), x, v)
  {
    var t, newest := NextCall(s), |s.snaps| - 1;
    forall snap: nat, wal: nat, kept: nat | Leaves(t, snap, wal, kept)
      ensures At(Image(t, snap, wal, kept), x) == v
    {
      var same := if s.dirFailed then wal else |s.wals| - 1;
      assert Leaves(s, newest, same, kept) && At(Image(s, newest, same, kept), x) == v;
    }
  }

  lemma NewestSnap(s: State)
    requires FilesOk(s) && CompactingOk(s) && s.phase == SnapRenamed
    ensures LastSnap(s) == s.mem
  {
    assert s.snaps[|s.snaps| - 2..][1] == s.mem;
  }

  lemma FirmWalRename(s: State, x: Slot, v: Option<Item>)
    requires FilesOk(s) && CompactingOk(s) && Firm(s, x, v) && s.phase == SnapSynced
    ensures Firm(NextCall(s), x, v)
  {
    var t := NextCall(s);
    forall snap: nat, wal: nat, kept: nat | Leaves(t, snap, wal, kept)
      ensures At(Image(t, snap, wal, kept), x) == v
    {
      if wal < |s.wals| {
        assert Leaves(s, snap, wal, kept);
      } else {
        assert t.wals[wal].recs[..kept] == [] && Replay(s.mem, []) == s.mem;
      }
    }
  }

  lemma FirmWalSync(s: State, x: Slot, v: Option<Item>)
    requires FilesOk(s) && CompactingOk(s) && Firm(s, x, v) && s.phase == WalRenamed
    ensures Firm(NextCall(s), x, v)
  {
    FirmPart(s, NextCall(s), x, v, 0, |s.wals| - 1);
  }

  lemma FirmAdvance(s: State, x: Slot, v: Option<Item>)
    requires Inv(s) && Firm(s, x, v)
    ensures Firm(NextCall(s), x, v)
  {
    match s.phase
    case Compacting => FirmSnap(s, x, v);
    case SnapRenamed =>
      NewestSnap(s);
      FirmSnapSync(s, x, v);
    case SnapSynced => FirmWalRename(s, x, v);
    case WalRenamed => FirmWalSync(s, x, v);
    case _ =>
  }

  lemma FirmRestart(s: State, snap: nat, wal: nat, kept: nat, cut: Cut, x: Slot, v: Option<Item>)
    requires Firm(s, x, v) && Leaves(s, snap, wal, kept)
    ensures Firm(Restart(s, snap, wal, kept, cut), x, v)
  {
    var t := Restart(s, snap, wal, kept, cut);
    var recs := t.wals[0].recs;
    assert recs[..|recs|] == recs && At(Image(s, snap, wal, kept), x) == v;
  }

  /** Steps after which a power loss may leave only some of what it might before: the files from `ds` and `dw` on. */
  lemma FirmPart(s: State, t: State, x: Slot, v: Option<Item>, ds: nat, dw: nat)
    requires Firm(s, x, v) && At(t.mem, x) == v
    requires ds <= |s.snaps| && t.snaps == s.snaps[ds..] && |t.wals| + dw == |s.wals|
    requires forall i :: 0 <= i < |t.wals| ==>
               t.wals[i].recs == s.wals[i + dw].recs && s.wals[i + dw].durable <= t.wals[i].durable
    ensures Firm(t, x, v)
  {
    forall snap: nat, wal: nat, kept: nat | Leaves(t, snap, wal, kept)
      ensures At(Image(t, snap, wal, kept), x) == v
    {
      assert Leaves(s, snap + ds, wal + dw, kept);
      assert At(Image(s, snap + ds, wal + dw, kept), x) == v;
    }
  }

  lemma FirmReopen(s: State, kept: nat, cut: Cut, x: Slot, v: Option<Item>)
    requires Inv(s) && Firm(s, x, v) && Ends(s, kept, cut)
    ensures Firm(Reopen(s, kept, cut), x, v)
  {
    var t, w, last := Reopen(s, kept, cut), LastWal(s), |s.wals| - 1;
    assert w.durable <= kept;
    assert LastWal(t).recs == w.recs[..kept] && LastWal(t).recs[..kept] == LastWal(t).recs;
    assert Leaves(s, |s.snaps| - 1, last, kept) && At(Image(s, |s.snaps| - 1, last, kept), x) == v;
    forall snap: nat, wal: nat, j: nat | Leaves(t, snap, wal, j)
      ensures At(Image(t, snap, wal, j), x) == v
    {
      assert Leaves(s, snap, wal, j) && t.wals[wal].recs[..j] == s.wals[wal].recs[..j];
      assert At(Image(s, snap, wal, j), x) == v;
    }
  }

  lemma FirmWrote(s: State, x: Slot, v: Option<Item>)
    requires Inv(s) && Firm(s, x, v)
    ensures Firm(Wrote(s), x, v)
  {
    var w := if NeedsSync(s) then Fsynced(LastWal(s)) else LastWal(s);
    FirmSettle(s, w, x, v);
    FirmSame(Settle(s, w), Wrote(s), x, v);
  }

  lemma FirmSettle(s: State, w: WalFile, x: Slot, v: Option<Item>)
    requires s.snaps != [] && s.wals != [] && Firm(s, x, v)
    requires w.recs == LastWal(s).recs && LastWal(s).durable <= w.durable
    ensures Firm(Settle(s, w), x, v)
  {
    if s.dirFailed {
      FirmWal(s, w, x, v);
    } else {
      FirmPart(s, Settle(s, w), x, v, |s.snaps| - 1, |s.wals| - 1);
    }
  }

  lemma FirmWal(s: State, w: WalFile, x: Slot, v: Option<Item>)
    requires s.wals != [] && Firm(s, x, v)
    requires w.recs == LastWal(s).recs && LastWal(s).durable <= w.durable
    ensures Firm(SetWal(s, w), x, v)
  {
    FirmPart(s, SetWal(s, w), x, v, 0, 0);
  }

  lemma FirmLoop(s: State, ok: bool, x: Slot, v: Option<Item>)
    requires FilesOk(s) && Firm(s, x, v)
    ensures Firm(Step(s, SyncLoop(ok)), x, v)
  {
    FirmWal(s, Fsynced(LastWal(s)), x, v);
    FirmWal(s, LastWal(s).(poisoned := true), x, v);
    var t := SetWal(s, Fsynced(LastWal(s)));
    FirmSame(t, t.(dirty := false), x, v);
  }

  lemma FirmFailed(s: State, call: FileCall, x: Slot, v: Option<Item>)
    requires FilesOk(s) && Firm(s, x, v)
    ensures Firm(Failed(s, call), x, v)
  {
    if call.LogSync? && s.phase == Writing && NeedsSync(s) {
      var w := LastWal(s).(poisoned := true);
      FirmSettle(s, w, x, v);
      FirmSame(Settle(s, w), Failed(s, call), x, v);
    } else {
      FirmSame(s, Failed(s, call), x, v);
    }
  }

  /** The files and the memory are as they were. */
  lemma FirmSame(s: State, t: State, x: Slot, v: Option<Item>)
    requires Firm(s, x, v) && t.mem == s.mem && t.snaps == s.snaps && t.wals == s.wals
    ensures Firm(t, x, v)
  {
    FirmPart(s, t, x, v, 0, 0);
  }

  lemma FirmStep(s: State, e: Event, x: Slot, v: Option<Item>)
    requires Inv(s) && Firm(s, x, v)
    requires e.Begin? ==> Touch(e.op, x) in {None, Some(v)}
    ensures Firm(Step(s, e), x, v)
  {
    if Step(s, e) != s {
      match e
      case Begin(op) => FirmBegin(s, op, x, v);
      case Opened => FirmSettle(s, LastWal(s), x, v);
      case WriteDone => FirmWrote(s, x, v);
      case Advance => FirmAdvance(s, x, v);
      case Fail(call) => FirmFailed(s, call, x, v);
      case SyncEvery => FirmSame(s, Step(s, e), x, v);
      case SyncLoop(ok) => FirmLoop(s, ok, x, v);
      case PowerLoss(snap, wal, kept, cut) => FirmRestart(s, snap, wal, kept, cut, x, v);
      case Killed(kept, cut) => FirmReopen(s, kept, cut, x, v);
    }
  }

  /**
   A term or vote that is firm once stays, in memory and on disk, through any
   calls, failed calls and fsyncs, power losses, process ends and restarts, until a
   call sets it to something else; and so does a log entry until a call stores another
   one or deletes its index, and its absence until a call stores one.
   */
  lemma {:induction false} VoteStays(ss: seq<State>, es: seq<Event>, a: nat, i: nat, x: Slot, v: Option<Item>)
    requires IsRun(ss, es) && a <= i < |ss| && Firm(ss[a], x, v)
    requires forall j :: a <= j < i && es[j].Begin? ==> Touch(es[j].op, x) in {None, Some(v)}
    ensures Firm(ss[i], x, v)
  {
    if a < i {
      VoteStays(ss, es, a, i - 1, x, v);
      RunInv(ss, es, i - 1);
      FirmStep(ss[i - 1], es[i - 1], x, v);
    }
  }

  // ---- a DeleteRange that returned ----

  /**
   Once a DeleteRange returned, each index in its range is gone from memory and from
   whatever a power loss may leave, and everything else is firmly what it was.
   */
  lemma DeleteRangeReturns(ss: seq<State>, es: seq<Event>, i: nat, x: Slot)
    requires IsRun(ss, es) && i < |es| && es[i].Advance? && ss[i].phase == WalRenamed && !ss[i].failed
    ensures ss[i].inflight.Some? && ss[i].inflight.value.DeleteRange? && ss[i + 1].phase == Idle
    ensures var op := ss[i].inflight.value;
            Firm(ss[i + 1], x, if x.LogAt? && op.min <= x.index <= op.max then None else At(Kept(ss[i]), x))
  {
    var s := ss[i];
    RunInv(ss, es, i);
    CompactionIsFirm(s, x);
    DeletesRange(Kept(s), s.inflight.value.min, s.inflight.value.max, x);
    assert ss[i + 1] == Step(s, Advance);
  }

  /** And an index of the range stays gone, whatever happens, until a call stores an entry there. */
  lemma DeletedStaysGone(ss: seq<State>, es: seq<Event>, a: nat, i: nat, index: uint64)
    requires IsRun(ss, es) && a < i < |ss| && es[a].Advance? && ss[a].phase == WalRenamed && !ss[a].failed
    requires ss[a].inflight.Some? && ss[a].inflight.value.DeleteRange?
    requires ss[a].inflight.value.min <= index <= ss[a].inflight.value.max
    requires forall j :: a < j < i && es[j].Begin? && es[j].op.StoreLogs? ==>
               forall l :: l in es[j].op.entries ==> l.index != index
    ensures Firm(ss[i], LogAt(index), None)
  {
    DeleteRangeReturns(ss, es, a, LogAt(index));
    forall j | a < j < i && es[j].Begin?
      ensures Touch(es[j].op, LogAt(index)) in {None, Some(None)}
    {
      if es[j].op.StoreLogs? {
        NotStored(es[j].op.entries, index);
      }
    }
    VoteStays(ss, es, a + 1, i, LogAt(index), None);
  }

  lemma {:induction false} NotStored(entries: seq<Log>, index: uint64)
    requires forall l :: l in entries ==> l.index != index
    ensures LastEntry(entries, index) == None
  {
    if entries != [] {
      assert entries[|entries| - 1] in entries;
      NotStored(entries[..|entries| - 1], index);
    }
  }

  // ---- a crash inside DeleteRange ----

  /** The log replayed over a checkpoint that already covers it. */
  lemma OverNewCheckpoint(s: State, x: Slot)
    requires Inv(s) && s.phase != Idle && s.phase != Writing
    ensures At(Replay(s.mem, InUse(s).recs), x) in {At(Kept(s), x), At(s.mem, x)}
  {
    ReplayAt(s.mem, InUse(s).recs, x);
    ReplayAt(s.base, InUse(s).recs, x);
  }

  lemma CompactionImages(s: State, snap: nat, wal: nat, kept: nat)
    requires FilesOk(s) && CompactingOk(s) && s.phase != Idle && s.phase != Writing && Alone(s)
    requires InUse(s).durable == |InUse(s).recs| && Leaves(s, snap, wal, kept)
    ensures Image(s, snap, wal, kept) in {Kept(s), s.mem, Replay(s.mem, InUse(s).recs)}
  {
    var recs := InUse(s).recs;
    assert recs[..|recs|] == recs;
    CompactingImages(s, snap, wal, kept);
    if wal > 0 {
      assert Replay(s.mem, []) == s.mem;
    } else {
      assert Image(s, snap, wal, kept) == Replay(s.snaps[snap], recs);
    }
  }

  /**
   With a log that is all fsynced, and no older file that may come back, a power
   loss anywhere inside DeleteRange leaves everything outside the range as it was,
   and each index inside it absent or with its old entry.
   */
  lemma DeleteRangeCrash(ss: seq<State>, es: seq<Event>, i: nat, snap: nat, wal: nat, kept: nat, x: Slot)
    requires IsRun(ss, es) && i < |ss| && Alone(ss[i])
    requires ss[i].inflight.Some? && ss[i].inflight.value.DeleteRange?
    requires ss[i].wals != [] && InUse(ss[i]).durable == |InUse(ss[i]).recs|
    requires Leaves(ss[i], snap, wal, kept)
    ensures var op, item := ss[i].inflight.value, At(Image(ss[i], snap, wal, kept), x);
            if x.LogAt? && op.min <= x.index <= op.max then item == None || item == At(Kept(ss[i]), x)
            else item == At(Kept(ss[i]), x)
  {
    RunInv(ss, es, i);
    ApplyAt(Kept(ss[i]), ss[i].inflight.value, x);
    CompactionImages(ss[i], snap, wal, kept);
    OverNewCheckpoint(ss[i], x);
  }

  // ---- log entries outside a compaction ----

  /** The records that are in the log in use, without the one being written. */
  function Settled(s: State): seq<Rec>
    requires s.wals != []
  {
    var recs := InUse(s).recs;
    if s.phase == Writing && recs != [] then recs[..|recs| - 1] else recs
  }

  /** With a log that is all fsynced, a power loss outside a compaction loses no call that returned. */
  lemma NothingReturnedIsLost(ss: seq<State>, es: seq<Event>, i: nat, snap: nat, wal: nat, kept: nat)
    requires IsRun(ss, es) && i < |ss| && Leaves(ss[i], snap, wal, kept) && Alone(ss[i])
    requires ss[i].phase == Idle || ss[i].phase == Writing
    requires ss[i].wals != [] && InUse(ss[i]).durable == |Settled(ss[i])|
    ensures var c := Image(ss[i], snap, wal, kept);
            c == Kept(ss[i]) || (ss[i].phase == Writing && c == ss[i].mem)
  {
    RunInv(ss, es, i);
    SettledImage(ss[i], kept);
  }

  lemma SettledImage(s: State, kept: nat)
    requires Inv(s) && (s.phase == Idle || s.phase == Writing) && |Settled(s)| <= kept <= |LastWal(s).recs|
    ensures var c := Replay(s.base, LastWal(s).recs[..kept]); c == Kept(s) || (s.phase == Writing && c == s.mem)
  {
    var recs := LastWal(s).recs;
    assert recs[..|recs|] == recs;
    if s.phase == Writing {
      WroteMem(s);
    }
  }

  /** Each prefix of the log from `from` on is the store after a prefix of the calls. */
  ghost predicate InStep(base: Contents, recs: seq<Rec>, from: nat, origin: Contents, calls: seq<Rec>) {
    && from <= |recs| && |recs| - from <= |calls|
    && forall j {:trigger recs[..j]} :: from <= j <= |recs| ==>
         Replay(base, recs[..j]) == Replay(origin, calls[..|calls| - (|recs| - j)])
  }

  lemma InStepNow(base: Contents, recs: seq<Rec>, origin: Contents, calls: seq<Rec>)
    requires Replay(base, recs) == Replay(origin, calls)
    ensures InStep(base, recs, |recs|, origin, calls)
  {
    assert recs[..|recs|] == recs && calls[..|calls|] == calls;
  }

  lemma InStepSnoc(base: Contents, recs: seq<Rec>, from: nat, origin: Contents, calls: seq<Rec>, op: Rec)
    requires InStep(base, recs, from, origin, calls)
    ensures InStep(base, recs + [op], from, origin, calls + [op])
  {
    var all, more := recs + [op], calls + [op];
    forall j | from <= j <= |all|
      ensures Replay(base, all[..j]) == Replay(origin, more[..|more| - (|all| - j)])
    {
      if j <= |recs| {
        assert all[..j] == recs[..j];
        assert more[..|more| - (|all| - j)] == calls[..|calls| - (|recs| - j)];
      } else {
        assert recs[..|recs|] == recs && calls[..|calls|] == calls && all[..j] == all && more[..|more|] == more;
        ReplaySnoc(base, recs, op);
        ReplaySnoc(origin, calls, op);
      }
    }
  }

  function Max(a: nat, b: nat): nat {
    if a < b then b else a
  }

  /** From where on the log in use has the calls of this process. */
  function From(s: State): nat
    requires s.wals != []
  {
    Max(InUse(s).durable, s.loaded)
  }

  ghost predicate Aligned(s: State) {
    s.wals != [] && InStep(s.base, Settled(s), From(s), s.origin, s.returned)
  }

  lemma InStepLater(base: Contents, recs: seq<Rec>, from: nat, later: nat, origin: Contents, calls: seq<Rec>)
    requires InStep(base, recs, from, origin, calls) && from <= later <= |recs|
    ensures InStep(base, recs, later, origin, calls)
  {
  }

  lemma WroteShape(s: State)
    requires FilesOk(s) && WritingOk(s) && s.phase == Writing
    ensures var t, op := Wrote(s), s.inflight.value;
            && t.wals != [] && From(s) <= |Settled(s)|
            && Settled(t) == Settled(s) + [op] && t.returned == s.returned + [op]
            && t.base == s.base && t.origin == s.origin
            && From(s) <= From(t) <= |Settled(t)|
  {
    WroteLast(s);
    assert Settled(s) + [s.inflight.value] == LastWal(s).recs;
  }

  lemma AlignedWrote(s: State)
    requires FilesOk(s) && WritingOk(s) && Aligned(s) && s.phase == Writing
    ensures Aligned(Wrote(s))
  {
    var t, recs, op := Wrote(s), Settled(s), s.inflight.value;
    WroteShape(s);
    InStepSnoc(s.base, recs, From(s), s.origin, s.returned, op);
    InStepLater(s.base, recs + [op], From(s), From(t), s.origin, s.returned + [op]);
  }

  lemma AlignedBegin(s: State, op: Rec)
    requires Inv(s) && Aligned(s) && s.phase == Idle
    ensures Aligned(Start(s, op))
  {
    var recs := LastWal(s).recs;
    assert (recs + [op])[..|recs|] == recs;
  }

  lemma AlignedFresh(s: State)
    requires FilesOk(s) && IdleOk(s) && s.phase == Idle && From(s) == |LastWal(s).recs|
    ensures Aligned(s)
  {
    InStepNow(s.base, LastWal(s).recs, s.origin, s.returned);
  }

  /** Steps that change neither the log nor the calls. */
  lemma AlignedSame(s: State, t: State)
    requires Aligned(s) && t.wals != []
    requires t.base == s.base && t.origin == s.origin && t.returned == s.returned
    requires Settled(t) == Settled(s) && From(s) <= From(t) <= |Settled(s)|
    ensures Aligned(t)
  {
    InStepLater(s.base, Settled(s), From(s), From(t), s.origin, s.returned);
  }

  lemma AlignedAdvance(s: State)
    requires Inv(s) && Aligned(s)
    ensures Aligned(NextCall(s))
  {
    if s.phase == WalRenamed {
      WalSyncKeeps(s);
      AlignedFresh(NextCall(s));
    } else if s.phase in {Compacting, SnapRenamed, SnapSynced} {
      SameLog(s);
      AlignedSame(s, NextCall(s));
    }
  }

  /** Until its last file call a compaction has the same log in use. */
  lemma SameLog(s: State)
    requires s.wals != [] && s.phase in {Compacting, SnapRenamed, SnapSynced}
    ensures var t := NextCall(s);
            && t.wals != [] && InUse(t) == InUse(s) && Settled(t) == Settled(s) && From(t) == From(s)
            && t.base == s.base && t.origin == s.origin && t.returned == s.returned
  {
  }

  /** Another log file with the same records. */
  lemma AlignedWal(s: State, t: State)
    requires FilesOk(s) && Aligned(s) && t.wals != [] && (s.phase == Idle || s.phase == Writing)
    requires t.phase == s.phase && t.loaded == s.loaded && LastWal(t).recs == LastWal(s).recs
    requires LastWal(t).durable == LastWal(s).durable
    requires t.base == s.base && t.origin == s.origin && t.returned == s.returned
    ensures Aligned(t)
  {
  }

  lemma AlignedFailed(s: State, call: FileCall)
    requires FilesOk(s) && Aligned(s)
    ensures Aligned(Failed(s, call))
  {
    if call.LogSync? && s.phase == Writing && NeedsSync(s) {
      SyncFailedLast(s);
      AlignedWal(s, Failed(s, call));
    } else {
      AlignedFlags(s, Failed(s, call).failed, Failed(s, call).dirFailed);
    }
  }

  lemma AlignedFlags(s: State, failed: bool, dirFailed: bool)
    requires Aligned(s)
    ensures Aligned(s.(failed := failed, dirFailed := dirFailed))
  {
    AlignedSame(s, s.(failed := failed, dirFailed := dirFailed));
  }

  lemma AlignedLoop(s: State, ok: bool)
    requires Inv(s) && Aligned(s)
    ensures Aligned(Step(s, SyncLoop(ok)))
  {
    if Step(s, SyncLoop(ok)) != s {
      AlignedSame(s, Step(s, SyncLoop(ok)));
    }
  }

  lemma AlignedStarted(s: State)
    requires Started(s)
    ensures Aligned(s)
  {
    StartedInv(s);
    AlignedFresh(s);
  }

  lemma AlignedStep(s: State, e: Event)
    requires Inv(s) && Aligned(s)
    ensures Aligned(Step(s, e))
  {
    if Step(s, e) != s {
      match e
      case Begin(op) => AlignedBegin(s, op);
      case Opened => AlignedWal(s, Settle(s, LastWal(s)));
      case WriteDone => AlignedWrote(s);
      case Advance => AlignedAdvance(s);
      case Fail(call) => AlignedFailed(s, call);
      case SyncLoop(ok) => AlignedLoop(s, ok);
      case PowerLoss(snap, wal, kept, cut) =>
        if Lost(s, snap, wal, kept, cut) {
          RestartStarts(s, snap, wal, kept, cut);
          AlignedStarted(Restart(s, snap, wal, kept, cut));
        }
      case Killed(kept, cut) =>
        if Ends(s, kept, cut) {
          ReopenStarts(s, kept, cut);
          AlignedStarted(Reopen(s, kept, cut));
        }
      case SyncEvery =>
    }
  }

  lemma {:induction false} RunAligned(ss: seq<State>, es: seq<Event>, i: nat)
    requires IsRun(ss, es) && i < |ss|
    ensures Aligned(ss[i])
  {
    if i == 0 {
      AlignedStarted(ss[0]);
    } else {
      RunAligned(ss, es, i - 1);
      RunInv(ss, es, i - 1);
      AlignedStep(ss[i - 1], es[i - 1]);
    }
  }

  /** The log in use over the checkpoint it belongs to, not over a new one that is not fsynced into place yet. */
  predicate OldPair(s: State, snap: nat, wal: nat) {
    match s.phase
    case SnapRenamed => snap + 2 == |s.snaps| && wal + 1 == |s.wals|
    case SnapSynced => false
    case WalRenamed => false
    case _ => snap + 1 == |s.snaps| && wal + 1 == |s.wals|
  }

  /**
   Before a compaction has its new checkpoint for good, and while the old one comes
   back, lazy fsync loses only calls at the end: the store reloads as it was after
   some prefix of the calls, at least all but those whose records were not fsynced.
   */
  lemma LazyLosesLatestOnly(ss: seq<State>, es: seq<Event>, i: nat, snap: nat, wal: nat, kept: nat) returns (n: nat)
    requires IsRun(ss, es) && i < |ss| && Leaves(ss[i], snap, wal, kept)
    requires OldPair(ss[i], snap, wal) && ss[i].loaded <= kept
    ensures ss[i].wals != [] && |ss[i].returned| - (|Settled(ss[i])| - From(ss[i])) <= n <= |ss[i].returned|
    ensures || Image(ss[i], snap, wal, kept) == Replay(ss[i].origin, ss[i].returned[..n])
            || (ss[i].phase == Writing && Image(ss[i], snap, wal, kept) == ss[i].mem)
  {
    var s := ss[i];
    RunInv(ss, es, i);
    RunAligned(ss, es, i);
    var recs := Settled(s);
    assert s.snaps[snap] == s.base && s.wals[wal] == InUse(s);
    if kept <= |recs| {
      n := |s.returned| - (|recs| - kept);
      assert recs[..kept] == InUse(s).recs[..kept];
    } else {
      n := |s.returned|;
      assert InUse(s).recs[..kept] == InUse(s).recs;
      WroteMem(s);
    }
  }
}
