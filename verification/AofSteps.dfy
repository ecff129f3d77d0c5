/**
 What the writer's steps are for: ticks and the close of the writer fsync, vacuums
 rewrite the file, the buffer is bounded, and writes are refused only while earlier
 ones wait for the file.
 */
module AofSteps {
  import opened JsonNumbers
  import opened JsonTree
  import opened TreePaths
  import opened TreeLaws
  import opened JsonText
  import opened AofLog
  import opened Document
  import opened AofQueue
  import opened AofSafety

  // ---- ticks and the close ----

  /** A tick under everysec, or the close of the writer, whose file calls all work. */
  predicate Syncs(s: State, e: Event) {
    && !s.stopped
    && ((e.Tick? && !s.inBatch && s.policy.Everysec?) || e.Close?)
    && (s.buf == [] || e.flush.Flushed?) && e.synced
  }

  /**
   After it all the writes taken are in the file. They are on disk unless an fsync
   of that file had failed, or there were none but those that were loaded.
   */
  lemma SyncsFile(s: State, e: Event, float: FloatText)
    requires Inv(s, float) && SyncedOk(s) && Syncs(s, e)
    ensures var t := Step(s, e);
            && t.taken == s.taken && t.older == s.older && t.buf == []
            && t.file.start == s.file.start && t.file.ahead == s.file.ahead && t.file.end == s.taken
            && (t.stopped <==> e.Close?)
            && DurableEnd(t.file) ==
               if s.file.poisoned || s.taken == s.loaded then DurableEnd(s.file) else s.taken
  {
    FlushEmpties(s, e.flush);
    FlushKeeps(s, e.flush, float);
  }

  /** All writes taken are safe, or the fsync makes them so. */
  predicate Syncable(s: State) {
    Releasable(s) && (s.loaded < s.taken || Good(s.file, s.taken, s.taken))
  }

  /**
   From then on no crash takes one of the writes taken so far exactly if every file
   that it may bring back is good for them, or is the current one and no fsync of
   it has failed.
   */
  lemma SyncExact(s: State, e: Event, float: FloatText)
    requires Inv(s, float) && EventOk(e, float) && SyncedOk(s) && Syncs(s, e)
    ensures Step(s, e).taken == s.taken
    ensures KeepsFirst(Step(s, e), s.taken) <==> Syncable(s)
  {
    var t := Step(s, e);
    SyncsFile(s, e, float);
    StepKeeps(s, e, float);
    KeptIsGood(t, s.taken, float);
    FileEnds(s, float);
  }

  /** Over whole runs: from such a tick or close on, up to event `n`. */
  lemma SyncsExactly(ss: seq<State>, es: seq<Event>, i: nat, n: nat, float: FloatText)
    requires IsRun(ss, es, float) && i < n < |ss| && Syncs(ss[i], es[i])
    ensures (forall j :: i < j <= n ==> KeepsFirst(ss[j], ss[i].taken)) <==> Syncable(ss[i])
  {
    AfterSync(ss, es, i, float);
    if Syncable(ss[i]) {
      FirstSteps(ss, es, ss[i].taken, float);
      SafeOnwards(ss, i + 1, n, ss[i].taken);
    }
  }

  lemma SafeOnwards(ss: seq<State>, i: nat, n: nat, a: nat)
    requires forall k {:trigger ss[k]} :: 0 <= k < |ss| - 1 && FirstSafe(ss[k], a) ==> FirstSafe(ss[k + 1], a)
    requires i <= n < |ss| && FirstSafe(ss[i], a)
    ensures forall j :: i <= j <= n ==> KeepsFirst(ss[j], a)
  {
    forall j | i <= j <= n
      ensures KeepsFirst(ss[j], a)
    {
      FirstOnwards(ss, i, j, a);
    }
  }

  lemma AfterSync(ss: seq<State>, es: seq<Event>, i: nat, float: FloatText)
    requires IsRun(ss, es, float) && i < |es| && Syncs(ss[i], es[i])
    ensures ss[i + 1].taken == ss[i].taken && (KeepsFirst(ss[i + 1], ss[i].taken) <==> Syncable(ss[i]))
  {
    RunInv(ss, es, i, float);
    RunSynced(ss, es, i, float);
    SyncExact(ss[i], es[i], float);
  }

  /** The writer takes more writes, never fewer. */
  lemma TakenGrows(s: State, e: Event)
    ensures Step(s, e).taken >= s.taken
  {
    if !s.stopped {
      match e
      case Take(flush, dump, again) =>
        if s.queue != [] && s.queue[0].DumpRow? {
          VacuumTakesNone(s, flush, dump, again);
        }
      case EndBatch(flush, synced) => FinishTakesNone(s, flush, s.policy.Always?, synced);
      case Close(flush, synced) => FinishTakesNone(s, flush, true, synced);
      case _ =>
    }
  }

  lemma VacuumTakesNone(s: State, flush: FlushOutcome, dump: DumpOutcome, again: FlushOutcome)
    requires s.queue != []
    ensures TakeDump(s, flush, dump, again).taken == s.taken
  {
    var u := Flush(Pop(s), flush);
    assert u.taken == s.taken;
    if !u.stopped {
      assert Dump(u, dump).taken == s.taken;
    }
  }

  lemma FinishTakesNone(s: State, flush: FlushOutcome, sync: bool, synced: bool)
    ensures Finish(s, flush, sync, synced).taken == s.taken
  {
  }

  predicate FirstSafe(s: State, a: nat) {
    a <= s.taken && KeepsFirst(s, a)
  }

  lemma FirstNext(ss: seq<State>, es: seq<Event>, i: nat, a: nat, float: FloatText)
    requires IsRun(ss, es, float) && i < |es| && FirstSafe(ss[i], a)
    ensures FirstSafe(ss[i + 1], a)
  {
    RunInv(ss, es, i, float);
    FirstStays(ss[i], es[i], a, float);
    TakenGrows(ss[i], es[i]);
  }

  lemma FirstSteps(ss: seq<State>, es: seq<Event>, a: nat, float: FloatText)
    requires IsRun(ss, es, float)
    ensures forall k {:trigger ss[k]} :: 0 <= k < |es| && FirstSafe(ss[k], a) ==> FirstSafe(ss[k + 1], a)
  {
    forall k {:trigger ss[k]} | 0 <= k < |es| && FirstSafe(ss[k], a)
      ensures FirstSafe(ss[k + 1], a)
    {
      FirstNext(ss, es, k, a, float);
    }
  }

  lemma {:induction false} FirstOnwards(ss: seq<State>, i: nat, j: nat, a: nat)
    requires forall k {:trigger ss[k]} :: 0 <= k < |ss| - 1 && FirstSafe(ss[k], a) ==> FirstSafe(ss[k + 1], a)
    requires i <= j < |ss| && FirstSafe(ss[i], a)
    ensures FirstSafe(ss[j], a)
    decreases j - i
  {
    if i < j {
      FirstOnwards(ss, i + 1, j, a);
    }
  }

  /**
   So under everysec a crash at any later time, at any byte and in any file that may
   come back, leaves every write that was taken before the last tick that worked;
   and under every policy every write that was taken before the writer was closed.
   */
  lemma SyncedSurvives(ss: seq<State>, es: seq<Event>, i: nat, j: nat, f: LogFile, k: nat, float: FloatText)
    returns (n: nat)
    requires IsRun(ss, es, float) && i < j < |ss| && Syncs(ss[i], es[i]) && Syncable(ss[i])
    requires f in Files(ss[j]) && CutOf(ss[j], f, k)
    ensures f.ahead <= |ss[j].hist| && f.start <= n <= |ss[j].hist|
    ensures Holds(f, n, ss[i].taken)
    ensures ReloadsAs(ImageText(ss[j], f)[..k], DocumentAt(f, ss[j].origin, ss[j].hist, n), float)
  {
    SyncsExactly(ss, es, i, j, float);
    n := CrashReloads(ss, es, j, f, k, float);
    FilesAre(ss[j]);
  }

  /** Without a snapshot ahead of its file that is: no older file may come back, and no fsync of this one failed. */
  lemma SyncableExactly(s: State, float: FloatText)
    requires Inv(s, float) && SyncedOk(s) && s.buf != []
    ensures NoneAhead(s) ==> (Syncable(s) <==> s.older == [] && !s.file.poisoned)
  {
    FileEnds(s, float);
    FilesAre(s);
    assert |s.buf| == s.taken - s.file.end;
    if s.older != [] {
      assert s.older[0] in s.older;
    }
  }

  /** Nothing else fsyncs: not a tick under other policies, nor the end of a batch under any but always. */
  lemma NeverSyncs(s: State, e: Event)
    requires e.Accept? || e.RequestVacuum?
             || (e.Tick? && !s.policy.Everysec?) || (e.EndBatch? && !s.policy.Always?)
    ensures Step(s, e).file.durable == s.file.durable && Step(s, e).file.poisoned == s.file.poisoned
    ensures Step(s, e).older == s.older
  {
  }

  // ---- the buffer ----

  lemma BoundBounds(s: State, o: FlushOutcome)
    ensures o.Flushed? ==> |Encode(Bound(s, o).buf)| < 65536
    ensures |Encode(s.buf)| < 65536 ==> Bound(s, o) == s
  {
    assert Encode([]) == "";
  }

  /**
   In the middle of a batch the buffer is written out once it holds 64 KiB, and a
   write that leaves it below that changes nothing in the file.
   */
  lemma TakeBounds(s: State, flush: FlushOutcome, dump: DumpOutcome, again: FlushOutcome)
    requires !s.stopped && s.queue != [] && again.Flushed?
    ensures var t := Step(s, Take(flush, dump, again));
            && (t.stopped || |Encode(t.buf)| < 65536)
            && (s.queue[0].WriteRow? && |Encode(s.buf)| + |Encode([ToRecord(s.queue[0].w)])| < 65536 ==>
                  t.file == s.file && t.unsynced == s.unsynced && t.buf == s.buf + [ToRecord(s.queue[0].w)])
  {
    match s.queue[0]
    case WriteRow(w) =>
      EncodeConcat(s.buf, [ToRecord(w)]);
      BoundBounds(Buffered(Pop(s), w), again);
    case DumpRow =>
      BoundBounds(Dump(Flush(Pop(s), flush), dump), again);
  }

  // ---- vacuums ----

  /** A flush neither loses records nor keeps them when it works. */
  lemma FlushMoves(s: State, o: FlushOutcome)
    ensures var t := Flush(s, o);
            && t.root == s.root && t.older == s.older && t.queue == s.queue
            && s.file.recs <= t.file.recs && t.file.recs + t.buf == s.file.recs + s.buf
            && (o.Flushed? ==> t.buf == [])
  {
    assert s.file.recs + s.buf + [] == s.file.recs + s.buf;
  }

  /** The file is one snapshot of the document, on disk, and nothing waits for it. */
  ghost predicate IsSnapshot(t: State, root: Node, float: FloatText) {
    && t.file.recs == [SnapRec(Render(root))] && t.file.durable == 1 && !t.file.poisoned
    && t.buf == [] && !t.unsynced && !t.writesRefused
    && Same(root, Reload(EMPTY_OBJ, t.file.recs, float))
  }

  /**
   A vacuum whose rename works leaves one snapshot of the document as it is now, on
   disk, and the buffer empty. The old file, with what the flush before wrote, may
   only come back if the directory fsync failed.
   */
  lemma VacuumRewrites(s: State, flush: FlushOutcome, dump: DumpOutcome, again: FlushOutcome, float: FloatText)
    requires Inv(s, float) && s.queue != [] && s.queue[0].DumpRow? && !s.stopped && dump.Dumped? && dump.renamed
    ensures var t, u := Step(s, Take(flush, dump, again)), Flush(Pop(s), flush);
            && t.queue == s.queue[1..] && t.root == s.root && t.taken == s.taken && t.stopped == u.stopped
            && (!t.stopped ==>
                  && IsSnapshot(t, s.root, float)
                  && s.file.recs <= u.file.recs <= s.file.recs + s.buf
                  && if dump.dirSynced then t.older == []
                     else exists f :: t.older == s.older + [f] && f.recs == u.file.recs)
  {
    var u := Flush(Pop(s), flush);
    FlushMoves(Pop(s), flush);
    if !u.stopped {
      DumpRewrites(u, dump, float);
      EmptyBuffer(Dump(u, dump), again);
    }
  }

  lemma EmptyBuffer(s: State, o: FlushOutcome)
    requires s.buf == []
    ensures Bound(s, o) == s
  {
    BoundBounds(s, o);
    assert Encode([]) == "";
  }

  /** Any other vacuum leaves the records where they were, or writes more of them. */
  lemma FailedVacuumKeeps(s: State, flush: FlushOutcome, dump: DumpOutcome, again: FlushOutcome, float: FloatText)
    requires s.queue != [] && s.queue[0].DumpRow? && !s.stopped && !(dump.Dumped? && dump.renamed)
    requires DocumentOk(s.root, float)
    ensures var t := Step(s, Take(flush, dump, again));
            && t.queue == s.queue[1..] && t.root == s.root && t.older == s.older
            && s.file.recs <= t.file.recs && t.file.recs + t.buf == s.file.recs + s.buf
  {
    var u := Flush(Pop(s), flush);
    FlushMoves(Pop(s), flush);
    if !u.stopped {
      DumpRewrites(u, dump, float);
      FlushMoves(Dump(u, dump), again);
    }
  }

  lemma DumpRewrites(s: State, dump: DumpOutcome, float: FloatText)
    requires DocumentOk(s.root, float)
    ensures var t := Dump(s, dump);
            && t.root == s.root && t.queue == s.queue && t.taken == s.taken && t.stopped == s.stopped
            && if dump.Dumped? && dump.renamed then
                 && IsSnapshot(t, s.root, float)
                 && (if dump.dirSynced then t.older == []
                     else exists f :: t.older == s.older + [f] && f.recs == s.file.recs)
               else t.older == s.older && t.file.recs == s.file.recs && t.buf == s.buf
  {
    HeadReads([SnapRec(Render(s.root))], s.root, float);
    if dump.Dumped? && dump.renamed && !dump.dirSynced {
      var f := Fsync(s.file, dump.oldSynced);
      assert Dump(s, dump).older == s.older + [f] && f.recs == s.file.recs;
    }
  }

  // ---- accepting writes ----

  /**
   A write is accepted exactly unless the writer is gone, writes are refused, or it
   is a set that the document has no place for; between batches writes are refused
   exactly while records of earlier ones still wait for the file. One that is not
   accepted changes nothing.
   */
  lemma AcceptExactly(s: State, w: Write, float: FloatText)
    requires Inv(s, float)
    ensures var t := Step(s, Accept(w));
            if s.stopped || s.writesRefused || (w.SetWrite? && Misses(s.root, SplitTreePath(w.key))) then t == s
            else
              && t.hist == s.hist + [w] && t.queue == s.queue + [WriteRow(w)]
              && (w.SetWrite? ==> Ok(t.root) == Set(s.root, SplitTreePath(w.key), w.val))
              && (w.DelWrite? ==> t.root == Del(s.root, SplitTreePath(w.key)))
    ensures !s.inBatch && !s.stopped ==> (s.writesRefused <==> s.buf != [])
  {
    var val := if w.SetWrite? then w.val else Nil;
    PathRefinesSegments(s.root, w.key, val);
    SetFailsExactly(s.root, SplitTreePath(w.key), val);
  }
}
