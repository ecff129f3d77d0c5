/** What every run of the append-only file's writer guarantees. */
module AofSafety {
  import opened Options
  import opened JsonNumbers
  import opened JsonTree
  import opened JsonText
  import opened TreeLaws
  import opened AofLog
  import opened Document
  import opened AofQueue

  /** `ss` are the states that the events `es` lead through from a loaded file. */
  ghost predicate IsRun(ss: seq<State>, es: seq<Event>, float: FloatText) {
    && |ss| == |es| + 1
    && Started(ss[0], float)
    && forall i {:trigger es[i]} :: 0 <= i < |es| ==> Next(ss[i], es[i], ss[i + 1], float)
  }

  ghost predicate Next(s: State, e: Event, t: State, float: FloatText) {
    After(s, e, float) == Some(t)
  }

  ghost function After(s: State, e: Event, float: FloatText): Option<State> {
    if EventOk(e, float) then Some(Step(s, e)) else None
  }

  lemma RunInv(ss: seq<State>, es: seq<Event>, i: nat, float: FloatText)
    requires IsRun(ss, es, float) && i < |ss|
    ensures Inv(ss[i], float)
  {
    StartedInv(ss[0], float);
    for k := 0 to i
      invariant Inv(ss[k], float)
    {
      InvNext(ss, es, k, float);
    }
  }

  lemma InvNext(ss: seq<State>, es: seq<Event>, i: nat, float: FloatText)
    requires IsRun(ss, es, float) && i < |es| && Inv(ss[i], float)
    ensures Inv(ss[i + 1], float)
  {
    StepKeeps(ss[i], es[i], float);
  }

  // ---- the file is exact ----

  /**
   The file followed by the buffer and the queue is exactly the history since
   the last snapshot, nothing duplicated or skipped by retries; the size is the
   file's; and between batches writes are refused exactly while the buffer waits.
   */
  lemma WriterIsExact(ss: seq<State>, es: seq<Event>, i: nat, float: FloatText)
    requires IsRun(ss, es, float) && i < |ss|
    ensures ss[i].file.start <= |ss[i].hist|
    ensures ss[i].file.recs + ss[i].buf + ToRecords(QueuedWrites(ss[i].queue)) ==
            ss[i].file.head + ToRecords(ss[i].hist[ss[i].file.start..])
    ensures ss[i].size == |Encode(ss[i].file.recs)|
    ensures !ss[i].inBatch && !ss[i].stopped ==> ss[i].writesRefused == (ss[i].buf != [])
  {
    RunInv(ss, es, i, float);
    FileThenQueue(ss[i], float);
  }

  lemma FileThenQueue(s: State, float: FloatText)
    requires Core(s, float)
    ensures s.file.start <= |s.hist|
    ensures s.file.recs + s.buf + ToRecords(QueuedWrites(s.queue)) == s.file.head + ToRecords(s.hist[s.file.start..])
  {
    var f := s.file;
    RecordsGrow(f.head, s.hist, f.start, f.end, s.taken);
    RecordsGrow(f.head, s.hist, f.start, s.taken, |s.hist|);
    assert s.hist[s.taken..|s.hist|] == s.hist[s.taken..] && s.hist[f.start..|s.hist|] == s.hist[f.start..];
  }

  // ---- crashes ----

  /** The files of which a power loss may leave any at the log's path. */
  function Files(s: State): seq<LogFile> {
    s.older + [s.file]
  }

  /** What a crash may cut: the file, and for the current one the records that a flush is writing. */
  function ImageText(s: State, f: LogFile): string
  {
    Encode(f.recs + if f == s.file then s.buf else [])
  }

  predicate CutOf(s: State, f: LogFile, k: nat)
  {
    f.durable <= |f.recs| && |Encode(f.recs[..f.durable])| <= k <= |ImageText(s, f)|
  }

  /** How many writes the fsynced part of a file covers. */
  function DurableEnd(f: LogFile): int {
    f.start + f.durable - |f.head|
  }

  lemma {:induction false} ReloadConcat(d: Node, a: seq<Record>, b: seq<Record>, float: FloatText)
    ensures Reload(d, a + b, float) == Reload(Reload(d, a, float), b, float)
  {
    if b == [] {
      assert a + b == a;
    } else {
      ReloadConcat(d, a, b[..|b| - 1], float);
      assert (a + b)[..|a + b| - 1] == a + b[..|b| - 1];
    }
  }

  lemma {:induction false} LiveConcat(d: Node, a: seq<Write>, b: seq<Write>)
    ensures Live(d, a + b) == Live(Live(d, a), b)
  {
    if b == [] {
      assert a + b == a;
    } else {
      LiveConcat(d, a, b[..|b| - 1]);
      assert (a + b)[..|a + b| - 1] == a + b[..|b| - 1];
    }
  }

  lemma SliceRecords(head: seq<Record>, hist: seq<Write>, start: nat, end: nat, n: nat)
    requires start <= n <= end <= |hist|
    ensures (head + ToRecords(hist[start..end]))[..|head| + n - start] == head + ToRecords(hist[start..n])
  {
    assert ToRecords(hist[start..end])[..n - start] == ToRecords(hist[start..n]);
  }

  lemma LiveFrom(origin: Node, hist: seq<Write>, start: nat, n: nat)
    requires start <= n <= |hist|
    ensures Live(origin, hist[..n]) == Live(Live(origin, hist[..start]), hist[start..n])
  {
    assert hist[..n] == hist[..start] + hist[start..n];
    LiveConcat(origin, hist[..start], hist[start..n]);
  }

  /** The document that `f` stands for with its records up to write `n`: the snapshot's, then those writes. */
  function DocumentAt(f: LogFile, origin: Node, hist: seq<Write>, n: nat): Node
    requires f.ahead <= |hist| && f.start <= n <= |hist|
  {
    Live(Live(origin, hist[..f.ahead]), hist[f.start..n])
  }

  /** A file's head and the records of some writes after it load as that document. */
  lemma HeadReloads(f: LogFile, origin: Node, hist: seq<Write>, n: nat, float: FloatText)
    requires FileOk(f, origin, hist, float) && WritesOk(hist, float)
    requires f.start <= n <= |hist|
    ensures Same(DocumentAt(f, origin, hist, n), Reload(EMPTY_OBJ, f.head + ToRecords(hist[f.start..n]), float))
  {
    var before, after, ws := Live(origin, hist[..f.ahead]), Reload(EMPTY_OBJ, f.head, float), hist[f.start..n];
    HeadReads(f.head, f.base, float);
    ReloadConcat(EMPTY_OBJ, f.head, ToRecords(ws), float);
    ReloadSame(before, after, ws, float);
  }

  lemma FilePrintable(f: LogFile, origin: Node, hist: seq<Write>, end: nat, float: FloatText)
    requires FileOk(f, origin, hist, float) && WritesOk(hist, float)
    requires f.end <= end <= |hist|
    ensures var recs := f.head + ToRecords(hist[f.start..end]);
            forall i :: 0 <= i < |recs| ==> Printable(recs[i])
  {
    HeadReads(f.head, f.base, float);
    RecordsPrintable(hist[f.start..end], float);
  }

  /** A cut file is the head and the records of some of the writes after it, at least the fsynced ones. */
  lemma CutHistory(f: LogFile, origin: Node, hist: seq<Write>, end: nat, recs: seq<Record>, k: nat, float: FloatText)
    returns (n: nat)
    requires FileOk(f, origin, hist, float) && WritesOk(hist, float) && f.end <= end <= |hist|
    requires recs == f.head + ToRecords(hist[f.start..end])
    requires |Encode(f.recs[..f.durable])| <= k <= |Encode(recs)|
    ensures f.start <= n <= end && DurableEnd(f) <= n
    ensures var kept := f.head + ToRecords(hist[f.start..n]);
            && Load(Encode(recs)[..k]) == kept && Repaired(Encode(recs)[..k]) == Encode(kept)
            && f.durable <= |kept| && kept[..f.durable] == f.recs[..f.durable]
  {
    FilePrintable(f, origin, hist, end, float);
    SliceRecords(f.head, hist, f.start, end, f.end);
    assert recs[..f.durable] == f.recs[..f.durable];
    var j := CutReads(recs, k);
    n := f.start + j - |f.head|;
    SliceRecords(f.head, hist, f.start, end, n);
    assert recs[..j][..f.durable] == recs[..f.durable];
  }

  lemma CutReloads(f: LogFile, origin: Node, hist: seq<Write>, end: nat, recs: seq<Record>, k: nat, float: FloatText)
    returns (n: nat)
    requires FileOk(f, origin, hist, float) && WritesOk(hist, float) && f.end <= end <= |hist|
    requires recs == f.head + ToRecords(hist[f.start..end])
    requires |Encode(f.recs[..f.durable])| <= k <= |Encode(recs)|
    ensures f.start <= n <= end && DurableEnd(f) <= n
    ensures ReloadsAs(Encode(recs)[..k], DocumentAt(f, origin, hist, n), float)
  {
    n := CutHistory(f, origin, hist, end, recs, k, float);
    HeadReloads(f, origin, hist, n, float);
    FileLoads(f, origin, hist, n, float);
  }

  /** A restart loads `text` as `doc`, hole for null, and leaves a file that loads the same. */
  ghost predicate ReloadsAs(text: string, doc: Node, float: FloatText) {
    && Same(doc, Reload(EMPTY_OBJ, Load(text), float))
    && Load(Repaired(text)) == Load(text) && Repaired(Repaired(text)) == Repaired(text)
  }

  lemma FileLoads(f: LogFile, origin: Node, hist: seq<Write>, n: nat, float: FloatText)
    requires FileOk(f, origin, hist, float) && WritesOk(hist, float) && f.start <= n <= |hist|
    ensures var kept := f.head + ToRecords(hist[f.start..n]);
            Load(Encode(kept)) == kept && Repaired(Encode(kept)) == Encode(kept)
  {
    HeadReads(f.head, f.base, float);
    RecordsPrintable(hist[f.start..n], float);
    LoadEncoded(f.head + ToRecords(hist[f.start..n]));
  }

  /**
   After any run, under any policy and with any failures, whichever file is left
   and wherever it is cut, a restart loads (hole for null) the document of the
   file's snapshot and then some of the writes after it, in order and no fewer
   than what was fsynced; and the file it then cut back loads the same.
   */
  lemma CrashReloads(ss: seq<State>, es: seq<Event>, i: nat, f: LogFile, k: nat, float: FloatText) returns (n: nat)
    requires IsRun(ss, es, float) && i < |ss|
    requires f in Files(ss[i]) && CutOf(ss[i], f, k)
    ensures f.start <= f.ahead <= |ss[i].hist| && f.start <= n <= ImageEnd(ss[i], f) <= |ss[i].hist|
    ensures DurableEnd(f) <= n
    ensures ReloadsAs(ImageText(ss[i], f)[..k], DocumentAt(f, ss[i].origin, ss[i].hist, n), float)
    ensures Same(Live(ss[i].origin, ss[i].hist), ss[i].root)
  {
    RunInv(ss, es, i, float);
    n := ImageReloads(ss[i], f, k, float);
    ImageHolds(ss[i], f, float);
  }

  /**
   Every vacuum whose file is there at the start, and every one up to event `n`,
   replaces the file only when no write is queued behind it.
   */
  ghost predicate VacuumsAlone(ss: seq<State>, es: seq<Event>, n: nat)
    requires |ss| == |es| + 1
  {
    NoneAhead(ss[0]) &&
    forall i {:trigger es[i]} :: 0 <= i < n && i < |es| && es[i].Take? && es[i].dump.Dumped? && es[i].dump.renamed ==>
      QueuedWrites(ss[i].queue) == []
  }

  predicate NoneAhead(s: State) {
    forall f :: f in Files(s) ==> f.ahead == f.start
  }

  lemma DumpNoneAhead(s: State, o: DumpOutcome)
    requires NoneAhead(s) && InOrder(s)
    requires o.Dumped? && o.renamed ==> QueuedWrites(s.queue) == []
    ensures NoneAhead(Dump(s, o))
  {
    assert s.file in Files(s) && forall f :: f in s.older ==> f in Files(s);
    if o.Dumped? && o.renamed {
      assert |s.hist[s.taken..]| == 0;
    }
  }

  lemma FlushNoneAhead(s: State, o: FlushOutcome)
    requires NoneAhead(s)
    ensures NoneAhead(Flush(s, o)) && Flush(s, o).queue == s.queue
  {
    assert s.file in Files(s) && forall f :: f in s.older ==> f in Files(s);
  }

  lemma FsyncNoneAhead(s: State, ok: bool)
    requires NoneAhead(s)
    ensures NoneAhead(SyncNow(s, ok))
  {
    assert s.file in Files(s) && forall f :: f in s.older ==> f in Files(s);
  }

  lemma FinishNoneAhead(s: State, flush: FlushOutcome, sync: bool, synced: bool)
    requires NoneAhead(s)
    ensures NoneAhead(Finish(s, flush, sync, synced))
  {
    FlushNoneAhead(s, flush);
    FsyncNoneAhead(Flush(s, flush), synced);
  }

  lemma VacuumNoneAhead(s: State, dump: DumpOutcome, again: FlushOutcome)
    requires NoneAhead(s) && InOrder(s)
    requires dump.Dumped? && dump.renamed ==> QueuedWrites(s.queue) == []
    ensures NoneAhead(Vacuum(s, dump, again))
  {
    if !s.stopped {
      DumpNoneAhead(s, dump);
      FlushNoneAhead(Dump(s, dump), again);
    }
  }

  lemma TakeDumpNoneAhead(s: State, flush: FlushOutcome, dump: DumpOutcome, again: FlushOutcome, float: FloatText)
    requires Core(s, float) && NoneAhead(s) && s.queue != [] && s.queue[0].DumpRow?
    requires dump.Dumped? && dump.renamed ==> QueuedWrites(s.queue) == []
    ensures NoneAhead(TakeDump(s, flush, dump, again))
  {
    assert QueuedWrites(s.queue) == [] + QueuedWrites(s.queue[1..]);
    PopDump(s, float);
    FlushKeeps(Pop(s), flush, float);
    FlushNoneAhead(Pop(s), flush);
    VacuumNoneAhead(Flush(Pop(s), flush), dump, again);
  }

  lemma StepNoneAhead(s: State, e: Event, float: FloatText)
    requires Inv(s, float) && NoneAhead(s)
    requires e.Take? && e.dump.Dumped? && e.dump.renamed ==> QueuedWrites(s.queue) == []
    ensures NoneAhead(Step(s, e))
  {
    if !s.stopped {
      match e
      case Take(flush, dump, again) =>
        if s.queue != [] {
          match s.queue[0]
          case WriteRow(w) => FlushNoneAhead(Buffered(Pop(s), w), again);
          case DumpRow => TakeDumpNoneAhead(s, flush, dump, again, float);
        }
      case EndBatch(flush, synced) => FinishNoneAhead(s, flush, s.policy.Always?, synced);
      case Tick(flush, synced) =>
        FlushNoneAhead(s, flush);
        FsyncNoneAhead(Flush(s, flush), synced);
      case Close(flush, synced) => FinishNoneAhead(s, flush, true, synced);
      case _ =>
    }
  }

  lemma NoneAheadNext(ss: seq<State>, es: seq<Event>, i: nat, float: FloatText)
    requires IsRun(ss, es, float) && i < |es| && VacuumsAlone(ss, es, i + 1) && NoneAhead(ss[i])
    ensures NoneAhead(ss[i + 1])
  {
    RunInv(ss, es, i, float);
    StepNoneAhead(ss[i], es[i], float);
  }

  lemma RunNoneAhead(ss: seq<State>, es: seq<Event>, i: nat, float: FloatText)
    requires IsRun(ss, es, float) && i < |ss| && VacuumsAlone(ss, es, i)
    ensures NoneAhead(ss[i])
  {
    for k := 0 to i
      invariant NoneAhead(ss[k])
    {
      NoneAheadNext(ss, es, k, float);
    }
  }

  /**
   If every vacuum found no write queued behind it, that document is the one after
   a prefix of the accepted writes.
   */
  lemma CrashReloadsPrefix(ss: seq<State>, es: seq<Event>, i: nat, f: LogFile, k: nat, float: FloatText)
    returns (n: nat)
    requires IsRun(ss, es, float) && i < |ss| && VacuumsAlone(ss, es, i)
    requires f in Files(ss[i]) && CutOf(ss[i], f, k)
    ensures DurableEnd(f) <= n <= |ss[i].hist|
    ensures ReloadsAs(ImageText(ss[i], f)[..k], Live(ss[i].origin, ss[i].hist[..n]), float)
    ensures Same(Live(ss[i].origin, ss[i].hist), ss[i].root)
  {
    n := CrashReloads(ss, es, i, f, k, float);
    RunNoneAhead(ss, es, i, float);
    LiveFrom(ss[i].origin, ss[i].hist, f.start, n);
  }

  /** A file's text holds the records of the writes up to here. */
  function ImageEnd(s: State, f: LogFile): nat {
    if f == s.file then s.taken else f.end
  }

  lemma ImageHolds(s: State, f: LogFile, float: FloatText)
    requires Core(s, float) && f in Files(s)
    ensures FileOk(f, s.origin, s.hist, float) && f.end <= ImageEnd(s, f) <= |s.hist|
    ensures ImageText(s, f) == Encode(f.head + ToRecords(s.hist[f.start..ImageEnd(s, f)]))
  {
    if f == s.file {
      RecordsGrow(f.head, s.hist, f.start, f.end, s.taken);
    } else {
      assert f in s.older && f.recs + [] == f.recs;
    }
  }

  lemma ImageReloads(s: State, f: LogFile, k: nat, float: FloatText) returns (n: nat)
    requires Core(s, float) && f in Files(s) && CutOf(s, f, k)
    ensures f.start <= n <= ImageEnd(s, f) <= |s.hist| && f.ahead <= |s.hist| && DurableEnd(f) <= n
    ensures ReloadsAs(ImageText(s, f)[..k], DocumentAt(f, s.origin, s.hist, n), float)
  {
    ImageHolds(s, f, float);
    n := CutReloads(f, s.origin, s.hist, ImageEnd(s, f), f.head + ToRecords(s.hist[f.start..ImageEnd(s, f)]), k, float);
  }

  // ---- acknowledged writes ----

  /** Whichever file a power loss leaves, its fsynced part covers the first `d` writes. */
  predicate AtLeast(s: State, d: int) {
    forall f :: f in Files(s) ==> d <= DurableEnd(f)
  }

  /**
   An image of `f` with the records up to write `n` has the first `a` writes: they
   are all among them, or all in the snapshot and no older record follows it. What
   this means for the documents is `AofAhead.HoldsExactly`.
   */
  predicate Holds(f: LogFile, n: nat, a: nat) {
    a <= n || (a <= f.ahead && n == f.start)
  }

  /** So does every image of `f`, whose text goes up to write `end`. */
  predicate AllHold(f: LogFile, end: nat, a: nat) {
    forall n :: f.start <= n <= end && DurableEnd(f) <= n ==> Holds(f, n, a)
  }

  /** They do exactly if those writes are fsynced, or in the snapshot and no image ends before the last of them. */
  predicate Good(f: LogFile, end: nat, a: nat) {
    || a <= DurableEnd(f)
    || (a <= f.ahead && DurableEnd(f) == f.start && (end == f.start || a <= f.start + 1))
  }

  lemma GoodExactly(f: LogFile, end: nat, a: nat)
    requires f.start <= DurableEnd(f) <= end
    ensures AllHold(f, end, a) <==> Good(f, end, a)
  {
    if AllHold(f, end, a) {
      assert Holds(f, DurableEnd(f), a);
      assert f.start < end && DurableEnd(f) == f.start ==> Holds(f, f.start + 1, a);
    }
  }

  /** Whatever file may come back, it is good for the first `a` writes. */
  predicate AllGood(s: State, a: nat) {
    Good(s.file, s.taken, a) && forall f :: f in s.older ==> Good(f, f.end, a)
  }

  /** No crash loses one of the first `a` writes: every image of every file that may come back has them. */
  predicate KeepsFirst(s: State, a: nat) {
    AllHold(s.file, s.taken, a) && forall f :: f in s.older ==> AllHold(f, f.end, a)
  }

  /** Nor one whose client was told it is safe. */
  predicate KeepsAcked(s: State) {
    KeepsFirst(s, s.acked)
  }

  lemma FileEnds(s: State, float: FloatText)
    requires Core(s, float)
    ensures s.file.start <= DurableEnd(s.file) <= s.file.end <= s.taken
    ensures forall f :: f in s.older ==> f.start <= DurableEnd(f) <= f.end <= s.file.start
  {
    forall f | f in s.older
      ensures f.start <= DurableEnd(f) <= f.end <= s.file.start
    {
      assert OlderOk(f, s.file, s.origin, s.hist, float);
    }
  }

  lemma KeptIsGood(s: State, a: nat, float: FloatText)
    requires Core(s, float)
    ensures KeepsFirst(s, a) <==> AllGood(s, a)
  {
    FileEnds(s, float);
    GoodExactly(s.file, s.taken, a);
    forall f | f in s.older
      ensures AllHold(f, f.end, a) <==> Good(f, f.end, a)
    {
      GoodExactly(f, f.end, a);
    }
  }

  lemma FilesAre(s: State)
    ensures s.file in Files(s) && forall f :: f in Files(s) <==> f in s.older || f == s.file
  {
  }

  /** Each file that may come back covers the first `d` writes on disk, and is good for the first `a`. */
  ghost predicate Covers(s: State, d: int, a: nat) {
    && d <= s.taken && a <= s.taken && AllGood(s, a)
    && d <= DurableEnd(s.file) && forall f :: f in s.older ==> d <= DurableEnd(f)
  }

  lemma FlushCovers(s: State, o: FlushOutcome, d: int, a: nat)
    requires Covers(s, d, a)
    ensures Covers(Flush(s, o), d, a)
  {
  }

  lemma FsyncCovers(s: State, ok: bool, d: int, a: nat)
    requires Covers(s, d, a) && s.file.durable <= |s.file.recs| && s.file.start <= DurableEnd(s.file)
    ensures Covers(s.(file := Fsync(s.file, ok)), d, a)
  {
  }

  lemma SyncedCovers(s: State, flush: FlushOutcome, synced: bool, d: int, a: nat, float: FloatText)
    requires Core(s, float) && Covers(s, d, a)
    ensures Covers(Flush(s, flush), d, a) && Covers(SyncNow(Flush(s, flush), synced), d, a)
  {
    FlushCovers(s, flush, d, a);
    FlushKeeps(s, flush, float);
    FileEnds(Flush(s, flush), float);
    FsyncCovers(Flush(s, flush), synced, d, a);
  }

  lemma FinishCovers(s: State, flush: FlushOutcome, sync: bool, synced: bool, d: int, a: nat, float: FloatText)
    requires Core(s, float) && Covers(s, d, a)
    ensures Covers(Finish(s, flush, sync, synced), d, a)
  {
    FlushCovers(s, flush, d, a);
    SyncedCovers(s, flush, synced, d, a, float);
  }

  lemma DumpCovers(s: State, o: DumpOutcome, d: int, a: nat, float: FloatText)
    requires Core(s, float) && Covers(s, d, a)
    ensures Covers(Dump(s, o), d, a)
  {
    if o.Dumped? {
      FileEnds(s, float);
      FsyncCovers(s, o.oldSynced, d, a);
      FsyncKeeps(s, o.oldSynced, float);
      RenameCovers(s.(file := Fsync(s.file, o.oldSynced)), o.dirSynced, d, a, float);
    }
  }

  lemma RenameCovers(s: State, dirSynced: bool, d: int, a: nat, float: FloatText)
    requires Core(s, float) && Covers(s, d, a)
    ensures var older := if dirSynced then [] else s.older + [s.file];
            && d <= DurableEnd(Snapshot(s)) && Good(Snapshot(s), s.taken, a)
            && forall f :: f in older ==> d <= DurableEnd(f) && Good(f, f.end, a)
  {
    FileEnds(s, float);
  }

  lemma TakeDumpCovers(s: State, flush: FlushOutcome, dump: DumpOutcome, again: FlushOutcome, d: int, a: nat,
      float: FloatText)
    requires Core(s, float) && Covers(s, d, a) && s.queue != [] && s.queue[0].DumpRow?
    ensures Covers(TakeDump(s, flush, dump, again), d, a)
  {
    PopDump(s, float);
    FlushCovers(Pop(s), flush, d, a);
    FlushKeeps(Pop(s), flush, float);
    VacuumCovers(Flush(Pop(s), flush), dump, again, d, a, float);
  }

  lemma VacuumCovers(s: State, dump: DumpOutcome, again: FlushOutcome, d: int, a: nat, float: FloatText)
    requires Core(s, float) && Covers(s, d, a)
    ensures Covers(Vacuum(s, dump, again), d, a)
  {
    if !s.stopped {
      DumpCovers(s, dump, d, a, float);
      FlushCovers(Dump(s, dump), again, d, a);
    }
  }

  lemma TakeWriteCovers(s: State, w: Write, o: FlushOutcome, d: int, a: nat, float: FloatText)
    requires Core(s, float) && Covers(s, d, a) && s.queue != []
    ensures Covers(TakeWrite(s, w, o), d, a)
  {
    FileEnds(s, float);
    FlushCovers(Buffered(Pop(s), w), o, d, a);
  }

  lemma TakeCovers(s: State, flush: FlushOutcome, dump: DumpOutcome, again: FlushOutcome, d: int, a: nat,
      float: FloatText)
    requires Core(s, float) && Covers(s, d, a) && s.queue != [] && !s.stopped
    ensures Covers(Step(s, Take(flush, dump, again)), d, a)
  {
    match s.queue[0]
    case WriteRow(w) => TakeWriteCovers(s, w, again, d, a, float);
    case DumpRow => TakeDumpCovers(s, flush, dump, again, d, a, float);
  }

  lemma EndBatchCovers(s: State, flush: FlushOutcome, synced: bool, d: int, a: nat, float: FloatText)
    requires Core(s, float) && Covers(s, d, a) && !s.stopped
    ensures Covers(Step(s, EndBatch(flush, synced)), d, a)
  {
    FinishCovers(s, flush, s.policy.Always?, synced, d, a, float);
  }

  lemma CloseCovers(s: State, flush: FlushOutcome, synced: bool, d: int, a: nat, float: FloatText)
    requires Core(s, float) && Covers(s, d, a) && !s.stopped
    ensures Covers(Step(s, Close(flush, synced)), d, a)
  {
    FinishCovers(s, flush, true, synced, d, a, float);
  }

  lemma TickCovers(s: State, flush: FlushOutcome, synced: bool, d: int, a: nat, float: FloatText)
    requires Core(s, float) && Covers(s, d, a)
    ensures Covers(Step(s, Tick(flush, synced)), d, a)
  {
    SyncedCovers(s, flush, synced, d, a, float);
  }

  lemma RequestCovers(s: State, e: Event, d: int, a: nat)
    requires Covers(s, d, a) && (e.Accept? || e.RequestVacuum?)
    ensures Covers(Step(s, e), d, a)
  {
  }

  /** What is durable stays durable, and what is good stays good, in every file that may come back. */
  lemma StepCovers(s: State, e: Event, d: int, a: nat, float: FloatText)
    requires Inv(s, float) && Covers(s, d, a)
    ensures Covers(Step(s, e), d, a)
  {
    if !s.stopped {
      match e
      case Take(flush, dump, again) =>
        if s.queue != [] {
          TakeCovers(s, flush, dump, again, d, a, float);
        }
      case EndBatch(flush, synced) => EndBatchCovers(s, flush, synced, d, a, float);
      case Tick(flush, synced) => TickCovers(s, flush, synced, d, a, float);
      case Close(flush, synced) => CloseCovers(s, flush, synced, d, a, float);
      case _ => RequestCovers(s, e, d, a);
    }
  }

  lemma EncodedFirst(recs: seq<Record>, n: nat)
    requires n <= |recs|
    ensures |Encode(recs[..n])| <= |Encode(recs)| && Encode(recs)[..|Encode(recs[..n])|] == Encode(recs[..n])
  {
    assert recs == recs[..n] + recs[n..];
    EncodeConcat(recs[..n], recs[n..]);
  }

  lemma ImageFirst(f: LogFile, hist: seq<Write>, end: nat, n: nat, origin: Node, float: FloatText)
    requires FileOk(f, origin, hist, float) && WritesOk(hist, float) && f.end <= end <= |hist|
    requires f.start <= n <= end && DurableEnd(f) <= n
    ensures var recs, kept := f.head + ToRecords(hist[f.start..end]), f.head + ToRecords(hist[f.start..n]);
            && |Encode(f.recs[..f.durable])| <= |Encode(kept)| <= |Encode(recs)|
            && Load(Encode(recs)[..|Encode(kept)|]) == kept
  {
    FirstRecords(f, hist, end, n);
    DurableFirst(f, hist, end, n, origin, float);
    FileLoads(f, origin, hist, n, float);
  }

  lemma FirstRecords(f: LogFile, hist: seq<Write>, end: nat, n: nat)
    requires f.start <= n <= end <= |hist|
    ensures var recs, kept := f.head + ToRecords(hist[f.start..end]), f.head + ToRecords(hist[f.start..n]);
            |Encode(kept)| <= |Encode(recs)| && Encode(recs)[..|Encode(kept)|] == Encode(kept)
  {
    var recs, kept := f.head + ToRecords(hist[f.start..end]), f.head + ToRecords(hist[f.start..n]);
    SliceRecords(f.head, hist, f.start, end, n);
    EncodedFirst(recs, |kept|);
  }

  lemma DurableFirst(f: LogFile, hist: seq<Write>, end: nat, n: nat, origin: Node, float: FloatText)
    requires FileOk(f, origin, hist, float) && f.end <= end <= |hist|
    requires f.start <= n <= end && DurableEnd(f) <= n
    ensures |Encode(f.recs[..f.durable])| <= |Encode(f.head + ToRecords(hist[f.start..n]))|
  {
    var kept := f.head + ToRecords(hist[f.start..n]);
    SliceRecords(f.head, hist, f.start, end, n);
    SliceRecords(f.head, hist, f.start, end, f.end);
    assert f.recs[..f.durable] == kept[..f.durable];
    EncodedFirst(kept, f.durable);
  }

  /** Each of those images is one that a crash can leave: `CrashReloads` leaves out none, and names none too many. */
  lemma EveryImage(s: State, f: LogFile, n: nat, float: FloatText) returns (k: nat)
    requires Core(s, float) && f in Files(s) && f.start <= n <= ImageEnd(s, f) && DurableEnd(f) <= n
    ensures CutOf(s, f, k) && n <= |s.hist|
    ensures Load(ImageText(s, f)[..k]) == f.head + ToRecords(s.hist[f.start..n])
  {
    ImageHolds(s, f, float);
    k := |Encode(f.head + ToRecords(s.hist[f.start..n]))|;
    ImageFirst(f, s.hist, ImageEnd(s, f), n, s.origin, float);
  }

  /** The step tells waiting clients that their writes are safe. */
  predicate Releases(s: State, e: Event) {
    s.waiters != [] && Step(s, e).waiters == []
  }

  /**
   Every file that a power loss may leave is good for all the writes taken so far,
   or the next fsync of it makes it so.
   */
  predicate Releasable(s: State) {
    && (forall f :: f in s.older ==> Good(f, f.end, s.taken))
    && (s.file.poisoned ==> Good(s.file, s.taken, s.taken))
  }

  // ---- what is synced, under any policy ----

  /**
   With nothing written since the last fsync, and unless an fsync of the file failed,
   all of it is on disk, or what was loaded is all it has.
   */
  ghost predicate SyncedOk(s: State) {
    && (s.unsynced || s.buf != [] ==> s.loaded < s.taken)
    && (!s.stopped && !s.unsynced && !s.file.poisoned ==>
          s.file.durable == |s.file.recs| || s.file.end <= s.loaded)
  }

  lemma FlushSynced(s: State, o: FlushOutcome)
    requires SyncedOk(s)
    ensures SyncedOk(Flush(s, o))
  {
  }

  lemma DumpSynced(s: State, o: DumpOutcome)
    requires SyncedOk(s)
    ensures SyncedOk(Dump(s, o))
  {
  }

  lemma FinishSynced(s: State, flush: FlushOutcome, sync: bool, synced: bool)
    requires SyncedOk(s)
    ensures SyncedOk(Finish(s, flush, sync, synced))
  {
    FlushSynced(s, flush);
  }

  lemma TakeWriteSynced(s: State, w: Write, o: FlushOutcome)
    requires SyncedOk(s) && s.loaded <= s.taken && s.queue != []
    ensures SyncedOk(TakeWrite(s, w, o))
  {
    FlushSynced(Buffered(Pop(s), w), o);
  }

  lemma TakeDumpSynced(s: State, flush: FlushOutcome, dump: DumpOutcome, again: FlushOutcome)
    requires SyncedOk(s) && s.queue != []
    ensures SyncedOk(TakeDump(s, flush, dump, again))
  {
    var t := Flush(Pop(s), flush);
    FlushSynced(Pop(s), flush);
    if !t.stopped {
      DumpSynced(t, dump);
      FlushSynced(Dump(t, dump), again);
    }
  }

  lemma StepSynced(s: State, e: Event)
    requires SyncedOk(s) && s.loaded <= s.taken
    ensures SyncedOk(Step(s, e))
  {
    if !s.stopped {
      match e
      case Take(flush, dump, again) =>
        if s.queue != [] {
          match s.queue[0] {
            case WriteRow(w) => TakeWriteSynced(s, w, again);
            case DumpRow => TakeDumpSynced(s, flush, dump, again);
          }
        }
      case EndBatch(flush, synced) => FinishSynced(s, flush, s.policy.Always?, synced);
      case Tick(flush, synced) => FlushSynced(s, flush);
      case Close(flush, synced) => FinishSynced(s, flush, true, synced);
      case _ =>
    }
  }

  lemma SyncedNext(ss: seq<State>, es: seq<Event>, i: nat, float: FloatText)
    requires IsRun(ss, es, float) && i < |es| && SyncedOk(ss[i])
    ensures SyncedOk(ss[i + 1])
  {
    RunInv(ss, es, i, float);
    StepSynced(ss[i], es[i]);
  }

  lemma RunSynced(ss: seq<State>, es: seq<Event>, i: nat, float: FloatText)
    requires IsRun(ss, es, float) && i < |ss|
    ensures SyncedOk(ss[i])
  {
    for k := 0 to i
      invariant SyncedOk(ss[k])
    {
      SyncedNext(ss, es, k, float);
    }
  }

  // ---- who waits, under always ----

  /** Under always: who waits. */
  ghost predicate AlwaysOk(s: State) {
    match s.policy
    case Always =>
      && (s.waiters != [] ==> s.waiters[|s.waiters| - 1] == s.taken)
      && (!s.stopped ==>
            && (s.buf != [] ==> s.waiters != []))
    case _ => false
  }

  lemma FlushAlways(s: State, o: FlushOutcome)
    requires AlwaysOk(s) && InOrder(s)
    ensures AlwaysOk(Flush(s, o))
  {
  }

  lemma FinishAlways(s: State, flush: FlushOutcome, synced: bool)
    requires AlwaysOk(s) && InOrder(s) && FlagsOk(s)
    ensures AlwaysOk(Finish(s, flush, true, synced))
  {
    FlushAlways(s, flush);
    if !FlushFails(s, flush) {
      FlushEmpties(s, flush);
    }
  }

  lemma DumpAlways(s: State, o: DumpOutcome)
    requires AlwaysOk(s) && InOrder(s) && s.file.start <= s.file.end
    ensures AlwaysOk(Dump(s, o))
  {
  }

  lemma TakeWriteAlways(s: State, w: Write, o: FlushOutcome)
    requires AlwaysOk(s) && InOrder(s) && s.queue != [] && s.queue[0] == WriteRow(w)
    ensures AlwaysOk(TakeWrite(s, w, o))
  {
    BufferedInOrder(s, w);
    FlushAlways(Buffered(Pop(s), w), o);
  }

  lemma VacuumAlways(s: State, dump: DumpOutcome, again: FlushOutcome, float: FloatText)
    requires AlwaysOk(s) && Core(s, float)
    ensures AlwaysOk(Vacuum(s, dump, again))
  {
    if !s.stopped {
      DumpAlways(s, dump);
      DumpKeeps(s, dump, float);
      FlushAlways(Dump(s, dump), again);
    }
  }

  lemma TakeDumpAlways(s: State, flush: FlushOutcome, dump: DumpOutcome, again: FlushOutcome, float: FloatText)
    requires AlwaysOk(s) && Core(s, float) && s.queue != [] && s.queue[0].DumpRow?
    ensures AlwaysOk(TakeDump(s, flush, dump, again))
  {
    PopDump(s, float);
    FlushAlways(Pop(s), flush);
    FlushKeeps(Pop(s), flush, float);
    VacuumAlways(Flush(Pop(s), flush), dump, again, float);
  }

  lemma TakeAlways(s: State, flush: FlushOutcome, dump: DumpOutcome, again: FlushOutcome, float: FloatText)
    requires AlwaysOk(s) && Core(s, float) && s.queue != [] && !s.stopped
    ensures AlwaysOk(Step(s, Take(flush, dump, again)))
  {
    match s.queue[0]
    case WriteRow(w) => TakeWriteAlways(s, w, again);
    case DumpRow => TakeDumpAlways(s, flush, dump, again, float);
  }

  lemma EndBatchAlways(s: State, flush: FlushOutcome, synced: bool)
    requires AlwaysOk(s) && InOrder(s) && FlagsOk(s) && !s.stopped
    ensures AlwaysOk(Step(s, EndBatch(flush, synced)))
  {
    FinishAlways(s, flush, synced);
  }

  lemma CloseAlways(s: State, flush: FlushOutcome, synced: bool)
    requires AlwaysOk(s) && InOrder(s) && FlagsOk(s) && !s.stopped
    ensures AlwaysOk(Step(s, Close(flush, synced)))
  {
    FinishAlways(s, flush, synced);
  }

  /** Requests change neither the files nor what waits for them. */
  lemma RequestAlways(s: State, e: Event)
    requires AlwaysOk(s) && (e.Accept? || e.RequestVacuum?)
    ensures AlwaysOk(Step(s, e))
  {
  }

  lemma TickAlways(s: State, flush: FlushOutcome, synced: bool)
    requires AlwaysOk(s) && InOrder(s)
    ensures AlwaysOk(Step(s, Tick(flush, synced)))
  {
    FlushAlways(s, flush);
  }

  lemma StepAlways(s: State, e: Event, float: FloatText)
    requires AlwaysOk(s) && Inv(s, float)
    ensures AlwaysOk(Step(s, e))
  {
    if !s.stopped {
      match e
      case Take(flush, dump, again) =>
        if s.queue != [] {
          TakeAlways(s, flush, dump, again, float);
        }
      case EndBatch(flush, synced) => EndBatchAlways(s, flush, synced);
      case Tick(flush, synced) => TickAlways(s, flush, synced);
      case Close(flush, synced) => CloseAlways(s, flush, synced);
      case _ => RequestAlways(s, e);
    }
  }

  /** Only the end of a batch and the close of the writer let clients go, and then all of them. */
  lemma ReleasesAre(s: State, e: Event)
    requires FlagsOk(s) && AlwaysOk(s)
    ensures Releases(s, e) ==>
              && !s.stopped && (e.EndBatch? || e.Close?) && !FlushFails(s, e.flush)
              && var t := SyncNow(Flush(s, e.flush), e.synced);
                 Step(s, e).file == t.file && Step(s, e).older == s.older && Step(s, e).acked == s.taken
    ensures !Releases(s, e) ==> Step(s, e).acked == s.acked
  {
    if !s.stopped && (e.EndBatch? || e.Close?) {
      FinishReleases(s, e.flush, e.synced);
    }
  }

  lemma FinishReleases(s: State, flush: FlushOutcome, synced: bool)
    requires FlagsOk(s) && AlwaysOk(s) && !s.stopped
    ensures var t := Finish(s, flush, true, synced);
            if s.waiters != [] && t.waiters == [] then
              var u := SyncNow(Flush(s, flush), synced);
              !FlushFails(s, flush) && t.file == u.file && t.older == s.older && t.acked == s.taken
            else t.acked == s.acked
  {
    MaxOfBound(s.acked, s.waiters, s.loaded, s.taken);
  }

  /** What the current file holds once its batch is flushed and fsynced. */
  lemma SyncedEnd(s: State, flush: FlushOutcome, synced: bool, float: FloatText)
    requires Core(s, float) && SyncedOk(s) && !s.stopped && s.loaded < s.taken && !FlushFails(s, flush)
    ensures var t := SyncNow(Flush(s, flush), synced);
            !t.stopped ==> DurableEnd(t.file) == if s.file.poisoned then DurableEnd(s.file) else s.taken
  {
    FlushEmpties(s, flush);
    FlushKeeps(s, flush, float);
  }

  /**
   Under always the end of a batch, and of the writer, keeps its promise exactly
   if every file that a power loss may still bring back is good for it, or is the
   current one and no fsync of it has failed.
   */
  lemma ReleaseExact(s: State, e: Event, float: FloatText)
    requires Inv(s, float) && EventOk(e, float) && AlwaysOk(s) && SyncedOk(s) && Releases(s, e)
    ensures Step(s, e).acked == s.taken
    ensures KeepsAcked(Step(s, e)) <==> Releasable(s)
  {
    var t := Step(s, e);
    ReleasesAre(s, e);
    SyncedEnd(s, e.flush, e.synced, float);
    StepKeeps(s, e, float);
    KeptIsGood(t, t.acked, float);
    SyncedGood(s.file, t.file, s.taken);
  }

  /** What an fsync makes of the current file. */
  lemma SyncedGood(f: LogFile, g: LogFile, a: nat)
    requires g.start == f.start && g.ahead == f.ahead
    requires DurableEnd(g) == if f.poisoned then DurableEnd(f) else a
    ensures Good(g, a, a) <==> (f.poisoned ==> Good(f, a, a))
  {
  }

  /**
   With records still in the buffer, each file that may come back must have all the
   writes in its snapshot. If every vacuum found no write queued that is: no older
   file may come back, and no fsync of this one has failed.
   */
  lemma ReleasableExactly(s: State, float: FloatText)
    requires Inv(s, float) && AlwaysOk(s) && s.buf != []
    ensures Releasable(s) <==>
            && (forall f :: f in s.older ==>
                  s.taken <= f.ahead && DurableEnd(f) == f.start && (f.end == f.start || s.taken == f.start + 1))
            && (s.file.poisoned ==>
                  s.taken <= s.file.ahead && DurableEnd(s.file) == s.file.start && s.taken == s.file.start + 1)
    ensures NoneAhead(s) ==> (Releasable(s) <==> s.older == [] && !s.file.poisoned)
  {
    FileEnds(s, float);
    FilesAre(s);
    assert |s.buf| == s.taken - s.file.end;
    if s.older != [] {
      assert s.older[0] in s.older;
    }
  }

  lemma StartedAlways(s: State, float: FloatText)
    requires Started(s, float) && s.policy.Always?
    ensures AlwaysOk(s) && KeepsAcked(s)
  {
  }

  lemma RunAlways(ss: seq<State>, es: seq<Event>, i: nat, float: FloatText)
    requires IsRun(ss, es, float) && i < |ss| && ss[0].policy.Always?
    ensures AlwaysOk(ss[i])
  {
    StartedAlways(ss[0], float);
    for k := 0 to i
      invariant AlwaysOk(ss[k])
    {
      AlwaysNext(ss, es, k, float);
    }
  }

  lemma AlwaysNext(ss: seq<State>, es: seq<Event>, i: nat, float: FloatText)
    requires IsRun(ss, es, float) && i < |es| && AlwaysOk(ss[i])
    ensures AlwaysOk(ss[i + 1])
  {
    RunInv(ss, es, i, float);
    StepAlways(ss[i], es[i], float);
  }

  /** Up to event `n`, whenever clients are let go, every file that may come back is good for it. */
  ghost predicate ReleasesSafely(ss: seq<State>, es: seq<Event>, n: nat)
    requires |ss| == |es| + 1
  {
    forall i {:trigger es[i]} :: 0 <= i < n && i < |es| && Releases(ss[i], es[i]) ==> Releasable(ss[i])
  }

  lemma FirstStays(s: State, e: Event, a: nat, float: FloatText)
    requires Inv(s, float) && EventOk(e, float) && KeepsFirst(s, a) && a <= s.taken
    ensures KeepsFirst(Step(s, e), a)
  {
    FileEnds(s, float);
    KeptIsGood(s, a, float);
    StepCovers(s, e, 0, a, float);
    StepKeeps(s, e, float);
    KeptIsGood(Step(s, e), a, float);
  }

  lemma {:induction false} RunKeepsAcked(ss: seq<State>, es: seq<Event>, i: nat, float: FloatText)
    requires IsRun(ss, es, float) && i < |ss| && ss[0].policy.Always? && ReleasesSafely(ss, es, i)
    ensures KeepsAcked(ss[i])
  {
    if i == 0 {
      StartedAlways(ss[0], float);
    } else {
      var s, e := ss[i - 1], es[i - 1];
      RunKeepsAcked(ss, es, i - 1, float);
      RunInv(ss, es, i - 1, float);
      RunAlways(ss, es, i - 1, float);
      RunSynced(ss, es, i - 1, float);
      ReleasesAre(s, e);
      if Releases(s, e) {
        ReleaseExact(s, e, float);
      } else {
        FirstStays(s, e, s.acked, float);
      }
    }
  }

  /**
   Under always, whatever fails: no state of a run can lose an acknowledged write
   to a crash exactly if clients were only let go when every file that a power
   loss may bring back was good for it.
   */
  lemma AlwaysExactly(ss: seq<State>, es: seq<Event>, n: nat, float: FloatText)
    requires IsRun(ss, es, float) && n < |ss| && ss[0].policy.Always?
    ensures (forall i :: 0 <= i <= n ==> KeepsAcked(ss[i])) <==> ReleasesSafely(ss, es, n)
  {
    if ReleasesSafely(ss, es, n) {
      forall i | 0 <= i <= n
        ensures KeepsAcked(ss[i])
      {
        RunKeepsAcked(ss, es, i, float);
      }
    }
    if forall i :: 0 <= i <= n ==> KeepsAcked(ss[i]) {
      forall i {:trigger es[i]} | 0 <= i < n && Releases(ss[i], es[i])
        ensures Releasable(ss[i])
      {
        RunInv(ss, es, i, float);
        RunAlways(ss, es, i, float);
        RunSynced(ss, es, i, float);
        assert KeepsAcked(ss[i + 1]);
        ReleaseExact(ss[i], es[i], float);
      }
    }
  }

  lemma DurableNext(ss: seq<State>, es: seq<Event>, i: nat, d: int, float: FloatText)
    requires IsRun(ss, es, float) && i < |es| && AtLeast(ss[i], d)
    ensures AtLeast(ss[i + 1], d)
  {
    RunInv(ss, es, i, float);
    FilesAre(ss[i]);
    FilesAre(ss[i + 1]);
    FileEnds(ss[i], float);
    StepCovers(ss[i], es[i], d, 0, float);
  }

  lemma DurableSteps(ss: seq<State>, es: seq<Event>, d: int, float: FloatText)
    requires IsRun(ss, es, float)
    ensures forall k {:trigger ss[k]} :: 0 <= k < |es| && AtLeast(ss[k], d) ==> AtLeast(ss[k + 1], d)
  {
    forall k {:trigger ss[k]} | 0 <= k < |es| && AtLeast(ss[k], d)
      ensures AtLeast(ss[k + 1], d)
    {
      DurableNext(ss, es, k, d, float);
    }
  }

  lemma {:induction false} DurableOnwards(ss: seq<State>, i: nat, j: nat, d: int)
    requires forall k {:trigger ss[k]} :: 0 <= k < |ss| - 1 && AtLeast(ss[k], d) ==> AtLeast(ss[k + 1], d)
    requires i <= j < |ss| && AtLeast(ss[i], d)
    ensures AtLeast(ss[j], d)
    decreases j - i
  {
    if i < j {
      DurableOnwards(ss, i + 1, j, d);
    }
  }

  /** What was durable at event `i` is so ever after, under any policy. */
  lemma DurableStays(ss: seq<State>, es: seq<Event>, i: nat, j: nat, d: int, float: FloatText)
    requires IsRun(ss, es, float) && i <= j < |ss| && AtLeast(ss[i], d)
    ensures AtLeast(ss[j], d)
  {
    DurableSteps(ss, es, d, float);
    DurableOnwards(ss, i, j, d);
  }

  /**
   Then every crash, at any byte and also inside a vacuum, leaves all acknowledged
   writes, in the records or in the snapshot; and any `d` first writes that were
   durable in every file at the start.
   */
  lemma AlwaysKeepsAcknowledged(ss: seq<State>, es: seq<Event>, i: nat, f: LogFile, k: nat, d: int, float: FloatText)
    returns (n: nat)
    requires IsRun(ss, es, float) && i < |ss| && f in Files(ss[i]) && CutOf(ss[i], f, k)
    requires ss[0].policy.Always? && ReleasesSafely(ss, es, i) && AtLeast(ss[0], d)
    ensures f.ahead <= |ss[i].hist| && f.start <= n <= |ss[i].hist|
    ensures Holds(f, n, ss[i].acked) && d <= n
    ensures ReloadsAs(ImageText(ss[i], f)[..k], DocumentAt(f, ss[i].origin, ss[i].hist, n), float)
  {
    n := CrashReloads(ss, es, i, f, k, float);
    RunKeepsAcked(ss, es, i, float);
    FilesAre(ss[i]);
    DurableStays(ss, es, 0, i, d, float);
  }

  // ---- when no vacuum swallows an error that matters ----

  /** A vacuum none of whose ignored errors matter: its rename is made durable, or the old file is. */
  predicate CleanEvent(e: Event) {
    e.Take? && e.dump.Dumped? ==> if e.dump.renamed then e.dump.dirSynced else e.dump.oldSynced
  }

  ghost predicate Clean(s: State) {
    s.older == [] && (!s.stopped ==> !s.file.poisoned)
  }

  lemma FinishClean(s: State, flush: FlushOutcome, sync: bool, synced: bool)
    requires Clean(s)
    ensures Clean(Finish(s, flush, sync, synced))
  {
  }

  lemma TakeDumpClean(s: State, flush: FlushOutcome, dump: DumpOutcome, again: FlushOutcome)
    requires Clean(s) && s.queue != []
    requires dump.Dumped? ==> if dump.renamed then dump.dirSynced else dump.oldSynced
    ensures Clean(TakeDump(s, flush, dump, again))
  {
    var t := Flush(Pop(s), flush);
    assert Clean(t);
    if !t.stopped {
      assert Clean(Dump(t, dump));
    }
  }

  lemma StepClean(s: State, e: Event)
    requires Clean(s) && CleanEvent(e)
    ensures Clean(Step(s, e))
  {
    if !s.stopped {
      match e
      case Take(flush, dump, again) =>
        if s.queue != [] && s.queue[0].DumpRow? {
          TakeDumpClean(s, flush, dump, again);
        }
      case EndBatch(flush, synced) => FinishClean(s, flush, s.policy.Always?, synced);
      case Close(flush, synced) => FinishClean(s, flush, true, synced);
      case _ =>
    }
  }

  lemma {:induction false} RunClean(ss: seq<State>, es: seq<Event>, i: nat, float: FloatText)
    requires IsRun(ss, es, float) && i < |ss| && Clean(ss[0])
    requires forall j :: 0 <= j < i ==> CleanEvent(es[j])
    ensures Clean(ss[i])
  {
    if i > 0 {
      RunClean(ss, es, i - 1, float);
      StepClean(ss[i - 1], es[i - 1]);
      assert ss[i] == Step(ss[i - 1], es[i - 1]);
    }
  }

  /** In such a run, with any last step, clients are only let go safely. */
  lemma CleanReleasesSafely(ss: seq<State>, es: seq<Event>, n: nat, float: FloatText)
    requires IsRun(ss, es, float) && n < |ss| && ss[0].policy.Always? && Clean(ss[0])
    requires forall j :: 0 <= j < n - 1 ==> CleanEvent(es[j])
    ensures ReleasesSafely(ss, es, n)
  {
    forall i {:trigger es[i]} | 0 <= i < n && Releases(ss[i], es[i])
      ensures Releasable(ss[i])
    {
      RunInv(ss, es, i, float);
      RunAlways(ss, es, i, float);
      RunClean(ss, es, i, float);
      ReleasesAre(ss[i], es[i]);
    }
  }

  // ---- a restart is a start ----

  /** A write as its record reads back: holes have become null. */
  function ReadBack(w: Write): Write {
    match w
    case SetWrite(k, v) => SetWrite(k, Norm(v))
    case DelWrite(k) => w
  }

  lemma RecordReadsBack(d: Node, w: Write, float: FloatText)
    requires WriteOk(w, float)
    ensures WriteOk(ReadBack(w), float) && ApplyRecord(d, ToRecord(w), float) == Apply(d, ReadBack(w))
  {
    if w.SetWrite? {
      RenderedNode(w.val, float);
      NormWellFormed(w.val, float);
    }
  }

  lemma HeadLoads(head: seq<Record>, base: Node, float: FloatText)
    requires DocumentOk(base, float) && HeadIs(head, base)
    ensures DocumentOk(Reload(EMPTY_OBJ, head, float), float)
  {
    if head != [] {
      assert head[..0] == [];
      ParseRender(base, float);
      NormWellFormed(base, float);
    }
  }

  /** What a file loads as is a document that a writer can go on with. */
  lemma {:induction false} LoadedOk(d: Node, ws: seq<Write>, float: FloatText)
    requires DocumentOk(d, float) && WritesOk(ws, float)
    ensures DocumentOk(Reload(d, ToRecords(ws), float), float)
  {
    if ws != [] {
      var init, last := ws[..|ws| - 1], ws[|ws| - 1];
      LoadedOk(d, init, float);
      assert ToRecords(ws)[..|ws| - 1] == ToRecords(init);
      RecordReadsBack(Reload(d, ToRecords(init), float), last, float);
      ApplyOk(Reload(d, ToRecords(init), float), ReadBack(last), float);
    }
  }

  /** The writes that a restart has loaded: those of the snapshot, then those of the records up to `n`. */
  function LoadedHist(f: LogFile, hist: seq<Write>, n: nat): seq<Write>
    requires f.start <= n <= |hist| && f.ahead <= |hist|
  {
    hist[..f.ahead] + hist[f.start..n]
  }

  /** The same file in terms of that history. */
  function LoadedFile(f: LogFile, hist: seq<Write>, n: nat, synced: bool, poisoned: bool): LogFile
    requires f.start <= n <= |hist| && f.ahead <= |hist|
  {
    var recs := f.head + ToRecords(hist[f.start..n]);
    f.(start := f.ahead, end := f.ahead + n - f.start, recs := recs, durable := if synced then |recs| else f.durable,
       poisoned := poisoned)
  }

  lemma LoadedFileOk(f: LogFile, origin: Node, hist: seq<Write>, n: nat, synced: bool, poisoned: bool,
      float: FloatText)
    requires FileOk(f, origin, hist, float) && f.start <= n <= |hist| && DurableEnd(f) <= n
    ensures FileOk(LoadedFile(f, hist, n, synced, poisoned), origin, LoadedHist(f, hist, n), float)
  {
    var all := LoadedHist(f, hist, n);
    assert all[..f.ahead] == hist[..f.ahead] && all[f.ahead..f.ahead + n - f.start] == hist[f.start..n];
  }

  lemma LoadedHistOk(f: LogFile, origin: Node, hist: seq<Write>, n: nat, float: FloatText)
    requires FileOk(f, origin, hist, float) && DocumentOk(origin, float) && WritesOk(hist, float)
    requires f.start <= n <= |hist|
    ensures var root := Reload(EMPTY_OBJ, f.head + ToRecords(hist[f.start..n]), float);
            HistOk(origin, LoadedHist(f, hist, n), root, float)
  {
    HeadReloads(f, origin, hist, n, float);
    LiveConcat(origin, hist[..f.ahead], hist[f.start..n]);
    HeadLoads(f.head, f.base, float);
    LoadedOk(Reload(EMPTY_OBJ, f.head, float), hist[f.start..n], float);
    ReloadConcat(EMPTY_OBJ, f.head, ToRecords(hist[f.start..n]), float);
  }

  /** An older file means the same to the next process. */
  lemma LoadedOlder(f: LogFile, g: LogFile, origin: Node, hist: seq<Write>, n: nat, h: LogFile, float: FloatText)
    requires FileOk(f, origin, hist, float) && OlderOk(g, f, origin, hist, float)
    requires f.start <= n <= |hist| && h.start == h.ahead == f.ahead
    ensures OlderOk(g, h, origin, LoadedHist(f, hist, n), float)
  {
    var all := LoadedHist(f, hist, n);
    assert all[..g.ahead] == hist[..g.ahead] && all[g.start..g.end] == hist[g.start..g.end];
  }

  /** A writer on the loaded file `g`. */
  function Restarted(policy: Policy, root: Node, origin: Node, hist: seq<Write>, older: seq<LogFile>,
      g: LogFile): State
  {
    State(policy, root, [], [], |Encode(g.recs)|, [], false, false, false, false, older, g,
          origin, hist, |hist|, |hist|, 0)
  }

  lemma RestartedStarts(policy: Policy, root: Node, origin: Node, hist: seq<Write>, older: seq<LogFile>, g: LogFile,
      float: FloatText)
    requires HistOk(origin, hist, root, float) && FileOk(g, origin, hist, float) && g.end == |hist|
    requires forall f :: f in older ==> OlderOk(f, g, origin, hist, float)
    ensures Started(Restarted(policy, root, origin, hist, older, g), float)
  {
    assert ToRecords(hist[g.end..|hist|]) == [];
  }

  /**
   The state a restart makes of a file cut by a crash is one that runs start
   from, with the document it loaded, the file it cut back and the writes it
   found: what is proved of every run holds again, through any number of crashes.
   A power loss has chosen one of the files and undone failed fsyncs; a process
   that just ends leaves both as they were. The load fsyncs the file only if it cuts
   something off. If that fails (`!synced`) it fails too, and the next one finds
   nothing to cut. If `s` kept the acknowledged writes, they are among those found.
   */
  lemma RestartStarts(s: State, f: LogFile, k: nat, powerLost: bool, synced: bool, float: FloatText)
    returns (t: State, n: nat)
    requires Core(s, float) && f in Files(s) && CutOf(s, f, k)
    requires !powerLost ==> f == s.file
    ensures f.start <= n <= |s.hist| && f.ahead <= |s.hist|
    ensures Started(t, float) && t.policy == s.policy && t.origin == s.origin && t.hist == LoadedHist(f, s.hist, n)
    ensures t.root == Reload(EMPTY_OBJ, Load(ImageText(s, f)[..k]), float)
    ensures Encode(t.file.recs) == Repaired(ImageText(s, f)[..k]) && f.recs[..f.durable] <= t.file.recs
    ensures t.older == if powerLost then [] else s.older
    ensures CutOff(f, t.file, powerLost, Torn(ImageText(s, f)[..k]), synced)
    ensures KeepsAcked(s) ==> Holds(f, n, s.acked)
  {
    var end := ImageEnd(s, f);
    ImageHolds(s, f, float);
    n := CutHistory(f, s.origin, s.hist, end, f.head + ToRecords(s.hist[f.start..end]), k, float);
    t := CutRestarts(s, f, n, powerLost, Torn(ImageText(s, f)[..k]), synced, float);
    KeptHolds(s, f, n);
  }

  /** The load finds a torn record at the end. */
  predicate Torn(content: string) {
    Repaired(content) != content
  }

  /** What is on disk of the loaded file `g`, and whether an fsync of it failed. */
  predicate CutOff(f: LogFile, g: LogFile, powerLost: bool, torn: bool, synced: bool) {
    var spoilt := f.poisoned && !powerLost;
    && (g.poisoned <==> spoilt || (torn && !synced))
    && g.durable == if powerLost || (torn && synced && !spoilt) then |g.recs| else f.durable
  }

  lemma KeptHolds(s: State, f: LogFile, n: nat)
    requires f in Files(s) && f.start <= n <= ImageEnd(s, f) && DurableEnd(f) <= n
    ensures KeepsAcked(s) ==> Holds(f, n, s.acked)
  {
    FilesAre(s);
  }

  /** The file as the load leaves it. */
  function CutFile(f: LogFile, hist: seq<Write>, n: nat, powerLost: bool, torn: bool, synced: bool): LogFile
    requires f.start <= n <= |hist| && f.ahead <= |hist|
  {
    var spoilt := f.poisoned && !powerLost;
    LoadedFile(f, hist, n, powerLost || (torn && synced && !spoilt), spoilt || (torn && !synced))
  }

  lemma CutRestarts(s: State, f: LogFile, n: nat, powerLost: bool, torn: bool, synced: bool, float: FloatText)
    returns (t: State)
    requires Core(s, float) && FileOk(f, s.origin, s.hist, float)
    requires f.start <= n <= |s.hist| && DurableEnd(f) <= n
    requires !powerLost ==> f == s.file
    ensures Started(t, float)
    ensures t == Restarted(s.policy, Reload(EMPTY_OBJ, f.head + ToRecords(s.hist[f.start..n]), float), s.origin,
                           LoadedHist(f, s.hist, n), if powerLost then [] else s.older,
                           CutFile(f, s.hist, n, powerLost, torn, synced))
  {
    var g, hist := CutFile(f, s.hist, n, powerLost, torn, synced), LoadedHist(f, s.hist, n);
    var older := if powerLost then [] else s.older;
    LoadedHistOk(f, s.origin, s.hist, n, float);
    LoadedFileOk(f, s.origin, s.hist, n, powerLost || (torn && synced && !f.poisoned), g.poisoned, float);
    forall h | h in older
      ensures OlderOk(h, g, s.origin, hist, float)
    {
      LoadedOlder(f, h, s.origin, s.hist, n, g, float);
    }
    t := Restarted(s.policy, Reload(EMPTY_OBJ, g.recs, float), s.origin, hist, older, g);
    RestartedStarts(s.policy, t.root, s.origin, hist, older, g, float);
  }
}
