/**
 The append-only file's writer as a state machine: clients change the document
 and queue records, the writer takes them in batches. Every write, truncation,
 fsync and rename may fail. `file` is the log now
 at its path, and a power loss may bring back one of the `older` ones instead.
 */
module AofQueue {
  import opened JsonNumbers
  import opened JsonTree
  import opened TreePaths
  import opened TreeLaws
  import opened JsonText
  import opened AofLog
  import opened Document

  const BUFFER_LIMIT := 64 * 1024

  datatype Policy = Everysec | Always | No

  datatype Row = WriteRow(w: Write) | DumpRow

  /**
   One file: `head` is empty or a snapshot of `base`, the document after the first
   `ahead` writes, and the records after it are those of the writes from `start`
   up to `end`. A snapshot is ahead of its file when writes were still queued.
   `durable` of all records are known to be fsynced; a failed fsync makes later
   ones prove nothing.
   */
  datatype LogFile = LogFile(
    head: seq<Record>, ahead: nat, start: nat, end: nat, recs: seq<Record>, durable: nat, poisoned: bool, base: Node)

  datatype State = State(
    policy: Policy,
    root: Node,
    queue: seq<Row>,
    buf: seq<Record>,
    size: nat,
    waiters: seq<nat>,
    unsynced: bool,
    writesRefused: bool,
    inBatch: bool,
    stopped: bool,
    older: seq<LogFile>,
    file: LogFile,
    // History: the document before any write, every accepted write, how many
    // of them were in the file at the start, how many the writer took, and the
    // number of the last one whose client was released.
    origin: Node,
    hist: seq<Write>,
    loaded: nat,
    taken: nat,
    acked: nat)

  datatype FlushOutcome = Flushed | Failed(partial: bool, truncated: bool)

  /** doEraseAndDump: the snapshot file fails, or the calls after it do. */
  datatype DumpOutcome = NoSnapshot | Dumped(oldSynced: bool, renamed: bool, dirSynced: bool)

  datatype Event =
    | Accept(w: Write)
    | RequestVacuum
    | Take(flush: FlushOutcome, dump: DumpOutcome, again: FlushOutcome)
    | EndBatch(flush: FlushOutcome, synced: bool)
    | Tick(flush: FlushOutcome, synced: bool)
    | Close(flush: FlushOutcome, synced: bool)

  // ---- the writer's closures ----

  /** flush, and what is done with its error: under always the process ends. */
  function Flush(s: State, o: FlushOutcome): (t: State)
    ensures t.policy == s.policy
  {
    if s.buf == [] then s
    else
      match o
      case Flushed =>
        s.(file := s.file.(recs := s.file.recs + s.buf, end := s.taken),
          size := s.size + |Encode(s.buf)|, buf := [], unsynced := true, writesRefused := false)
      case Failed(partial, truncated) =>
        if (partial && !truncated) || s.policy.Always? then s.(stopped := true)
        else s.(writesRefused := true)
  }

  predicate FlushFails(s: State, o: FlushOutcome) {
    s.buf != [] && o.Failed?
  }

  /** An fsync of the file; one after a failed one proves nothing. */
  function Fsync(f: LogFile, ok: bool): LogFile {
    if !ok then f.(poisoned := true) else if f.poisoned then f else f.(durable := |f.recs|)
  }

  function SyncNow(s: State, ok: bool): (t: State)
    ensures t.policy == s.policy
  {
    if !s.unsynced then s
    else if ok then s.(file := Fsync(s.file, true), unsynced := false)
    else s.(file := Fsync(s.file, false), stopped := true)
  }

  function MaxOf(a: nat, ns: seq<nat>): nat {
    if ns == [] then a
    else
      var m := MaxOf(a, ns[..|ns| - 1]);
      if m < ns[|ns| - 1] then ns[|ns| - 1] else m
  }

  function Release(s: State): State {
    s.(acked := MaxOf(s.acked, s.waiters), waiters := [])
  }

  function Snapshot(s: State): LogFile {
    var head := [SnapRec(Render(s.root))];
    LogFile(head, |s.hist|, s.taken, s.taken, head, 1, false, s.root)
  }

  /** doEraseAndDump and what the writer does after it. */
  function Dump(s: State, o: DumpOutcome): (t: State)
    ensures t.policy == s.policy
  {
    match o
    case NoSnapshot => s
    case Dumped(oldSynced, renamed, dirSynced) =>
      var s := s.(file := Fsync(s.file, oldSynced));
      if !renamed then s
      else
        s.(older := if dirSynced then [] else s.older + [s.file], file := Snapshot(s),
           size := |Encode(Snapshot(s).recs)|, buf := [], unsynced := false, writesRefused := false)
  }

  /** The bound on the buffer in the middle of a batch. */
  function Bound(s: State, o: FlushOutcome): (t: State)
    ensures t.policy == s.policy
  {
    if |Encode(s.buf)| >= BUFFER_LIMIT then Flush(s, o) else s
  }

  function Pop(s: State): State
    requires s.queue != []
  {
    s.(queue := s.queue[1..], inBatch := true)
  }

  /** A record goes to the buffer; under always its client waits. */
  function Buffered(s: State, w: Write): State {
    s.(buf := s.buf + [ToRecord(w)], taken := s.taken + 1,
       waiters := if s.policy.Always? then s.waiters + [s.taken + 1] else s.waiters)
  }

  function TakeWrite(s: State, w: Write, o: FlushOutcome): (t: State)
    requires s.queue != []
    ensures t.policy == s.policy
  {
    Bound(Buffered(Pop(s), w), o)
  }

  function TakeDump(s: State, flush: FlushOutcome, dump: DumpOutcome, again: FlushOutcome): (t: State)
    requires s.queue != []
    ensures t.policy == s.policy
  {
    Vacuum(Flush(Pop(s), flush), dump, again)
  }

  function Vacuum(s: State, dump: DumpOutcome, again: FlushOutcome): (t: State)
    ensures t.policy == s.policy
  {
    if s.stopped then s else Bound(Dump(s, dump), again)
  }

  function Accepted(s: State, w: Write): State {
    s.(root := Apply(s.root, w), hist := s.hist + [w], queue := s.queue + [WriteRow(w)])
  }

  predicate Succeeds(d: Node, w: Write) {
    w.SetWrite? ==> SetPath(d, w.key, w.val).Ok?
  }

  /** Flush, fsync if asked, release: the end of a batch, and of the writer. */
  function Finish(s: State, flush: FlushOutcome, sync: bool, synced: bool): (t: State)
    ensures t.policy == s.policy
  {
    SyncAndRelease(Flush(s, flush), sync && !FlushFails(s, flush), synced)
  }

  function SyncAndRelease(s: State, sync: bool, synced: bool): (t: State)
    ensures t.policy == s.policy
  {
    if s.stopped then s
    else
      var t := if sync then SyncNow(s, synced) else s;
      if t.stopped then t else Release(t)
  }

  /** The ticker retries a failed write; under everysec it also fsyncs. */
  function Ticked(s: State, flush: FlushOutcome, synced: bool): (t: State)
    ensures t.policy == s.policy
  {
    var t := Flush(s, flush);
    if t.stopped || FlushFails(s, flush) || !s.policy.Everysec? then t else SyncNow(t, synced)
  }

  /** One step; an event that cannot happen in `s` leaves it as it is. */
  function Step(s: State, e: Event): (t: State)
    ensures t.policy == s.policy
  {
    if s.stopped then s
    else
      match e
      case Accept(w) => if s.writesRefused || !Succeeds(s.root, w) then s else Accepted(s, w)
      case RequestVacuum => s.(queue := s.queue + [DumpRow])
      case Take(flush, dump, again) =>
        if s.queue == [] then s
        else
          (match s.queue[0]
           case WriteRow(w) => TakeWrite(s, w, again)
           case DumpRow => TakeDump(s, flush, dump, again))
      case EndBatch(flush, synced) =>
        if s.inBatch then Finish(s, flush, s.policy.Always?, synced).(inBatch := false) else s
      case Tick(flush, synced) => if s.inBatch then s else Ticked(s, flush, synced)
      case Close(flush, synced) => Finish(s, flush, true, synced).(inBatch := false, stopped := true)
  }

  // ---- the invariant ----

  function QueuedWrites(rows: seq<Row>): seq<Write> {
    if rows == [] then []
    else (match rows[0] case WriteRow(w) => [w] case DumpRow => []) + QueuedWrites(rows[1..])
  }

  /** The head loads as `base`: an empty document needs none. */
  predicate HeadIs(head: seq<Record>, base: Node) {
    (head == [] && base == EMPTY_OBJ) || head == [SnapRec(Render(base))]
  }

  /** `f` holds exactly the records of the writes from its start to its end, on the document at its start. */
  ghost predicate FileOk(f: LogFile, origin: Node, hist: seq<Write>, float: FloatText) {
    && f.start <= f.end <= |hist|
    && f.recs == f.head + ToRecords(hist[f.start..f.end])
    && |f.head| <= f.durable <= |f.recs|
    && HeadIs(f.head, f.base) && DocumentOk(f.base, float)
    && f.start <= f.ahead <= |hist| && Same(Live(origin, hist[..f.ahead]), f.base)
  }

  /** The document is the one the writes gave, hole for null since a restart reads holes back as null. */
  ghost predicate HistOk(origin: Node, hist: seq<Write>, root: Node, float: FloatText) {
    DocumentOk(origin, float) && WritesOk(hist, float) && DocumentOk(root, float) && Same(Live(origin, hist), root)
  }

  /** An older file ends, and its snapshot was made, before the current one begins. */
  ghost predicate OlderOk(f: LogFile, file: LogFile, origin: Node, hist: seq<Write>, float: FloatText) {
    FileOk(f, origin, hist, float) && f.end <= file.start && f.ahead <= file.ahead
  }

  ghost predicate FilesOk(s: State, float: FloatText) {
    && FileOk(s.file, s.origin, s.hist, float)
    && forall f :: f in s.older ==> OlderOk(f, s.file, s.origin, s.hist, float)
  }

  /** The file, then the buffer, then the queue: every accepted write once, in order. */
  ghost predicate InOrder(s: State)
  {
    && s.file.end <= s.taken <= |s.hist|
    && s.buf == ToRecords(s.hist[s.file.end..s.taken])
    && QueuedWrites(s.queue) == s.hist[s.taken..]
  }

  ghost predicate FlagsOk(s: State) {
    && (s.writesRefused ==> s.buf != [] && !s.policy.Always?)
    && (forall i :: 0 <= i < |s.waiters| ==> s.loaded < s.waiters[i] <= s.taken)
    && s.loaded <= s.taken && (s.acked == 0 || s.loaded < s.acked <= s.taken)
  }

  /** What holds even in the middle of a batch. */
  ghost predicate Core(s: State, float: FloatText) {
    && HistOk(s.origin, s.hist, s.root, float)
    && FilesOk(s, float)
    && s.size == |Encode(s.file.recs)|
    && InOrder(s)
    && FlagsOk(s)
  }

  /** Between batches writes are refused exactly while records wait for the file, and no client waits. */
  ghost predicate Settled(s: State) {
    !s.inBatch && !s.stopped ==> s.writesRefused == (s.buf != []) && s.waiters == []
  }

  ghost predicate Inv(s: State, float: FloatText) {
    Core(s, float) && Settled(s)
  }

  /**
   A writer that has just loaded its file: a snapshot or nothing, then records, any
   of them on disk. If the process before it ended without a power loss, older files
   may still come back, and an fsync may have failed.
   */
  ghost predicate Started(s: State, float: FloatText) {
    && s.queue == [] && s.buf == [] && s.waiters == []
    && !s.unsynced && !s.writesRefused && !s.inBatch && !s.stopped
    && s.loaded == s.taken == |s.hist| && s.acked == 0
    && Core(s, float)
  }

  // ---- every step keeps it ----

  lemma ToRecordsConcat(a: seq<Write>, b: seq<Write>)
    ensures ToRecords(a + b) == ToRecords(a) + ToRecords(b)
  {
  }

  lemma HeadReads(head: seq<Record>, base: Node, float: FloatText)
    requires DocumentOk(base, float) && HeadIs(head, base)
    ensures Same(base, Reload(EMPTY_OBJ, head, float))
    ensures forall i :: 0 <= i < |head| ==> Printable(head[i])
  {
    if head != [] {
      assert head[..0] == [];
      SnapshotSame(base, EMPTY_OBJ, float);
      RenderNewlineFree(base, float);
    }
  }

  lemma StartedInv(s: State, float: FloatText)
    requires Started(s, float)
    ensures Inv(s, float)
  {
  }

  lemma RecordsGrow(head: seq<Record>, hist: seq<Write>, start: nat, mid: nat, end: nat)
    requires start <= mid <= end <= |hist|
    ensures head + ToRecords(hist[start..mid]) + ToRecords(hist[mid..end]) == head + ToRecords(hist[start..end])
  {
    assert hist[start..end] == hist[start..mid] + hist[mid..end];
    ToRecordsConcat(hist[start..mid], hist[mid..end]);
  }

  lemma FileGrows(f: LogFile, origin: Node, hist: seq<Write>, end: nat, buf: seq<Record>, float: FloatText)
    requires FileOk(f, origin, hist, float) && f.end <= end <= |hist| && buf == ToRecords(hist[f.end..end])
    ensures FileOk(f.(recs := f.recs + buf, end := end), origin, hist, float)
    ensures |Encode(f.recs + buf)| == |Encode(f.recs)| + |Encode(buf)|
  {
    RecordsGrow(f.head, hist, f.start, f.end, end);
    EncodeConcat(f.recs, buf);
  }

  lemma FlushedKeeps(s: State, float: FloatText)
    requires Core(s, float) && s.buf != []
    ensures Core(Flush(s, Flushed), float)
  {
    FileGrows(s.file, s.origin, s.hist, s.taken, s.buf, float);
    assert s.hist[s.taken..s.taken] == [];
  }

  /** What the files mean does not depend on the flags, the buffer or the queue. */
  lemma CoreWith(s: State, t: State, float: FloatText)
    requires Core(s, float)
    requires t.file == s.file && t.older == s.older && t.size == s.size
    requires t.origin == s.origin && t.hist == s.hist && t.root == s.root
    requires InOrder(t) && FlagsOk(t)
    ensures Core(t, float)
  {
  }

  lemma FlushFailedKeeps(s: State, o: FlushOutcome, float: FloatText)
    requires Core(s, float) && s.buf != [] && o.Failed?
    ensures Core(Flush(s, o), float)
  {
    CoreWith(s, Flush(s, o), float);
  }

  lemma FlushKeeps(s: State, o: FlushOutcome, float: FloatText)
    requires Core(s, float)
    ensures Core(Flush(s, o), float)
  {
    if s.buf == [] {
      assert Flush(s, o) == s;
    } else if o.Flushed? {
      FlushedKeeps(s, float);
    } else {
      FlushFailedKeeps(s, o, float);
    }
  }

  /** A flush that does not fail leaves no record waiting. */
  lemma FlushEmpties(s: State, o: FlushOutcome)
    requires InOrder(s) && FlagsOk(s) && !FlushFails(s, o)
    ensures var t := Flush(s, o);
            t.buf == [] && t.file.end == s.taken && !t.writesRefused && t.stopped == s.stopped
  {
    assert |s.buf| == s.taken - s.file.end;
  }

  lemma FsyncKeeps(s: State, ok: bool, float: FloatText)
    requires Core(s, float)
    ensures Core(s.(file := Fsync(s.file, ok)), float)
  {
    assert FileOk(Fsync(s.file, ok), s.origin, s.hist, float);
  }

  lemma SyncNowKeeps(s: State, ok: bool, float: FloatText)
    requires Core(s, float)
    ensures Core(SyncNow(s, ok), float)
  {
    FsyncKeeps(s, ok, float);
  }

  lemma {:induction false} MaxOfBound(a: nat, ns: seq<nat>, lo: nat, hi: nat)
    requires a == 0 || lo < a <= hi
    requires forall i :: 0 <= i < |ns| ==> lo < ns[i] <= hi
    ensures MaxOf(a, ns) == 0 || lo < MaxOf(a, ns) <= hi
    ensures a <= MaxOf(a, ns) && forall i :: 0 <= i < |ns| ==> ns[i] <= MaxOf(a, ns)
  {
    if ns != [] {
      MaxOfBound(a, ns[..|ns| - 1], lo, hi);
    }
  }

  lemma ReleaseKeeps(s: State, float: FloatText)
    requires Core(s, float)
    ensures Core(Release(s), float)
  {
    MaxOfBound(s.acked, s.waiters, s.loaded, s.taken);
  }

  lemma FinishKeeps(s: State, flush: FlushOutcome, sync: bool, synced: bool, float: FloatText)
    requires Core(s, float) && !s.stopped
    ensures Core(Finish(s, flush, sync, synced), float)
  {
    FlushKeeps(s, flush, float);
    var t := Flush(s, flush);
    if !t.stopped {
      SyncNowKeeps(t, synced, float);
      ReleaseKeeps(t, float);
      ReleaseKeeps(SyncNow(t, synced), float);
    }
  }

  lemma FinishSettles(s: State, flush: FlushOutcome, sync: bool, synced: bool)
    requires InOrder(s) && FlagsOk(s) && !s.stopped
    ensures var t := Finish(s, flush, sync, synced);
            t.stopped || (t.writesRefused == (t.buf != []) && t.waiters == [])
  {
    if !FlushFails(s, flush) {
      FlushEmpties(s, flush);
    }
  }

  lemma SnapshotOk(s: State, float: FloatText)
    requires HistOk(s.origin, s.hist, s.root, float) && s.taken <= |s.hist|
    ensures FileOk(Snapshot(s), s.origin, s.hist, float)
  {
    assert s.hist[..|s.hist|] == s.hist && s.hist[s.taken..s.taken] == [];
  }

  /** A new snapshot is behind every file there was. */
  lemma SnapshotLast(s: State, older: seq<LogFile>, float: FloatText)
    requires Core(s, float) && (older == [] || older == s.older + [s.file])
    ensures forall f :: f in older ==> OlderOk(f, Snapshot(s), s.origin, s.hist, float)
  {
    forall f | f in older
      ensures OlderOk(f, Snapshot(s), s.origin, s.hist, float)
    {
      assert f in s.older || f == s.file;
    }
  }

  lemma DumpKeeps(s: State, o: DumpOutcome, float: FloatText)
    requires Core(s, float)
    ensures Core(Dump(s, o), float)
  {
    if o.Dumped? {
      var u := s.(file := Fsync(s.file, o.oldSynced));
      FsyncKeeps(s, o.oldSynced, float);
      if o.renamed {
        var t := Dump(s, o);
        SnapshotOk(u, float);
        SnapshotLast(u, t.older, float);
        assert t.hist[t.file.end..t.taken] == [];
      }
    }
  }

  lemma BoundKeeps(s: State, o: FlushOutcome, float: FloatText)
    requires Core(s, float)
    ensures Core(Bound(s, o), float)
    ensures Bound(s, o).inBatch == s.inBatch
  {
    if |Encode(s.buf)| >= BUFFER_LIMIT {
      FlushKeeps(s, o, float);
    }
  }

  lemma BufferedInOrder(s: State, w: Write)
    requires InOrder(s) && s.queue != [] && s.queue[0] == WriteRow(w)
    ensures InOrder(Buffered(Pop(s), w))
  {
    var rest := QueuedWrites(s.queue[1..]);
    assert QueuedWrites(s.queue) == [w] + rest;
    assert s.hist[s.taken..][0] == w && s.hist[s.taken..][1..] == s.hist[s.taken + 1..];
    assert ([w] + rest)[1..] == rest;
    var end := s.file.end;
    assert s.hist[end..s.taken + 1] == s.hist[end..s.taken] + [w];
    ToRecordsConcat(s.hist[end..s.taken], [w]);
  }

  lemma BufferedKeeps(s: State, w: Write, float: FloatText)
    requires Core(s, float) && s.queue != [] && s.queue[0] == WriteRow(w)
    ensures Core(Buffered(Pop(s), w), float)
  {
    BufferedInOrder(s, w);
    assert FlagsOk(Buffered(Pop(s), w));
  }

  lemma TakeWriteKeeps(s: State, w: Write, o: FlushOutcome, float: FloatText)
    requires Core(s, float) && s.queue != [] && s.queue[0] == WriteRow(w)
    ensures Core(TakeWrite(s, w, o), float) && TakeWrite(s, w, o).inBatch
  {
    BufferedKeeps(s, w, float);
    BoundKeeps(Buffered(Pop(s), w), o, float);
  }

  lemma PopDump(s: State, float: FloatText)
    requires Core(s, float) && s.queue != [] && s.queue[0].DumpRow?
    ensures Core(Pop(s), float)
  {
    assert QueuedWrites(s.queue) == [] + QueuedWrites(s.queue[1..]);
    CoreWith(s, Pop(s), float);
  }

  lemma VacuumKeeps(s: State, dump: DumpOutcome, again: FlushOutcome, float: FloatText)
    requires Core(s, float) && s.inBatch
    ensures Core(Vacuum(s, dump, again), float) && Vacuum(s, dump, again).inBatch
  {
    if !s.stopped {
      DumpKeeps(s, dump, float);
      BoundKeeps(Dump(s, dump), again, float);
    }
  }

  lemma TakeDumpKeeps(s: State, flush: FlushOutcome, dump: DumpOutcome, again: FlushOutcome, float: FloatText)
    requires Core(s, float) && s.queue != [] && s.queue[0].DumpRow?
    ensures Core(TakeDump(s, flush, dump, again), float) && TakeDump(s, flush, dump, again).inBatch
  {
    PopDump(s, float);
    FlushKeeps(Pop(s), flush, float);
    VacuumKeeps(Flush(Pop(s), flush), dump, again, float);
  }

  lemma {:induction false} QueuedSnoc(rows: seq<Row>, r: Row)
    ensures QueuedWrites(rows + [r]) == QueuedWrites(rows) + match r case WriteRow(w) => [w] case DumpRow => []
  {
    if rows == [] {
      assert rows + [r] == [r] && [r][1..] == [];
    } else {
      QueuedSnoc(rows[1..], r);
      assert (rows + [r])[1..] == rows[1..] + [r];
    }
  }

  lemma HistGrows(f: LogFile, origin: Node, hist: seq<Write>, w: Write, float: FloatText)
    requires FileOk(f, origin, hist, float)
    ensures FileOk(f, origin, hist + [w], float)
  {
    assert (hist + [w])[f.start..f.end] == hist[f.start..f.end] && (hist + [w])[..f.ahead] == hist[..f.ahead];
  }

  lemma AcceptedInOrder(s: State, w: Write)
    requires InOrder(s)
    ensures InOrder(Accepted(s, w))
  {
    QueuedSnoc(s.queue, WriteRow(w));
    var hist := s.hist + [w];
    assert hist[s.taken..] == s.hist[s.taken..] + [w];
    assert hist[s.file.end..s.taken] == s.hist[s.file.end..s.taken];
  }

  lemma AcceptKeeps(s: State, w: Write, float: FloatText)
    requires Inv(s, float) && WriteOk(w, float)
    ensures Inv(Accepted(s, w), float)
  {
    AcceptedHist(s.origin, s.hist, s.root, w, float);
    AcceptedInOrder(s, w);
    HistGrows(s.file, s.origin, s.hist, w, float);
    forall f | f in s.older
      ensures OlderOk(f, s.file, s.origin, s.hist + [w], float)
    {
      HistGrows(f, s.origin, s.hist, w, float);
    }
  }

  lemma AcceptedHist(origin: Node, hist: seq<Write>, root: Node, w: Write, float: FloatText)
    requires HistOk(origin, hist, root, float) && WriteOk(w, float)
    ensures HistOk(origin, hist + [w], Apply(root, w), float)
  {
    assert (hist + [w])[..|hist|] == hist;
    ApplySame(Live(origin, hist), root, w);
    ApplyOk(root, w, float);
  }

  ghost predicate EventOk(e: Event, float: FloatText) {
    e.Accept? ==> WriteOk(e.w, float)
  }

  lemma EndKeeps(s: State, flush: FlushOutcome, sync: bool, synced: bool, stop: bool, float: FloatText)
    requires Core(s, float) && !s.stopped
    ensures var t := Finish(s, flush, sync, synced);
            Inv(t.(inBatch := false, stopped := stop || t.stopped), float)
  {
    var t := Finish(s, flush, sync, synced);
    FinishKeeps(s, flush, sync, synced, float);
    FinishSettles(s, flush, sync, synced);
    CoreWith(t, t.(inBatch := false, stopped := stop || t.stopped), float);
  }

  lemma TickCore(s: State, flush: FlushOutcome, synced: bool, float: FloatText)
    requires Core(s, float)
    ensures Core(Ticked(s, flush, synced), float)
  {
    FlushKeeps(s, flush, float);
    SyncNowKeeps(Flush(s, flush), synced, float);
  }

  lemma TickSettles(s: State, flush: FlushOutcome, synced: bool)
    requires InOrder(s) && FlagsOk(s) && Settled(s) && !s.stopped && !s.inBatch
    ensures Settled(Ticked(s, flush, synced))
  {
    if !FlushFails(s, flush) {
      FlushEmpties(s, flush);
    }
  }

  lemma RequestKeeps(s: State, float: FloatText)
    requires Inv(s, float)
    ensures Inv(s.(queue := s.queue + [DumpRow]), float)
  {
    var t := s.(queue := s.queue + [DumpRow]);
    QueuedSnoc(s.queue, DumpRow);
    assert s.hist[s.taken..] + [] == s.hist[s.taken..];
    CoreWith(s, t, float);
  }

  lemma StepKeeps(s: State, e: Event, float: FloatText)
    requires Inv(s, float) && EventOk(e, float)
    ensures Inv(Step(s, e), float)
  {
    if !s.stopped {
      match e
      case Accept(w) => AcceptKeeps(s, w, float);
      case RequestVacuum => RequestKeeps(s, float);
      case Take(flush, dump, again) =>
        if s.queue != [] {
          match s.queue[0]
          case WriteRow(w) => TakeWriteKeeps(s, w, again, float);
          case DumpRow => TakeDumpKeeps(s, flush, dump, again, float);
        }
      case EndBatch(flush, synced) =>
        if s.inBatch {
          EndKeeps(s, flush, s.policy.Always?, synced, false, float);
        }
      case Tick(flush, synced) =>
        if !s.inBatch {
          TickCore(s, flush, synced, float);
          TickSettles(s, flush, synced);
        }
      case Close(flush, synced) => EndKeeps(s, flush, true, synced, true, float);
    }
  }
}
