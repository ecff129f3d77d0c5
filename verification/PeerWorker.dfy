/**
 The worker that owns a peer queue, with the fields its methods update under
 the lock. Its file is `disk`, the bytes now at the log's path; `view` is the
 same worker as a state of the queue machine, whose steps the methods take.
 The outcome of every file call is a parameter.
 */
module PeerWorker {
  import opened Lines
  import opened Options
  import opened PeerLog
  import opened PeerQueue

  const MAX_BATCH_OPS := 256
  const MAX_BATCH_BYTES := 0x10_0000

  function BodyBytes(ops: seq<SyncOp>): nat {
    if ops == [] then 0 else BodyBytes(ops[..|ops| - 1]) + |ops[|ops| - 1].body|
  }

  /** The lines that count as records for the next checkpoint. */
  function NumRecords(lines: seq<string>): nat {
    if lines == [] then 0
    else NumRecords(lines[..|lines| - 1]) + if Trim(lines[|lines| - 1]) == "" then 0 else 1
  }

  lemma {:induction false} NumEncoded(c: Codec, recs: seq<Rec>)
    requires Faithful(c)
    ensures NumRecords(EncLines(c, recs)) == |recs|
  {
    if recs != [] {
      var init := recs[..|recs| - 1];
      NumEncoded(c, init);
      TrimEncLine(c, recs[|recs| - 1]);
      assert EncLines(c, recs)[..|recs| - 1] == EncLines(c, init);
    }
  }

  /** A log as this code leaves it: records of a queue from its op `base` on, ending in a newline. */
  ghost predicate Written(c: Codec, content: string, recs: seq<Rec>, base: nat, hist: seq<SyncOp>) {
    content == Encode(c, recs) && Shape(recs, hist, base) && base + NumE(recs) == |hist|
  }

  lemma WrittenLoads(c: Codec, content: string, recs: seq<Rec>, base: nat, hist: seq<SyncOp>)
    requires Faithful(c) && Written(c, content, recs, base, hist)
    ensures base + NumA(recs) <= |hist| && Load(c, content) == Some(hist[base + NumA(recs)..])
    ensures NumRecords(Whole(content)) == |recs|
  {
    assert content + "" == content;
    LoadEncoded(c, recs, "");
    assert Replay(recs) == hist[base + NumA(recs)..] by {
      ShapeReplays(recs, hist, base);
      assert hist[base + NumA(recs)..|hist|] == hist[base + NumA(recs)..];
    }
    assert Whole(content) == EncLines(c, recs) by {
      EncLinesNewlineFree(c, recs);
      SplitJoin(EncLines(c, recs), "");
    }
    NumEncoded(c, recs);
  }

  /**
   What the history knows of the log: the file at the path, how much of it is
   fsynced, and the files that a power loss may still bring back in its place.
   */
  datatype Past = Past(file: LogFile, older: seq<LogFile>, hist: seq<SyncOp>)

  ghost predicate PastOk(c: Codec, content: string, p: Past) {
    && Written(c, content, p.file.recs, p.file.base, p.hist)
    && p.file.torn == "" && p.file.durable <= |p.file.recs|
    && forall g :: g in p.older ==> OlderOk(g, p.file, p.hist)
  }

  /** What a checkpoint whose directory fsync is missing leaves behind. */
  ghost predicate OlderOk(g: LogFile, f: LogFile, hist: seq<SyncOp>) {
    g.id < f.id && Shape(g.recs, hist, g.base) && g.durable <= |g.recs| && NoNewline(g.torn) && Behind(g, f)
  }

  function LoadedView(pending: seq<SyncOp>, writes: nat, p: Past): State {
    State(pending, writes, 0, false, None, 0, Idle, p.older + [p.file], p.file.id + 1,
          p.hist, |p.hist|, p.file.base + NumA(p.file.recs), 0, 0, false, p.file.fsyncFailed || p.older != [])
  }

  /** The log of an earlier process, any part of it fsynced, loads into a state that runs start from. */
  lemma LoadedViewOk(c: Codec, content: string, p: Past)
    requires Faithful(c) && PastOk(c, content, p)
    ensures Load(c, content).Some?
    ensures var s := LoadedView(Load(c, content).value, NumRecords(Whole(content)), p);
            Loaded(s) && Loaded(Open(s)) && content == Content(c, Last(s))
  {
    WrittenLoads(c, content, p.file.recs, p.file.base, p.hist);
    var s := LoadedView(Load(c, content).value, NumRecords(Whole(content)), p);
    LoadedFiles(s, p);
    LoadedFiles(Open(s), p);
    assert Encode(c, p.file.recs) + "" == Encode(c, p.file.recs);
  }

  lemma LoadedFiles(s: State, p: Past)
    requires s.files == p.older + [p.file] && s.nextId == p.file.id + 1 && s.hist == p.hist
    requires s.walFile.Some? ==> s.walFile.value == p.file.id
    requires s.acked == p.file.base + NumA(p.file.recs)
    requires Shape(p.file.recs, p.hist, p.file.base) && p.file.durable <= |p.file.recs| && p.file.torn == ""
    requires forall g :: g in p.older ==> OlderOk(g, p.file, p.hist)
    ensures FilesOk(s)
  {
    forall i | 0 <= i < |s.files| - 1
      ensures Behind(s.files[i], p.file)
    {
      assert s.files[i] in p.older;
    }
    forall f | f in s.files
      ensures FileOk(s, f)
    {
      assert f == p.file || OlderOk(f, p.file, p.hist);
    }
  }

  /** The reader loop stopped at line `i`, which does not parse; the lines before it leave `queue`. */
  ghost predicate StoppedAt(c: Codec, content: string, i: nat, queue: seq<SyncOp>) {
    && i < |Whole(content)|
    && ReplayLines(c, Whole(content)[..i]) == Some(queue)
    && StepLine(c, queue, Whole(content)[i]).None?
  }

  /** What the first `i` lines of `content`, up to `pos`, leave in the queue, and how many of them are records. */
  ghost function ReadSoFar(c: Codec, content: string, i: nat, pos: nat): Option<(seq<SyncOp>, nat)> {
    if !LinesRead(content, Whole(content), Tail(content), i, pos) then None
    else
      match ReplayLines(c, Whole(content)[..i])
      case Some(queue) => Some((queue, NumRecords(Whole(content)[..i])))
      case None => None
  }

  /** The loop has read `i` lines of `content`, up to `pos`: `n` records, which leave `queue`. */
  ghost predicate LogRead(c: Codec, content: string, i: nat, pos: nat, queue: seq<SyncOp>, n: nat) {
    ReadSoFar(c, content, i, pos) == Some((queue, n))
  }

  lemma LogReadStart(c: Codec, content: string)
    ensures LogRead(c, content, 0, 0, [], 0)
  {
    LinesReadStart(content);
  }

  lemma LogReadNext(c: Codec, content: string, i: nat, pos: nat, end: nat, line: string,
      queue: seq<SyncOp>, n: nat, next: seq<SyncOp>, m: nat)
    requires LogRead(c, content, i, pos, queue, n) && LineAt(content, pos, end) && line == content[pos..end]
    requires StepLine(c, queue, line) == Some(next) && m == n + if Trim(line) == "" then 0 else 1
    ensures LogRead(c, content, i + 1, end + 1, next, m)
  {
    LinesReadNext(content, Whole(content), Tail(content), i, pos, end);
  }

  lemma LogReadStop(c: Codec, content: string, i: nat, pos: nat, end: nat, line: string, queue: seq<SyncOp>, n: nat)
    requires LogRead(c, content, i, pos, queue, n) && LineAt(content, pos, end) && line == content[pos..end]
    requires StepLine(c, queue, line).None?
    ensures StoppedAt(c, content, i, queue) && Load(c, content).None?
  {
    LinesReadNext(content, Whole(content), Tail(content), i, pos, end);
    ReplayStops(c, Whole(content), i + 1);
  }

  lemma LogReadAll(c: Codec, content: string, i: nat, pos: nat, queue: seq<SyncOp>, n: nat)
    requires LogRead(c, content, i, pos, queue, n) && NoNewline(content[pos..])
    ensures Load(c, content) == Some(queue) && n == NumRecords(Whole(content))
  {
    LinesReadAll(content, Whole(content), Tail(content), i, pos);
  }

  /** The text of a rewritten log. */
  method EncodeQueue(c: Codec, ops: seq<SyncOp>) returns (buf: string)
    ensures buf == Encode(c, Queued(ops))
  {
    buf := "";
    for i := 0 to |ops|
      invariant buf == Encode(c, Queued(ops[..i]))
    {
      assert Queued(ops[..i + 1]) == Queued(ops[..i]) + [E(ops[i])];
      EncodeConcat(c, Queued(ops[..i]), [E(ops[i])]);
      EncodeOne(c, E(ops[i]));
      buf := buf + ("E " + c.enc(ops[i]) + "\n");
    }
    assert ops[..|ops|] == ops;
  }

  /** One write for `n` acks. */
  method RepeatAck(c: Codec, n: nat) returns (rec: string)
    ensures rec == Encode(c, Acks(n))
  {
    rec := "";
    for i := 0 to n
      invariant rec == Encode(c, Acks(i))
    {
      assert Acks(i + 1) == Acks(i) + [A];
      EncodeConcat(c, Acks(i), [A]);
      EncodeOne(c, A);
      rec := rec + "A\n";
    }
  }

  class Worker {
    const codec: Codec
    var pending: seq<SyncOp>
    var writes: nat
    var seqno: nat
    var needCheckpoint: bool
    var walFile: Option<nat>
    var synced: nat
    var disk: string
    var pathFile: nat  // the file now at the log's path
    var nextFile: nat
    ghost var view: State

    ghost predicate FieldsMatch()
      reads this
    {
      && view.files != []
      && pending == view.pending && writes == view.writes && seqno == view.seqno
      && needCheckpoint == view.needCheckpoint && walFile == view.walFile && synced == view.synced
      && pathFile == Last(view).id && nextFile == view.nextId
    }

    /** The fields are those of `view`, and the disk holds the text of its newest file. */
    ghost predicate Valid()
      reads this
    {
      && FieldsMatch()
      && disk == Content(codec, Last(view))
      && (!needCheckpoint ==> Last(view).torn == "")
      && (walFile.Some? ==> walFile.value == pathFile)
    }

    /** A worker whose log file, called `file`, holds `content`, before the log is loaded. */
    constructor (c: Codec, content: string, file: nat)
      requires Faithful(c)
      ensures codec == c && disk == content && pathFile == file && Unloaded() && pending == [] && writes == 0
    {
      codec, disk := c, content;
      pending, writes, seqno, needCheckpoint, walFile, synced := [], 0, 0, false, None, 0;
      pathFile, nextFile := file, file + 1;
    }

    ghost predicate Unloaded()
      reads this
    {
      && Faithful(codec) && walFile == None && !needCheckpoint
      && seqno == 0 && synced == 0 && nextFile == pathFile + 1
    }

    /** One turn of the reader loop. */
    method ReadLine(raw: string) returns (ok: bool, counted: bool)
      modifies this`pending
      ensures StepLine(codec, old(pending), raw) == if ok then Some(pending) else None
      ensures !ok ==> pending == old(pending)
      ensures counted <==> Trim(raw) != ""
    {
      var line := Trim(raw);
      ok, counted := true, line != "";
      if !counted {
        return;
      }
      if "E " <= line {
        var op := codec.dec(line[2..]);
        if op.None? {
          return false, true;
        }
        pending := pending + [op.value];
      } else if line == "A" {
        if |pending| > 0 {
          pending := pending[1..];
        }
      } else {
        ok := false;
      }
    }

    /** One turn of the reader loop, at line `i`. */
    method ReadTurn(pos: nat, n: nat, ghost i: nat) returns (more: bool, ok: bool, next: nat, m: nat)
      requires pos <= |disk| && LogRead(codec, disk, i, pos, pending, n)
      modifies this`pending
      ensures more ==> pos < next <= |disk| && LogRead(codec, disk, i + 1, next, pending, m)
      ensures !more && ok ==> NoNewline(disk[pos..]) && pending == old(pending)
      ensures !more && !ok ==> StoppedAt(codec, disk, i, pending) && Load(codec, disk).None?
    {
      var text := disk;
      var end;
      more, end := FindLine(text, pos);
      if !more {
        return false, true, pos, n;
      }
      ghost var was := pending;
      var line := text[pos..end];
      var counted;
      ok, counted := ReadLine(line);
      if !ok {
        LogReadStop(codec, text, i, pos, end, line, was, n);
        return false, false, pos, n;
      }
      next, m := end + 1, n + if counted then 1 else 0;
      LogReadNext(codec, text, i, pos, end, line, was, n, pending, m);
    }

    /**
     The reader loop. It fails exactly when `Load` does, and else leaves the ops
     `Load` names. The worker goes on after a failure, with what was read before it.
     */
    method ReadLog() returns (ok: bool)
      modifies this`pending, this`writes
      ensures ok <==> Load(codec, disk).Some?
      ensures ok ==> pending == Load(codec, disk).value && writes == NumRecords(Whole(disk))
      ensures !ok ==> writes == old(writes) && exists i :: StoppedAt(codec, disk, i, pending)
    {
      var n, pos := 0, 0;
      ghost var i := 0;
      pending := [];
      LogReadStart(codec, disk);
      while true
        invariant pos <= |disk| && LogRead(codec, disk, i, pos, pending, n) && writes == old(writes)
        decreases |disk| - pos
      {
        var more, next, m;
        more, ok, next, m := ReadTurn(pos, n, i);
        if !more {
          if ok {
            LogReadAll(codec, disk, i, pos, pending, n);
            writes := n;
          }
          return;
        }
        pos, n, i := next, m, i + 1;
      }
    }

    /**
     Loads the queue from the file, opens it, and rewrites it if enough of it
     is dead. `LoadedViewOk` says what the state means for a log with the past `p`
     that this code wrote.
     */
    method LoadWAL(openFails: bool, o: CkptOutcome, ghost p: Past) returns (err: bool)
      requires Unloaded() && p.file.id == pathFile
      modifies this
      ensures Load(codec, old(disk)).None? ==>
                && err && disk == old(disk) && walFile.None? && !needCheckpoint && writes == old(writes)
                && exists i :: StoppedAt(codec, disk, i, pending)
      ensures Load(codec, old(disk)).Some? ==>
                var s := LoadedView(Load(codec, old(disk)).value, NumRecords(Whole(old(disk))), p);
                && FieldsMatch()
                && view == (if openFails then s else Reclaim(Open(s), o))
                && disk == (if view.files == s.files then old(disk) else Content(codec, Last(view)))
                && (err <==> openFails || needCheckpoint)
    {
      var ok := ReadLog();
      if !ok {
        return true;
      }
      view := LoadedView(pending, writes, p);
      if openFails {
        return true;
      }
      walFile, view := Some(pathFile), Open(view);
      var reclaim := ReclaimableLocked();
      err := false;
      if reclaim {
        err := CheckpointLocked(o);
      }
    }

    method ReclaimableLocked() returns (r: bool)
      requires FieldsMatch()
      ensures r <==> Reclaimable(view)
    {
      var dead := writes - |pending|;
      r := dead >= CHECKPOINT_EVERY && dead >= |pending|;
    }

    /** Rewrites the log to the pending ops: one checkpoint step, whatever state the old file was in. */
    method CheckpointLocked(o: CkptOutcome) returns (err: bool)
      requires FieldsMatch()
      modifies this
      ensures FieldsMatch()
      ensures view == Checkpoint(old(view), o)
      ensures disk == if o.NotReplaced? then old(disk) else Content(codec, Last(view))
      ensures err == needCheckpoint
    {
      walFile := None;
      var buf := EncodeQueue(codec, pending);
      view := Checkpoint(view, o);
      if o.NotReplaced? {
        needCheckpoint := true;
        return true;
      }
      disk, pathFile, nextFile := buf, nextFile, nextFile + 1;
      assert buf + "" == buf;
      if o.DirNotSynced? {
        needCheckpoint := true;
        return true;
      }
      writes := |pending|;
      var _ := MarkSynced(seqno, []);
      if o.NotReopened? {
        needCheckpoint := true;
        return true;
      }
      walFile := Some(pathFile);
      needCheckpoint := false;
      return false;
    }

    /**
     Raises `synced` to `n` by compare-and-swap, and lowers nobody's raise. `others`
     are the numbers that other callers raise it to, each between a load and the
     swap after it; the first `met` of them came in before the method returned.
     */
    method MarkSynced(n: nat, others: seq<nat>) returns (met: nat)
      modifies this`synced
      ensures met <= |others|
      ensures old(synced) <= synced && n <= synced && forall i :: 0 <= i < met ==> others[i] <= synced
      ensures synced == old(synced) || synced == n || synced in others[..met]
    {
      met := 0;
      while true
        invariant met <= |others|
        invariant old(synced) <= synced && forall i :: 0 <= i < met ==> others[i] <= synced
        invariant synced == old(synced) || synced in others[..met]
        decreases |others| - met
      {
        var cur := synced;
        if met < |others| {
          synced, met := Max(synced, others[met]), met + 1;
        }
        if cur >= n {
          return;
        }
        if synced == cur {
          synced := n;
          return;
        }
      }
    }

    /** One write of `recs`, which may fail after any number of bytes. */
    method WriteRecord(rec: string, records: nat, ghost recs: seq<Rec>, failsAfter: Option<nat>) returns (err: bool)
      requires Valid() && !needCheckpoint && Faithful(codec)
      requires rec == Encode(codec, recs) && records == |recs|
      modifies this
      ensures Valid() && err == needCheckpoint == failsAfter.Some?
      ensures view == match failsAfter
                      case Some(bytes) => AppendTorn(codec, old(view), recs, bytes)
                      case None => AppendWhole(old(view), recs)
    {
      var f := Last(view);
      match failsAfter
      case Some(bytes) =>
        var end := if bytes < |rec| then bytes else |rec|;
        PartialContent(codec, f, recs, bytes, end);
        disk := disk + rec[..end];
        needCheckpoint, view := true, AppendTorn(codec, view, recs, bytes);
        err := true;
      case None =>
        EncodeConcat(codec, f.recs, recs);
        assert Encode(codec, f.recs) + "" == Encode(codec, f.recs);
        assert Encode(codec, f.recs + recs) + "" == Encode(codec, f.recs) + rec;
        disk, writes, view := disk + rec, writes + records, AppendWhole(view, recs);
        err := false;
    }

    /** Appends to the open log, and rewrites it once enough of it is dead. */
    method AppendOpen(rec: string, records: nat, ghost recs: seq<Rec>, io: Io) returns (err: bool)
      requires Valid() && Faithful(codec) && !needCheckpoint
      requires rec == Encode(codec, recs) && records == |recs|
      modifies this
      ensures Valid() && err == needCheckpoint
      ensures view == match io.failsAfter
                      case Some(bytes) => AppendTorn(codec, old(view), recs, bytes)
                      case None => Reclaim(AppendWhole(old(view), recs), io.ckpt)
    {
      err := WriteRecord(rec, records, recs, io.failsAfter);
      if err {
        return true;
      }
      var reclaim := ReclaimableLocked();
      if reclaim {
        err := CheckpointLocked(io.ckpt);
      }
    }

    /** Appends the text of `recs`, or rewrites the log when an earlier write failed. */
    method AppendLocked(rec: string, records: nat, ghost recs: seq<Rec>, io: Io) returns (err: bool)
      requires Valid() && Faithful(codec)
      requires rec == Encode(codec, recs) && records == |recs|
      modifies this
      ensures Valid() && view == Append(codec, old(view), recs, io)
      ensures err == needCheckpoint
    {
      if needCheckpoint {
        err := CheckpointLocked(io.ckpt);
        return;
      }
      if walFile.None? {
        if io.openFails {
          needCheckpoint, view := true, view.(needCheckpoint := true);
          return true;
        }
        walFile := Some(pathFile);
      }
      view := Open(view);
      err := AppendOpen(rec, records, recs, io);
    }

    /** Queues an op; a failed append is reported, but the op stays queued. */
    method Enqueue(op: SyncOp, io: Io) returns (number: nat, err: bool)
      requires Valid() && Faithful(codec)
      modifies this
      ensures Valid() && view == Append(codec, Push(old(view), op), [E(op)], io)
      ensures pending == old(pending) + [op]
      ensures err == needCheckpoint && number == if err then 0 else old(seqno) + 1
    {
      var rec := "E " + codec.enc(op) + "\n";
      EncodeOne(codec, E(op));
      pending, seqno, view := pending + [op], seqno + 1, Push(view, op);
      err := AppendLocked(rec, 1, [E(op)], io);
      number := if err then 0 else seqno;
    }

    method DropFirst(n: nat)
      requires Valid() && n <= |pending|
      modifies this`pending, this`view
      ensures Valid() && pending == old(pending)[n..] && view == Drop(old(view), n)
    {
      pending, view := pending[n..], Drop(view, n);
    }

    method AppendAcks(n: nat, io: Io) returns (err: bool)
      requires Valid() && Faithful(codec)
      modifies this
      ensures Valid() && view == Append(codec, old(view), Acks(n), io)
      ensures err == needCheckpoint && pending == old(pending)
    {
      var rec := RepeatAck(codec, n);
      err := AppendLocked(rec, n, Acks(n), io);
    }

    /** Drops the first queued ops with one write for all their acks. */
    method AckN(count: nat, io: Io) returns (err: bool)
      requires Valid() && Faithful(codec)
      modifies this
      ensures Valid() && view == Acked(codec, old(view), count, io)
      ensures err <==> count > 0 && old(pending) != [] && needCheckpoint
      ensures pending == old(pending)[if count < |old(pending)| then count else |old(pending)|..]
    {
      var n := if count < |pending| then count else |pending|;
      if n == 0 {
        return false;
      }
      DropFirst(n);
      err := AppendAcks(n, io);
    }

    /** syncAll's retry of a checkpoint that an earlier write left due. */
    method RewriteIfBroken(o: CkptOutcome) returns (err: bool)
      requires Valid()
      modifies this
      ensures Valid() && view == if old(needCheckpoint) then Checkpoint(old(view), o) else old(view)
      ensures err == needCheckpoint && (err <==> old(needCheckpoint) && !o.Rewritten?)
    {
      err := false;
      if needCheckpoint {
        err := CheckpointLocked(o);
      }
    }

    /** syncTo once it holds syncMu: its test of the number, which takes no other lock. */
    method SyncToTest(number: nat) returns (done: bool)
      requires Valid() && view.phase.Idle? && number <= seqno
      modifies this`view
      ensures Valid() && view == SyncCheck(old(view), number)
      ensures done <==> number <= synced
      ensures done ==> number <= view.promised
      ensures !done ==> view.phase == Checked(number)
    {
      done := number <= synced;
      view := SyncCheck(view, number);
    }

    /** A checkpoint whose success tells one caller that its op is safe. */
    method Replace(number: nat, o: CkptOutcome) returns (err: bool)
      requires Valid() && view.phase.Idle?
      modifies this
      ensures Valid() && view == SyncByCheckpoint(old(view), number, o) && view.phase.Idle?
      ensures !err ==> number <= view.promised && seqno <= synced
      ensures err == needCheckpoint && (err <==> !o.Rewritten?)
      ensures err ==> view.promised == old(view).promised
    {
      err := CheckpointLocked(o);
      view := if o.Rewritten? then Promise(view, number) else view;
    }

    /**
     The next part of syncTo, under the worker's lock and up to its fsync, after
     whatever other callers did since the test. It has either returned (`done`),
     or it goes on to fsync the file `f`.
     */
    method SyncToLocked(number: nat, o: CkptOutcome) returns (done: bool, err: bool, f: Option<nat>, target: nat)
      requires Valid() && view.phase == Checked(number)
      modifies this
      ensures Valid() && view == SyncBegin(old(view), number, o) && (done ==> view.phase.Idle?)
      ensures done <==> old(needCheckpoint || walFile.None?)
      ensures err <==> done && !o.Rewritten?
      ensures done ==> err == needCheckpoint
      ensures done && !err ==> number <= view.promised
      ensures err ==> view.promised == old(view).promised
      ensures done && old(number <= view.seqno) && !err ==> number <= synced
      ensures !done ==> !err && f.Some? && view.phase == Fsyncing(f.value, target, number, |Last(view).recs|)
      ensures !done ==> target == seqno && synced == old(synced)
    {
      f, target := walFile, seqno;
      if needCheckpoint || f.None? {
        view := view.(phase := Idle);
        err := Replace(number, o);
        return true, err, None, target;
      }
      view := BeginFsync(view, number);
      return false, false, f, target;
    }

    /** What the fsync did to the files; the worker has not looked yet. */
    ghost method FsyncReturns(ok: bool)
      requires Valid() && view.phase.Fsyncing?
      modifies this`view
      ensures Valid() && view == EndFsync(old(view), ok)
    {
      view := EndFsync(view, ok);
    }

    /** syncTo after its fsync of `f` failed. */
    method SyncFailed(f: nat, number: nat, o: CkptOutcome) returns (err: bool)
      requires Valid() && view.phase == FsyncErr(f, number)
      modifies this
      ensures Valid() && view == SyncEnd(old(view), o) && view.phase.Idle?
      ensures err <==> old(synced) < number && old(walFile) == Some(f) && !o.Rewritten?
      ensures err ==> needCheckpoint && view.promised == old(view).promised
      ensures !err ==> number <= view.promised
    {
      var fine := number <= synced || walFile != Some(f);
      view := view.(phase := Idle, late := view.late || Late(view));
      if fine {
        view := Promise(view, number);
        return false;
      }
      err := Replace(number, o);
    }

    /** syncTo after its fsync of `f` returned. */
    method SyncToFinish(ok: bool, f: nat, target: nat, number: nat, o: CkptOutcome) returns (err: bool)
      requires Valid()
      requires view.phase == if ok then Fsynced(target, number) else FsyncErr(f, number)
      modifies this
      ensures Valid() && view == SyncEnd(old(view), o) && view.phase.Idle?
      ensures err <==> !ok && old(synced) < number && old(walFile) == Some(f) && !o.Rewritten?
      ensures err ==> needCheckpoint && view.promised == old(view).promised
      ensures !err ==> number <= view.promised
    {
      if !ok {
        err := SyncFailed(f, number, o);
        return;
      }
      var _ := MarkSynced(target, []);
      view := Promise(view.(synced := Max(view.synced, target), phase := Idle), number);
      return false;
    }

    /**
     All of syncTo, when no other caller comes in between. It fails exactly when the
     number was not synced, the checkpoint fails too, and there was no file to fsync
     or its fsync failed.
     */
    method SyncTo(number: nat, ok: bool, o: CkptOutcome) returns (err: bool)
      requires Valid() && view.phase.Idle? && number <= seqno
      modifies this
      ensures Valid() && view.phase.Idle? && (!err ==> number <= view.promised)
      ensures err <==> old(synced) < number && (old(needCheckpoint || walFile.None?) || !ok) && !o.Rewritten?
      ensures err ==> needCheckpoint && view.promised == old(view).promised
      ensures var s := SyncCheck(old(view), number);
              view == if s.phase.Idle? then s
                      else
                        var t := SyncBegin(s, number, o);
                        if t.phase.Fsyncing? then SyncEnd(EndFsync(t, ok), o) else t
    {
      var done := SyncToTest(number);
      if done {
        return false;
      }
      var f, target;
      done, err, f, target := SyncToLocked(number, o);
      if !done {
        FsyncReturns(ok);
        err := SyncToFinish(ok, f.value, target, number, o);
      }
    }

    /** The first queued ops, up to 256 of them and about a megabyte of values, but at least one. */
    method PeekBatch() returns (batch: seq<SyncOp>)
      ensures batch <= pending && |batch| <= MAX_BATCH_OPS
      ensures pending != [] ==> batch != []
      ensures |batch| > 1 ==> BodyBytes(batch) <= MAX_BATCH_BYTES
      ensures batch != pending ==>
                |batch| == MAX_BATCH_OPS || BodyBytes(pending[..|batch| + 1]) > MAX_BATCH_BYTES
    {
      var size := 0;
      for i := 0 to |pending|
        invariant i <= MAX_BATCH_OPS
        invariant size == BodyBytes(pending[..i])
        invariant i > 1 ==> size <= MAX_BATCH_BYTES
      {
        assert pending[..i + 1][..i] == pending[..i];
        size := size + |pending[i].body|;
        if i == MAX_BATCH_OPS || (i > 0 && size > MAX_BATCH_BYTES) {
          return pending[..i];
        }
      }
      assert pending[..|pending|] == pending;
      return pending;
    }
  }
}
