/**
 The goroutine that writes the append-only file, with the variables its
 closures share, and the loop that loads the file at a start. `disk` is the
 file; `view` is the same writer as a state of the writer machine.
 */
module AofWriter {
  import opened Options
  import opened JsonNumbers
  import opened JsonTree
  import opened JsonText
  import opened AofLog
  import opened AofReader
  import opened Document
  import opened AofQueue

  // ---- loading ----

  lemma ReloadTaken(d: Node, done: seq<Record>, r: Option<Record>, float: FloatText)
    ensures Reload(d, done + Taken(r), float) ==
            match r case Some(x) => ApplyRecord(Reload(d, done, float), x, float) case None => Reload(d, done, float)
  {
    if r.Some? {
      assert (done + [r.value])[..|done|] == done;
    } else {
      assert done + [] == done;
    }
  }

  /** replayAOF: loads every whole record and finds where they end, to cut off the rest. */
  method ReplayAOF(content: string, float: FloatText) returns (root: Node, good: nat)
    ensures root == Reload(EMPTY_OBJ, Load(content), float)
    ensures good <= |content| && content[..good] == Repaired(content)
  {
    root, good := EMPTY_OBJ, 0;
    ghost var done: seq<Record> := [];
    StartAt(content);
    while true
      invariant At(content, done, good)
      invariant root == Reload(EMPTY_OBJ, done, float)
      decreases |content| - good
    {
      var more, r, next := ReadRecord(content, good);
      if !more {
        ReadAll(content, done, good);
        return;
      }
      ReadOn(content, good, done, Taken(r), next);
      ReloadTaken(EMPTY_OBJ, done, r, float);
      if r.Some? {
        root := ApplyRecord(root, r.value, float);
      }
      done, good := done + Taken(r), next;
    }
  }

  // ---- the text of the buffer ----

  lemma EncodeSnoc(recs: seq<Record>, r: Record)
    ensures Encode(recs + [r]) == Encode(recs) + Encode([r])
  {
    EncodeConcat(recs, [r]);
  }

  lemma EncodeEmpty(recs: seq<Record>)
    ensures Encode(recs) == "" <==> recs == []
  {
    if recs != [] {
      assert [recs[0]] + recs[1..] == recs;
      EncodeConcat([recs[0]], recs[1..]);
      EncodeOne(recs[0]);
    }
  }

  lemma {:induction false} MaxOfConcat(a: nat, xs: seq<nat>, ys: seq<nat>)
    ensures MaxOf(a, xs + ys) == MaxOf(MaxOf(a, xs), ys)
  {
    if ys == [] {
      assert xs + ys == xs;
    } else {
      MaxOfConcat(a, xs, ys[..|ys| - 1]);
      assert (xs + ys)[..|xs + ys| - 1] == xs + ys[..|ys| - 1];
    }
  }

  /** What a flush that works does to the text of the file and of the buffer. */
  lemma FlushedText(s: State)
    requires s.buf != []
    ensures var t := AofQueue.Flush(s, Flushed);
            && Encode(t.file.recs) == Encode(s.file.recs) + Encode(s.buf)
            && t.buf == [] && Encode(t.buf) == "" && t.size == s.size + |Encode(s.buf)|
  {
    EncodeConcat(s.file.recs, s.buf);
  }

  /** A flush leaves the buffer as it was or empty, and the document and the queue alone. */
  lemma FlushBuffer(s: State, o: FlushOutcome)
    ensures var t := AofQueue.Flush(s, o);
            && (t.buf == s.buf || (t.buf == [] && Encode(t.buf) == "")) && t.root == s.root && t.queue == s.queue
  {
  }

  // ---- the writer ----

  /** What the file system did with one write, and with the truncation that undoes a failed one. */
  datatype WriteResult = WriteResult(written: nat, ok: bool, truncated: bool)

  function Outcome(r: WriteResult, length: nat): FlushOutcome {
    if r.ok && r.written >= length then Flushed else Failed(r.written > 0, r.truncated)
  }

  class Writer {
    const policy: Policy
    var disk: string
    var buf: string
    var size: nat
    var waiters: seq<nat>
    var closed: seq<nat>
    var unsynced: bool
    var writesRefused: bool
    var stopped: bool
    ghost var view: State

    /** The variables are those of the machine's state; a writer that gave up may leave a partial record. */
    ghost predicate Valid()
      reads this
    {
      && policy == view.policy
      && buf == Encode(view.buf) && size == view.size
      && (if stopped then disk <= Encode(view.file.recs) + buf else disk == Encode(view.file.recs) && size == |disk|)
      && waiters == view.waiters && view.acked == MaxOf(0, closed)
      && unsynced == view.unsynced && writesRefused == view.writesRefused && stopped == view.stopped
    }

    /** A writer on a file just loaded. */
    constructor (policy: Policy, content: string, ghost s: State, ghost float: FloatText)
      requires Started(s, float) && s.policy == policy && content == Encode(s.file.recs)
      ensures Valid() && view == s && disk == content && !stopped
    {
      this.policy, disk, buf, size, waiters, closed := policy, content, "", |content|, [], [];
      unsynced, writesRefused, stopped, view := false, false, false, s;
      new;
      EncodeEmpty(s.buf);
    }

    /** flush: a failed or short write is cut back off the file; if it cannot be, the writer stops. */
    method Flush(r: WriteResult) returns (err: bool)
      requires r.written <= |buf| && size == |disk| && !stopped
      modifies this`disk, this`size, this`buf, this`unsynced, this`writesRefused, this`stopped
      ensures err <==> old(buf) != "" && Outcome(r, |old(buf)|).Failed?
      ensures old(buf) == "" ==> unchanged(this)
      ensures old(buf) != "" && !err ==>
                && disk == old(disk + buf) && size == |disk| && buf == ""
                && unsynced && !writesRefused && !stopped
      ensures err ==> buf == old(buf) && size == old(size) && unsynced == old(unsynced)
      ensures err ==> writesRefused == old(writesRefused) && stopped == (r.written > 0 && !r.truncated)
      ensures err ==> disk == if stopped then old(disk) + old(buf)[..r.written] else old(disk)
    {
      if buf == "" {
        return false;
      }
      disk := disk + buf[..r.written];
      if !r.ok || r.written < |buf| {
        if r.written > 0 {
          if r.truncated {
            disk := disk[..size];
          } else {
            stopped := true;
          }
        }
        return true;
      }
      size, buf, unsynced, writesRefused := size + r.written, "", true, false;
      return false;
    }

    /** failed: under always the process ends, otherwise writes are refused. */
    method FlushOrFail(r: WriteResult) returns (err: bool)
      requires Valid() && !stopped && r.written <= |buf|
      modifies this
      ensures Valid() && view == AofQueue.Flush(old(view), Outcome(r, |old(buf)|))
      ensures err <==> FlushFails(old(view), Outcome(r, |old(buf)|))
      ensures closed == old(closed)
    {
      EncodeEmpty(view.buf);
      if view.buf != [] {
        FlushedText(view);
      }
      err := Flush(r);
      if err && !stopped {
        if policy.Always? {
          stopped := true;
        } else {
          writesRefused := true;
        }
      }
      view := AofQueue.Flush(view, Outcome(r, |old(buf)|));
    }

    /** syncNow: an fsync that fails ends the process. */
    method SyncNow(ok: bool)
      requires Valid() && !stopped
      modifies this`unsynced, this`stopped, this`view
      ensures Valid() && view == AofQueue.SyncNow(old(view), ok)
    {
      view := AofQueue.SyncNow(view, ok);
      if unsynced {
        if ok {
          unsynced := false;
        } else {
          stopped := true;
        }
      }
    }

    method CloseAll(channels: seq<nat>)
      modifies this`closed
      ensures closed == old(closed) + channels
    {
      for i := 0 to |channels|
        invariant closed == old(closed) + channels[..i]
      {
        closed := closed + [channels[i]];
      }
      assert channels[..|channels|] == channels;
    }

    /** release: closes the channel of every client that waits. */
    method Release()
      requires Valid() && !stopped
      modifies this`waiters, this`closed, this`view
      ensures Valid() && view == AofQueue.Release(old(view))
      ensures closed == old(closed + waiters)
    {
      MaxOfConcat(0, closed, waiters);
      CloseAll(waiters);
      waiters := [];
      view := AofQueue.Release(view);
    }

    /** Bounds the buffer during a long batch. */
    method Bound(r: WriteResult)
      requires Valid() && !stopped && (|buf| >= BUFFER_LIMIT ==> r.written <= |buf|)
      modifies this
      ensures Valid() && view == AofQueue.Bound(old(view), Outcome(r, |old(buf)|))
      ensures closed == old(closed)
    {
      if |buf| >= BUFFER_LIMIT {
        var _ := FlushOrFail(r);
      }
    }

    /** A queued set or delete: its record goes to the buffer, and under always its client waits. */
    method Buffer(w: Write, text: string, done: nat)
      requires Valid() && !stopped
      requires view.queue != [] && view.queue[0] == WriteRow(w) && done == view.taken + 1
      requires w.SetWrite? ==> text == Render(w.val)
      modifies this`buf, this`waiters, this`view
      ensures Valid() && view == Buffered(Pop(old(view)), w)
      ensures buf == old(buf) + Encode([ToRecord(w)])
    {
      EncodeOne(ToRecord(w));
      EncodeSnoc(view.buf, ToRecord(w));
      match w {
        case SetWrite(key, _) => buf := buf + ("+" + key + "\n" + text + "\n");
        case DelWrite(key) => buf := buf + ("-" + key + "\n");
      }
      if policy.Always? {
        waiters := waiters + [done];
      }
      view := Buffered(Pop(view), w);
    }

    method TakeWriteRow(w: Write, text: string, done: nat, r: WriteResult)
      requires Valid() && !stopped && r.written <= |buf| + |Encode([ToRecord(w)])|
      requires view.queue != [] && view.queue[0] == WriteRow(w) && done == view.taken + 1
      requires w.SetWrite? ==> text == Render(w.val)
      modifies this
      ensures Valid()
      ensures view == TakeWrite(old(view), w, Outcome(r, |old(buf)| + |Encode([ToRecord(w)])|))
    {
      Buffer(w, text, done);
      Bound(r);
    }

    /** doEraseAndDump: the snapshot replaces the file, or the file stays as it is. */
    method EraseAndDump(snapshot: string, o: DumpOutcome) returns (ok: bool)
      requires Valid() && !stopped && snapshot == Render(view.root)
      modifies this`disk, this`view
      ensures ok <==> o.Dumped? && o.renamed
      ensures view == AofQueue.Dump(old(view), o)
      ensures disk == Encode(view.file.recs)
    {
      view := AofQueue.Dump(view, o);
      EncodeOne(SnapRec(snapshot));
      ok := o.Dumped? && o.renamed;
      if ok {
        disk := "*\n" + snapshot + "\n";
      }
    }

    /** A vacuum that works also covers records a failed write left in the buffer. */
    method Dump(snapshot: string, o: DumpOutcome)
      requires Valid() && !stopped && snapshot == Render(view.root)
      modifies this
      ensures Valid() && view == AofQueue.Dump(old(view), o) && !stopped
      ensures buf == if o.Dumped? && o.renamed then "" else old(buf)
    {
      var ok := EraseAndDump(snapshot, o);
      if ok {
        buf, unsynced, writesRefused := "", false, false;
      }
      size := |disk|;
    }

    /** A queued vacuum. */
    method TakeDumpRow(snapshot: string, r: WriteResult, o: DumpOutcome, again: WriteResult)
      requires Valid() && !stopped && r.written <= |buf| && again.written <= |buf|
      requires view.queue != [] && snapshot == Render(view.root)
      modifies this
      ensures Valid()
      ensures view == TakeDump(old(view), Outcome(r, |old(buf)|), o, Outcome(again, |old(buf)|))
    {
      view := Pop(view);
      FlushBuffer(view, Outcome(r, |buf|));
      var _ := FlushOrFail(r);
      if stopped {
        return;
      }
      Dump(snapshot, o);
      Bound(again);
    }

    /** What ends a batch: one write and, under always, one fsync for all of it; then its clients go on. */
    method EndBatch(r: WriteResult, synced: bool)
      requires Valid() && !stopped && r.written <= |buf|
      modifies this
      ensures Valid()
      ensures view ==
              AofQueue.Finish(old(view), Outcome(r, |old(buf)|), policy.Always?, synced).(inBatch := false)
    {
      Finish(r, policy.Always?, synced);
      view := view.(inBatch := false);
    }

    method Finish(r: WriteResult, sync: bool, synced: bool)
      requires Valid() && !stopped && r.written <= |buf|
      modifies this
      ensures Valid() && view == AofQueue.Finish(old(view), Outcome(r, |old(buf)|), sync, synced)
    {
      var err := FlushOrFail(r);
      if stopped {
        return;
      }
      if !err && sync {
        SyncNow(synced);
        if stopped {
          return;
        }
      }
      Release();
    }

    /** The ticker: retries a failed write and, under everysec, fsyncs. */
    method Tick(r: WriteResult, synced: bool)
      requires Valid() && !stopped && r.written <= |buf| && !view.inBatch
      modifies this
      ensures Valid() && view == Step(old(view), Event.Tick(Outcome(r, |old(buf)|), synced))
    {
      var err := FlushOrFail(r);
      if !stopped && !err && policy.Everysec? {
        SyncNow(synced);
      }
    }

    /** The close row, in a batch or not: the last write and fsync, and the writer is gone. */
    method Close(r: WriteResult, synced: bool)
      requires Valid() && !stopped && r.written <= |buf|
      modifies this
      ensures view == Step(old(view), Event.Close(Outcome(r, |old(buf)|), synced))
      ensures Valid() && stopped
    {
      Finish(r, true, synced);
      view, stopped := view.(inBatch := false, stopped := true), true;
    }
  }
}
