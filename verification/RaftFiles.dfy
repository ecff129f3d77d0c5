/**
 The Raft file store with its maps and files. `wal` is the text of the log file
 and `checkpoint` what the checkpoint file holds; `view` is the same store as a
 state of the store machine, whose steps the methods take. The outcome of every
 file call is a parameter.
 */
module RaftFiles {
  import opened Lines
  import opened Options
  import opened RaftLog
  import opened RaftStore

  // ---- the lowest and highest index ----

  /** The loop over the map's keys, in the order the map gives them. */
  function LowOf(order: seq<uint64>): uint64 {
    if order == [] then 0
    else
      var low, last := LowOf(order[..|order| - 1]), order[|order| - 1];
      if low == 0 || last < low then last else low
  }

  function HighOf(order: seq<uint64>): uint64 {
    if order == [] then 0
    else
      var high, last := HighOf(order[..|order| - 1]), order[|order| - 1];
      if last > high then last else high
  }

  predicate IsMin(low: uint64, order: seq<uint64>) {
    low in order && forall i :: i in order ==> low <= i
  }

  lemma {:induction false} LowInOrder(order: seq<uint64>)
    requires order != []
    ensures LowOf(order) in order
    ensures LowOf(order) == 0 <==> order[|order| - 1] == 0
    ensures 0 !in order ==> forall i :: i in order ==> LowOf(order) <= i
  {
    var init, last := order[..|order| - 1], order[|order| - 1];
    assert order == init + [last];
    if init != [] {
      LowInOrder(init);
      assert init[|init| - 1] in order;
      assert forall i :: i in order ==> i in init || i == last;
    }
  }

  /**
   A zero stands for "none yet", so the loop finds the lowest index exactly when
   there is no entry at index 0, or the map happens to give it last.
   */
  lemma LowIsLowestExactly(order: seq<uint64>)
    requires order != []
    ensures IsMin(LowOf(order), order) <==> (0 in order ==> order[|order| - 1] == 0)
  {
    LowInOrder(order);
  }

  lemma {:induction false} HighIsHighest(order: seq<uint64>)
    requires order != []
    ensures HighOf(order) in order && forall i :: i in order ==> i <= HighOf(order)
  {
    var init, last := order[..|order| - 1], order[|order| - 1];
    assert order == init + [last];
    if init != [] {
      HighIsHighest(init);
      assert HighOf(init) in order;
      forall i | i in order
        ensures i <= HighOf(order)
      {
        assert i in init || i == last;
      }
    }
  }

  /** `order` has the keys of the map, each once. */
  ghost predicate Enumerates(order: seq<uint64>, keys: set<uint64>) {
    && (forall i :: i in order <==> i in keys)
    && forall a, b :: 0 <= a < b < |order| ==> order[a] != order[b]
  }

  /** Zero without entries, and else the highest and, unless there is an entry at zero, the lowest index. */
  lemma BoundsOf(order: seq<uint64>, logs: map<uint64, Log>)
    requires Enumerates(order, logs.Keys)
    ensures logs == map[] ==> LowOf(order) == 0 && HighOf(order) == 0
    ensures logs != map[] ==> HighOf(order) in logs && forall i :: i in logs ==> i <= HighOf(order)
    ensures logs != map[] && 0 !in logs ==> LowOf(order) in logs && forall i :: i in logs ==> LowOf(order) <= i
  {
    if order == [] {
      assert forall i :: i in logs ==> i in order;
    } else {
      assert order[0] in order;
      HighIsHighest(order);
      LowIsLowestExactly(order);
    }
  }

  // ---- the checkpoint ----

  datatype Checkpoint =
    Checkpoint(low: uint64, high: uint64, logs: seq<Log>, kv: map<string, string>, kvInt: map<string, uint64>)

  function LoadCheckpoint(p: Checkpoint): Contents {
    Contents(PutLogs(map[], p.logs), p.kv, p.kvInt)
  }

  /** Every entry is kept under its own index. */
  ghost predicate Keyed(logs: map<uint64, Log>) {
    forall i :: i in logs ==> logs[i].index == i
  }

  lemma {:induction false} EntriesOf(logs: map<uint64, Log>, entries: seq<Log>, i: uint64)
    requires Keyed(logs)
    requires forall a :: 0 <= a < |entries| ==> entries[a].index in logs && entries[a] == logs[entries[a].index]
    ensures LastEntry(entries, i).Some? ==> i in logs && LastEntry(entries, i).value == logs[i]
    ensures LastEntry(entries, i).None? ==> forall a :: 0 <= a < |entries| ==> entries[a].index != i
  {
    if entries != [] && entries[|entries| - 1].index != i {
      EntriesOf(logs, entries[..|entries| - 1], i);
    }
  }

  /** The entries of the map, in any order, make the same map again. */
  lemma CheckpointReadsBack(logs: map<uint64, Log>, entries: seq<Log>)
    requires Keyed(logs)
    requires forall a :: 0 <= a < |entries| ==> entries[a].index in logs && entries[a] == logs[entries[a].index]
    requires forall i :: i in logs ==> logs[i] in entries
    ensures PutLogs(map[], entries) == logs
  {
    var empty: map<uint64, Log> := map[];
    forall i: uint64
      ensures i in PutLogs(empty, entries) <==> i in logs
      ensures i in logs ==> PutLogs(empty, entries)[i] == logs[i]
    {
      EntriesOf(logs, entries, i);
      PutLogsAt(empty, entries, i);
    }
  }

  // ---- the text of the log ----

  lemma EncodeSnoc(c: Codec, recs: seq<Rec>, r: Rec)
    ensures Encode(c, recs + [r]) == Encode(c, recs) + c.enc(r) + "\n"
  {
    assert EncLines(c, recs + [r]) == EncLines(c, recs) + [c.enc(r)];
    JoinSnoc(EncLines(c, recs), c.enc(r));
  }

  /** A compaction's next file calls. */
  function Calls(s: State, n: nat): (t: State)
    requires s.wals != []
    ensures t.wals != [] && (s.snaps != [] ==> t.snaps != [])
  {
    if n == 0 then s else NextCall(Calls(s, n - 1))
  }

  lemma MoreCalls(s: State)
    requires s.wals != []
    ensures var t := Calls(s, 2); Calls(t, 1) == Calls(s, 3) && Calls(t, 2) == Calls(s, 4)
  {
    var t := Calls(s, 2);
    FewCalls(t);
    NextOfCalls(s, 3);
    NextOfCalls(s, 4);
  }

  lemma ReadyToReplace(s: State)
    requires s.wals != [] && s.phase == Compacting
    ensures var t := Calls(s, 2);
            && t == s.(phase := SnapSynced, snaps := [s.mem], wals := t.wals)
            && t.wals != [] && LastWal(t) == LastWal(s)
  {
    FewCalls(s);
  }

  lemma NextOfCalls(s: State, n: nat)
    requires s.wals != [] && n > 0
    ensures Calls(s, n) == NextCall(Calls(s, n - 1))
  {
  }

  lemma FewCalls(s: State)
    requires s.wals != []
    ensures Calls(s, 0) == s && Calls(s, 1) == NextCall(s) && Calls(s, 2) == NextCall(NextCall(s))
  {
    NextOfCalls(s, 1);
    NextOfCalls(s, 2);
  }

  /** The state after the file calls of an append, whose record the log is to get. */
  function Appended(s: State, walOpen: bool, io: AppendIO): (t: State)
    requires s.wals != [] && s.snaps != []
    ensures t.wals != [] && t.snaps != []
  {
    if !walOpen && !io.openOk then Failed(s, Other)
    else if !walOpen && !io.dirOk then Failed(s, DirSync)
    else
      var t := Settle(s, LastWal(s));
      if !io.wrote then Failed(t, Other)
      else if NeedsSync(t) && !io.synced then Failed(t, LogSync)
      else Wrote(t)
  }

  /** What the methods do to `view` are steps of the machine: here a call's first one, and an append's. */
  lemma CallIsSteps(s: State, op: Rec, walOpen: bool, io: AppendIO)
    requires s.wals != [] && s.snaps != [] && s.phase == Idle && !s.failed && !op.DeleteRange?
    ensures Step(s, Event.Begin(op)) == Start(s, op)
    ensures var t, ready := Start(s, op), Step(Start(s, op), Opened);
            && ready.wals != [] && ready.snaps != []
            && Appended(t, walOpen, io) ==
               if !walOpen && !io.openOk then Step(t, Fail(Other))
               else if !walOpen && !io.dirOk then Step(t, Fail(DirSync))
               else if !io.wrote then Step(ready, Fail(Other))
               else if NeedsSync(t) && !io.synced then Step(ready, Fail(LogSync))
               else Step(ready, WriteDone)
  {
  }

  /** A log that is already open has no other file that may come back, or cannot tell. */
  lemma SettledAlready(s: State)
    requires s.wals != [] && s.snaps != [] && (!s.dirFailed ==> |s.snaps| == |s.wals| == 1)
    ensures Settle(s, LastWal(s)) == s
  {
    assert s.wals[..|s.wals| - 1] + [LastWal(s)] == s.wals;
  }

  lemma {:induction false} CallsAreSteps(s: State, n: nat)
    requires s.wals != [] && s.snaps != [] && s.phase == Compacting && !s.failed && n < 4
    ensures Calls(s, n).phase in {Compacting, SnapRenamed, SnapSynced, WalRenamed} && !Calls(s, n).failed
    ensures Step(Calls(s, n), Advance) == Calls(s, n + 1)
    ensures Calls(s, n).phase ==
            match n case 0 => Compacting case 1 => SnapRenamed case 2 => SnapSynced case _ => WalRenamed
  {
    NextOfCalls(s, n + 1);
    if n > 0 {
      CallsAreSteps(s, n - 1);
    }
  }

  /** How opening the log, the fsync of its directory, the write and the fsync after it go. */
  datatype AppendIO = AppendIO(openOk: bool, dirOk: bool, written: nat, wrote: bool, synced: bool)

  /** How many of a compaction's file calls work: new checkpoint, its rename, directory fsync; the same for the log. */
  type CompactIO = n: nat | n <= 6

  /** The machine's steps those calls amount to. */
  function StepsDone(io: CompactIO): nat {
    match io
    case 0 => 0
    case 1 => 0
    case 2 => 1
    case 3 => 2
    case 4 => 2
    case 5 => 3
    case _ => 4
  }

  /** The one that fails then. */
  function FailedCall(io: CompactIO): FileCall {
    if io == 2 || io == 5 then DirSync else Other
  }

  /** The state after a compaction that fails so. */
  function Stopped(s: State, io: CompactIO): State
    requires s.wals != [] && s.snaps != []
  {
    Failed(Calls(s, StepsDone(io)), FailedCall(io))
  }

  /** What the history knows of the files that are loaded. */
  datatype Past = Past(snaps: seq<Contents>, wals: seq<WalFile>, durable: nat, poisoned: bool, dirFailed: bool)

  // ---- the reader loop ----

  lemma AllGood(c: Codec, s: Contents, content: string)
    requires ReplayLines(c, s, Whole(content)).Some?
    ensures GoodLines(c, content) == Whole(content)
  {
    var lines := Whole(content);
    if lines != [] && Bad(c, lines[|lines| - 1]) {
      BadStops(c, s, lines, |lines| - 1);
    }
  }

  lemma {:induction false} RecordsStop(c: Codec, s: Contents, lines: seq<string>, i: nat)
    requires i <= |lines| && ReplayLines(c, s, lines[..i]).None?
    ensures ReplayLines(c, s, lines).None?
    decreases |lines|
  {
    if i < |lines| {
      assert lines[..|lines| - 1][..i] == lines[..i];
      RecordsStop(c, s, lines[..|lines| - 1], i);
    } else {
      assert lines[..i] == lines;
    }
  }

  /** What the first `n` lines of `content`, up to `pos`, make of the checkpoint's `s`. */
  ghost function AppliedSoFar(c: Codec, s: Contents, content: string, n: nat, pos: nat): Option<Contents> {
    if LinesRead(content, Whole(content), Tail(content), n, pos) then ReplayLines(c, s, Whole(content)[..n]) else None
  }

  /** The loop has applied `n` lines of `content`, up to `pos`, which makes `t` of the checkpoint's `s`. */
  ghost predicate Applied(c: Codec, s: Contents, content: string, n: nat, pos: nat, t: Contents) {
    AppliedSoFar(c, s, content, n, pos) == Some(t)
  }

  /** The load ends well, leaving `t` and the file's first `pos` bytes. */
  ghost predicate LoadsTo(c: Codec, s: Contents, content: string, pos: nat, t: Contents) {
    RaftLog.Load(c, s, content) == Some(t) && pos <= |content| && content[..pos] == Repaired(c, content)
  }

  lemma AppliedAll(c: Codec, s: Contents, content: string, n: nat, pos: nat, t: Contents)
    requires Applied(c, s, content, n, pos, t) && NoNewline(content[pos..])
    ensures LoadsTo(c, s, content, pos, t)
  {
    LinesReadAll(content, Whole(content), Tail(content), n, pos);
    AllGood(c, s, content);
  }

  lemma AppliedNext(c: Codec, s: Contents, content: string, n: nat, pos: nat, end: nat, line: string,
      t: Contents, u: Contents)
    requires Applied(c, s, content, n, pos, t) && LineAt(content, pos, end) && line == content[pos..end]
    requires StepLine(c, t, line) == Some(u)
    ensures Applied(c, s, content, n + 1, end + 1, u)
  {
    LinesReadNext(content, Whole(content), Tail(content), n, pos, end);
  }

  /** An unreadable record that ends the file is dropped. */
  lemma AppliedTorn(c: Codec, s: Contents, content: string, n: nat, pos: nat, end: nat, line: string, t: Contents)
    requires Applied(c, s, content, n, pos, t) && LineAt(content, pos, end) && line == content[pos..end]
    requires Bad(c, line) && end + 1 == |content|
    ensures LoadsTo(c, s, content, pos, t)
  {
    var lines := Whole(content);
    LinesReadNext(content, lines, Tail(content), n, pos, end);
    LinesReadAll(content, lines, Tail(content), n + 1, end + 1);
    assert GoodLines(c, content) == lines[..n];
  }

  /** After the last line of a file that ends in a newline nothing is left. */
  lemma NothingLeft(content: string, lines: seq<string>, pos: nat)
    requires LinesRead(content, lines, "", |lines|, pos)
    ensures pos == |content|
  {
    JoinSplit(content[pos..]);
    assert lines[|lines|..] == [];
  }

  lemma LineIsGood(c: Codec, content: string, n: nat, end: nat)
    requires n < |Whole(content)| && LinesRead(content, Whole(content), Tail(content), n + 1, end + 1)
    requires Bad(c, Whole(content)[n]) ==> end + 1 < |content|
    ensures n < |GoodLines(c, content)| && GoodLines(c, content)[..n + 1] == Whole(content)[..n + 1]
  {
    if n + 1 == |Whole(content)| && Tail(content) == "" {
      NothingLeft(content, Whole(content), end + 1);
    }
  }

  /** Any other record that cannot be applied makes the load fail. */
  lemma AppliedError(c: Codec, s: Contents, content: string, n: nat, pos: nat, end: nat, line: string, t: Contents)
    requires Applied(c, s, content, n, pos, t) && LineAt(content, pos, end) && line == content[pos..end]
    requires StepLine(c, t, line).None? && (Bad(c, line) ==> end + 1 < |content|)
    ensures RaftLog.Load(c, s, content).None?
  {
    LinesReadNext(content, Whole(content), Tail(content), n, pos, end);
    LineIsGood(c, content, n, end);
    RecordsStop(c, s, GoodLines(c, content), n + 1);
  }

  class FileStore {
    const codec: Codec
    var logs: map<uint64, Log>
    var kv: map<string, string>
    var kvInt: map<string, uint64>
    var lowIndex: uint64
    var highIndex: uint64
    var lazySync: bool
    var dirty: bool
    var walOpen: bool
    var checkpoint: Checkpoint
    var wal: string
    ghost var view: State
    ghost var order: seq<uint64>  // in which the last loop over `logs` met its keys

    /** The fields are those of the machine's state. */
    ghost predicate Matches()
      reads this
    {
      && Keyed(logs)
      && Contents(logs, kv, kvInt) == view.mem && dirty == view.dirty && lazySync == view.lazySync
      && (dirty ==> walOpen)
      && view.wals != [] && view.snaps != [] && LoadCheckpoint(checkpoint) == LastSnap(view)
    }

    ghost predicate Bounded()
      reads this
    {
      Enumerates(order, logs.Keys) && lowIndex == LowOf(order) && highIndex == HighOf(order)
    }

    ghost predicate Valid()
      reads this
    {
      && Matches() && Bounded() && view.phase == Idle && !view.failed
      && wal == Encode(codec, LastWal(view).recs)
      // Opening the log has fsynced the directory.
      && (walOpen && !view.dirFailed ==> |view.snaps| == |view.wals| == 1)
    }

    method RecomputeBounds()
      modifies this`lowIndex, this`highIndex, this`order
      ensures Bounded()
    {
      var keys, low, high := logs.Keys, 0, 0;
      order := [];
      while keys != {}
        invariant keys <= logs.Keys && Enumerates(order, logs.Keys - keys)
        invariant low == LowOf(order) && high == HighOf(order)
        decreases |keys|
      {
        var idx :| idx in keys;
        keys := keys - {idx};
        if low == 0 || idx < low {
          low := idx;
        }
        if idx > high {
          high := idx;
        }
        order := order + [idx];
      }
      assert logs.Keys - keys == logs.Keys;
      lowIndex, highIndex := low, high;
    }

    /** The loop over a range ends for every bound, though `i` wraps around after the largest one. */
    method DeleteLogs(min: uint64, max: uint64)
      modifies this`logs
      ensures logs == Without(old(logs), min, max)
      ensures forall i :: i in logs <==> i in old(logs) && !(min <= i <= max)
      ensures forall i :: i in logs ==> logs[i] == old(logs)[i]
    {
      var i := min;
      ghost var before := logs;
      assert logs == map k | k in before && !(min <= k < min) :: before[k];
      while i <= max
        invariant if min <= max then min <= i <= max else i == min
        invariant logs == map k | k in before && !(min <= k < i) :: before[k]
        decreases max - i
      {
        logs := logs - {i};
        if i == max {
          assert logs == Without(before, min, max);
          return;
        }
        i := (i + 1) % 0x1_0000_0000_0000_0000;
      }
      assert min > max && logs == Without(before, min, max);
    }

    method PutAll(entries: seq<Log>)
      requires Keyed(logs)
      modifies this`logs
      ensures logs == PutLogs(old(logs), entries) && Keyed(logs)
    {
      for i := 0 to |entries|
        invariant logs == PutLogs(old(logs), entries[..i]) && Keyed(logs)
      {
        assert entries[..i + 1][..i] == entries[..i];
        logs := logs[entries[i].index := entries[i]];
      }
      assert entries[..|entries|] == entries;
    }

    // ---- loading ----

    /** One record of the log, of this version or an old one. */
    method ApplyRecord(r: Rec)
      requires Keyed(logs)
      modifies this`logs, this`kv, this`kvInt
      ensures Contents(logs, kv, kvInt) == Apply(old(Contents(logs, kv, kvInt)), r) && Keyed(logs)
    {
      match r
      case StoreLogs(entries) => PutAll(entries);
      case DeleteRange(min, max) => DeleteLogs(min, max);
      case SetVal(k, v) => kv := kv[k := v];
      case SetNum(k, v) => kvInt := kvInt[k := v];
    }

    /** One turn of the reader loop; an unreadable record is `bad`. */
    method ReadLine(raw: string) returns (ok: bool, bad: bool)
      requires Keyed(logs)
      modifies this`logs, this`kv, this`kvInt
      ensures Keyed(logs) && bad == Bad(codec, raw)
      ensures var was := old(Contents(logs, kv, kvInt));
              if ok then StepLine(codec, was, raw) == Some(Contents(logs, kv, kvInt))
              else StepLine(codec, was, raw) == None && Contents(logs, kv, kvInt) == was
    {
      var body := Trim(raw);
      if body == "" {
        return true, false;
      }
      match codec.dec(body)
      case BadJson => return false, true;
      case UnknownType => return false, false;
      case Known(r) =>
        ApplyRecord(r);
        return true, false;
    }

    /** One turn of the reader loop, at line `n`, which starts at `good`. */
    method ReplayTurn(ghost base: Contents, good: nat, ghost n: nat) returns (more: bool, err: bool, next: nat)
      requires Keyed(logs) && good <= |wal| && Applied(codec, base, wal, n, good, Contents(logs, kv, kvInt))
      modifies this`logs, this`kv, this`kvInt
      ensures Keyed(logs)
      ensures more ==> good < next <= |wal| && Applied(codec, base, wal, n + 1, next, Contents(logs, kv, kvInt))
      ensures !more && err ==> RaftLog.Load(codec, base, wal).None?
      ensures !more && !err ==> LoadsTo(codec, base, wal, good, Contents(logs, kv, kvInt))
    {
      var text := wal;
      var end;
      more, end := FindLine(text, good);
      ghost var was := Contents(logs, kv, kvInt);
      if !more {
        AppliedAll(codec, base, text, n, good, was);
        return false, false, good;
      }
      var line := text[good..end];
      var ok, bad := ReadLine(line);
      if !ok {
        if bad && end + 1 == |text| {
          AppliedTorn(codec, base, text, n, good, end, line, was);
          return false, false, good;
        }
        AppliedError(codec, base, text, n, good, end, line, was);
        return false, true, good;
      }
      AppliedNext(codec, base, text, n, good, end, line, was, Contents(logs, kv, kvInt));
      return true, false, end + 1;
    }

    /** Applies the log over the checkpoint; `good` is where a last record that was only partly written starts. */
    method ReplayWAL(ghost base: Contents) returns (err: bool, good: nat)
      requires Keyed(logs) && base == Contents(logs, kv, kvInt)
      modifies this`logs, this`kv, this`kvInt
      ensures Keyed(logs)
      ensures err ==> RaftLog.Load(codec, base, wal).None?
      ensures !err ==> LoadsTo(codec, base, wal, good, Contents(logs, kv, kvInt))
    {
      ghost var n := 0;
      good := 0;
      LinesReadStart(wal);
      while true
        invariant Keyed(logs) && good <= |wal| && Applied(codec, base, wal, n, good, Contents(logs, kv, kvInt))
        decreases |wal| - good
      {
        var more, next;
        more, err, next := ReplayTurn(base, good, n);
        if !more {
          return;
        }
        good, n := next, n + 1;
      }
    }

    /** The store as the files leave it; a file that is not there is an empty one. */
    constructor (c: Codec, checkpoint: Checkpoint, wal: string)
      ensures codec == c && this.checkpoint == checkpoint && this.wal == wal
      ensures logs == map[] && kv == map[] && kvInt == map[] && lowIndex == highIndex == 0
      ensures !lazySync && !dirty && !walOpen
    {
      codec, this.checkpoint, this.wal := c, checkpoint, wal;
      logs, kv, kvInt := map[], map[], map[];
      lowIndex, highIndex, lazySync, dirty, walOpen := 0, 0, false, false, false;
    }

    /**
     Loads the checkpoint, then the log, and cuts a torn record off it. If the
     truncation or the fsync after it fails, so does the load; after the fsync alone
     the log is already cut.
     */
    method Load(truncated: bool, synced: bool) returns (err: bool)
      requires logs == map[]
      modifies this`logs, this`kv, this`kvInt, this`wal, this`lowIndex, this`highIndex, this`order
      ensures Keyed(logs)
      ensures var loaded, torn :=
                RaftLog.Load(codec, LoadCheckpoint(checkpoint), old(wal)), Repaired(codec, old(wal)) != old(wal);
              && (err <==> loaded.None? || (torn && !(truncated && synced)))
              && wal == (if loaded.Some? && truncated then Repaired(codec, old(wal)) else old(wal))
              && (!err ==> loaded == Some(Contents(logs, kv, kvInt)) && wal == Repaired(codec, old(wal)) && Bounded())
    {
      PutAll(checkpoint.logs);
      kv, kvInt := checkpoint.kv, checkpoint.kvInt;
      var good;
      err, good := ReplayWAL(Contents(logs, kv, kvInt));
      if err {
        return;
      }
      if good < |wal| {
        if !truncated {
          return true;
        }
        wal := wal[..good];
        if !synced {
          return true;
        }
      }
      assert wal[..good] == wal;
      RecomputeBounds();
    }

    /**
     After loading a log of the records `recs`, torn or not, the store is one that
     runs start from. `past` is what its files' history was: the older ones that may
     come back, and what of the log is fsynced.
     */
    ghost method Begin(recs: seq<Rec>, torn: string, text: string, past: Past)
      requires Faithful(codec) && NoNewline(torn) && text == Encode(codec, recs) + torn
      requires RaftLog.Load(codec, LoadCheckpoint(checkpoint), text) == Some(Contents(logs, kv, kvInt))
      requires wal == Repaired(codec, text) && Bounded() && Keyed(logs) && !dirty && !lazySync && !walOpen
      requires past.durable <= |recs|
      requires forall i :: 0 <= i < |past.wals| ==> past.wals[i].durable <= |past.wals[i].recs|
      modifies this`view
      ensures Valid() && Started(view) && LastWal(view).recs == recs && view.base == LoadCheckpoint(checkpoint)
    {
      LoadEncoded(codec, LoadCheckpoint(checkpoint), recs, torn);
      view := Fresh(past.snaps + [LoadCheckpoint(checkpoint)],
        past.wals + [WalFile(recs, past.durable, past.poisoned)], past.dirFailed);
    }

    // ---- appending ----

    /** Memory already holds what `op` does; its record is still to be written. */
    ghost predicate Busy(op: Rec)
      reads this
    {
      && Matches() && Bounded() && view.phase == Writing && !view.failed && view.inflight == Some(op)
      && LastWal(view).recs != []
      && var recs := LastWal(view).recs;
      && recs[|recs| - 1] == op && wal == Encode(codec, recs[..|recs| - 1])
    }

    /** A call that failed may leave a part of its record in the log. */
    ghost predicate GaveUp()
      reads this
    {
      view.failed && view.wals != [] && wal <= Encode(codec, LastWal(view).recs)
    }

    /** Opens the log if it is not, and fsyncs the directory then. */
    method OpenWAL(op: Rec, io: AppendIO) returns (err: bool)
      requires Busy(op) && (walOpen && !view.dirFailed ==> |view.snaps| == |view.wals| == 1)
      modifies this`walOpen, this`view
      ensures err <==> !old(walOpen) && !(io.openOk && io.dirOk)
      ensures err ==> view == Appended(old(view), old(walOpen), io) && view.failed
      ensures !err ==> walOpen && Busy(op) && view == Settle(old(view), LastWal(old(view)))
      ensures view.wals != [] && LastWal(view).recs == LastWal(old(view)).recs
    {
      if walOpen {
        SettledAlready(view);
        return false;
      }
      if !io.openOk {
        view := Failed(view, Other);
        return true;
      }
      if !io.dirOk {
        view := Failed(view, DirSync);
        return true;
      }
      view := Settle(view, LastWal(view));
      walOpen := true;
      err := false;
    }

    /** Writes the record; a write that fails may leave a part of it. */
    method WriteRecord(op: Rec, io: AppendIO) returns (err: bool)
      requires Busy(op)
      requires io.written <= |codec.enc(op)| + 1 && (io.wrote ==> io.written == |codec.enc(op)| + 1)
      modifies this`wal
      ensures wal <= Encode(codec, LastWal(view).recs)
      ensures err <==> !io.wrote
      ensures !err ==> wal == Encode(codec, LastWal(view).recs)
    {
      ghost var recs := LastWal(view).recs;
      assert recs == recs[..|recs| - 1] + [op];
      EncodeSnoc(codec, recs[..|recs| - 1], op);
      var b := codec.enc(op) + "\n";
      assert b[..|b|] == b;
      wal := wal + b[..io.written];
      err := !io.wrote;
    }

    /** The record goes to the log; it is fsynced unless it is an append of logs under lazySync. */
    method AppendWAL(op: Rec, durable: bool, io: AppendIO) returns (err: bool)
      requires Busy(op) && (walOpen && !view.dirFailed ==> |view.snaps| == |view.wals| == 1)
      requires durable <==> !op.StoreLogs?
      requires io.written <= |codec.enc(op)| + 1 && (io.wrote ==> io.written == |codec.enc(op)| + 1)
      modifies this`walOpen, this`wal, this`dirty, this`view
      ensures view == Appended(old(view), old(walOpen), io)
      ensures err <==>
              (!old(walOpen) && !(io.openOk && io.dirOk)) || !io.wrote || (NeedsSync(old(view)) && !io.synced)
      ensures if err then GaveUp() else Valid()
    {
      assert wal <= Encode(codec, LastWal(view).recs) by {
        var recs := LastWal(view).recs;
        assert recs == recs[..|recs| - 1] + [op];
        EncodeSnoc(codec, recs[..|recs| - 1], op);
      }
      err := OpenWAL(op, io);
      if err {
        return;
      }
      err := WriteRecord(op, io);
      if err {
        view := Failed(view, Other);
        return;
      }
      err := SyncRecord(op, durable, io.synced);
    }

    /** What is left of an append once its record is in the log. */
    method SyncRecord(op: Rec, durable: bool, synced: bool) returns (err: bool)
      requires Matches() && Bounded() && view.phase == Writing && !view.failed && view.inflight == Some(op)
      requires walOpen && wal == Encode(codec, LastWal(view).recs) && (durable <==> !op.StoreLogs?)
      requires !view.dirFailed ==> |view.snaps| == |view.wals| == 1
      modifies this`dirty, this`view
      ensures err <==> NeedsSync(old(view)) && !synced
      ensures view == if err then Failed(old(view), LogSync) else Wrote(old(view))
      ensures if err then GaveUp() else Valid()
    {
      err := (durable || !lazySync) && !synced;
      if err {
        SyncFailedLast(view);
        view := Failed(view, LogSync);
      } else {
        WroteLast(view);
        dirty, view := !(durable || !lazySync), Wrote(view);
      }
    }

    // ---- the calls ----

    lemma NowBusy(op: Rec, was: State)
      requires was.phase == Idle && !was.failed && was.wals != []
      requires Matches() && Bounded() && view == Start(was, op) && !op.DeleteRange?
      requires wal == Encode(codec, LastWal(was).recs)
      ensures Busy(op)
    {
      var recs := LastWal(was).recs;
      assert (recs + [op])[..|recs|] == recs;
    }

    /** The state after a call whose record reached the log, or whose file calls failed. */
    ghost predicate Called(was: State, wasOpen: bool, op: Rec, io: AppendIO, err: bool)
      requires was.wals != [] && was.snaps != []
      reads this
    {
      view == Appended(Start(was, op), wasOpen, io) && err == view.failed && if err then GaveUp() else Valid()
    }

    method StoreEntries(logsIn: seq<Log>, io: AppendIO) returns (err: bool)
      requires Valid()
      requires var n := |codec.enc(StoreLogs(logsIn))| + 1; io.written <= n && (io.wrote ==> io.written == n)
      modifies this
      ensures Called(old(view), old(walOpen), StoreLogs(logsIn), io, err)
    {
      PutAll(logsIn);
      RecomputeBounds();
      ghost var was := view;
      view := Start(view, StoreLogs(logsIn));
      NowBusy(StoreLogs(logsIn), was);
      err := AppendWAL(StoreLogs(logsIn), false, io);
    }

    method Set(key: string, val: string, io: AppendIO) returns (err: bool)
      requires Valid()
      requires var n := |codec.enc(SetVal(key, val))| + 1; io.written <= n && (io.wrote ==> io.written == n)
      modifies this
      ensures Called(old(view), old(walOpen), SetVal(key, val), io, err)
    {
      kv := kv[key := val];
      ghost var was := view;
      view := Start(view, SetVal(key, val));
      NowBusy(SetVal(key, val), was);
      err := AppendWAL(SetVal(key, val), true, io);
    }

    method SetUint64(key: string, val: uint64, io: AppendIO) returns (err: bool)
      requires Valid()
      requires var n := |codec.enc(SetNum(key, val))| + 1; io.written <= n && (io.wrote ==> io.written == n)
      modifies this
      ensures Called(old(view), old(walOpen), SetNum(key, val), io, err)
    {
      kvInt := kvInt[key := val];
      ghost var was := view;
      view := Start(view, SetNum(key, val));
      NowBusy(SetNum(key, val), was);
      err := AppendWAL(SetNum(key, val), true, io);
    }

    // ---- compaction ----

    /** The checkpoint's contents; reading them back gives the store. */
    method MakeCheckpoint() returns (p: Checkpoint)
      requires Keyed(logs)
      ensures LoadCheckpoint(p) == Contents(logs, kv, kvInt) && p.low == lowIndex && p.high == highIndex
    {
      var keys := logs.Keys;
      var entries: seq<Log> := [];
      while keys != {}
        invariant keys <= logs.Keys
        invariant forall a :: 0 <= a < |entries| ==> entries[a].index in logs && entries[a] == logs[entries[a].index]
        invariant forall i :: i in logs.Keys - keys ==> logs[i] in entries
        decreases |keys|
      {
        var idx :| idx in keys;
        keys := keys - {idx};
        entries := entries + [logs[idx]];
      }
      CheckpointReadsBack(logs, entries);
      p := Checkpoint(lowIndex, highIndex, entries, kv, kvInt);
    }

    /** Memory is already without the range; the files are still to be replaced. */
    ghost predicate Shrunk()
      reads this
    {
      && Matches() && Bounded() && view.phase == Compacting && !view.failed && view.inflight.Some?
      && wal == Encode(codec, LastWal(view).recs)
    }

    /** Replaces the checkpoint, then the log; `done` of the six file calls work. */
    method Compact(done: CompactIO) returns (err: bool)
      requires Shrunk()
      modifies this`walOpen, this`checkpoint, this`wal, this`dirty, this`view
      ensures (err <==> done < 6) && !walOpen
      ensures !err ==> Valid() && view == Calls(old(view), 4)
      ensures err ==> GaveUp() && view == Stopped(old(view), done)
    {
      walOpen := false;
      MoreCalls(view);
      ReadyToReplace(view);
      err := PersistSnapshot(done);
      if err {
        return;
      }
      err := ReplaceLog(done);
    }

    method PersistSnapshot(done: CompactIO) returns (err: bool)
      requires Keyed(logs) && Contents(logs, kv, kvInt) == view.mem
      requires view.phase == Compacting && view.wals != [] && view.snaps != [] && !view.failed
      requires wal == Encode(codec, LastWal(view).recs)
      modifies this`checkpoint, this`view
      ensures err <==> done < 3
      ensures !err ==> view == Calls(old(view), 2) && LoadCheckpoint(checkpoint) == view.mem
      ensures err ==> GaveUp() && view == Stopped(old(view), done)
    {
      FewCalls(view);
      var p := MakeCheckpoint();
      if done < 2 {
        view := Failed(view, Other);
        return true;
      }
      checkpoint := p;
      view := NextCall(view);
      if done < 3 {
        view := Failed(view, DirSync);
        return true;
      }
      view := NextCall(view);
      return false;
    }

    method ReplaceLog(done: CompactIO) returns (err: bool)
      requires done >= 3 && view.phase == SnapSynced && view.wals != []
      requires Keyed(logs) && Contents(logs, kv, kvInt) == view.mem && Bounded() && lazySync == view.lazySync
      requires LoadCheckpoint(checkpoint) == view.mem && view.snaps == [view.mem] && !view.failed
      requires wal == Encode(codec, LastWal(view).recs)
      modifies this`wal, this`dirty, this`view
      ensures err <==> done < 6
      ensures !err ==> Valid() && view == Calls(old(view), 2)
      ensures err ==> GaveUp() && view == Failed(Calls(old(view), StepsDone(done) - 2), FailedCall(done))
    {
      FewCalls(view);
      if done < 5 {
        view := Failed(view, Other);
        return true;
      }
      wal := "";
      view := NextCall(view);
      if done < 6 {
        view := Failed(view, DirSync);
        return true;
      }
      dirty := false;
      view := NextCall(view);
      return false;
    }

    /** Drops a range of logs in memory. */
    method Shrink(min: uint64, max: uint64)
      requires Valid()
      modifies this`logs, this`lowIndex, this`highIndex, this`order, this`view
      ensures forall i :: i in logs <==> i in old(logs) && !(min <= i <= max)
      ensures forall i :: i in logs ==> logs[i] == old(logs)[i]
      ensures Shrunk() && view == Start(old(view), DeleteRange(min, max))
    {
      DeleteLogs(min, max);
      RecomputeBounds();
      view := Start(view, DeleteRange(min, max));
    }

    /** Drops a range of logs and rewrites the checkpoint without them. */
    method DropRange(min: uint64, max: uint64, done: CompactIO) returns (err: bool)
      requires Valid()
      modifies this
      ensures err <==> done < 6
      ensures forall i :: i in logs <==> i in old(logs) && !(min <= i <= max)
      ensures forall i :: i in logs ==> logs[i] == old(logs)[i]
      ensures kv == old(kv) && kvInt == old(kvInt) && lazySync == old(lazySync) && !walOpen && Bounded()
      ensures var t := Start(old(view), DeleteRange(min, max));
              if err then GaveUp() && view == Stopped(t, done)
              else Valid() && view == Calls(t, 4)
    {
      Shrink(min, max);
      err := Compact(done);
    }

    /** Log appends are left to the background loop from here on. */
    method SyncEvery()
      requires Valid()
      modifies this`lazySync, this`view
      ensures Valid() && lazySync && view == Step(old(view), Event.SyncEvery)
    {
      lazySync, view := true, Step(view, Event.SyncEvery);
    }

    /** The background loop of lazySync; a failed fsync is tried again the next time. */
    method SyncIfDirty(ok: bool)
      requires Valid() && lazySync
      modifies this`dirty, this`view
      ensures Valid() && view == Step(old(view), SyncLoop(ok))
    {
      view := Step(view, SyncLoop(ok));
      if !dirty || !walOpen {
        return;
      }
      if ok {
        dirty := false;
      }
    }

    // ---- reading ----

    /** A key set to no bytes reads as one never set. */
    method Get(key: string) returns (val: Option<string>)
      requires Valid()
      ensures val == match At(view.mem, ValAt(key))
                     case Some(ValItem(v)) => if v == "" then None else Some(v)
                     case _ => None
    {
      val := if key in kv && kv[key] != "" then Some(kv[key]) else None;
    }

    method GetUint64(key: string) returns (num: Option<uint64>)
      requires Valid()
      ensures At(view.mem, NumAt(key)) == if num.Some? then Some(NumItem(num.value)) else None
    {
      num := if key in kvInt then Some(kvInt[key]) else None;
    }

    method GetLog(index: uint64) returns (l: Option<Log>)
      requires Valid()
      ensures At(view.mem, LogAt(index)) == if l.Some? then Some(LogItem(l.value)) else None
      ensures l.Some? ==> l.value.index == index
    {
      l := if index in logs then Some(logs[index]) else None;
    }
  }
}
