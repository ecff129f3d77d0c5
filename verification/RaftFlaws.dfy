/** Where the Raft file store keeps less than it promises, and exactly when it does not. */
module RaftFlaws {
  import opened Options
  import opened RaftLog
  import opened RaftStore
  import opened RaftSafety

  // ---- a compaction of a log that is not all fsynced ----

  /** No record that is not fsynced replaces, with another entry, what the log already holds at `x`. */
  ghost predicate NoUnsyncedOverwrite(w: WalFile, x: Slot)
  {
    forall k {:trigger w.recs[k]} :: w.durable <= k < |w.recs| && Touch(w.recs[k], x).Some? ==>
      LastTouch(w.recs[..k], x) in {None, Touch(w.recs[k], x)}
  }

  lemma LastTouchNext(recs: seq<Rec>, j: nat, x: Slot)
    requires j < |recs|
    ensures LastTouch(recs[..j + 1], x) ==
            if Touch(recs[j], x).Some? then Touch(recs[j], x) else LastTouch(recs[..j], x)
  {
    assert recs[..j + 1][..j] == recs[..j];
  }

  lemma {:induction false} PrefixTouches(w: WalFile, x: Slot, j: nat)
    requires NoUnsyncedOverwrite(w, x) && w.durable <= j <= |w.recs|
    ensures LastTouch(w.recs[..j], x) in {None, LastTouch(w.recs, x)}
    decreases |w.recs| - j
  {
    if j == |w.recs| {
      assert w.recs[..j] == w.recs;
    } else {
      PrefixTouches(w, x, j + 1);
      LastTouchNext(w.recs, j, x);
    }
  }

  /** The old log over the new checkpoint `c`, which already has what the whole log gives at `x`. */
  lemma OverwriteExactly(c: Contents, base: Contents, w: WalFile, x: Slot)
    requires w.durable <= |w.recs| && At(Replay(base, w.recs), x) == At(c, x)
    ensures AlreadyThere(c, w, x, At(c, x)) <==> NoUnsyncedOverwrite(w, x)
  {
    if NoUnsyncedOverwrite(w, x) {
      forall j: nat {:trigger w.recs[..j]} | w.durable <= j <= |w.recs|
        ensures At(Replay(c, w.recs[..j]), x) == At(c, x)
      {
        OverwriteHarmless(c, base, w, x, j);
      }
      PrefixesThere(c, w, x, At(c, x));
    }
    if AlreadyThere(c, w, x, At(c, x)) {
      forall k | w.durable <= k < |w.recs| && Touch(w.recs[k], x).Some?
        ensures LastTouch(w.recs[..k], x) in {None, Touch(w.recs[k], x)}
      {
        HarmlessOverwrites(c, w, x, k);
      }
    }
  }

  lemma OverwriteHarmless(c: Contents, base: Contents, w: WalFile, x: Slot, j: nat)
    requires w.durable <= j <= |w.recs| && NoUnsyncedOverwrite(w, x)
    requires At(Replay(base, w.recs), x) == At(c, x)
    ensures At(Replay(c, w.recs[..j]), x) == At(c, x)
  {
    PrefixTouches(w, x, j);
    ReplayAt(c, w.recs[..j], x);
    ReplayAt(base, w.recs, x);
  }

  lemma HarmlessOverwrites(c: Contents, w: WalFile, x: Slot, k: nat)
    requires w.durable <= k < |w.recs| && AlreadyThere(c, w, x, At(c, x)) && Touch(w.recs[k], x).Some?
    ensures LastTouch(w.recs[..k], x) in {None, Touch(w.recs[k], x)}
  {
    PrefixThere(c, w, x, At(c, x), k);
    ReplayAt(c, w.recs[..k], x);
  }

  /**
   A compaction replaces the checkpoint, then the log, without fsyncing the log
   first. Once the new checkpoint is there for good, no power loss takes back what
   stands outside the range exactly when no append that waits for its fsync replaces
   an entry of the log by another; and, if an fsync of the directory failed, each
   older log that may still come back agrees with it.
   */
  lemma LazyCompactionExact(s: State, x: Slot)
    requires Inv(s) && (s.phase == SnapSynced || s.phase == WalRenamed)
    requires Touch(s.inflight.value, x) == None
    ensures Firm(s, x, At(s.mem, x)) <==> NoUnsyncedOverwrite(InUse(s), x) && OlderAgree(s, x)
    ensures Alone(s) ==> OlderAgree(s, x)
  {
    var v := At(s.mem, x);
    ApplyAt(Kept(s), s.inflight.value, x);
    OverwriteExactly(s.mem, s.base, InUse(s), x);
    FirmExactly(s, x, v);
    LazyThere(s, x);
  }

  lemma LazyThere(s: State, x: Slot)
    requires FilesOk(s) && CompactingOk(s) && (s.phase == SnapSynced || s.phase == WalRenamed)
    ensures AllThere(s, x, At(s.mem, x)) <==> AlreadyThere(s.mem, InUse(s), x, At(s.mem, x)) && OlderAgree(s, x)
  {
    EmptyAgrees(s.mem, x);
    assert s.snaps[0] == s.mem && s.wals[Place(s)] == InUse(s);
    forall wal {:trigger s.wals[wal]} | Place(s) < wal < |s.wals|
      ensures AlreadyThere(s.mem, s.wals[wal], x, At(s.mem, x))
    {
      assert s.wals[wal] == WalFile([], 0, false);
    }
  }

  /** Where the log in use stands among the logs. */
  function Place(s: State): int {
    |s.wals| - if s.phase == WalRenamed then 2 else 1
  }

  ghost predicate OlderAgree(s: State, x: Slot)
    requires FilesOk(s)
  {
    forall wal {:trigger s.wals[wal]} :: 0 <= wal < Place(s) ==> AlreadyThere(s.mem, s.wals[wal], x, At(s.mem, x))
  }

  lemma EmptyAgrees(c: Contents, x: Slot)
    ensures AlreadyThere(c, WalFile([], 0, false), x, At(c, x))
  {
    assert WalFile([], 0, false).recs[..0] == [] && Replay(c, []) == c;
  }

  /**
   Before that, while the old checkpoint may come back, exactly when the fsynced
   part of the log already has it, and no record after that another value.
   */
  lemma EarlyCompactionExact(s: State, x: Slot)
    requires Inv(s) && (s.phase == Compacting || s.phase == SnapRenamed) && Alone(s)
    ensures Firm(s, x, At(s.mem, x)) <==> AlreadyThere(s.base, InUse(s), x, At(s.mem, x))
  {
    EarlyPairs(s);
    if Firm(s, x, At(s.mem, x)) {
      FirmThere(s, x, At(s.mem, x), 0, 0);
    }
    if AlreadyThere(s.base, InUse(s), x, At(s.mem, x)) {
      EarlyThere(s, x);
    }
  }

  lemma EarlyThere(s: State, x: Slot)
    requires FilesOk(s) && s.wals == [InUse(s)] && forall c :: c in s.snaps ==> c == s.base || c == s.mem
    requires AlreadyThere(s.base, InUse(s), x, At(s.mem, x))
    ensures Firm(s, x, At(s.mem, x))
  {
    ThereOverNew(s, InUse(s), x);
    forall snap: nat, wal: nat, kept: nat | Leaves(s, snap, wal, kept)
      ensures At(Image(s, snap, wal, kept), x) == At(s.mem, x)
    {
      assert s.snaps[snap] in s.snaps && s.wals[wal] == InUse(s);
      PrefixThere(s.snaps[snap], s.wals[wal], x, At(s.mem, x), kept);
    }
  }

  lemma EarlyPairs(s: State)
    requires FilesOk(s) && CompactingOk(s) && (s.phase == Compacting || s.phase == SnapRenamed) && Alone(s)
    ensures s.wals == [InUse(s)] && s.snaps[0] == s.base && (s.snaps == [s.base] || s.snaps == [s.base, s.mem])
  {
  }

  lemma ThereOverNew(s: State, w: WalFile, x: Slot)
    requires w.durable <= |w.recs| && AlreadyThere(s.base, w, x, At(s.mem, x))
    ensures AlreadyThere(s.mem, w, x, At(s.mem, x))
  {
    ReplayAt(s.base, w.recs[..w.durable], x);
    ReplayAt(s.mem, w.recs[..w.durable], x);
  }

  // ---- the log over the new checkpoint ----

  /** The log in use over the checkpoint that the compaction has just made. */
  predicate NewPair(s: State, snap: nat, wal: nat) {
    && s.phase in {SnapRenamed, SnapSynced, WalRenamed}
    && snap + 1 == |s.snaps| && wal == Place(s)
  }

  /** The calls from number `a` on and before number `b` leave at `x` what they found. */
  ghost predicate Calm(origin: Contents, calls: seq<Rec>, a: nat, b: nat, x: Slot)
    requires a <= b <= |calls|
  {
    LastTouch(calls[a..b], x) in {None, Some(At(Replay(origin, calls[..a]), x))}
  }

  lemma CalmExactly(origin: Contents, calls: seq<Rec>, a: nat, b: nat, x: Slot)
    requires a <= b <= |calls|
    ensures Calm(origin, calls, a, b, x)
            <==> At(Replay(origin, calls[..a]), x) == At(Replay(origin, calls[..b]), x)
  {
    assert calls[..b] == calls[..a] + calls[a..b];
    ReplayConcat(origin, calls[..a], calls[a..b]);
    ReplayAt(Replay(origin, calls[..a]), calls[a..b], x);
  }

  /**
   The calls that `log` records end with number `m`. The ones between `m` and `n`
   leave what it holds, and the ones after `n` leave everything else.
   */
  ghost predicate Splits(origin: Contents, calls: seq<Rec>, log: seq<Rec>, m: nat, n: nat)
    requires m <= |calls| && n <= |calls|
  {
    forall x {:trigger LastTouch(log, x)} ::
      if LastTouch(log, x).None? then Calm(origin, calls, n, |calls|, x)
      else if n <= m then Calm(origin, calls, n, m, x)
      else Calm(origin, calls, m, n, x)
  }

  lemma SplitsExactly(origin: Contents, base: Contents, calls: seq<Rec>, log: seq<Rec>, m: nat, n: nat)
    requires m <= |calls| && n <= |calls| && Replay(base, log) == Replay(origin, calls[..m])
    ensures Replay(Replay(origin, calls), log) == Replay(origin, calls[..n]) <==> Splits(origin, calls, log, m, n)
  {
    var image, prefix := Replay(Replay(origin, calls), log), Replay(origin, calls[..n]);
    assert calls[..|calls|] == calls;
    forall x
      ensures At(image, x) == At(prefix, x) <==>
              if LastTouch(log, x).None? then Calm(origin, calls, n, |calls|, x)
              else if n <= m then Calm(origin, calls, n, m, x)
              else Calm(origin, calls, m, n, x)
    {
      ReplayAt(Replay(origin, calls), log, x);
      ReplayAt(base, log, x);
      CalmExactly(origin, calls, n, |calls|, x);
      if n <= m {
        CalmExactly(origin, calls, n, m, x);
      } else {
        CalmExactly(origin, calls, m, n, x);
      }
    }
    if forall x :: At(image, x) == At(prefix, x) {
      SameContents(image, prefix);
    }
  }

  /** The calls that returned, and the compaction in progress. */
  function AllCalls(s: State): seq<Rec> {
    s.returned + match s.inflight case Some(op) => [op] case None => []
  }

  /**
   What a power loss leaves over the new checkpoint is the store after the first
   `n` of the calls, the compaction the last of them, exactly if the calls up to `n`
   that the log lost leave what it kept, and those after `n` leave everything else.
   */
  lemma NewCheckpointExactly(ss: seq<State>, es: seq<Event>, i: nat, snap: nat, wal: nat, kept: nat, n: nat)
    returns (m: nat)
    requires IsRun(ss, es) && i < |ss| && Leaves(ss[i], snap, wal, kept)
    requires NewPair(ss[i], snap, wal) && ss[i].loaded <= kept && n <= |AllCalls(ss[i])|
    ensures m + (|ss[i].wals[wal].recs| - kept) == |ss[i].returned| && m <= |AllCalls(ss[i])|
    ensures Image(ss[i], snap, wal, kept) == Replay(ss[i].origin, AllCalls(ss[i])[..n])
            <==> Splits(ss[i].origin, AllCalls(ss[i]), ss[i].wals[wal].recs[..kept], m, n)
  {
    var s := ss[i];
    RunInv(ss, es, i);
    RunAligned(ss, es, i);
    m := NewPairSplits(s, snap, wal, kept);
    SplitsExactly(s.origin, s.base, AllCalls(s), s.wals[wal].recs[..kept], m, n);
  }

  lemma NewPairIs(s: State, snap: nat, wal: nat)
    requires FilesOk(s) && CompactingOk(s) && NewPair(s, snap, wal)
    ensures wal < |s.wals| && s.wals[wal] == InUse(s) && s.snaps[snap] == s.mem && Settled(s) == InUse(s).recs
  {
  }

  lemma NewPairSplits(s: State, snap: nat, wal: nat, kept: nat) returns (m: nat)
    requires FilesOk(s) && CompactingOk(s) && Aligned(s) && Leaves(s, snap, wal, kept)
    requires NewPair(s, snap, wal) && s.loaded <= kept
    ensures m + (|s.wals[wal].recs| - kept) == |s.returned| && m <= |AllCalls(s)|
    ensures Image(s, snap, wal, kept) == Replay(Replay(s.origin, AllCalls(s)), s.wals[wal].recs[..kept])
    ensures Replay(s.base, s.wals[wal].recs[..kept]) == Replay(s.origin, AllCalls(s)[..m])
  {
    var recs := InUse(s).recs;
    NewPairIs(s, snap, wal);
    m := |s.returned| - (|recs| - kept);
    ReplaySnoc(s.origin, s.returned, s.inflight.value);
    assert recs[..kept] == Settled(s)[..kept] && AllCalls(s)[..m] == s.returned[..m];
  }

  function Entry(index: uint64, term: uint64): Log {
    Log(index, term, 0, "", "", "")
  }

  /** A store holding entry 1 of term 1, under everysec. */
  function OneEntry(): State {
    var rec := StoreLogs([Entry(1, 1)]);
    State(true, Contents(map[1 := Entry(1, 1)], map[], map[]), false, Idle, false, false, EMPTY, [EMPTY],
          [WalFile([rec], 1, false)], 1, Contents(map[1 := Entry(1, 1)], map[], map[]), [], None)
  }

  /** A leader of term 2 replaces entry 1 and adds entry 2; then a snapshot drops older entries. */
  function Overwrite(): Rec {
    StoreLogs([Entry(1, 2), Entry(2, 2)])
  }

  const DROP := DeleteRange(0, 0)

  function Overwritten(): Contents {
    Contents(map[1 := Entry(1, 2), 2 := Entry(2, 2)], map[], map[])
  }

  lemma OneEntryStarted()
    ensures Started(OneEntry())
  {
    var s := OneEntry();
    var rec := StoreLogs([Entry(1, 1)]);
    assert [Entry(1, 1)][..0] == [] && [rec][..0] == [];
    assert PutLogs(map[], [Entry(1, 1)]) == map[1 := Entry(1, 1)];
    assert Replay(EMPTY, [rec]) == Apply(EMPTY, rec);
  }

  lemma OverwriteApplies()
    ensures Apply(OneEntry().mem, Overwrite()) == Overwritten()
    ensures Apply(Overwritten(), DROP) == Overwritten()
    ensures Apply(Overwritten(), StoreLogs([Entry(1, 1)])).logs == map[1 := Entry(1, 1), 2 := Entry(2, 2)]
  {
    var logs := OneEntry().mem.logs;
    assert [Entry(1, 2), Entry(2, 2)][..1] == [Entry(1, 2)] && [Entry(1, 2)][..0] == [];
    assert PutLogs(logs, [Entry(1, 2)]) == map[1 := Entry(1, 2)];
    assert Without(Overwritten().logs, 0, 0) == Overwritten().logs;
    assert [Entry(1, 1)][..0] == [];
    assert PutLogs(Overwritten().logs, [Entry(1, 1)]) == Overwritten().logs[1 := Entry(1, 1)];
  }

  function RegressEvents(): seq<Event> {
    [Begin(Overwrite()), WriteDone, Begin(DROP), Advance, Advance]
  }

  function RegressState(i: nat): State {
    if i == 0 then OneEntry()
    else
      var s := OneEntry().(mem := Overwritten(),
                           wals := [WalFile([StoreLogs([Entry(1, 1)]), Overwrite()], 1, false)]);
      if i == 1 then s.(phase := Writing, inflight := Some(Overwrite()))
      else
        var s := s.(dirty := true, returned := [Overwrite()]);
        if i == 2 then s
        else
          var s := s.(phase := Compacting, inflight := Some(DROP));
          if i == 3 then s
          else if i == 4 then s.(phase := SnapRenamed, snaps := [EMPTY, Overwritten()])
          else s.(phase := SnapSynced, snaps := [Overwritten()])
  }

  lemma RegressBegins()
    ensures Step(RegressState(0), Begin(Overwrite())) == RegressState(1)
    ensures Step(RegressState(2), Begin(DROP)) == RegressState(3)
  {
    OverwriteApplies();
    var rec := StoreLogs([Entry(1, 1)]);
    assert [rec] + [Overwrite()] == [rec, Overwrite()];
  }

  lemma RegressWrites()
    ensures Step(RegressState(1), WriteDone) == RegressState(2)
  {
    assert [] + [Overwrite()] == [Overwrite()];
  }

  lemma RegressAdvances()
    ensures Step(RegressState(3), Advance) == RegressState(4)
    ensures Step(RegressState(4), Advance) == RegressState(5)
  {
    assert [EMPTY] + [Overwritten()] == [EMPTY, Overwritten()];
  }

  lemma RegressSteps(i: nat)
    requires i < 5
    ensures Next(RegressState(i), RegressEvents()[i], RegressState(i + 1))
  {
    match i
    case 1 => RegressWrites();
    case 0 | 2 => RegressBegins();
    case _ => RegressAdvances();
  }

  /**
   One that does replace an entry: after the power loss entry 1 is the old one
   again beside entry 2 of the same call, a store that no prefix of the calls made.
   */
  lemma LazyCompactionRegresses() returns (ss: seq<State>, es: seq<Event>)
    ensures IsRun(ss, es) && forall e :: e in es ==> !e.SyncLoop? && !e.Fail?
    ensures var s := ss[|es|];
            && Leaves(s, 0, 0, 1)
            && Image(s, 0, 0, 1).logs == map[1 := Entry(1, 1), 2 := Entry(2, 2)]
            && s.returned == [Overwrite()]
  {
    es := RegressEvents();
    ss := seq(6, i requires 0 <= i < 6 => RegressState(i));
    OneEntryStarted();
    forall i {:trigger es[i]} | 0 <= i < |es|
      ensures Next(ss[i], es[i], ss[i + 1])
    {
      RegressSteps(i);
    }
    OverwriteApplies();
    var s := RegressState(5);
    assert s.wals[0].recs[..1] == [StoreLogs([Entry(1, 1)])] && [StoreLogs([Entry(1, 1)])][..0] == [];
    assert Image(s, 0, 0, 1) == Apply(Overwritten(), StoreLogs([Entry(1, 1)]));
  }

  // ---- a background fsync that failed ----

  const VOTE := SetNum("CurrentTerm", 7)

  function VoteEvents(): seq<Event> {
    [Begin(Overwrite()), WriteDone, SyncLoop(false), Begin(VOTE), WriteDone]
  }

  function VoteState(i: nat): State {
    if i <= 2 then RegressState(i)
    else
      var recs := [StoreLogs([Entry(1, 1)]), Overwrite()];
      var s := RegressState(2).(wals := [WalFile(recs, 1, true)]);
      if i == 3 then s
      else
        var s := s.(mem := Overwritten().(kvInt := map["CurrentTerm" := 7]), wals := [WalFile(recs + [VOTE], 1, true)]);
        if i == 4 then s.(phase := Writing, inflight := Some(VOTE))
        else s.(dirty := false, returned := [Overwrite(), VOTE])
  }

  lemma VoteBegins()
    ensures Step(VoteState(3), Begin(VOTE)) == VoteState(4)
  {
    var rec := StoreLogs([Entry(1, 1)]);
    assert [rec, Overwrite()] + [VOTE] == [rec, Overwrite(), VOTE];
    assert Apply(Overwritten(), VOTE) == Overwritten().(kvInt := map["CurrentTerm" := 7]);
  }

  lemma VoteWrites()
    ensures Step(VoteState(4), WriteDone) == VoteState(5)
  {
    assert [Overwrite()] + [VOTE] == [Overwrite(), VOTE];
  }

  lemma VoteSteps(i: nat)
    requires i < 5
    ensures Next(VoteState(i), VoteEvents()[i], VoteState(i + 1))
  {
    match i
    case 3 => VoteBegins();
    case 4 => VoteWrites();
    case 2 =>
    case _ => RegressSteps(i);
  }

  /**
   The background loop tries a failed fsync again and the store goes on. Since
   a later fsync of that file proves nothing, a term whose set returned can be
   missing after a power loss.
   */
  lemma FailedLoopSyncForgetsTerm() returns (ss: seq<State>, es: seq<Event>)
    ensures IsRun(ss, es)
    ensures var s := ss[|es|];
            && s.phase == Idle && !s.failed && s.returned == [Overwrite(), VOTE]
            && Leaves(s, 0, 0, 1) && At(Image(s, 0, 0, 1), NumAt("CurrentTerm")) == None
  {
    es := VoteEvents();
    ss := seq(6, i requires 0 <= i < 6 => VoteState(i));
    OneEntryStarted();
    forall i {:trigger es[i]} | 0 <= i < |es|
      ensures Next(ss[i], es[i], ss[i + 1])
    {
      VoteSteps(i);
    }
    var s := VoteState(5);
    var rec := StoreLogs([Entry(1, 1)]);
    assert s.wals[0].recs[..1] == [rec] && [rec][..0] == [];
    assert Image(s, 0, 0, 1) == Apply(EMPTY, rec);
  }

  // ---- a process that ends before its fsync ----

  function Term(num: uint64): Rec {
    SetNum("CurrentTerm", num)
  }

  function KilledEvents(): seq<Event> {
    [Begin(Term(6)), WriteDone, Begin(Term(7)), Killed(2, NotTorn)]
  }

  function KilledState(i: nat): State {
    var empty := Fresh([EMPTY], [WalFile([], 0, false)], false);
    var six, seven := Contents(map[], map[], map["CurrentTerm" := 6]), Contents(map[], map[], map["CurrentTerm" := 7]);
    if i == 0 then empty
    else if i == 1 then
      empty.(mem := six, phase := Writing, inflight := Some(Term(6)), wals := [WalFile([Term(6)], 0, false)])
    else
      var returned := empty.(mem := six, returned := [Term(6)], wals := [WalFile([Term(6)], 1, false)]);
      if i == 2 then returned
      else
        var wals := [WalFile([Term(6), Term(7)], 1, false)];
        if i == 3 then returned.(mem := seven, phase := Writing, inflight := Some(Term(7)), wals := wals)
        else Fresh([EMPTY], wals, false)
  }

  lemma TermReplays()
    ensures Replay(EMPTY, []) == EMPTY && Apply(EMPTY, Term(6)).kvInt == map["CurrentTerm" := 6]
    ensures Replay(EMPTY, [Term(6)]) == Contents(map[], map[], map["CurrentTerm" := 6])
    ensures Replay(EMPTY, [Term(6), Term(7)]) == Contents(map[], map[], map["CurrentTerm" := 7])
  {
    assert [Term(6)][..0] == [] && [Term(6), Term(7)][..1] == [Term(6)];
    assert map["CurrentTerm" := 6]["CurrentTerm" := 7] == map["CurrentTerm" := 7];
  }

  lemma KilledBegins()
    ensures Next(KilledState(0), KilledEvents()[0], KilledState(1))
    ensures Next(KilledState(2), KilledEvents()[2], KilledState(3))
  {
    TermReplays();
    assert [] + [Term(6)] == [Term(6)] && [Term(6)] + [Term(7)] == [Term(6), Term(7)];
    assert map["CurrentTerm" := 6]["CurrentTerm" := 7] == map["CurrentTerm" := 7];
  }

  lemma KilledWrites()
    ensures Next(KilledState(1), KilledEvents()[1], KilledState(2))
    ensures Next(KilledState(3), KilledEvents()[3], KilledState(4))
  {
    TermReplays();
    assert [] + [Term(6)] == [Term(6)];
    var two := [Term(6), Term(7)];
    assert two[..2] == two;
  }

  lemma KilledSteps(i: nat)
    requires i < 4
    ensures Next(KilledState(i), KilledEvents()[i], KilledState(i + 1))
  {
    match i
    case 0 | 2 => KilledBegins();
    case _ => KilledWrites();
  }

  /**
   A process writes the record of a term and dies before its fsync. The next one
   reads the term, and fsyncs nothing of it; with no call in progress and no failed
   fsync, a power loss takes the store back to the term before.
   */
  lemma KilledProcessForgetsTerm() returns (ss: seq<State>, es: seq<Event>)
    ensures IsRun(ss, es)
    ensures var s, x := ss[|es|], NumAt("CurrentTerm");
            && s.phase == Idle && !s.failed && s.wals != [] && !LastWal(s).poisoned && Alone(s) && !Steady(s)
            && At(s.mem, x) == Some(NumItem(7))
            && Leaves(s, 0, 0, 1) && At(Image(s, 0, 0, 1), x) == Some(NumItem(6))
  {
    es := KilledEvents();
    ss := seq(5, i requires 0 <= i < 5 => KilledState(i));
    TermReplays();
    forall i {:trigger es[i]} | 0 <= i < |es|
      ensures Next(ss[i], es[i], ss[i + 1])
    {
      KilledSteps(i);
    }
    assert [Term(6), Term(7)][..1] == [Term(6)];
  }

  // ---- a call whose fsync failed ----

  const BALLOT := SetNum("LastVoteTerm", 7)

  function FailedEvents(): seq<Event> {
    [Begin(Term(6)), WriteDone, Begin(Term(7)), Fail(LogSync), Killed(2, NotTorn), Begin(BALLOT), WriteDone]
  }

  function FailedState(i: nat): State {
    var two := [Term(6), Term(7)];
    var loaded := Fresh([EMPTY], [WalFile(two, 1, true)], false);
    var voted := loaded.(mem := Voted(), wals := [WalFile(two + [BALLOT], 1, true)]);
    if i <= 3 then KilledState(i)
    else if i == 4 then KilledState(3).(wals := [WalFile(two, 1, true)], failed := true)
    else if i == 5 then loaded
    else if i == 6 then voted.(phase := Writing, inflight := Some(BALLOT))
    else voted.(returned := [BALLOT])
  }

  function Voted(): Contents {
    Contents(map[], map[], map["CurrentTerm" := 7, "LastVoteTerm" := 7])
  }

  lemma FailedEnds()
    ensures Next(FailedState(3), FailedEvents()[3], FailedState(4))
    ensures Next(FailedState(4), FailedEvents()[4], FailedState(5))
  {
    var two := [Term(6), Term(7)];
    assert two[..2] == two;
  }

  lemma BallotWrites()
    ensures Next(FailedState(5), FailedEvents()[5], FailedState(6))
    ensures Next(FailedState(6), FailedEvents()[6], FailedState(7))
  {
    TermReplays();
    assert map["CurrentTerm" := 7]["LastVoteTerm" := 7] == map["CurrentTerm" := 7, "LastVoteTerm" := 7];
    assert [] + [BALLOT] == [BALLOT];
  }

  lemma FailedSteps(i: nat)
    requires i < 7
    ensures Next(FailedState(i), FailedEvents()[i], FailedState(i + 1))
  {
    match i
    case 0 | 1 | 2 => KilledSteps(i);
    case 3 | 4 => FailedEnds();
    case _ => BallotWrites();
  }

  /**
   The fsync of a term fails, and the process ends. The next one reads the term and
   fsyncs the same log again for a vote: the set of the vote returns, with every
   fsync of that process fine, and a power loss takes vote and term away.
   */
  lemma FailedCallSyncForgetsVote() returns (ss: seq<State>, es: seq<Event>)
    ensures IsRun(ss, es)
    ensures var s := ss[|es|];
            && s.phase == Idle && !s.failed && s.returned == [BALLOT] && Alone(s) && !Steady(s)
            && At(s.mem, NumAt("CurrentTerm")) == Some(NumItem(7))
            && Leaves(s, 0, 0, 1) && At(Image(s, 0, 0, 1), NumAt("CurrentTerm")) == Some(NumItem(6))
            && At(Image(s, 0, 0, 1), NumAt("LastVoteTerm")) == None
  {
    es := FailedEvents();
    ss := seq(8, i requires 0 <= i < 8 => FailedState(i));
    forall i {:trigger es[i]} | 0 <= i < |es|
      ensures Next(ss[i], es[i], ss[i + 1])
    {
      FailedSteps(i);
    }
    TermReplays();
    assert ss[7].wals[0].recs[..1] == [Term(6)];
  }

  // ---- a directory fsync that failed ----

  function RenamedEvents(): seq<Event> {
    [Begin(DROP), Advance, Advance, Advance, Fail(DirSync), Killed(0, NotTorn), Begin(Term(7)), WriteDone]
  }

  function RenamedState(i: nat): State {
    var none := WalFile([], 0, false);
    var s := Fresh([EMPTY], [none], false);
    var dropping, loaded := s.(inflight := Some(DROP)), Fresh([EMPTY], [none, none], true);
    var seven := loaded.(mem := Contents(map[], map[], map["CurrentTerm" := 7]));
    if i == 0 then s
    else if i == 1 then dropping.(phase := Compacting)
    else if i == 2 then dropping.(phase := SnapRenamed, snaps := [EMPTY, EMPTY])
    else if i == 3 then dropping.(phase := SnapSynced)
    else if i == 4 then dropping.(phase := WalRenamed, wals := [none, none])
    else if i == 5 then dropping.(phase := WalRenamed, wals := [none, none], failed := true, dirFailed := true)
    else if i == 6 then loaded
    else if i == 7 then
      seven.(phase := Writing, inflight := Some(Term(7)), wals := [none, WalFile([Term(7)], 0, false)])
    else seven.(returned := [Term(7)], wals := [none, WalFile([Term(7)], 1, false)])
  }

  lemma DropNothing()
    ensures Apply(EMPTY, DROP) == EMPTY && Replay(EMPTY, []) == EMPTY
    ensures Apply(EMPTY, Term(7)) == Contents(map[], map[], map["CurrentTerm" := 7])
  {
    assert Without(EMPTY.logs, 0, 0) == EMPTY.logs;
    assert EMPTY.kvInt["CurrentTerm" := 7] == map["CurrentTerm" := 7];
  }

  lemma RenamedCompacts(i: nat)
    requires i < 4
    ensures Next(RenamedState(i), RenamedEvents()[i], RenamedState(i + 1))
  {
    DropNothing();
    var none := WalFile([], 0, false);
    assert [EMPTY] + [EMPTY] == [EMPTY, EMPTY] && [none] + [none] == [none, none];
  }

  lemma RenamedEnds()
    ensures Next(RenamedState(4), RenamedEvents()[4], RenamedState(5))
    ensures Next(RenamedState(5), RenamedEvents()[5], RenamedState(6))
  {
    var none := WalFile([], 0, false);
    assert [none, none][..1] + [none] == [none, none] && none.recs[..0] == [];
  }

  lemma RenamedWrites()
    ensures Next(RenamedState(6), RenamedEvents()[6], RenamedState(7))
    ensures Next(RenamedState(7), RenamedEvents()[7], RenamedState(8))
  {
    DropNothing();
    assert [] + [Term(7)] == [Term(7)];
  }

  lemma RenamedSteps(i: nat)
    requires i < 8
    ensures Next(RenamedState(i), RenamedEvents()[i], RenamedState(i + 1))
  {
    match i
    case 4 | 5 => RenamedEnds();
    case 6 | 7 => RenamedWrites();
    case _ => RenamedCompacts(i);
  }

  /**
   The directory fsync after a compaction's last rename fails, and the process ends.
   The next one fsyncs the directory when it opens the log, which proves nothing
   about that rename: the old log may come back without a term whose set returned.
   */
  lemma FailedDirSyncForgetsTerm() returns (ss: seq<State>, es: seq<Event>)
    ensures IsRun(ss, es)
    ensures var s := ss[|es|];
            && s.phase == Idle && !s.failed && s.returned == [Term(7)] && s.wals != [] && !LastWal(s).poisoned
            && Leaves(s, 0, 0, 0) && At(Image(s, 0, 0, 0), NumAt("CurrentTerm")) == None
  {
    es := RenamedEvents();
    ss := seq(9, i requires 0 <= i < 9 => RenamedState(i));
    forall i {:trigger es[i]} | 0 <= i < |es|
      ensures Next(ss[i], es[i], ss[i + 1])
    {
      RenamedSteps(i);
    }
    DropNothing();
    assert ss[8].wals[0].recs[..0] == [];
  }
}
