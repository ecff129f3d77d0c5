/** Where the append-only file loses an acknowledged write: vacuums whose ignored errors matter. */
module AofFlaws {
  import opened Lines
  import opened Options
  import opened JsonNumbers
  import opened JsonStrings
  import opened OrderedObject
  import opened JsonTree
  import opened TreePaths
  import opened TreeLaws
  import opened AofLog
  import opened Document
  import opened AofQueue
  import opened AofSafety

  const FINE := AofQueue.Flushed

  function SetA(): Write {
    SetWrite("a", Leaf("true"))
  }

  function WithA(): Node {
    Obj([Entry("a", "\"a\"", Leaf("true"))])
  }

  lemma SetAFacts(float: FloatText)
    ensures WriteOk(SetA(), float) && Succeeds(EMPTY_OBJ, SetA())
    ensures Apply(EMPTY_OBJ, SetA()) == WithA()
    ensures !Same(WithA(), EMPTY_OBJ)
  {
    assert CutSeg("a").last && CutSeg("a").seg == "a";
    assert IsPlain("a");
    assert Quote("a") == "\"a\"";
    assert |NormFields(WithA().fields)| == 1 && |NormFields([])| == 0;
  }

  lemma RecordSize()
    ensures |Encode([ToRecord(SetA())])| < BUFFER_LIMIT && Encode([]) == ""
  {
    var r := SetRec("a", "true");
    assert ToRecord(SetA()) == r && [r][1..] == [];
    assert AllLines([r]) == RecordLines(r) + AllLines([]);
    assert RecordLines(r) == ["+" + "a", "true"];
    JoinSnoc(["+" + "a"], "true");
    JoinSnoc([], "+" + "a");
    assert ["+" + "a"] + ["true"] == RecordLines(r) + [] && [] + ["+" + "a"] == ["+" + "a"];
  }

  /** An empty file and nothing queued, under always. */
  function Fresh(): State {
    State(Always, EMPTY_OBJ, [], [], 0, [], false, false, false, false,
          [], LogFile([], 0, 0, 0, [], 0, false, EMPTY_OBJ), EMPTY_OBJ, [], 0, 0, 0)
  }

  lemma FreshStarted(float: FloatText)
    ensures Started(Fresh(), float)
  {
    assert Live(EMPTY_OBJ, []) == EMPTY_OBJ && [] + ToRecords([]) == [];
  }

  /** Some crash loses the one write of the run, though its client was told it is safe. */
  ghost predicate LosesAcked(s: State, float: FloatText) {
    && s.acked == |s.hist| == 1
    && exists f :: f in Files(s) && LosesAll(s, f, float)
  }

  ghost predicate LosesAll(s: State, f: LogFile, float: FloatText)
  {
    CutOf(s, f, 0) && !Same(Live(s.origin, s.hist), Reload(EMPTY_OBJ, Load(ImageText(s, f)[..0]), float))
  }

  lemma EmptyImageLoses(s: State, f: LogFile, float: FloatText)
    requires s.origin == EMPTY_OBJ && s.hist == [SetA()] && s.acked == 1 && f in Files(s)
    requires f.durable == 0
    ensures LosesAcked(s, float)
  {
    SetAFacts(float);
    assert s.hist[..0] == [] && s.hist[0] == SetA();
    assert Live(s.origin, s.hist) == Apply(EMPTY_OBJ, SetA());
    assert f.recs[..0] == [] && ImageText(s, f)[..0] == "";
    assert Whole("") == [] && Load("") == [];
    assert LosesAll(s, f, float);
  }

  // ---- steps the two runs share ----

  lemma AcceptStep(s: State)
    requires !s.stopped && !s.writesRefused && s.root == EMPTY_OBJ && s.queue == [] && s.hist == []
    ensures Step(s, Accept(SetA())) == s.(root := WithA(), hist := [SetA()], queue := [WriteRow(SetA())])
  {
    SetAFacts(x => None);
    assert [] + [SetA()] == [SetA()] && [] + [WriteRow(SetA())] == [WriteRow(SetA())];
  }

  lemma TakeStep(s: State, dump: DumpOutcome)
    requires !s.stopped && s.policy.Always? && s.queue == [WriteRow(SetA())]
    requires s.buf == [] && s.waiters == [] && s.taken == 0
    ensures Step(s, Take(FINE, dump, FINE)) ==
            s.(queue := [], inBatch := true, buf := [ToRecord(SetA())], taken := 1, waiters := [1])
  {
    RecordSize();
    assert [WriteRow(SetA())][1..] == [] && [] + [ToRecord(SetA())] == [ToRecord(SetA())] && [] + [1] == [1];
    assert Buffered(Pop(s), SetA()) ==
           s.(queue := [], inBatch := true, buf := [ToRecord(SetA())], taken := 1, waiters := [1]);
  }

  lemma RequestStep(s: State)
    requires !s.stopped && s.queue == []
    ensures Step(s, RequestVacuum) == s.(queue := [DumpRow])
  {
    assert [] + [DumpRow] == [DumpRow];
  }

  /** The end of a batch under always whose fsync works, with nothing or one write waiting. */
  lemma EndStep(s: State)
    requires !s.stopped && s.policy.Always? && s.inBatch && s.acked == 0
    requires s.waiters == [] || s.waiters == [1]
    ensures var t := Step(s, EndBatch(FINE, true));
            && t.acked == |s.waiters| && t.hist == s.hist && t.origin == s.origin
            && t.root == s.root && t.taken == s.taken
            && t.older == s.older
            && t.buf == [] && t.queue == s.queue && !t.stopped && !t.inBatch && !t.unsynced && t.waiters == []
            && t.policy == s.policy
            && t.writesRefused == (s.buf == [] && s.writesRefused)
            && (s.buf == [] && !s.unsynced ==> t.file == s.file)
            && (s.buf == [] && s.file.poisoned ==> t.file == s.file)
  {
    assert s.waiters == [1] ==> s.waiters[..0] == [] && MaxOf(0, s.waiters) == 1;
  }

  // ---- an ignored directory fsync ----

  const UNSYNCED := Dumped(true, true, false)

  function RenameEvents(): seq<Event> {
    [RequestVacuum, Take(FINE, UNSYNCED, FINE), EndBatch(FINE, true), Accept(SetA()), Take(FINE, UNSYNCED, FINE),
     EndBatch(FINE, true)]
  }

  function RenameState(i: nat): State {
    var vacuumed := Fresh().(older := [Fresh().file], file := Snapshot(Fresh()),
                             size := |Encode(Snapshot(Fresh()).recs)|);
    var accepted := vacuumed.(root := WithA(), hist := [SetA()]);
    if i == 0 then Fresh()
    else if i == 1 then Fresh().(queue := [DumpRow])
    else if i == 2 then vacuumed.(inBatch := true)
    else if i == 3 then vacuumed
    else if i == 4 then accepted.(queue := [WriteRow(SetA())])
    else
      var taken := accepted.(inBatch := true, buf := [ToRecord(SetA())], taken := 1, waiters := [1]);
      if i == 5 then taken else Step(taken, EndBatch(FINE, true))
  }

  lemma RenameStep(i: nat)
    requires i < 6
    ensures RenameState(i + 1) == Step(RenameState(i), RenameEvents()[i])
  {
    if i == 0 {
      RequestStep(Fresh());
    } else if i == 1 {
      RecordSize();
      assert [DumpRow][1..] == [];
      assert Flush(Pop(RenameState(1)), FINE) == Pop(RenameState(1));
      assert Dump(Pop(RenameState(1)), UNSYNCED) == RenameState(2);
    } else if i == 2 {
      assert Finish(RenameState(2), FINE, true, true) == RenameState(2);
    } else if i == 3 {
      AcceptStep(RenameState(3));
    } else if i == 4 {
      TakeStep(RenameState(4), UNSYNCED);
    }
  }

  /** The directory fsync of a vacuum fails and is ignored: the old file may come back, without later writes. */
  lemma UnsyncedRenameLosesWrites(float: FloatText) returns (ss: seq<State>, es: seq<Event>)
    ensures IsRun(ss, es, float) && ss[0].policy.Always?
    ensures LosesAcked(ss[|es|], float)
  {
    es := RenameEvents();
    ss := seq(7, i requires 0 <= i < 7 => RenameState(i));
    FreshStarted(float);
    SetAFacts(float);
    forall i | 0 <= i < 6
      ensures Next(RenameState(i), es[i], RenameState(i + 1), float)
    {
      RenameNext(i, float);
    }
    RenameLoses(float);
  }

  lemma RenameNext(i: nat, float: FloatText)
    requires i < 6 && WriteOk(SetA(), float)
    ensures Next(RenameState(i), RenameEvents()[i], RenameState(i + 1), float)
  {
    RenameStep(i);
  }

  lemma RenameLoses(float: FloatText)
    ensures LosesAcked(RenameState(6), float)
  {
    var s, t := RenameState(5), RenameState(6);
    EndStep(s);
    assert t.older[0] == Fresh().file;
    EmptyImageLoses(t, Fresh().file, float);
  }

  // ---- an ignored fsync of the old file ----

  const IGNORED := Dumped(false, false, false)

  function FsyncEvents(): seq<Event> {
    [Accept(SetA()), Take(FINE, IGNORED, FINE), RequestVacuum, Take(FINE, IGNORED, FINE), EndBatch(FINE, true)]
  }

  function FsyncState(i: nat): State {
    var accepted := Fresh().(root := WithA(), hist := [SetA()]);
    if i == 0 then Fresh()
    else if i == 1 then accepted.(queue := [WriteRow(SetA())])
    else
      var taken := accepted.(inBatch := true, buf := [ToRecord(SetA())], taken := 1, waiters := [1]);
      if i == 2 then taken
      else
        var asked := taken.(queue := [DumpRow]);
        if i == 3 then asked
        else
          var dumped := Step(asked, Take(FINE, IGNORED, FINE));
          if i == 4 then dumped else Step(dumped, EndBatch(FINE, true))
  }

  lemma FsyncStep(i: nat)
    requires i < 5
    ensures FsyncState(i + 1) == Step(FsyncState(i), FsyncEvents()[i])
  {
    if i == 0 {
      AcceptStep(Fresh());
    } else if i == 1 {
      TakeStep(FsyncState(1), IGNORED);
    } else if i == 2 {
      RequestStep(FsyncState(2));
    } else {
      FailedVacuumStep(FsyncState(3), IGNORED);
    }
  }

  /** A vacuum's fsync of the old file and its rename fail: the next fsync proves nothing, and releases the client. */
  lemma IgnoredFsyncLosesWrites(float: FloatText) returns (ss: seq<State>, es: seq<Event>)
    ensures IsRun(ss, es, float) && ss[0].policy.Always?
    ensures LosesAcked(ss[|es|], float)
  {
    es := FsyncEvents();
    ss := seq(6, i requires 0 <= i < 6 => FsyncState(i));
    FreshStarted(float);
    forall i | 0 <= i < 5
      ensures Next(ss[i], es[i], ss[i + 1], float)
    {
      FsyncNext(i, float);
    }
    FsyncLoses(float);
  }

  lemma FsyncNext(i: nat, float: FloatText)
    requires i < 5
    ensures Next(FsyncState(i), FsyncEvents()[i], FsyncState(i + 1), float)
  {
    SetAFacts(float);
    FsyncStep(i);
  }

  lemma FsyncLoses(float: FloatText)
    ensures LosesAcked(FsyncState(5), float)
  {
    var s, t := FsyncState(4), FsyncState(5);
    FailedVacuumStep(FsyncState(3), IGNORED);
    EndStep(s);
    EmptyImageLoses(t, t.file, float);
  }

  lemma FailedVacuumStep(s: State, dump: DumpOutcome)
    requires dump == Dumped(false, false, false)
    requires !s.stopped && s.queue == [DumpRow] && s.older == [] && s.file.durable == 0 && s.buf != []
    ensures var t := Step(s, Take(FINE, dump, FINE));
            && t.older == [] && t.file.durable == 0 && t.file.poisoned
            && t.hist == s.hist && t.origin == s.origin && t.acked == s.acked && t.waiters == s.waiters
            && t.buf == [] && t.inBatch && !t.stopped && t.policy == s.policy
  {
    RecordSize();
    assert s.queue[1..] == [];
    var u := Flush(Pop(s), FINE);
    assert u.buf == [] && u.older == [] && u.file.durable == 0;
  }
}
