/**
 A vacuum taken while writes are queued behind it: the snapshot already holds
 them, and their records follow it in the file. What a restart makes of that, and
 which writes it loses.
 */
module AofAhead {
  import opened Lines
  import opened Options
  import opened JsonNumbers
  import opened JsonStrings
  import opened OrderedObject
  import opened JsonTree
  import opened TreePaths
  import opened TreeLaws
  import opened JsonText
  import opened AofLog
  import opened Document
  import opened AofQueue
  import opened AofSafety
  import Resend

  // ---- writes along object keys ----

  function AsWrite(w: Write): Resend.Write {
    match w
    case SetWrite(k, v) => Resend.SetW(SplitTreePath(k), v)
    case DelWrite(k) => Resend.DelW(SplitTreePath(k))
  }

  function AsWrites(ws: seq<Write>): (rs: seq<Option<Resend.Write>>)
    ensures forall i :: 0 <= i < |rs| && rs[i].Some? ==> rs[i].value.path != []
  {
    seq(|ws|, i requires 0 <= i < |ws| => Some(AsWrite(ws[i])))
  }

  lemma ApplyAs(d: Node, w: Write)
    ensures Apply(d, w) == Resend.Apply(d, AsWrite(w))
  {
    PathRefinesSegments(d, w.key, if w.SetWrite? then w.val else EMPTY_OBJ);
  }

  function Between(start: nat, end: nat): seq<nat>
    requires start <= end
  {
    seq(end - start, i requires 0 <= i < end - start => start + i)
  }

  /** The writes in the order a restart applies them: the snapshot's, then those of the records after it. */
  function AheadTrace(start: nat, ahead: nat, n: nat): seq<nat>
    requires start <= n
  {
    Resend.UpTo(ahead) + Between(start, n)
  }

  lemma ReplayLast(d: Node, rs: seq<Option<Resend.Write>>, trace: seq<nat>)
    requires forall i :: 0 <= i < |trace| ==> trace[i] < |rs|
    requires forall i :: 0 <= i < |rs| && rs[i].Some? ==> rs[i].value.path != []
    requires trace != [] && rs[trace[|trace| - 1]].Some?
    ensures Resend.Replay(d, rs, trace) ==
            Resend.Apply(Resend.Replay(d, rs, trace[..|trace| - 1]), rs[trace[|trace| - 1]].value)
  {
  }

  /** Replaying ops by their numbers is applying those writes. */
  lemma {:induction false} ReplayIsLive(d: Node, hist: seq<Write>, trace: seq<nat>, ws: seq<Write>)
    requires |trace| == |ws| && forall i :: 0 <= i < |ws| ==> trace[i] < |hist| && hist[trace[i]] == ws[i]
    ensures Resend.Replay(d, AsWrites(hist), trace) == Live(d, ws)
  {
    if ws != [] {
      var n := |ws| - 1;
      ReplayIsLive(d, hist, trace[..n], ws[..n]);
      ReplayLast(d, AsWrites(hist), trace);
      ApplyAs(Live(d, ws[..n]), ws[n]);
    }
  }

  lemma AheadReplay(d: Node, hist: seq<Write>, start: nat, ahead: nat, n: nat)
    requires start <= n <= |hist| && ahead <= |hist|
    ensures forall i :: 0 <= i < |AheadTrace(start, ahead, n)| ==> AheadTrace(start, ahead, n)[i] < |hist|
    ensures Resend.Replay(d, AsWrites(hist), AheadTrace(start, ahead, n)) ==
            Live(Live(d, hist[..ahead]), hist[start..n])
  {
    ReplayIsLive(d, hist, AheadTrace(start, ahead, n), hist[..ahead] + hist[start..n]);
    LiveConcat(d, hist[..ahead], hist[start..n]);
  }

  // ---- when the document is one of a prefix ----

  lemma AheadLast(start: nat, ahead: nat, n: nat)
    requires start < n
    ensures AheadTrace(start, ahead, n) == AheadTrace(start, ahead, n - 1) + [n - 1]
    ensures |AheadTrace(start, ahead, n)| == ahead + n - start
  {
  }

  lemma PlaceLast(trace: seq<nat>, k: nat, i: nat)
    ensures Resend.LastPlace(trace + [k], i) == if k == i then |trace| + 1 else Resend.LastPlace(trace, i)
  {
    assert (trace + [k])[..|trace|] == trace;
  }

  lemma {:induction false} PlaceAhead(start: nat, ahead: nat, n: nat, i: nat)
    requires start <= n
    ensures Resend.LastPlace(AheadTrace(start, ahead, n), i) ==
            if start <= i < n then ahead + i - start + 1 else if i < ahead then i + 1 else 0
  {
    if start == n {
      assert AheadTrace(start, ahead, n) == Resend.UpTo(ahead);
      Resend.PlaceUpTo(ahead, i);
    } else {
      AheadLast(start, ahead, n);
      PlaceLast(AheadTrace(start, ahead, n - 1), n - 1, i);
      PlaceAhead(start, ahead, n - 1, i);
    }
  }

  lemma AheadCovers(start: nat, ahead: nat, n: nat)
    requires start <= n && start <= ahead
    ensures Resend.Covers(AheadTrace(start, ahead, n), if ahead < n then n else ahead)
  {
    forall i: nat | i < (if ahead < n then n else ahead)
      ensures i in AheadTrace(start, ahead, n)
    {
      PlaceAhead(start, ahead, n, i);
    }
  }

  lemma AheadInOrder(start: nat, ahead: nat, n: nat)
    requires start <= n && start <= ahead && (n == start || ahead <= n)
    ensures Resend.InQueueOrder(AheadTrace(start, ahead, n))
  {
    forall i, j | i in AheadTrace(start, ahead, n) && j in AheadTrace(start, ahead, n) && i < j
      ensures Resend.LastPlace(AheadTrace(start, ahead, n), i) < Resend.LastPlace(AheadTrace(start, ahead, n), j)
    {
      PlaceAhead(start, ahead, n, i);
      PlaceAhead(start, ahead, n, j);
    }
  }

  /** Up to key order `doc` is what some first writes of `hist` give. */
  ghost predicate GivenByPrefix(d: Node, hist: seq<Write>, doc: Node) {
    exists m: nat :: m <= |hist| && Resend.EqualUpToOrder(doc, Live(d, hist[..m]))
  }

  /** Whatever the sets and deletes along object keys, a restart has the document of a prefix of them. */
  ghost predicate AheadHarmless(start: nat, ahead: nat, n: nat)
    requires start <= n && start <= ahead
  {
    forall d, hist: seq<Write>, arrays: iset<seq<string>>
        {:trigger Live(d, hist[..ahead]), Resend.ArraysAt(d, arrays)} ::
      |hist| == (if ahead < n then n else ahead)
      && Resend.HistoryOk(AsWrites(hist), arrays) && Resend.ArraysAt(d, arrays) ==>
        GivenByPrefix(d, hist, Live(Live(d, hist[..ahead]), hist[start..n]))
  }

  function NestedWrites(n: nat, i: nat, j: nat): seq<Write> {
    seq(n, k requires 0 <= k < n =>
      if k == i then SetWrite("x.a", Leaf("1"))
      else if k == j then SetWrite("x", Resend.PairB())
      else DelWrite("y"))
  }

  lemma NestedWritesAs(n: nat, i: nat, j: nat)
    ensures AsWrites(NestedWrites(n, i, j)) == Resend.NestedSets(n, i, j)
  {
    var p := "x.a";
    assert IndexByte(p, '.') == 1 && p[..1] == "x" && p[2..] == "a" && SplitDots("a") == ["a"];
    assert SplitTreePath(p) == ["x"] + ["a"] == ["x", "a"];
    assert SplitTreePath("x") == ["x"] && SplitTreePath("y") == ["y"];
  }

  lemma LiveIsReplay(d: Node, hist: seq<Write>, m: nat)
    requires m <= |hist|
    ensures forall k :: 0 <= k < m ==> Resend.UpTo(m)[k] < |hist|
    ensures Resend.Replay(d, AsWrites(hist), Resend.UpTo(m)) == Live(d, hist[..m])
  {
    AheadReplay(d, hist, 0, m, 0);
    assert AheadTrace(0, m, 0) == Resend.UpTo(m) && hist[0..0] == [];
  }

  /** A cut in the middle of the records that the snapshot already holds may leave what no prefix gives. */
  lemma AheadRegresses(start: nat, ahead: nat, n: nat)
    requires start < n < ahead
    ensures !AheadHarmless(start, ahead, n)
  {
    var hist, none: iset<seq<string>> := NestedWrites(ahead, start, n), iset{};
    var doc := Live(Live(EMPTY_OBJ, hist[..ahead]), hist[start..n]);
    NestedWritesAs(ahead, start, n);
    Resend.NestedOk(ahead, start, n);
    AheadReplay(EMPTY_OBJ, hist, start, ahead, n);
    forall m: nat | m <= |hist|
      ensures !Resend.EqualUpToOrder(doc, Live(EMPTY_OBJ, hist[..m]))
    {
      LiveIsReplay(EMPTY_OBJ, hist, m);
      PlaceAhead(start, ahead, n, start);
      PlaceAhead(start, ahead, n, n);
      Resend.NoPrefixGives(AheadTrace(start, ahead, n), ahead, start, n, m);
    }
    assert Resend.HistoryOk(AsWrites(hist), none) && Resend.ArraysAt(EMPTY_OBJ, none);
    assert !GivenByPrefix(EMPTY_OBJ, hist, doc);
  }

  lemma AheadGives(d: Node, hist: seq<Write>, start: nat, ahead: nat, n: nat, arrays: iset<seq<string>>)
    requires start <= n && start <= ahead && (n == start || ahead <= n)
    requires |hist| == if ahead < n then n else ahead
    requires Resend.HistoryOk(AsWrites(hist), arrays) && Resend.ArraysAt(d, arrays)
    ensures GivenByPrefix(d, hist, Live(Live(d, hist[..ahead]), hist[start..n]))
  {
    AheadCovers(start, ahead, n);
    AheadInOrder(start, ahead, n);
    AheadReplay(d, hist, start, ahead, n);
    LiveIsReplay(d, hist, |hist|);
    Resend.InOrderReplay(d, AsWrites(hist), AheadTrace(start, ahead, n), arrays);
    assert Resend.EqualUpToOrder(Live(Live(d, hist[..ahead]), hist[start..n]), Live(d, hist[..|hist|]));
  }

  /**
   A file whose snapshot is ahead of its records loads, for all sets and deletes
   along object keys, as the document after a prefix of the writes exactly if none
   of the records that the snapshot already holds is in it, or all of them.
   */
  lemma AheadExactly(start: nat, ahead: nat, n: nat)
    requires start <= n && start <= ahead
    ensures AheadHarmless(start, ahead, n) <==> n == start || ahead <= n
  {
    if n == start || ahead <= n {
      forall d, hist: seq<Write>, arrays: iset<seq<string>>
          {:trigger Live(d, hist[..ahead]), Resend.ArraysAt(d, arrays)}
        | |hist| == (if ahead < n then n else ahead)
          && Resend.HistoryOk(AsWrites(hist), arrays) && Resend.ArraysAt(d, arrays)
        ensures GivenByPrefix(d, hist, Live(Live(d, hist[..ahead]), hist[start..n]))
      {
        AheadGives(d, hist, start, ahead, n, arrays);
      }
    } else {
      AheadRegresses(start, ahead, n);
    }
  }

  // ---- when no acknowledged write is lost ----

  /**
   Whatever the `total` sets and deletes along object keys and the document before
   them, an image of `f` with the records up to write `n` still has the first `a`
   writes: each stands, or a later one in its place.
   */
  ghost predicate KeepsWrites(f: LogFile, n: nat, a: nat, total: nat)
    requires f.start <= n <= total && f.ahead <= total && a <= total
  {
    forall d, hist: seq<Write>, arrays: iset<seq<string>>
        {:trigger DocumentAt(f, d, hist, n), Resend.ArraysAt(d, arrays)} ::
      |hist| == total && Resend.HistoryOk(AsWrites(hist), arrays) && Resend.ArraysAt(d, arrays) ==>
        Resend.Retains(DocumentAt(f, d, hist, n), AsWrites(hist), a)
  }

  function TwoWrites(n: nat, i: nat, j: nat): seq<Write> {
    seq(n, k requires 0 <= k < n =>
      if k == j then SetWrite("x", Leaf("2")) else if k == i then SetWrite("x", Leaf("1")) else DelWrite("y"))
  }

  lemma TwoWritesAs(n: nat, i: nat, j: nat)
    ensures AsWrites(TwoWrites(n, i, j)) == Resend.TwoSets(n, i, j)
  {
    assert SplitTreePath("x") == ["x"] && SplitTreePath("y") == ["y"];
  }

  lemma HoldsKeeps(f: LogFile, n: nat, a: nat)
    requires f.start <= f.ahead && f.start <= n && Holds(f, n, a)
    ensures Resend.KeepsFirst(AheadTrace(f.start, f.ahead, n), a)
  {
    var t := AheadTrace(f.start, f.ahead, n);
    forall j: nat | j < a
      ensures j in t && forall i: nat :: i < j ==> Resend.LastPlace(t, i) < Resend.LastPlace(t, j)
    {
      PlaceAhead(f.start, f.ahead, n, j);
      forall i: nat | i < j
        ensures Resend.LastPlace(t, i) < Resend.LastPlace(t, j)
      {
        PlaceAhead(f.start, f.ahead, n, i);
      }
    }
  }

  /** The two writes that show what is lost: the last one is missing, or an older one was applied after it. */
  lemma LosesWrites(f: LogFile, n: nat, a: nat, total: nat)
    requires f.start <= n <= total && f.start <= f.ahead <= total && a <= total && !Holds(f, n, a)
    ensures !KeepsWrites(f, n, a, total)
  {
    var t := AheadTrace(f.start, f.ahead, n);
    var j := if f.ahead < a then a - 1 else n;
    var i := if f.ahead < a then j else f.start;
    PlaceAhead(f.start, f.ahead, n, i);
    PlaceAhead(f.start, f.ahead, n, j);
    var hist, none: iset<seq<string>> := TwoWrites(total, i, j), iset{};
    TwoWritesAs(total, i, j);
    AheadReplay(EMPTY_OBJ, hist, f.start, f.ahead, n);
    Resend.NotRetained(t, total, a, i, j);
    assert Resend.HistoryOk(AsWrites(hist), none) && Resend.ArraysAt(EMPTY_OBJ, none);
    assert !Resend.Retains(DocumentAt(f, EMPTY_OBJ, hist, n), AsWrites(hist), a);
  }

  /** An image loses none of the first `a` writes exactly if `Holds`. */
  lemma HoldsExactly(f: LogFile, n: nat, a: nat, total: nat)
    requires f.start <= n <= total && f.start <= f.ahead <= total && a <= total
    ensures KeepsWrites(f, n, a, total) <==> Holds(f, n, a)
  {
    if Holds(f, n, a) {
      HoldsKeeps(f, n, a);
      forall d, hist: seq<Write>, arrays: iset<seq<string>>
          {:trigger DocumentAt(f, d, hist, n), Resend.ArraysAt(d, arrays)}
        | |hist| == total && Resend.HistoryOk(AsWrites(hist), arrays) && Resend.ArraysAt(d, arrays)
        ensures Resend.Retains(DocumentAt(f, d, hist, n), AsWrites(hist), a)
      {
        AheadReplay(d, hist, f.start, f.ahead, n);
        Resend.KeepsFirstRetains(d, AsWrites(hist), AheadTrace(f.start, f.ahead, n), a, arrays);
      }
    } else {
      LosesWrites(f, n, a, total);
    }
  }

  // ---- appends are applied twice ----

  function List(a: seq<Node>): Node {
    Obj([Entry("a", "\"a\"", Arr(a))])
  }

  lemma AppendOne(a: seq<Node>, v: Node)
    ensures Apply(List(a), SetWrite("a.-1", v)) == List(a + [v])
  {
    var path := "a.-1";
    assert CutSeg(path) == Cut("a", "-1", false) by {
      assert path[..1] == "a" && path[2..] == "-1" && IndexByte(path, '.') == 1;
    }
    assert CutSeg("-1") == Cut("-1", "", true) by {
      assert IndexByte("-1", '.') == 2;
    }
    assert SetPlain(Arr(a), "-1", v) == Ok(Arr(a + [v]));
    var es := List(a).fields;
    assert IndexOf(es, "a") == 0;
    assert es[0 := es[0].(val := Arr(a + [v]))] == List(a + [v]).fields;
  }

  lemma ElemsOk(a: seq<Node>, float: FloatText)
    requires forall i :: 0 <= i < |a| ==> a[i] == Leaf("true")
    ensures WellFormed(Arr(a), float) && NormElems(a) == a
  {
    assert forall i :: 0 <= i < |a| ==> WellFormed(a[i], float);
  }

  lemma ListOk(a: seq<Node>, float: FloatText)
    requires forall i :: 0 <= i < |a| ==> a[i] == Leaf("true")
    ensures DocumentOk(List(a), float) && Norm(List(a)) == List(a)
  {
    assert IsPlain("a") && Quote("a") == "\"a\"";
    QuoteReadsBack("a");
    ElemsOk(a, float);
    assert NormFields(List(a).fields) == List(a).fields;
  }

  const FINE := AofQueue.Flushed
  const ALL_FINE := Dumped(true, true, true)

  function AppendTrue(): Write {
    SetWrite("a.-1", Leaf("true"))
  }

  function AheadEvents(): seq<Event> {
    [RequestVacuum, Accept(AppendTrue()), Take(FINE, ALL_FINE, FINE), Take(FINE, ALL_FINE, FINE), EndBatch(FINE, true)]
  }

  /** A file with a snapshot of a document with an empty list. */
  function ListFile(): LogFile {
    var head := [SnapRec(Render(List([])))];
    LogFile(head, 0, 0, 0, head, 1, false, List([]))
  }

  function AheadState(i: nat): State {
    var f := ListFile();
    var s := State(No, List([]), [], [], |Encode(f.recs)|, [], false, false, false, false,
                   [], f, List([]), [], 0, 0, 0);
    if i == 0 then s
    else if i == 1 then s.(queue := [DumpRow])
    else
      var one := List([Leaf("true")]);
      var g := LogFile([SnapRec(Render(one))], 1, 0, 0, [SnapRec(Render(one))], 1, false, one);
      var accepted := s.(root := one, hist := [AppendTrue()]);
      var dumped := accepted.(file := g, size := |Encode(g.recs)|, inBatch := true);
      if i == 2 then accepted.(queue := [DumpRow, WriteRow(AppendTrue())])
      else if i == 3 then dumped.(queue := [WriteRow(AppendTrue())])
      else if i == 4 then dumped.(buf := [ToRecord(AppendTrue())], taken := 1)
      else
        var recs := g.recs + [ToRecord(AppendTrue())];
        dumped.(file := g.(recs := recs, end := 1), size := |Encode(g.recs)| + |Encode([ToRecord(AppendTrue())])|,
                taken := 1, unsynced := true, inBatch := false)
  }

  lemma AheadStarted(float: FloatText)
    ensures Started(AheadState(0), float)
  {
    ListOk([], float);
    assert Live(List([]), []) == List([]) && ListFile().head + ToRecords([]) == ListFile().recs;
  }

  lemma AppendAccepted()
    ensures Succeeds(List([]), AppendTrue()) && Apply(List([]), AppendTrue()) == List([Leaf("true")])
  {
    AppendOne([], Leaf("true"));
    assert [] + [Leaf("true")] == [Leaf("true")];
    assert |List([]).fields[0].val.elems| == 0;
  }

  lemma AppendSize()
    ensures |Encode([ToRecord(AppendTrue())])| < BUFFER_LIMIT && Encode([]) == ""
  {
    var r := SetRec("a.-1", "true");
    assert ToRecord(AppendTrue()) == r && [r][1..] == [];
    assert AllLines([r]) == RecordLines(r) + AllLines([]);
    assert RecordLines(r) == ["+" + "a.-1", "true"];
    JoinSnoc(["+" + "a.-1"], "true");
    JoinSnoc([], "+" + "a.-1");
    assert ["+" + "a.-1"] + ["true"] == RecordLines(r) + [] && [] + ["+" + "a.-1"] == ["+" + "a.-1"];
  }

  lemma AheadQueues()
    ensures AheadState(1) == Step(AheadState(0), AheadEvents()[0])
    ensures AheadState(2) == Step(AheadState(1), AheadEvents()[1])
  {
    AppendAccepted();
    assert [] + [DumpRow] == [DumpRow] && [DumpRow] + [WriteRow(AppendTrue())] == [DumpRow, WriteRow(AppendTrue())];
    assert [] + [AppendTrue()] == [AppendTrue()];
  }

  lemma AheadTakes()
    ensures AheadState(3) == Step(AheadState(2), AheadEvents()[2])
    ensures AheadState(4) == Step(AheadState(3), AheadEvents()[3])
  {
    AppendSize();
    assert [DumpRow, WriteRow(AppendTrue())][1..] == [WriteRow(AppendTrue())];
    assert [WriteRow(AppendTrue())][1..] == [] && [] + [ToRecord(AppendTrue())] == [ToRecord(AppendTrue())];
  }

  lemma AheadEnds()
    ensures AheadState(5) == Step(AheadState(4), AheadEvents()[4])
  {
  }

  lemma AheadStep(i: nat)
    requires i < 5
    ensures AheadState(i + 1) == Step(AheadState(i), AheadEvents()[i])
  {
    match i
    case 0 | 1 => AheadQueues();
    case 2 | 3 => AheadTakes();
    case _ => AheadEnds();
  }

  /** What the file of that run loads as. */
  lemma AheadLoads(float: FloatText)
    ensures var recs := [SnapRec(Render(List([Leaf("true")]))), ToRecord(AppendTrue())];
            Reload(EMPTY_OBJ, recs, float) == List([Leaf("true"), Leaf("true")])
  {
    var v := Leaf("true");
    var one := List([v]);
    AppendOne([v], v);
    assert [v] + [v] == [v, v];
    ListOk([v], float);
    var recs := [SnapRec(Render(one)), ToRecord(AppendTrue())];
    assert recs[..1] == [SnapRec(Render(one))] && recs[..1][..0] == [];
    ParseRender(one, float);
    assert Reload(EMPTY_OBJ, recs[..1], float) == one;
    LeafStored("true", float);
  }

  lemma ListsDiffer(a: seq<Node>, b: seq<Node>, float: FloatText)
    requires forall n :: n in a + b ==> n == Leaf("true")
    requires |a| != |b|
    ensures !Same(List(a), List(b))
  {
    assert forall i :: 0 <= i < |a| ==> a[i] in a + b;
    assert forall i :: 0 <= i < |b| ==> b[i] in a + b;
    ListOk(a, float);
    ListOk(b, float);
    assert List(a).fields[0].val.elems == a && List(b).fields[0].val.elems == b;
  }

  lemma AheadRun(float: FloatText) returns (ss: seq<State>, es: seq<Event>)
    ensures IsRun(ss, es, float) && es == AheadEvents() && |ss| == 6
    ensures ss[2] == AheadState(2) && ss[5] == AheadState(5)
  {
    es := AheadEvents();
    ss := seq(6, i requires 0 <= i < 6 => AheadState(i));
    AheadStarted(float);
    forall i | 0 <= i < 5
      ensures Next(ss[i], es[i], ss[i + 1], float)
    {
      AheadNext(i, float);
    }
  }

  lemma AheadNext(i: nat, float: FloatText)
    requires i < 5
    ensures Next(AheadState(i), AheadEvents()[i], AheadState(i + 1), float)
  {
    AheadStep(i);
    LeafStored("true", float);
  }

  /** The write is queued when the second vacuum is made, and no file call fails. */
  lemma AheadCalls(ss: seq<State>, es: seq<Event>)
    requires |ss| == 6 && es == AheadEvents() && ss[2] == AheadState(2)
    ensures !VacuumsAlone(ss, es, |es|) && forall e :: e in es ==> CleanEvent(e)
  {
    assert es[2].Take? && QueuedWrites(ss[2].queue) == [AppendTrue()] + QueuedWrites([]);
  }

  lemma PrefixesDiffer(hist: seq<Write>, n: nat, doc: Node, float: FloatText)
    requires n <= 1 && hist == [AppendTrue()] && doc == List([Leaf("true"), Leaf("true")])
    ensures !Same(Live(List([]), hist[..n]), doc)
  {
    var v := Leaf("true");
    if n == 0 {
      assert hist[..0] == [];
      ListsDiffer([], [v, v], float);
    } else {
      AppendAccepted();
      assert hist[..1] == [AppendTrue()] && [AppendTrue()][..0] == [];
      ListsDiffer([v], [v, v], float);
    }
  }

  lemma AheadDocument(n: nat, float: FloatText)
    requires n <= 1
    ensures var t := AheadState(5);
            |t.hist| == 1 && !Same(Live(t.origin, t.hist[..n]), Reload(EMPTY_OBJ, t.file.recs, float))
  {
    var t, v := AheadState(5), Leaf("true");
    var recs := [SnapRec(Render(List([v]))), ToRecord(AppendTrue())];
    assert t.file.recs == recs;
    AheadLoads(float);
    PrefixesDiffer(t.hist, n, Reload(EMPTY_OBJ, recs, float), float);
  }

  /**
   An append to an array is applied twice, though no file call fails and nothing
   crashes in the middle of a write: the reload is a document that no prefix of
   the writes gave.
   */
  lemma SnapshotAheadDoubles(float: FloatText) returns (ss: seq<State>, es: seq<Event>)
    ensures IsRun(ss, es, float) && !VacuumsAlone(ss, es, |es|) && forall e :: e in es ==> CleanEvent(e)
    ensures var t := ss[|es|];
            && t.queue == [] && t.buf == [] && t.hist == [AppendTrue()]
            && t.file.start < t.file.ahead && t.file.end == 1
            && forall n :: 0 <= n <= 1 ==>
                 !Same(Live(t.origin, t.hist[..n]), Reload(EMPTY_OBJ, t.file.recs, float))
  {
    ss, es := AheadRun(float);
    AheadCalls(ss, es);
    forall n | 0 <= n <= 1
      ensures !Same(Live(ss[5].origin, ss[5].hist[..n]), Reload(EMPTY_OBJ, ss[5].file.recs, float))
    {
      AheadDocument(n, float);
    }
  }
}
