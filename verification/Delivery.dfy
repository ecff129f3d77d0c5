/**
 Delivery of a queue to its peer. The sender has one request out at a time and
 gives up on it when the reply is lost; the peer may go on with a request the
 sender gave up on, so requests overlap. A sender that restarts sends again what
 its log does not show as acked. Ops are named by their place in the queue's
 history.
 */
module Delivery {
  import opened Options
  import opened PeerLog
  import opened PeerProtocol
  import opened JsonTree
  import opened TreePaths
  import PeerQueue
  import PeerSafety
  import Resend

  /** A request at the peer: ops [start, end), handled up to `pos`; `open` until the peer is done with it. */
  datatype Job = Job(start: nat, end: nat, pos: nat, open: bool)

  datatype State = State(
    hist: seq<SyncOp>,
    acked: nat,
    jobs: seq<Job>,
    waiting: Option<nat>,
    // History: the ops in the order they were first or again handled by the
    // peer or dropped by the sender, those the peer handled, those dropped,
    // the replies and drops so far, and the replies that refused the first op;
    // how many acks restarts forgot, and how many requests are older than the last restart.
    handled: seq<nat>,
    peer: set<nat>,
    dropped: set<nat>,
    replies: nat,
    refusals: nat,
    forgot: nat,
    former: nat)

  datatype Event =
    | Queue(op: SyncOp)
    | Send(count: nat, http: bool)
    | Handle(job: nat)
    | Stop(job: nat)
    | Reply(outcomes: seq<Outcome>, late: seq<bool>)
    | Lose
    | Restart(from: nat, end: nat)  // with the ops [from, end) of the history in the log

  const START := State([], 0, [], None, [], {}, {}, 0, 0, 0, 0)

  /** Every op that was acked, sent or handled comes before `end`. */
  predicate SentBefore(s: State, end: nat) {
    && s.acked <= end
    && (forall j :: 0 <= j < |s.jobs| ==> s.jobs[j].end <= end)
    && (forall i :: i in s.handled ==> i < end)
  }

  /** How many of the ops from `from` on convert, up to `count`. */
  function Convertible(hist: seq<SyncOp>, from: nat, count: nat): (n: nat)
    requires from <= |hist|
    ensures n <= count && from + n <= |hist|
    decreases count
  {
    if count == 0 || from == |hist| || ToOp(hist[from]).None? then 0
    else 1 + Convertible(hist, from + 1, count - 1)
  }

  /** send: an op that does not convert is dropped when it comes first, and ends the batch when it does not. */
  function SendStep(s: State, count: nat, http: bool): State
    requires s.acked < |s.hist|
  {
    var n := if http then 1 else Convertible(s.hist, s.acked, count);
    if n == 0 then
      s.(acked := s.acked + 1, handled := s.handled + [s.acked], dropped := s.dropped + {s.acked},
         replies := s.replies + 1)
    else
      s.(jobs := s.jobs + [Job(s.acked, s.acked + n, s.acked, true)], waiting := Some(|s.jobs|))
  }

  /** The peer handled exactly the ops that these outcomes let a batch take. */
  predicate Answers(b: Job, outcomes: seq<Outcome>, late: seq<bool>) {
    && b.start + |outcomes| == b.end && |late| == |outcomes|
    && b.pos == b.start + DoneFrom(outcomes, late, 0)
  }

  /** An event that cannot happen leaves the state as it is. */
  function Step(s: State, e: Event): State {
    match e
    case Queue(op) => s.(hist := s.hist + [op])
    case Send(count, http) =>
      if s.waiting.None? && s.acked < |s.hist| && count > 0 then SendStep(s, count, http) else s
    case Handle(j) =>
      if j < |s.jobs| && s.jobs[j].open && s.jobs[j].pos < s.jobs[j].end then
        var i := s.jobs[j].pos;
        s.(jobs := s.jobs[j := s.jobs[j].(pos := i + 1)], handled := s.handled + [i], peer := s.peer + {i})
      else s
    case Stop(j) =>
      if j < |s.jobs| then s.(jobs := s.jobs[j := s.jobs[j].(open := false)]) else s
    case Reply(outcomes, late) =>
      if s.waiting.Some? && s.waiting.value < |s.jobs| && Answers(s.jobs[s.waiting.value], outcomes, late) then
        var j := s.waiting.value;
        s.(jobs := s.jobs[j := s.jobs[j].(open := false)], waiting := None,
           acked := if s.acked < s.jobs[j].pos then s.jobs[j].pos else s.acked,
           replies := s.replies + 1,
           refusals := s.refusals + if outcomes != [] && outcomes[0].Refused? then 1 else 0)
      else s
    case Lose => s.(waiting := None)
    case Restart(from, end) =>
      if from <= s.acked && end <= |s.hist| && SentBefore(s, end) then
        s.(hist := s.hist[..end], acked := from, waiting := None,
           forgot := s.forgot + (s.acked - from), former := |s.jobs|)
      else s
  }

  // ---- first applications are in order ----

  /** Every op is handled for the first time only after every op before it. */
  predicate FirstInOrder(handled: seq<nat>) {
    forall k, i: nat {:trigger i in handled[..k]} :: 0 <= k < |handled| && i < handled[k] ==> i in handled[..k]
  }

  ghost predicate Inv(s: State) {
    && s.acked <= |s.hist|
    && s.former <= |s.jobs|
    && (s.waiting.Some? ==> s.former < s.waiting.value + 1 == |s.jobs| && s.jobs[s.waiting.value].start == s.acked)
    && (forall j :: 0 <= j < |s.jobs| ==>
          var b := s.jobs[j];
          b.start <= b.pos <= b.end <= |s.hist| && b.start < b.end && Reached(s, b.pos))
    && Reached(s, s.acked)
    && FirstInOrder(s.handled)
    && (forall i :: i in s.handled ==> i < |s.hist| && (i in s.peer || i in s.dropped))
    && (forall i :: i in s.dropped ==> i in s.handled && i < |s.hist| && ToOp(s.hist[i]).None?)
  }

  predicate Reached(s: State, n: nat) {
    forall i: nat :: i < n ==> i in s.handled
  }

  lemma HandleOne(handled: seq<nat>, i: nat)
    requires FirstInOrder(handled) && forall j: nat :: j < i ==> j in handled
    ensures FirstInOrder(handled + [i])
    ensures forall j: nat :: j in handled ==> j in handled + [i]
    ensures i in handled + [i]
  {
    var t := handled + [i];
    assert t[|handled|] == i;
    forall k, j: nat | 0 <= k < |t| && j < t[k]
      ensures j in t[..k]
    {
      if k < |handled| {
        assert t[..k] == handled[..k];
      } else {
        assert t[..k] == handled;
      }
    }
  }

  lemma ReachedMore(s: State, t: State, i: nat)
    requires Reached(s, i) && t.handled == s.handled + [i]
    ensures Reached(t, i + 1) && forall n: nat :: Reached(s, n) ==> Reached(t, n)
  {
    assert t.handled[|s.handled|] == i;
    assert forall j: nat :: j in s.handled ==> j in t.handled;
  }

  lemma HandleInv(s: State, j: nat)
    requires Inv(s)
    ensures Inv(Step(s, Handle(j)))
  {
    if j < |s.jobs| && s.jobs[j].open && s.jobs[j].pos < s.jobs[j].end {
      HandleOne(s.handled, s.jobs[j].pos);
      ReachedMore(s, Step(s, Handle(j)), s.jobs[j].pos);
    }
  }

  lemma SendInv(s: State, count: nat, http: bool)
    requires Inv(s) && s.waiting.None? && s.acked < |s.hist| && count > 0
    ensures Inv(SendStep(s, count, http))
  {
    var t := SendStep(s, count, http);
    if t.acked > s.acked {
      HandleOne(s.handled, s.acked);
      ReachedMore(s, t, s.acked);
    }
  }

  lemma StepInv(s: State, e: Event)
    requires Inv(s)
    ensures Inv(Step(s, e))
  {
    match e
    case Handle(j) => HandleInv(s, j);
    case Send(count, http) =>
      if s.waiting.None? && s.acked < |s.hist| && count > 0 {
        SendInv(s, count, http);
      }
    case _ =>
  }

  ghost predicate IsRun(ss: seq<State>, es: seq<Event>) {
    |ss| == |es| + 1 && ss[0] == START &&
    forall i {:trigger es[i]} :: 0 <= i < |es| ==> ss[i + 1] == Step(ss[i], es[i])
  }

  lemma {:induction false} RunInv(ss: seq<State>, es: seq<Event>, i: nat)
    requires IsRun(ss, es) && i < |ss|
    ensures Inv(ss[i])
  {
    if i > 0 {
      RunInv(ss, es, i - 1);
      StepInv(ss[i - 1], es[i - 1]);
    }
  }

  /**
   Under any lost replies, resends and overlapping requests the peer first
   handles the ops in queue order without a gap, and the sender acks only ops
   that the peer handled or that name no write at all.
   */
  lemma DeliveryIsSafe(ss: seq<State>, es: seq<Event>, k: nat)
    requires IsRun(ss, es) && k < |ss|
    ensures FirstInOrder(ss[k].handled)
    ensures ss[k].acked <= |ss[k].hist|
    ensures forall i :: 0 <= i < ss[k].acked ==> i in ss[k].peer || ToOp(ss[k].hist[i]).None?
  {
    RunInv(ss, es, k);
    assert forall i: nat :: i < ss[k].acked ==> i in ss[k].handled;
  }

  // ---- progress ----

  /**
   Whatever is lost, late or rejected, every reply acks at least one op but those
   of a peer that refuses the first one; a restart may forget acks.
   */
  lemma {:induction false} RepliesProgress(ss: seq<State>, es: seq<Event>, k: nat)
    requires IsRun(ss, es) && k < |ss|
    ensures ss[k].replies <= ss[k].acked + ss[k].refusals + ss[k].forgot
  {
    if k > 0 {
      RepliesProgress(ss, es, k - 1);
      RunInv(ss, es, k - 1);
      StepProgress(ss[k - 1], es[k - 1]);
    }
  }

  lemma StepProgress(s: State, e: Event)
    requires Inv(s) && s.replies <= s.acked + s.refusals + s.forgot
    ensures var t := Step(s, e); t.replies <= t.acked + t.refusals + t.forgot
  {
    if e.Reply? && s.waiting.Some? && Answers(s.jobs[s.waiting.value], e.outcomes, e.late) {
      TakesFirstExactly(e.outcomes, e.late);
    }
  }

  /** The peer refuses no op of a batch it answers. It may reject some, and take only the ones it has time for. */
  predicate RefusesNothing(es: seq<Event>) {
    forall i, j :: 0 <= i < |es| && es[i].Reply? && 0 <= j < |es[i].outcomes| ==> !es[i].outcomes[j].Refused?
  }

  lemma {:induction false} NoRefusals(ss: seq<State>, es: seq<Event>, k: nat)
    requires IsRun(ss, es) && RefusesNothing(es) && k < |ss|
    ensures ss[k].refusals == 0
  {
    if k > 0 {
      NoRefusals(ss, es, k - 1);
      assert ss[k] == Step(ss[k - 1], es[k - 1]);
    }
  }

  /**
   So n queued ops drain in at most n replies, and one more for every ack that a
   restart forgot: after that many every one of the first n ops is acked.
   */
  lemma DrainsInOneReplyPerOp(ss: seq<State>, es: seq<Event>, k: nat)
    requires IsRun(ss, es) && RefusesNothing(es) && k < |ss|
    ensures ss[k].replies <= |ss[k].hist| + ss[k].forgot
    ensures ss[k].replies == |ss[k].hist| + ss[k].forgot ==> ss[k].acked == |ss[k].hist|
  {
    RepliesProgress(ss, es, k);
    NoRefusals(ss, es, k);
    RunInv(ss, es, k);
  }

  // ---- the sender restarts ----

  /**
   Whatever file a crash leaves of the sender's log and wherever it is cut: the
   sender loads a slice of the history that forgets no op before its acks, and
   it goes on with just that slice, unless the crash took an op that it sent.
   */
  lemma CrashRestarts(c: Codec, qs: seq<PeerQueue.State>, qe: seq<PeerQueue.Event>, i: nat,
      f: PeerQueue.LogFile, k: nat, s: State)
    returns (from: nat, end: nat)
    requires Faithful(c) && PeerSafety.IsRun(c, qs, qe) && i < |qs|
    requires f in qs[i].files && PeerSafety.CutOf(c, f, k)
    requires s.hist == qs[i].hist && s.acked == qs[i].acked
    ensures from <= end <= |s.hist| && from <= s.acked
    ensures (s.acked <= end && (forall j :: 0 <= j < |s.jobs| ==> s.jobs[j].end <= end)
             && forall k :: k in s.handled ==> k < end) ==>
              var t := Step(s, Restart(from, end));
              && t.acked <= |t.hist| && Load(c, PeerQueue.Content(c, f)[..k]) == Some(t.hist[t.acked..])
              && t.forgot - s.forgot == s.acked - t.acked && t.handled == s.handled
  {
    from, end := PeerSafety.CrashLoadsSlice(c, qs, qe, i, f, k);
    assert s.hist[..end][from..] == s.hist[from..end];
  }

  // ---- the peer's document ----

  /** The write an op makes at the peer; None if it makes none (a rejected value, a vacuum). */
  function WriteOf(op: SyncOp, decode: string -> Option<Node>): Option<Resend.Write> {
    match ToOp(op)
    case Some(OpSet(key, raw)) =>
      (match decode(raw) case Some(v) => Some(Resend.SetW(SplitTreePath(key), v)) case None => None)
    case Some(OpDel(key)) => Some(Resend.DelW(SplitTreePath(key)))
    case _ => None
  }

  function Writes(hist: seq<SyncOp>, decode: string -> Option<Node>): (ws: seq<Option<Resend.Write>>)
    ensures forall i :: 0 <= i < |ws| && ws[i].Some? ==> ws[i].value.path != []
  {
    seq(|hist|, i requires 0 <= i < |hist| => WriteOf(hist[i], decode))
  }

  /**
   The peer never works on a request once a later one arrived, the op it starts
   with was dropped, or the sender restarted.
   */
  ghost predicate OneAtATime(ss: seq<State>, es: seq<Event>)
    requires |ss| == |es| + 1
  {
    forall i {:trigger es[i]} :: 0 <= i < |es| && es[i].Handle? ==>
      ss[i].former < es[i].job + 1 == |ss[i].jobs| && ss[i].jobs[es[i].job].start == ss[i].acked
  }

  ghost predicate InStep(s: State) {
    && Resend.Gentle(s.handled)
    && s.acked <= Resend.Front(s.handled)
    && (s.former < |s.jobs| ==> var b := s.jobs[|s.jobs| - 1];
                         && b.start <= s.acked
                         && (b.start == s.acked || s.waiting.Some? ==> b.pos <= Resend.Front(s.handled)))
  }

  lemma StepInStep(s: State, e: Event)
    requires Inv(s) && InStep(s)
    requires e.Handle? ==> s.former < e.job + 1 == |s.jobs| && s.jobs[e.job].start == s.acked
    ensures InStep(Step(s, e))
  {
    match e
    case Handle(j) => HandleInStep(s, j);
    case Send(count, http) => SendInStep(s, count, http);
    case _ =>
  }

  lemma HandleInStep(s: State, j: nat)
    requires Inv(s) && InStep(s) && s.former < j + 1 == |s.jobs| && s.jobs[j].start == s.acked
    ensures InStep(Step(s, Handle(j)))
  {
    Resend.GentleSnoc(s.handled, s.jobs[j].pos);
  }

  lemma SendInStep(s: State, count: nat, http: bool)
    requires Inv(s) && InStep(s)
    ensures InStep(Step(s, Send(count, http)))
  {
    Resend.GentleSnoc(s.handled, s.acked);
  }

  lemma {:induction false} RunInStep(ss: seq<State>, es: seq<Event>, k: nat)
    requires IsRun(ss, es) && OneAtATime(ss, es) && k < |ss|
    ensures InStep(ss[k])
  {
    if k > 0 {
      RunInStep(ss, es, k - 1);
      RunInv(ss, es, k - 1);
      StepInStep(ss[k - 1], es[k - 1]);
    }
  }

  lemma DrainedCovers(ss: seq<State>, es: seq<Event>, k: nat)
    requires IsRun(ss, es) && k < |ss| && ss[k].acked == |ss[k].hist|
    ensures Resend.Covers(ss[k].handled, |ss[k].hist|)
  {
    var s := ss[k];
    RunInv(ss, es, k);
    forall i | 0 <= i < |s.handled|
      ensures s.handled[i] < |s.hist|
    {
      assert s.handled[i] in s.handled;
    }
    assert Reached(s, s.acked);
  }

  /**
   Once the queue is empty, and whatever was lost, sent again or overlapped: the
   peer ends as if it had handled each op once, up to key order, for every choice
   of sets and deletes and every document, exactly if it handled the ops for the
   last time in queue order.
   */
  lemma DrainedExactly(ss: seq<State>, es: seq<Event>, k: nat)
    requires IsRun(ss, es) && k < |ss| && ss[k].acked == |ss[k].hist|
    ensures Resend.Covers(ss[k].handled, |ss[k].hist|)
    ensures Resend.Harmless(ss[k].handled, |ss[k].hist|) <==> Resend.InQueueOrder(ss[k].handled)
  {
    DrainedCovers(ss, es, k);
    Resend.HarmlessExactly(ss[k].handled, |ss[k].hist|);
  }

  /** A peer that works on one request at a time does so. */
  lemma OneAtATimeInOrder(ss: seq<State>, es: seq<Event>, k: nat)
    requires IsRun(ss, es) && OneAtATime(ss, es) && k < |ss| && ss[k].acked == |ss[k].hist|
    ensures Resend.InQueueOrder(ss[k].handled)
  {
    DrainedCovers(ss, es, k);
    RunInStep(ss, es, k);
    var handled := ss[k].handled;
    if handled != [] {
      assert handled[|handled| - 1] < |ss[k].hist|;
      Resend.GentleInOrder(handled);
    }
  }

  /**
   Then the peer has the document that the queued sets and deletes give in order,
   up to key order. Writes that pass through arrays, and clones, are not covered.
   */
  lemma DrainedPeerMatches(ss: seq<State>, es: seq<Event>, k: nat, d: Node,
      decode: string -> Option<Node>, arrays: iset<seq<string>>)
    requires IsRun(ss, es) && k < |ss| && ss[k].acked == |ss[k].hist|
    requires OneAtATime(ss, es) || Resend.InQueueOrder(ss[k].handled)
    requires forall op :: op in ss[k].hist ==> !(ToOp(op).Some? && ToOp(op).value.OpClone?)
    requires Resend.HistoryOk(Writes(ss[k].hist, decode), arrays) && Resend.ArraysAt(d, arrays)
    ensures Resend.Covers(ss[k].handled, |ss[k].hist|)
    ensures var ws := Writes(ss[k].hist, decode);
            Resend.EqualUpToOrder(Resend.Replay(d, ws, ss[k].handled), Resend.Replay(d, ws, Resend.UpTo(|ws|)))
  {
    DrainedCovers(ss, es, k);
    if OneAtATime(ss, es) {
      OneAtATimeInOrder(ss, es, k);
    }
    Resend.InOrderReplay(d, Writes(ss[k].hist, decode), ss[k].handled, arrays);
  }

  // ---- requests that overlap ----

  function OverlapOps(): seq<SyncOp> {
    [QueuedSet("x", "1"), QueuedSet("x", "2")]
  }

  function OverlapEvents(): seq<Event> {
    [Queue(OverlapOps()[0]), Queue(OverlapOps()[1]), Send(2, false), Lose, Send(2, false),
     Handle(1), Handle(1), Reply([Applied, Applied], [false, false]), Handle(0)]
  }

  function OverlapState(i: nat): State {
    var ops := OverlapOps();
    if i == 0 then START
    else if i == 1 then START.(hist := [ops[0]])
    else
      var s := START.(hist := ops);
      var lost, late, used := Job(0, 2, 0, true), Job(0, 2, 1, true), Job(0, 2, 2, true);
      if i == 2 then s
      else if i == 3 then s.(jobs := [lost], waiting := Some(0))
      else if i == 4 then s.(jobs := [lost])
      else if i == 5 then s.(jobs := [lost, lost], waiting := Some(1))
      else if i == 6 then s.(jobs := [lost, late], waiting := Some(1), handled := [0], peer := {0})
      else if i == 7 then s.(jobs := [lost, used], waiting := Some(1), handled := [0, 1], peer := {0, 1})
      else
        var s := s.(acked := 2, replies := 1, peer := {0, 1});
        if i == 8 then s.(jobs := [lost, used.(open := false)], handled := [0, 1])
        else s.(jobs := [late, used.(open := false)], handled := [0, 1, 0])
  }

  lemma OverlapConverts()
    ensures Convertible(OverlapOps(), 0, 2) == 2
  {
    QueuedOpsReadBack("x", "1", "", "");
    QueuedOpsReadBack("x", "2", "", "");
    assert Convertible(OverlapOps(), 2, 0) == 0;
    assert Convertible(OverlapOps(), 1, 1) == 1;
  }

  lemma OverlapStep(i: nat)
    requires i < 9
    ensures OverlapState(i + 1) == Step(OverlapState(i), OverlapEvents()[i])
  {
    if i in {2, 4} {
      OverlapConverts();
    } else if i < 7 {
      OverlapMiddle(i);
    } else {
      assert {0, 1} + {0} == {0, 1};
    }
  }

  lemma OverlapMiddle(i: nat)
    requires i in {0, 1, 3, 5, 6}
    ensures OverlapState(i + 1) == Step(OverlapState(i), OverlapEvents()[i])
  {
  }

  function OverlapDecode(raw: string): Option<Node> {
    Some(Leaf(raw))
  }

  lemma OverlapWrites()
    ensures var ws := Writes(OverlapOps(), OverlapDecode);
            ws == [Some(Resend.SetW(["x"], Leaf("1"))), Some(Resend.SetW(["x"], Leaf("2")))]
  {
    QueuedOpsReadBack("x", "1", "", "");
    QueuedOpsReadBack("x", "2", "", "");
    assert SplitTreePath("x") == ["x"];
  }

  /**
   A peer still working on a request that the sender gave up on can undo a
   later op: here both sets are acked, and the first one has the last word.
   */
  lemma OverlapRegresses() returns (ss: seq<State>, es: seq<Event>)
    ensures IsRun(ss, es) && !OneAtATime(ss, es)
    ensures ss[|es|].acked == |ss[|es|].hist| == 2 && ss[|es|].handled == [0, 1, 0] && RefusesNothing(es)
    ensures var ws := Writes(ss[|es|].hist, OverlapDecode);
            !Resend.EqualUpToOrder(Resend.Replay(EMPTY_OBJ, ws, [0, 1, 0]), Resend.Replay(EMPTY_OBJ, ws, [0, 1]))
  {
    es := OverlapEvents();
    ss := seq(10, i requires 0 <= i < 10 => OverlapState(i));
    forall i | 0 <= i < 9
      ensures ss[i + 1] == Step(ss[i], es[i])
    {
      OverlapStep(i);
    }
    assert es[8] == Handle(0) && |ss[8].jobs| == 2;
    RegressedDocument();
  }

  lemma LastSets(ws: seq<Option<Resend.Write>>)
    requires ws == [Some(Resend.SetW(["x"], Leaf("1"))), Some(Resend.SetW(["x"], Leaf("2")))]
    ensures Resend.LastAt(ws, [0, 1, 0], ["x"]) == Some(0) && Resend.LastAt(ws, [0, 1], ["x"]) == Some(1)
  {
  }

  lemma RegressedDocument()
    ensures var ws := Writes(OverlapOps(), OverlapDecode);
            !Resend.EqualUpToOrder(Resend.Replay(EMPTY_OBJ, ws, [0, 1, 0]), Resend.Replay(EMPTY_OBJ, ws, [0, 1]))
  {
    var ws := Writes(OverlapOps(), OverlapDecode);
    OverlapWrites();
    var none: iset<seq<string>> := iset{};
    assert Resend.HistoryOk(ws, none) && Resend.ArraysAt(EMPTY_OBJ, none);
    var t, u := [0, 1, 0], [0, 1];
    Resend.ReplayView(EMPTY_OBJ, ws, t, none, ["x"]);
    Resend.ReplayView(EMPTY_OBJ, ws, u, none, ["x"]);
    LastSets(ws);
    assert ["x"][1..] == [];
    var n, m := Resend.Replay(EMPTY_OBJ, ws, t), Resend.Replay(EMPTY_OBJ, ws, u);
    assert Resend.View(n, ["x"]) != Resend.View(m, ["x"]);
    Resend.SameViewExactly(n, m);
  }
}
