/**
 The write-ahead log of a peer queue: `E` records carry a queued op, `A`
 records drop the oldest one. The records of a file, their text, and what a
 restart reads back from a file cut at any byte.
 */
module PeerLog {
  import opened Lines
  import opened Options

  /** A queued write in the HTTP shape it has on disk. */
  datatype SyncOp = SyncOp(verb: string, path: string, body: string, contentType: string)

  /** The JSON encoder and decoder of ops; the model holds for every faithful one. */
  datatype Codec = Codec(enc: SyncOp -> string, dec: string -> Option<SyncOp>)

  ghost predicate Faithful(c: Codec) {
    forall op: SyncOp {:trigger c.enc(op)} ::
      && NoNewline(c.enc(op))
      && c.enc(op) != "" && !IsSpace(c.enc(op)[|c.enc(op)| - 1])
      && c.dec(c.enc(op)) == Some(op)
  }

  datatype Rec = E(op: SyncOp) | A

  // ---- text of a file ----

  function EncLine(c: Codec, r: Rec): string {
    match r
    case E(op) => "E " + c.enc(op)
    case A => "A"
  }

  function EncLines(c: Codec, recs: seq<Rec>): seq<string> {
    seq(|recs|, i requires 0 <= i < |recs| => EncLine(c, recs[i]))
  }

  function Encode(c: Codec, recs: seq<Rec>): string {
    Join(EncLines(c, recs))
  }

  lemma EncodeConcat(c: Codec, a: seq<Rec>, b: seq<Rec>)
    ensures Encode(c, a + b) == Encode(c, a) + Encode(c, b)
  {
    assert EncLines(c, a + b) == EncLines(c, a) + EncLines(c, b);
    JoinConcat(EncLines(c, a), EncLines(c, b));
  }

  lemma EncodeOne(c: Codec, r: Rec)
    ensures Encode(c, [r]) == EncLine(c, r) + "\n"
  {
    assert EncLines(c, [r]) == [] + [EncLine(c, r)];
    JoinSnoc([], EncLine(c, r));
  }

  // ---- reading it back ----

  /** One line of the reader loop; None is a load error. */
  function StepLine(c: Codec, queue: seq<SyncOp>, line: string): Option<seq<SyncOp>> {
    StepText(c, queue, Trim(line))
  }

  function StepText(c: Codec, queue: seq<SyncOp>, l: string): Option<seq<SyncOp>> {
    if l == "" then Some(queue)
    else if "E " <= l then
      match c.dec(l[2..])
      case Some(op) => Some(queue + [op])
      case None => None
    else if l == "A" then Some(if queue == [] then [] else queue[1..])
    else None
  }

  function ReplayLines(c: Codec, lines: seq<string>): Option<seq<SyncOp>> {
    if lines == [] then Some([])
    else
      match ReplayLines(c, lines[..|lines| - 1])
      case None => None
      case Some(queue) => StepLine(c, queue, lines[|lines| - 1])
  }

  /** What a restart reads from a file holding `content`. */
  function Load(c: Codec, content: string): Option<seq<SyncOp>> {
    ReplayLines(c, Whole(content))
  }

  /** What the records mean, without their text. */
  function Replay(recs: seq<Rec>): seq<SyncOp> {
    if recs == [] then []
    else
      var queue := Replay(recs[..|recs| - 1]);
      match recs[|recs| - 1]
      case E(op) => queue + [op]
      case A => if queue == [] then [] else queue[1..]
  }

  // ---- what each line and record does ----

  /** An op goes last, an ack drops the first op, and one that finds none does nothing. */
  lemma RecordMeans(recs: seq<Rec>, op: SyncOp)
    ensures Replay([]) == [] && Replay(recs + [E(op)]) == Replay(recs) + [op]
    ensures Replay(recs) != [] ==> Replay(recs) == [Replay(recs)[0]] + Replay(recs + [A])
    ensures Replay(recs) == [] ==> Replay(recs + [A]) == []
  {
    assert (recs + [E(op)])[..|recs|] == recs && (recs + [A])[..|recs|] == recs;
  }

  /** The record of a line: None for a blank one, and for one that is no record. */
  function LineRec(c: Codec, line: string): Option<Rec> {
    var l := Trim(line);
    if l == "A" then Some(A)
    else if |l| >= 2 && l[0] == 'E' && l[1] == ' ' then
      (match c.dec(l[2..]) case Some(op) => Some(E(op)) case None => None)
    else None
  }

  function LineRecs(c: Codec, lines: seq<string>): seq<Rec> {
    if lines == [] then []
    else
      LineRecs(c, lines[..|lines| - 1]) +
      match LineRec(c, lines[|lines| - 1]) case Some(r) => [r] case None => []
  }

  lemma {:induction false} LinesMean(c: Codec, lines: seq<string>)
    ensures ReplayLines(c, lines) ==
            if forall i :: 0 <= i < |lines| ==> Trim(lines[i]) == "" || LineRec(c, lines[i]).Some?
            then Some(Replay(LineRecs(c, lines))) else None
  {
    if lines != [] {
      var init, last := lines[..|lines| - 1], lines[|lines| - 1];
      LinesMean(c, init);
      assert forall i :: 0 <= i < |init| ==> lines[i] == init[i];
      LineMeans(c, Replay(LineRecs(c, init)), last);
      var recs := LineRecs(c, init);
      match LineRec(c, last)
      case Some(E(op)) => RecordMeans(recs, op);
      case Some(A) => assert (recs + [A])[..|recs|] == recs;
      case None => assert recs + [] == recs;
    }
  }

  lemma LineMeans(c: Codec, queue: seq<SyncOp>, line: string)
    ensures StepLine(c, queue, line) ==
            match LineRec(c, line)
            case Some(E(op)) => Some(queue + [op])
            case Some(A) => Some(if queue == [] then [] else queue[1..])
            case None => if Trim(line) == "" then Some(queue) else None
  {
    var l := Trim(line);
    assert "E " <= l <==> |l| >= 2 && l[0] == 'E' && l[1] == ' ';
  }

  /**
   A file fails to load exactly if one of its whole lines is neither blank nor a record,
   and else loads as its records.
   */
  lemma LoadsExactly(c: Codec, content: string)
    ensures Load(c, content) ==
            if forall i :: 0 <= i < |Whole(content)| ==>
                 Trim(Whole(content)[i]) == "" || LineRec(c, Whole(content)[i]).Some?
            then Some(Replay(LineRecs(c, Whole(content)))) else None
  {
    LinesMean(c, Whole(content));
  }

  lemma TrimEncLine(c: Codec, r: Rec)
    requires Faithful(c)
    ensures Trim(EncLine(c, r)) == EncLine(c, r)
    ensures NoNewline(EncLine(c, r))
  {
    if r.E? {
      assert NoNewline(c.enc(r.op));
    }
  }

  lemma StepEncLine(c: Codec, queue: seq<SyncOp>, r: Rec)
    requires Faithful(c)
    ensures StepLine(c, queue, EncLine(c, r)) ==
            Some(match r case E(op) => queue + [op] case A => if queue == [] then [] else queue[1..])
  {
    TrimEncLine(c, r);
    if r.E? {
      assert EncLine(c, r)[2..] == c.enc(r.op);
    }
  }

  lemma {:induction false} ReplayEncLines(c: Codec, recs: seq<Rec>)
    requires Faithful(c)
    ensures ReplayLines(c, EncLines(c, recs)) == Some(Replay(recs))
  {
    if recs != [] {
      var init := recs[..|recs| - 1];
      ReplayEncLines(c, init);
      assert EncLines(c, recs)[..|recs| - 1] == EncLines(c, init);
      StepEncLine(c, Replay(init), recs[|recs| - 1]);
    }
  }

  lemma EncLinesNewlineFree(c: Codec, recs: seq<Rec>)
    requires Faithful(c)
    ensures forall l :: l in EncLines(c, recs) ==> NoNewline(l)
  {
    forall i | 0 <= i < |recs|
      ensures NoNewline(EncLines(c, recs)[i])
    {
      TrimEncLine(c, recs[i]);
    }
  }

  /** A file of records reads back as their replay, whatever torn record ends it. */
  lemma LoadEncoded(c: Codec, recs: seq<Rec>, torn: string)
    requires Faithful(c) && NoNewline(torn)
    ensures Load(c, Encode(c, recs) + torn) == Some(Replay(recs))
  {
    EncLinesNewlineFree(c, recs);
    SplitJoin(EncLines(c, recs), torn);
    ReplayEncLines(c, recs);
  }

  /** The first records of `recs` that `bytes` bytes of their text hold whole. */
  function WholeRecs(c: Codec, recs: seq<Rec>, bytes: nat): (n: nat)
    ensures n <= |recs|
  {
    if recs == [] || bytes < |EncLine(c, recs[0])| + 1 then 0
    else 1 + WholeRecs(c, recs[1..], bytes - (|EncLine(c, recs[0])| + 1))
  }

  /**
   A cut at any byte leaves a whole number of records and a torn one: the
   partial write of a failing disk, or the file a crash leaves behind.
   */
  lemma CutRecords(c: Codec, recs: seq<Rec>, bytes: nat) returns (torn: string)
    requires Faithful(c)
    requires bytes <= |Encode(c, recs)|
    ensures var n := WholeRecs(c, recs, bytes);
            && NoNewline(torn)
            && Encode(c, recs)[..bytes] == Encode(c, recs[..n]) + torn
            && (n < |recs| ==> bytes < |Encode(c, recs[..n + 1])|)
  {
    EncLinesNewlineFree(c, recs);
    var j;
    j, torn := CutJoin(EncLines(c, recs), bytes);
    EncLinesTake(c, recs, j);
    if j < |recs| {
      EncLinesTake(c, recs, j + 1);
    }
    WholeRecsIs(c, recs, bytes, j);
  }

  lemma EncLinesTake(c: Codec, recs: seq<Rec>, j: nat)
    requires j <= |recs|
    ensures EncLines(c, recs)[..j] == EncLines(c, recs[..j])
  {
  }

  lemma {:induction false} WholeRecsIs(c: Codec, recs: seq<Rec>, bytes: nat, j: nat)
    requires j <= |recs| && |Encode(c, recs[..j])| <= bytes
    requires j < |recs| ==> bytes < |Encode(c, recs[..j + 1])|
    ensures WholeRecs(c, recs, bytes) == j
  {
    if recs != [] {
      if j == 0 {
        EncodeNext(c, recs, 0);
      } else {
        EncodeNext(c, recs, j - 1);
        if j < |recs| {
          EncodeNext(c, recs, j);
        }
        WholeRecsIs(c, recs[1..], bytes - (|EncLine(c, recs[0])| + 1), j - 1);
      }
    }
  }

  lemma EncodeNext(c: Codec, recs: seq<Rec>, d: nat)
    requires d < |recs|
    ensures Encode(c, recs[..d + 1]) == EncLine(c, recs[0]) + "\n" + Encode(c, recs[1..][..d])
  {
    assert recs[..d + 1] == [recs[0]] + recs[1..][..d];
    EncodeConcat(c, [recs[0]], recs[1..][..d]);
    EncodeOne(c, recs[0]);
  }

  lemma EncodeGrows(c: Codec, recs: seq<Rec>, d: nat, e: nat)
    requires d <= e <= |recs|
    ensures |Encode(c, recs[..d])| <= |Encode(c, recs[..e])|
  {
    assert recs[..e] == recs[..d] + recs[d..e];
    EncodeConcat(c, recs[..d], recs[d..e]);
  }

  /**
   A file of records and a torn one, cut at any byte, reads back as the replay
   of a prefix of its records, no shorter than what ended before the cut.
   */
  lemma LoadCut(c: Codec, recs: seq<Rec>, torn: string, durable: nat, k: nat) returns (j: nat)
    requires Faithful(c) && NoNewline(torn)
    requires durable <= |recs|
    requires |Encode(c, recs[..durable])| <= k <= |Encode(c, recs) + torn|
    ensures durable <= j <= |recs|
    ensures Load(c, (Encode(c, recs) + torn)[..k]) == Some(Replay(recs[..j]))
  {
    var text := Encode(c, recs);
    if k <= |text| {
      var t := CutRecords(c, recs, k);
      j := WholeRecs(c, recs, k);
      if j < durable {
        EncodeGrows(c, recs, j + 1, durable);
      }
      assert (text + torn)[..k] == text[..k];
      LoadEncoded(c, recs[..j], t);
    } else {
      j := |recs|;
      var t := torn[..k - |text|];
      assert (text + torn)[..k] == text + t;
      assert recs[..j] == recs;
      LoadEncoded(c, recs, t);
    }
  }

  // ---- a torn tail that is not cut off ----

  lemma {:induction false} TrimLeftConcat(s: string, t: string)
    requires t != "" && !IsSpace(t[0])
    ensures TrimLeft(s + t) == TrimLeft(s) + t
  {
    if s == "" {
      assert s + t == t;
    } else {
      assert (s + t)[1..] == s[1..] + t;
      TrimLeftConcat(s[1..], t);
    }
  }

  /** Text appended to a file runs on from its unterminated tail. */
  lemma LoadAppend(c: Codec, content: string, line: string)
    requires NoNewline(line)
    ensures Load(c, content + line + "\n") ==
            match Load(c, content)
            case None => None
            case Some(queue) => StepLine(c, queue, Tail(content) + line)
  {
    var lines, last := Whole(content), Tail(content) + line;
    assert NoNewline(last) && content == Join(lines) + Tail(content)
           && forall l :: l in lines ==> NoNewline(l) by {
      JoinSplit(content);
      WholeNewlineFree(content);
    }
    var all := lines + [last];
    assert Join(all) == content + line + "\n" by {
      JoinSnoc(lines, last);
    }
    SplitJoin(all, "");
    assert Join(all) + "" == Join(all);
    assert all[..|all| - 1] == lines;
  }

  lemma StepGluedAck(c: Codec, queue: seq<SyncOp>, torn: string)
    requires queue != []
    ensures StepLine(c, queue, torn + "A") == Some(queue[1..]) <==> TrimLeft(torn) == ""
  {
    TrimGlued(torn, "A");
    if TrimLeft(torn) == "" {
      assert "" + "A" == "A";
    } else {
      LongerThanAck(c, queue, TrimLeft(torn));
    }
  }

  lemma LongerThanAck(c: Codec, queue: seq<SyncOp>, start: string)
    requires start != "" && queue != []
    ensures StepText(c, queue, start + "A") != Some(queue[1..])
  {
    var l := start + "A";
    assert l != "A" && l != "";
    assert forall op :: |queue + [op]| > |queue[1..]|;
  }

  /**
   The loader skips a torn last line without cutting it off, so the next
   record runs on from it. The ack appended after such a load is read back as
   an ack exactly when the torn tail was blank.
   */
  lemma AckAfterTornTail(c: Codec, content: string)
    requires Load(c, content).Some? && Load(c, content).value != []
    ensures Load(c, content + "A\n") == Some(Load(c, content).value[1..])
            <==> TrimLeft(Tail(content)) == ""
  {
    var torn := Tail(content);
    assert content + "A" + "\n" == content + "A\n";
    LoadAppend(c, content, "A");
    StepGluedAck(c, Load(c, content).value, torn);
  }

  lemma NothingToTrim(start: string, line: string)
    requires line != "" && !IsSpace(line[|line| - 1])
    ensures TrimRight(start + line) == start + line
  {
    assert (start + line)[|start + line| - 1] == line[|line| - 1];
  }

  lemma TrimGlued(torn: string, line: string)
    requires line != "" && !IsSpace(line[0]) && !IsSpace(line[|line| - 1])
    ensures Trim(torn + line) == TrimLeft(torn) + line
  {
    TrimLeftConcat(torn, line);
    NothingToTrim(TrimLeft(torn), line);
  }

  lemma GluedStart(start: string, line: string)
    requires start != "" && |line| > 1 && line[0] == 'E'
    ensures start + line != "" && start + line != "A" && ("E " <= start + line <==> "E " <= start)
  {
    var l := start + line;
    assert |l| > 2 && l[0] == start[0];
    assert l[1] == if |start| > 1 then start[1] else 'E';
  }

  /** An op record glued to a torn one reads as itself only after a blank one. */
  lemma StepGluedOp(c: Codec, queue: seq<SyncOp>, torn: string, op: SyncOp)
    requires Faithful(c)
    ensures var start, line := TrimLeft(torn), EncLine(c, E(op));
            StepLine(c, queue, torn + line) ==
            if start == "" then Some(queue + [op])
            else if "E " <= start then
              match c.dec((start + line)[2..])
              case Some(read) => Some(queue + [read])
              case None => None
            else None
  {
    var start, line := TrimLeft(torn), EncLine(c, E(op));
    assert line == "E " + c.enc(op) && line[|line| - 1] == c.enc(op)[|c.enc(op)| - 1];
    TrimGlued(torn, line);
    if start == "" {
      assert start + line == line && line[2..] == c.enc(op);
    } else {
      GluedStart(start, line);
    }
  }

  /**
   The next op queued after such a load. Unless the torn tail begins a record of
   an op itself, it reads back exactly when the tail is blank, and else the whole
   file is refused.
   */
  lemma OpAfterTornTail(c: Codec, content: string, op: SyncOp)
    requires Faithful(c) && Load(c, content).Some?
    requires !("E " <= TrimLeft(Tail(content)))
    ensures Load(c, content + Encode(c, [E(op)])) ==
            if TrimLeft(Tail(content)) == "" then Some(Load(c, content).value + [op]) else None
  {
    var line := EncLine(c, E(op));
    EncodeOne(c, E(op));
    assert content + Encode(c, [E(op)]) == content + line + "\n";
    TrimEncLine(c, E(op));
    LoadAppend(c, content, line);
    StepGluedOp(c, Load(c, content).value, Tail(content), op);
  }

  /** Once a line does not parse, no later line makes the load succeed. */
  lemma {:induction false} ReplayStops(c: Codec, lines: seq<string>, i: nat)
    requires i <= |lines| && ReplayLines(c, lines[..i]).None?
    ensures ReplayLines(c, lines).None?
    decreases |lines|
  {
    if i < |lines| {
      assert lines[..|lines| - 1][..i] == lines[..i];
      ReplayStops(c, lines[..|lines| - 1], i);
    } else {
      assert lines[..i] == lines;
    }
  }

  /** Whatever a worker appends to a log that does not load, it never loads again. */
  lemma FailedLoadStays(c: Codec, content: string, more: string)
    requires Load(c, content).None?
    ensures Load(c, content + more).None?
  {
    WholeStays(content, more);
    assert Whole(content + more)[..|Whole(content)|] == Whole(content);
    ReplayStops(c, Whole(content + more), |Whole(content)|);
  }

  /** A crash after the first byte of an ack is enough. */
  lemma TornAckLosesNextAck(c: Codec, op: SyncOp)
    requires Faithful(c)
    ensures var content := Encode(c, [E(op), E(op)]) + "A";
            && Load(c, content) == Some([op, op])
            && Load(c, content + "A\n") == None
  {
    var content := Encode(c, [E(op), E(op)]) + "A";
    LoadEncoded(c, [E(op), E(op)], "A");
    assert Replay([E(op), E(op)]) == [op, op] by {
      assert [E(op), E(op)][..1] == [E(op)];
      assert Replay([E(op)]) == [op];
    }
    LoadAppend(c, content, "A");
    assert Tail(content) == "A" by {
      EncLinesNewlineFree(c, [E(op), E(op)]);
      SplitJoin(EncLines(c, [E(op), E(op)]), "A");
    }
    assert content + "A" + "\n" == content + "A\n";
    assert Trim("A" + "A") == "AA";
  }
}
