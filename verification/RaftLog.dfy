/**
 What the Raft file store keeps, the records of its write-ahead log, and what a
 restart reads back from a checkpoint and a log file cut at any byte.
 */
module RaftLog {
  import opened Lines
  import opened Options

  type uint64 = n: int | 0 <= n < 0x1_0000_0000_0000_0000

  datatype Log = Log(index: uint64, term: uint64, kind: nat, data: string, extensions: string, appendedAt: string)

  datatype Contents = Contents(logs: map<uint64, Log>, kv: map<string, string>, kvInt: map<string, uint64>)

  /** A record; `DeleteRange` was written by old versions, and is also what that call does in memory. */
  datatype Rec =
    | StoreLogs(entries: seq<Log>)
    | DeleteRange(min: uint64, max: uint64)
    | SetVal(key: string, val: string)
    | SetNum(key: string, num: uint64)

  const EMPTY := Contents(map[], map[], map[])

  function PutLogs(logs: map<uint64, Log>, entries: seq<Log>): map<uint64, Log> {
    if entries == [] then logs
    else
      var last := entries[|entries| - 1];
      PutLogs(logs, entries[..|entries| - 1])[last.index := last]
  }

  function Without(logs: map<uint64, Log>, min: uint64, max: uint64): map<uint64, Log> {
    map i | i in logs && !(min <= i <= max) :: logs[i]
  }

  function Apply(c: Contents, r: Rec): Contents {
    match r
    case StoreLogs(entries) => c.(logs := PutLogs(c.logs, entries))
    case DeleteRange(min, max) => c.(logs := Without(c.logs, min, max))
    case SetVal(k, v) => c.(kv := c.kv[k := v])
    case SetNum(k, v) => c.(kvInt := c.kvInt[k := v])
  }

  function Replay(c: Contents, recs: seq<Rec>): Contents {
    if recs == [] then c else Apply(Replay(c, recs[..|recs| - 1]), recs[|recs| - 1])
  }

  // ---- the last writer of each slot wins ----

  /** A place in the store, and what is there. */
  datatype Slot = LogAt(index: uint64) | ValAt(key: string) | NumAt(key: string)
  datatype Item = LogItem(log: Log) | ValItem(val: string) | NumItem(num: uint64)

  function At(c: Contents, x: Slot): Option<Item> {
    match x
    case LogAt(i) => if i in c.logs then Some(LogItem(c.logs[i])) else None
    case ValAt(k) => if k in c.kv then Some(ValItem(c.kv[k])) else None
    case NumAt(k) => if k in c.kvInt then Some(NumItem(c.kvInt[k])) else None
  }

  function LastEntry(entries: seq<Log>, i: uint64): Option<Log> {
    if entries == [] then None
    else if entries[|entries| - 1].index == i then Some(entries[|entries| - 1])
    else LastEntry(entries[..|entries| - 1], i)
  }

  /** What `r` leaves at `x`: None if it does not touch it, Some(None) if it clears it. */
  function Touch(r: Rec, x: Slot): Option<Option<Item>> {
    match r
    case StoreLogs(entries) =>
      if !x.LogAt? then None
      else (match LastEntry(entries, x.index) case Some(l) => Some(Some(LogItem(l))) case None => None)
    case DeleteRange(min, max) => if x.LogAt? && min <= x.index <= max then Some(None) else None
    case SetVal(k, v) => if x == ValAt(k) then Some(Some(ValItem(v))) else None
    case SetNum(k, v) => if x == NumAt(k) then Some(Some(NumItem(v))) else None
  }

  /** What the last of `recs` to touch `x` leaves there. */
  function LastTouch(recs: seq<Rec>, x: Slot): Option<Option<Item>> {
    if recs == [] then None
    else
      match Touch(recs[|recs| - 1], x)
      case Some(v) => Some(v)
      case None => LastTouch(recs[..|recs| - 1], x)
  }

  lemma {:induction false} PutLogsAt(logs: map<uint64, Log>, entries: seq<Log>, i: uint64)
    ensures i in PutLogs(logs, entries) <==> i in logs || LastEntry(entries, i).Some?
    ensures i in PutLogs(logs, entries) ==>
              PutLogs(logs, entries)[i] == if LastEntry(entries, i).Some? then LastEntry(entries, i).value else logs[i]
  {
    if entries != [] {
      PutLogsAt(logs, entries[..|entries| - 1], i);
    }
  }

  lemma ApplyAt(c: Contents, r: Rec, x: Slot)
    ensures At(Apply(c, r), x) == match Touch(r, x) case Some(v) => v case None => At(c, x)
  {
    if r.StoreLogs? && x.LogAt? {
      PutLogsAt(c.logs, r.entries, x.index);
    }
  }

  lemma {:induction false} ReplayAt(c: Contents, recs: seq<Rec>, x: Slot)
    ensures At(Replay(c, recs), x) == match LastTouch(recs, x) case Some(v) => v case None => At(c, x)
  {
    if recs != [] {
      ReplayAt(c, recs[..|recs| - 1], x);
      ApplyAt(Replay(c, recs[..|recs| - 1]), recs[|recs| - 1], x);
    }
  }

  // ---- what each record does ----

  /** A deleted range is gone, its ends included, and nothing else. */
  lemma DeletesRange(c: Contents, min: uint64, max: uint64, x: Slot)
    ensures At(Apply(c, DeleteRange(min, max)), x) ==
            if x.LogAt? && min <= x.index <= max then None else At(c, x)
  {
  }

  /** Each stored entry is there, the last one of its index. */
  lemma {:induction false} StoresEntry(c: Contents, entries: seq<Log>, k: nat)
    requires k < |entries| && forall j :: k < j < |entries| ==> entries[j].index != entries[k].index
    ensures At(Apply(c, StoreLogs(entries)), LogAt(entries[k].index)) == Some(LogItem(entries[k]))
  {
    if k < |entries| - 1 {
      StoresEntry(c, entries[..|entries| - 1], k);
    }
  }

  /** Nothing else changes. */
  lemma {:induction false} StoresNothingElse(c: Contents, entries: seq<Log>, x: Slot)
    requires forall l :: l in entries ==> x != LogAt(l.index)
    ensures At(Apply(c, StoreLogs(entries)), x) == At(c, x)
  {
    if entries != [] {
      assert entries[|entries| - 1] in entries;
      StoresNothingElse(c, entries[..|entries| - 1], x);
    }
  }

  /** A set key has its value, and nothing else changes. */
  lemma SetsKey(c: Contents, k: string, v: string, n: uint64, x: Slot)
    ensures At(Apply(c, SetVal(k, v)), x) == if x == ValAt(k) then Some(ValItem(v)) else At(c, x)
    ensures At(Apply(c, SetNum(k, n)), x) == if x == NumAt(k) then Some(NumItem(n)) else At(c, x)
  {
  }

  lemma SameContents(c: Contents, d: Contents)
    requires forall x :: At(c, x) == At(d, x)
    ensures c == d
  {
    assert c.logs == d.logs by {
      forall i: uint64
        ensures i in c.logs <==> i in d.logs
        ensures i in c.logs ==> c.logs[i] == d.logs[i]
      {
        assert At(c, LogAt(i)) == At(d, LogAt(i));
      }
    }
    assert c.kv == d.kv by {
      forall k: string
        ensures k in c.kv <==> k in d.kv
        ensures k in c.kv ==> c.kv[k] == d.kv[k]
      {
        assert At(c, ValAt(k)) == At(d, ValAt(k));
      }
    }
    assert c.kvInt == d.kvInt by {
      forall k: string
        ensures k in c.kvInt <==> k in d.kvInt
        ensures k in c.kvInt ==> c.kvInt[k] == d.kvInt[k]
      {
        assert At(c, NumAt(k)) == At(d, NumAt(k));
      }
    }
  }

  /** Replaying a log over the checkpoint made from it changes nothing. */
  lemma ReplayIdempotent(c: Contents, recs: seq<Rec>)
    ensures Replay(Replay(c, recs), recs) == Replay(c, recs)
  {
    forall x
      ensures At(Replay(Replay(c, recs), recs), x) == At(Replay(c, recs), x)
    {
      ReplayAt(c, recs, x);
      ReplayAt(Replay(c, recs), recs, x);
    }
    SameContents(Replay(Replay(c, recs), recs), Replay(c, recs));
  }

  lemma ReplaySnoc(c: Contents, recs: seq<Rec>, r: Rec)
    ensures Replay(c, recs + [r]) == Apply(Replay(c, recs), r)
  {
    assert (recs + [r])[..|recs|] == recs;
  }

  lemma {:induction false} ReplayConcat(c: Contents, a: seq<Rec>, b: seq<Rec>)
    ensures Replay(c, a + b) == Replay(Replay(c, a), b)
  {
    if b == [] {
      assert a + b == a;
    } else {
      ReplayConcat(c, a, b[..|b| - 1]);
      assert (a + b)[..|a + b| - 1] == a + b[..|b| - 1];
    }
  }

  lemma {:induction false} LastTouchConcat(a: seq<Rec>, b: seq<Rec>, x: Slot)
    ensures LastTouch(a + b, x) == if LastTouch(b, x).Some? then LastTouch(b, x) else LastTouch(a, x)
  {
    if b == [] {
      assert a + b == a;
    } else {
      LastTouchConcat(a, b[..|b| - 1], x);
      assert (a + b)[..|a + b| - 1] == a + b[..|b| - 1];
    }
  }

  lemma {:induction false} Untouched(recs: seq<Rec>, x: Slot)
    requires forall r :: r in recs ==> Touch(r, x).None?
    ensures LastTouch(recs, x) == None
  {
    if recs != [] {
      assert recs[|recs| - 1] in recs;
      Untouched(recs[..|recs| - 1], x);
    }
  }

  // ---- text of the log ----

  datatype Decoded = BadJson | UnknownType | Known(rec: Rec)

  /** The JSON encoder and decoder of records; the model holds for every faithful one. */
  datatype Codec = Codec(enc: Rec -> string, dec: string -> Decoded)

  ghost predicate Faithful(c: Codec) {
    forall r: Rec {:trigger c.enc(r)} ::
      NoNewline(c.enc(r)) && c.enc(r) != "" && Trim(c.enc(r)) == c.enc(r) && c.dec(c.enc(r)) == Known(r)
  }

  function EncLines(c: Codec, recs: seq<Rec>): seq<string> {
    seq(|recs|, i requires 0 <= i < |recs| => c.enc(recs[i]))
  }

  function Encode(c: Codec, recs: seq<Rec>): string {
    Join(EncLines(c, recs))
  }

  /** One line of the reader; None is an error, or a torn record if nothing follows. */
  function StepLine(c: Codec, s: Contents, line: string): Option<Contents> {
    if Trim(line) == "" then Some(s)
    else
      match c.dec(Trim(line))
      case Known(r) => Some(Apply(s, r))
      case _ => None
  }

  function ReplayLines(c: Codec, s: Contents, lines: seq<string>): Option<Contents> {
    if lines == [] then Some(s)
    else
      match ReplayLines(c, s, lines[..|lines| - 1])
      case None => None
      case Some(t) => StepLine(c, t, lines[|lines| - 1])
  }

  predicate Bad(c: Codec, line: string) {
    Trim(line) != "" && c.dec(Trim(line)).BadJson?
  }

  /** The lines a load reads: all, but for an unreadable one that ends the file. */
  function GoodLines(c: Codec, content: string): seq<string> {
    var lines := Whole(content);
    if lines != [] && Tail(content) == "" && Bad(c, lines[|lines| - 1]) then lines[..|lines| - 1] else lines
  }

  /** The store after loading the log over the checkpoint's `s`; None is an error. */
  function Load(c: Codec, s: Contents, content: string): Option<Contents> {
    ReplayLines(c, s, GoodLines(c, content))
  }

  /** What a load leaves of the file: its readable lines. */
  function Repaired(c: Codec, content: string): string {
    Join(GoodLines(c, content))
  }

  lemma {:induction false} ReplayEncoded(c: Codec, s: Contents, recs: seq<Rec>)
    requires Faithful(c)
    ensures ReplayLines(c, s, EncLines(c, recs)) == Some(Replay(s, recs))
  {
    if recs != [] {
      ReplayEncoded(c, s, recs[..|recs| - 1]);
      assert EncLines(c, recs)[..|recs| - 1] == EncLines(c, recs[..|recs| - 1]);
    }
  }

  /** A log of records loads as their replay, whatever torn record ends it, and is cut back to them. */
  lemma LoadEncoded(c: Codec, s: Contents, recs: seq<Rec>, torn: string)
    requires Faithful(c) && NoNewline(torn)
    ensures Load(c, s, Encode(c, recs) + torn) == Some(Replay(s, recs))
    ensures Repaired(c, Encode(c, recs) + torn) == Encode(c, recs)
  {
    SplitJoin(EncLines(c, recs), torn);
    ReplayEncoded(c, s, recs);
  }

  lemma EncLinesTake(c: Codec, recs: seq<Rec>, j: nat)
    requires j <= |recs|
    ensures EncLines(c, recs)[..j] == EncLines(c, recs[..j])
  {
  }

  /**
   A log cut at any byte loads as the replay of a prefix of its records that
   keeps all that end before the cut, and what the load leaves of the file is
   exactly those records: the next append starts on a line of its own.
   */
  lemma LoadCut(c: Codec, s: Contents, recs: seq<Rec>, durable: nat, k: nat) returns (j: nat)
    requires Faithful(c) && durable <= |recs|
    requires |Encode(c, recs[..durable])| <= k <= |Encode(c, recs)|
    ensures durable <= j <= |recs| && |Encode(c, recs[..j])| <= k
    ensures Load(c, s, Encode(c, recs)[..k]) == Some(Replay(s, recs[..j]))
    ensures Repaired(c, Encode(c, recs)[..k]) == Encode(c, recs[..j])
  {
    var torn;
    j, torn := CutJoin(EncLines(c, recs), k);
    EncLinesTake(c, recs, j);
    EncLinesTake(c, recs, durable);
    LoadEncoded(c, s, recs[..j], torn);
  }

  predicate HoldsRecord(c: Codec, line: string) {
    c.dec(Trim(line)).Known?
  }

  /** The records of lines that hold one. */
  function LineRecs(c: Codec, lines: seq<string>): seq<Rec> {
    if lines == [] then []
    else
      var last := lines[|lines| - 1];
      LineRecs(c, lines[..|lines| - 1]) +
      if Trim(last) != "" && HoldsRecord(c, last) then [c.dec(Trim(last)).rec] else []
  }

  /** Every line is blank or a record of a known type. */
  predicate AllKnown(c: Codec, lines: seq<string>) {
    forall i :: 0 <= i < |lines| ==> Trim(lines[i]) == "" || HoldsRecord(c, lines[i])
  }

  lemma AllKnownSnoc(c: Codec, init: seq<string>, last: string)
    ensures AllKnown(c, init + [last]) <==> AllKnown(c, init) && (Trim(last) == "" || HoldsRecord(c, last))
  {
    var lines := init + [last];
    assert lines[|init|] == last && forall i :: 0 <= i < |init| ==> lines[i] == init[i];
  }

  lemma LineMeans(c: Codec, s: Contents, recs: seq<Rec>, line: string)
    ensures var r := if Trim(line) != "" && HoldsRecord(c, line) then [c.dec(Trim(line)).rec] else [];
            StepLine(c, Replay(s, recs), line) ==
            if Trim(line) == "" || HoldsRecord(c, line) then Some(Replay(s, recs + r)) else None
  {
    assert recs + [] == recs;
    if HoldsRecord(c, line) {
      ReplaySnoc(s, recs, c.dec(Trim(line)).rec);
    }
  }

  lemma {:induction false} LinesMean(c: Codec, s: Contents, lines: seq<string>)
    ensures ReplayLines(c, s, lines) == if AllKnown(c, lines) then Some(Replay(s, LineRecs(c, lines))) else None
  {
    if lines != [] {
      var init, last := lines[..|lines| - 1], lines[|lines| - 1];
      assert lines == init + [last];
      LinesMean(c, s, init);
      AllKnownSnoc(c, init, last);
      LineMeans(c, s, LineRecs(c, init), last);
    }
  }

  /**
   A log fails to load exactly if one of its whole lines, but for an unreadable one at
   the very end, is neither blank nor a record of a known type, and else loads as its
   records over the checkpoint.
   */
  lemma LoadsExactly(c: Codec, s: Contents, content: string)
    ensures var lines := Whole(content);
            var torn := lines != [] && Tail(content) == "" && Trim(lines[|lines| - 1]) != ""
                        && c.dec(Trim(lines[|lines| - 1])) == BadJson;
            var kept := if torn then lines[..|lines| - 1] else lines;
            Load(c, s, content) == if AllKnown(c, kept) then Some(Replay(s, LineRecs(c, kept))) else None
  {
    LinesMean(c, s, GoodLines(c, content));
  }

  /** Wherever a log is damaged but at its end, the load fails instead of skipping records. */
  lemma {:induction false} DamageIsRefused(c: Codec, s: Contents, content: string, i: nat)
    requires i < |Whole(content)| && Bad(c, Whole(content)[i])
    requires i + 1 < |Whole(content)| || Tail(content) != ""
    ensures Load(c, s, content) == None
  {
    var lines := GoodLines(c, content);
    assert lines[i] == Whole(content)[i];
    BadStops(c, s, lines, i);
  }

  lemma {:induction false} BadStops(c: Codec, s: Contents, lines: seq<string>, i: nat)
    requires i < |lines| && Bad(c, lines[i])
    ensures ReplayLines(c, s, lines).None?
    decreases |lines|
  {
    if i < |lines| - 1 {
      BadStops(c, s, lines[..|lines| - 1], i);
    }
  }
}
