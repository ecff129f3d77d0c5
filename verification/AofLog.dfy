/**
 The append-only file: its records, their lines, and what a restart reads back
 from a file cut at any byte.
 */
module AofLog {
  import opened Lines
  import opened Options

  datatype Record = SetRec(key: string, text: string) | DelRec(key: string) | SnapRec(text: string)

  predicate Printable(r: Record) {
    match r
    case SetRec(k, t) => NoNewline(k) && NoNewline(t)
    case DelRec(k) => NoNewline(k)
    case SnapRec(t) => NoNewline(t)
  }

  function RecordLines(r: Record): seq<string> {
    match r
    case SetRec(k, t) => ["+" + k, t]
    case DelRec(k) => ["-" + k]
    case SnapRec(t) => ["*", t]
  }

  function AllLines(recs: seq<Record>): seq<string> {
    if recs == [] then [] else RecordLines(recs[0]) + AllLines(recs[1..])
  }

  function Encode(recs: seq<Record>): string {
    Join(AllLines(recs))
  }

  // ---- reading ----

  /** How many lines the first record of `lines` takes; None if the file ends in the middle of it. */
  function FirstLength(lines: seq<string>): Option<nat>
    requires lines != []
  {
    if lines[0] != "" && (lines[0][0] == '+' || lines[0][0] == '*')
    then (if |lines| < 2 then None else Some(2)) else Some(1)
  }

  /** The record that line `kl` starts, followed by `vl`; a line of any other kind is none. */
  function RecordOf(kl: string, vl: string): Option<Record> {
    if kl == "" then None
    else if kl[0] == '+' then Some(SetRec(kl[1..], vl))
    else if kl[0] == '*' then Some(SnapRec(vl))
    else if kl[0] == '-' then Some(DelRec(kl[1..]))
    else None
  }

  /** The records of a file's whole lines; one cut short is no record. */
  function ReadRecords(lines: seq<string>): seq<Record> {
    if lines == [] || FirstLength(lines).None? then []
    else
      var n := FirstLength(lines).value;
      var r := RecordOf(lines[0], if n == 2 then lines[1] else "");
      (match r case Some(x) => [x] case None => []) + ReadRecords(lines[n..])
  }

  /** How many of the lines make whole records. */
  function GoodLines(lines: seq<string>): (n: nat)
    ensures n <= |lines|
  {
    if lines == [] || FirstLength(lines).None? then 0
    else FirstLength(lines).value + GoodLines(lines[FirstLength(lines).value..])
  }

  function Load(content: string): seq<Record> {
    ReadRecords(Whole(content))
  }

  /** The file after a restart cut off what is no whole record. */
  function Repaired(content: string): string {
    Join(Whole(content)[..GoodLines(Whole(content))])
  }

  // ---- reading undoes writing ----

  lemma {:induction false} AllLinesConcat(a: seq<Record>, b: seq<Record>)
    ensures AllLines(a + b) == AllLines(a) + AllLines(b)
  {
    if a == [] {
      assert a + b == b;
      assert AllLines(a) + AllLines(b) == AllLines(b);
    } else {
      AllLinesConcat(a[1..], b);
      assert (a + b)[1..] == a[1..] + b;
      assert RecordLines(a[0]) + (AllLines(a[1..]) + AllLines(b)) == AllLines(a) + AllLines(b);
    }
  }

  lemma EncodeConcat(a: seq<Record>, b: seq<Record>)
    ensures Encode(a + b) == Encode(a) + Encode(b)
  {
    AllLinesConcat(a, b);
    JoinConcat(AllLines(a), AllLines(b));
  }

  lemma JoinLines(lines: seq<string>)
    requires 1 <= |lines| <= 2
    ensures Join(lines) == if |lines| == 1 then lines[0] + "\n" else lines[0] + "\n" + lines[1] + "\n"
  {
    if |lines| == 1 {
      JoinCons(lines[0], []);
      assert [lines[0]] + [] == lines;
    } else {
      JoinCons(lines[0], [lines[1]]);
      JoinCons(lines[1], []);
      assert [lines[0]] + [lines[1]] == lines && [lines[1]] + [] == [lines[1]];
    }
  }

  lemma EncodeOne(r: Record)
    ensures Encode([r]) ==
            match r
            case SetRec(k, t) => "+" + k + "\n" + t + "\n"
            case DelRec(k) => "-" + k + "\n"
            case SnapRec(t) => "*\n" + t + "\n"
  {
    var first := RecordLines(r);
    assert [r][1..] == [] && AllLines([r]) == first + [] == first;
    JoinLines(first);
  }

  lemma {:induction false} LinesNewlineFree(recs: seq<Record>)
    requires forall i :: 0 <= i < |recs| ==> Printable(recs[i])
    ensures forall l :: l in AllLines(recs) ==> NoNewline(l)
  {
    if recs != [] {
      LinesNewlineFree(recs[1..]);
      assert forall l :: l in RecordLines(recs[0]) ==> NoNewline(l);
    }
  }

  lemma NextRecord(recs: seq<Record>, d: nat)
    requires d < |recs|
    ensures AllLines(recs[..d + 1]) == RecordLines(recs[0]) + AllLines(recs[1..][..d])
  {
    assert recs[..d + 1][0] == recs[0] && recs[..d + 1][1..] == recs[1..][..d];
  }

  /**
   Some first lines of a file of records, and what is left of the record they
   end in, hold a prefix of the records, up to the one the cut is in.
   */
  lemma {:induction false} ReadPrefix(recs: seq<Record>, n: nat) returns (j: nat)
    requires n <= |AllLines(recs)|
    ensures j <= |recs|
    ensures ReadRecords(AllLines(recs)[..n]) == recs[..j]
    ensures GoodLines(AllLines(recs)[..n]) == |AllLines(recs[..j])|
    ensures j < |recs| ==> n < |AllLines(recs[..j + 1])|
  {
    var lines := AllLines(recs);
    if recs == [] {
      return 0;
    }
    var first, rest := RecordLines(recs[0]), AllLines(recs[1..]);
    assert lines == first + rest;
    if n < |first| {
      j := 0;
      assert lines[..n] == first[..n];
      NextRecord(recs, 0);
    } else {
      var i := ReadPrefix(recs[1..], n - |first|);
      j := i + 1;
      ReadFirst(recs[0], rest[..n - |first|]);
      assert lines[..n] == first + rest[..n - |first|];
      assert recs[..j] == [recs[0]] + recs[1..][..i];
      NextRecord(recs, i);
      if j < |recs| {
        NextRecord(recs, i + 1);
      }
    }
  }

  lemma LinesOfPrefix(recs: seq<Record>, d: nat, e: nat)
    requires d <= e <= |recs|
    ensures |AllLines(recs[..d])| <= |AllLines(recs[..e])| <= |AllLines(recs)|
    ensures AllLines(recs)[..|AllLines(recs[..d])|] == AllLines(recs[..d])
  {
    assert recs == recs[..d] + recs[d..] && recs[..e] == recs[..d] + recs[d..e] && recs == recs[..e] + recs[e..];
    AllLinesConcat(recs[..d], recs[d..]);
    AllLinesConcat(recs[..d], recs[d..e]);
    AllLinesConcat(recs[..e], recs[e..]);
  }

  lemma ReadFirst(r: Record, rest: seq<string>)
    ensures ReadRecords(RecordLines(r) + rest) == [r] + ReadRecords(rest)
    ensures GoodLines(RecordLines(r) + rest) == |RecordLines(r)| + GoodLines(rest)
  {
    var lines := RecordLines(r) + rest;
    assert lines[|RecordLines(r)|..] == rest;
    assert r.SetRec? ==> lines[0][1..] == r.key;
    assert r.DelRec? ==> lines[0][1..] == r.key;
  }

  /**
   A file of records cut at any byte reads back as a prefix of them, keeping
   every record that ends before the cut, and is repaired to exactly their text.
   */
  lemma CutReads(recs: seq<Record>, k: nat) returns (j: nat)
    requires forall i :: 0 <= i < |recs| ==> Printable(recs[i])
    requires k <= |Encode(recs)|
    ensures j <= |recs|
    ensures Load(Encode(recs)[..k]) == recs[..j]
    ensures Repaired(Encode(recs)[..k]) == Encode(recs[..j])
    ensures forall d :: 0 <= d <= |recs| && |Encode(recs[..d])| <= k ==> d <= j
  {
    var lines := AllLines(recs);
    LinesNewlineFree(recs);
    var n, tail := CutJoin(lines, k);
    SplitJoin(lines[..n], tail);
    j := ReadPrefix(recs, n);
    LinesOfPrefix(recs, j, |recs|);
    var good := GoodLines(lines[..n]);
    assert lines[..n][..good] == lines[..good];
    forall d | 0 <= d <= |recs| && |Encode(recs[..d])| <= k
      ensures d <= j
    {
      LinesOfPrefix(recs, d, |recs|);
      assert |AllLines(recs[..d])| <= n;
      LinesOfPrefix(recs, if j < d then j + 1 else d, d);
    }
  }

  lemma LoadEncoded(recs: seq<Record>)
    requires forall i :: 0 <= i < |recs| ==> Printable(recs[i])
    ensures Load(Encode(recs)) == recs && Repaired(Encode(recs)) == Encode(recs)
  {
    var j := CutReads(recs, |Encode(recs)|);
    assert recs[..|recs|] == recs;
    assert Encode(recs)[..|Encode(recs)|] == Encode(recs);
  }

  lemma {:induction false} ReadPrintable(lines: seq<string>)
    requires forall l :: l in lines ==> NoNewline(l)
    ensures forall r :: r in ReadRecords(lines) ==> Printable(r)
  {
    if lines != [] && FirstLength(lines).Some? {
      var n := FirstLength(lines).value;
      var r := RecordOf(lines[0], if n == 2 then lines[1] else "");
      assert forall l :: l in lines[n..] ==> l in lines;
      assert NoNewline(lines[0]) && (n == 2 ==> NoNewline(lines[1]));
      ReadPrintable(lines[n..]);
      assert r.Some? ==> Printable(r.value);
    }
  }

  /**
   What each line starts: a set takes the next line with it, and so does a snapshot,
   whatever stands behind its star; a line of any other kind is passed over. A set or
   a snapshot without its second line ends the file.
   */
  lemma LinesMean(l: string, t: string, rest: seq<string>)
    ensures l != "" && l[0] == '+' ==> ReadRecords([l, t] + rest) == [SetRec(l[1..], t)] + ReadRecords(rest)
    ensures l != "" && l[0] == '*' ==> ReadRecords([l, t] + rest) == [SnapRec(t)] + ReadRecords(rest)
    ensures l != "" && l[0] == '-' ==> ReadRecords([l] + rest) == [DelRec(l[1..])] + ReadRecords(rest)
    ensures l == "" || l[0] !in "+*-" ==> ReadRecords([l] + rest) == ReadRecords(rest)
    ensures l != "" && l[0] in "+*" ==> ReadRecords([l]) == [] && GoodLines([l]) == 0
    ensures ReadRecords([]) == []
  {
    assert ([l, t] + rest)[2..] == rest && ([l] + rest)[1..] == rest && ([l, t] + rest)[1] == t;
    assert [] + ReadRecords(rest) == ReadRecords(rest);
  }

  /** A file reads back as the records written to it exactly when no key or text of them has a newline. */
  lemma ReadsBackExactly(recs: seq<Record>)
    ensures Load(Encode(recs)) == recs <==> forall i :: 0 <= i < |recs| ==> Printable(recs[i])
  {
    if forall i :: 0 <= i < |recs| ==> Printable(recs[i]) {
      LoadEncoded(recs);
    }
    WholeNewlineFree(Encode(recs));
    ReadPrintable(Whole(Encode(recs)));
    assert forall i :: 0 <= i < |recs| ==> recs[i] in recs;
  }
}
