/** The reader of the append-only file, one record at a time. */
module AofReader {
  import opened Lines
  import opened Options
  import opened AofLog

  predicate TwoLines(kl: string) {
    kl != "" && (kl[0] == '+' || kl[0] == '*')
  }

  function Taken(r: Option<Record>): seq<Record> {
    match r
    case Some(x) => [x]
    case None => []
  }

  /** `next` is where the reader goes on after taking `taken` at `pos`. */
  ghost predicate Reads(s: string, pos: nat, taken: seq<Record>, next: nat) {
    && pos < next <= |s|
    && Load(s[pos..]) == taken + Load(s[next..])
    && Repaired(s[pos..]) == s[pos..next] + Repaired(s[next..])
  }

  lemma GoodOf(first: seq<string>, rest: seq<string>)
    requires |first| > 0 && FirstLength(first + rest) == Some(|first|)
    ensures Join((first + rest)[..GoodLines(first + rest)]) == Join(first) + Join(rest[..GoodLines(rest)])
  {
    var lines := first + rest;
    assert lines[|first|..] == rest;
    assert lines[..GoodLines(lines)] == first + rest[..GoodLines(rest)];
    JoinConcat(first, rest[..GoodLines(rest)]);
  }

  /** No whole line is left. */
  lemma NothingRead(s: string, pos: nat)
    requires pos <= |s| && NoNewline(s[pos..])
    ensures Load(s[pos..]) == [] && Repaired(s[pos..]) == ""
  {
    assert NextNewline(s[pos..], 0) == |s| - pos;
  }

  /** The lines `first` between `pos` and `next` are read as `taken`, whatever follows them. */
  lemma ReadsFrom(s: string, pos: nat, first: seq<string>, taken: seq<Record>, next: nat)
    requires pos < next <= |s| && |first| > 0
    requires Whole(s[pos..]) == first + Whole(s[next..]) && Join(first) == s[pos..next]
    requires FirstLength(first + Whole(s[next..])) == Some(|first|)
    requires ReadRecords(first + Whole(s[next..])) == taken + ReadRecords(Whole(s[next..]))
    ensures Reads(s, pos, taken, next)
  {
    GoodOf(first, Whole(s[next..]));
  }

  lemma FirstOfOne(kl: string, rest: seq<string>)
    requires !TwoLines(kl)
    ensures FirstLength([kl] + rest) == Some(1)
    ensures ReadRecords([kl] + rest) == Taken(RecordOf(kl, "")) + ReadRecords(rest)
  {
    var lines := [kl] + rest;
    assert lines[0] == kl && lines[1..] == rest;
  }

  lemma OneLineText(s: string, pos: nat, i: nat)
    requires LineAt(s, pos, i)
    ensures Join([s[pos..i]]) == s[pos..i + 1]
  {
    JoinCons(s[pos..i], []);
    assert [s[pos..i]] + [] == [s[pos..i]] && s[pos..i] + "\n" + "" == s[pos..i + 1];
  }

  /** A record of one line, or a line that is no record. */
  lemma OneLineRead(s: string, pos: nat, i: nat)
    requires LineAt(s, pos, i) && !TwoLines(s[pos..i])
    ensures Reads(s, pos, Taken(RecordOf(s[pos..i], "")), i + 1)
  {
    LineWhole(s, pos, i);
    OneLineText(s, pos, i);
    FirstOfOne(s[pos..i], Whole(s[i + 1..]));
    ReadsFrom(s, pos, [s[pos..i]], Taken(RecordOf(s[pos..i], "")), i + 1);
  }

  lemma TwoLineText(s: string, pos: nat, i: nat, j: nat)
    requires LineAt(s, pos, i) && LineAt(s, i + 1, j)
    ensures Join([s[pos..i], s[i + 1..j]]) == s[pos..j + 1]
  {
    var a, b := s[pos..i], s[i + 1..j];
    JoinCons(a, [b]);
    JoinCons(b, []);
    assert [a] + [b] == [a, b] && [b] + [] == [b];
    assert b + "\n" + "" == s[i + 1..j + 1] && a + "\n" == s[pos..i + 1];
  }

  lemma FirstOfTwo(kl: string, vl: string, rest: seq<string>)
    requires TwoLines(kl)
    ensures FirstLength([kl, vl] + rest) == Some(2)
    ensures ReadRecords([kl, vl] + rest) == Taken(RecordOf(kl, vl)) + ReadRecords(rest)
  {
    var lines := [kl, vl] + rest;
    assert lines[0] == kl && lines[1] == vl && lines[2..] == rest;
  }

  lemma ConsTwo(a: string, b: string, rest: seq<string>)
    ensures [a] + ([b] + rest) == [a, b] + rest
  {
  }

  lemma TwoWhole(s: string, pos: nat, i: nat, j: nat)
    requires LineAt(s, pos, i) && LineAt(s, i + 1, j)
    ensures Whole(s[pos..]) == [s[pos..i], s[i + 1..j]] + Whole(s[j + 1..])
  {
    LineWhole(s, pos, i);
    LineWhole(s, i + 1, j);
    ConsTwo(s[pos..i], s[i + 1..j], Whole(s[j + 1..]));
  }

  lemma TwoReads(s: string, pos: nat, kl: string, vl: string, next: nat)
    requires pos < next <= |s| && TwoLines(kl)
    requires Whole(s[pos..]) == [kl, vl] + Whole(s[next..]) && Join([kl, vl]) == s[pos..next]
    ensures Reads(s, pos, Taken(RecordOf(kl, vl)), next)
  {
    FirstOfTwo(kl, vl, Whole(s[next..]));
    ReadsFrom(s, pos, [kl, vl], Taken(RecordOf(kl, vl)), next);
  }

  lemma TwoLineRead(s: string, pos: nat, i: nat, j: nat)
    requires LineAt(s, pos, i) && LineAt(s, i + 1, j) && TwoLines(s[pos..i])
    ensures Reads(s, pos, Taken(RecordOf(s[pos..i], s[i + 1..j])), j + 1)
  {
    TwoWhole(s, pos, i, j);
    TwoLineText(s, pos, i, j);
    TwoReads(s, pos, s[pos..i], s[i + 1..j], j + 1);
  }

  /** The file ends in the middle of a record. */
  lemma CutRecord(s: string, pos: nat, i: nat)
    requires LineAt(s, pos, i) && TwoLines(s[pos..i]) && NoNewline(s[i + 1..])
    ensures Load(s[pos..]) == [] && Repaired(s[pos..]) == ""
  {
    LineWhole(s, pos, i);
    assert Whole(s[pos..]) == [s[pos..i]];
  }

  /** One turn of the reader's loop: the record at `pos`, if one is whole, and where the next one starts. */
  method ReadRecord(s: string, pos: nat) returns (more: bool, r: Option<Record>, next: nat)
    requires pos <= |s|
    ensures more ==> Reads(s, pos, Taken(r), next)
    ensures !more ==> Load(s[pos..]) == [] && Repaired(s[pos..]) == ""
  {
    var isLine, i := FindLine(s, pos);
    if !isLine {
      NothingRead(s, pos);
      return false, None, pos;
    }
    if TwoLines(s[pos..i]) {
      var hasValue, j := FindLine(s, i + 1);
      if !hasValue {
        CutRecord(s, pos, i);
        return false, None, pos;
      }
      TwoLineRead(s, pos, i, j);
      return true, RecordOf(s[pos..i], s[i + 1..j]), j + 1;
    }
    OneLineRead(s, pos, i);
    return true, RecordOf(s[pos..i], ""), i + 1;
  }

  /** Where the loop is: it has read `done`, and everything up to `pos` is whole records. */
  ghost predicate At(s: string, done: seq<Record>, pos: nat) {
    && pos <= |s|
    && Load(s) == done + Load(s[pos..])
    && Repaired(s) == s[..pos] + Repaired(s[pos..])
  }

  lemma StartAt(s: string)
    ensures At(s, [], 0)
  {
    assert s[0..] == s && s[..0] == "";
  }

  lemma ReadOn(s: string, pos: nat, done: seq<Record>, taken: seq<Record>, next: nat)
    requires pos <= |s| && At(s, done, pos) && Reads(s, pos, taken, next)
    ensures At(s, done + taken, next)
  {
    assert s[..next] == s[..pos] + s[pos..next];
  }

  lemma ReadAll(s: string, done: seq<Record>, pos: nat)
    requires At(s, done, pos) && Load(s[pos..]) == [] && Repaired(s[pos..]) == ""
    ensures Load(s) == done && Repaired(s) == s[..pos]
  {
  }
}
