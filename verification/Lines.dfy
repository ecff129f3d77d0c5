/**
 Newline-terminated text, as the three log readers see it: a file is a sequence
 of whole lines and an unterminated tail. A byte of a file is a `char`.
 */
module Lines {
  predicate NoNewline(s: string) {
    '\n' !in s
  }

  /** The text of `lines`, each followed by a newline. */
  function Join(lines: seq<string>): string {
    if lines == [] then "" else lines[0] + "\n" + Join(lines[1..])
  }

  /** Position of the first newline of `s` at or after `from`, or `|s|`. */
  function NextNewline(s: string, from: nat): (i: nat)
    requires from <= |s|
    ensures from <= i <= |s|
    ensures forall j :: from <= j < i ==> s[j] != '\n'
    ensures i < |s| ==> s[i] == '\n'
    decreases |s| - from
  {
    if from == |s| || s[from] == '\n' then from else NextNewline(s, from + 1)
  }

  /** The newline-terminated lines of `s`, without their newlines. */
  function Whole(s: string): seq<string>
    decreases |s|
  {
    var i := NextNewline(s, 0);
    if i == |s| then [] else [s[..i]] + Whole(s[i + 1..])
  }

  /** What follows the last newline of `s`. */
  function Tail(s: string): string
    decreases |s|
  {
    var i := NextNewline(s, 0);
    if i == |s| then s else Tail(s[i + 1..])
  }

  lemma WholeCons(line: string, rest: string)
    requires NoNewline(line)
    ensures Whole(line + "\n" + rest) == [line] + Whole(rest)
    ensures Tail(line + "\n" + rest) == Tail(rest)
  {
    var s := line + "\n" + rest;
    var i := NextNewline(s, 0);
    assert s[|line|] == '\n';
    assert forall j :: 0 <= j < |line| ==> s[j] == line[j] != '\n';
    assert i == |line|;
    assert s[..i] == line && s[i + 1..] == rest;
  }

  lemma JoinCons(line: string, lines: seq<string>)
    ensures Join([line] + lines) == line + "\n" + Join(lines)
  {
    assert ([line] + lines)[1..] == lines;
  }

  lemma Regroup<T>(a: seq<T>, b: seq<T>, c: seq<T>)
    ensures (a + b) + c == a + (b + c)
  {
  }

  lemma JoinThen(lines: seq<string>, rest: string)
    requires lines != []
    ensures Join(lines) + rest == lines[0] + "\n" + (Join(lines[1..]) + rest)
  {
    Regroup(lines[0] + "\n", Join(lines[1..]), rest);
  }

  /** Lines before a text become its first lines. */
  lemma {:induction false} WholeJoin(lines: seq<string>, rest: string)
    requires forall l :: l in lines ==> NoNewline(l)
    ensures Whole(Join(lines) + rest) == lines + Whole(rest)
    ensures Tail(Join(lines) + rest) == Tail(rest)
  {
    if lines == [] {
      assert Join(lines) + rest == rest;
    } else {
      var more := Join(lines[1..]) + rest;
      WholeJoin(lines[1..], rest);
      JoinThen(lines, rest);
      WholeCons(lines[0], more);
      Regroup([lines[0]], lines[1..], Whole(rest));
      assert [lines[0]] + lines[1..] == lines;
    }
  }

  /** Splitting undoes joining, whatever unterminated tail follows. */
  lemma SplitJoin(lines: seq<string>, tail: string)
    requires forall l :: l in lines ==> NoNewline(l)
    requires NoNewline(tail)
    ensures Whole(Join(lines) + tail) == lines
    ensures Tail(Join(lines) + tail) == tail
  {
    WholeJoin(lines, tail);
    assert NextNewline(tail, 0) == |tail|;
  }

  lemma {:induction false} WholeNewlineFree(s: string)
    ensures NoNewline(Tail(s)) && forall l :: l in Whole(s) ==> NoNewline(l)
    decreases |s|
  {
    var i := NextNewline(s, 0);
    if i < |s| {
      WholeNewlineFree(s[i + 1..]);
    }
  }

  /** Every text is its whole lines followed by its tail. */
  lemma {:induction false} JoinSplit(s: string)
    ensures Join(Whole(s)) + Tail(s) == s
    decreases |s|
  {
    var i := NextNewline(s, 0);
    if i == |s| {
      assert Join([]) + s == s;
    } else {
      JoinSplit(s[i + 1..]);
      JoinCons(s[..i], Whole(s[i + 1..]));
      Glue(s, i, Join(Whole(s[i + 1..])), Tail(s[i + 1..]));
    }
  }

  lemma Glue(s: string, i: nat, a: string, b: string)
    requires i < |s| && s[i] == '\n' && a + b == s[i + 1..]
    ensures s[..i] + "\n" + a + b == s
  {
    assert s == s[..i] + "\n" + (a + b);
  }

  lemma {:induction false} JoinConcat(a: seq<string>, b: seq<string>)
    ensures Join(a + b) == Join(a) + Join(b)
  {
    if a == [] {
      assert a + b == b;
    } else {
      JoinConcat(a[1..], b);
      assert (a + b)[1..] == a[1..] + b;
    }
  }

  lemma JoinSnoc(a: seq<string>, line: string)
    ensures Join(a + [line]) == Join(a) + line + "\n"
  {
    JoinConcat(a, [line]);
    assert Join([line]) == line + "\n" + Join([line][1..]);
  }

  lemma WholePast(lines: seq<string>, tail: string, more: string)
    requires forall l :: l in lines ==> NoNewline(l)
    ensures lines <= Whole(Join(lines) + tail + more)
  {
    Regroup(Join(lines), tail, more);
    WholeJoin(lines, tail + more);
  }

  /** Text appended to a file leaves the lines it had. */
  lemma WholeStays(s: string, more: string)
    ensures Whole(s) <= Whole(s + more)
  {
    WholeNewlineFree(s);
    JoinSplit(s);
    WholePast(Whole(s), Tail(s), more);
  }

  /**
   A text of lines cut at any byte is some of its first lines and a
   newline-free beginning of the next one; it keeps every line that ends
   before the cut.
   */
  lemma {:induction false} CutJoin(lines: seq<string>, k: nat) returns (j: nat, tail: string)
    requires forall l :: l in lines ==> NoNewline(l)
    requires k <= |Join(lines)|
    ensures j <= |lines| && NoNewline(tail)
    ensures Join(lines)[..k] == Join(lines[..j]) + tail
    ensures tail == "" || (j < |lines| && tail <= lines[j])
    ensures forall d :: 0 <= d <= |lines| && |Join(lines[..d])| <= k ==> d <= j
    ensures |Join(lines[..j])| <= k
  {
    if lines == [] {
      return 0, "";
    }
    var n := |lines[0]| + 1;
    if k < n {
      j, tail := 0, lines[0][..k];
      assert NoNewline(lines[0]);
      forall d | 0 < d <= |lines|
        ensures |Join(lines[..d])| >= n
      {
        assert lines[..d][0] == lines[0];
      }
    } else {
      var j', t := CutJoin(lines[1..], k - n);
      j, tail := j' + 1, t;
      assert lines[..j][0] == lines[0] && lines[..j][1..] == lines[1..][..j'];
      assert Join(lines)[..k] == lines[0] + "\n" + Join(lines[1..])[..k - n];
      forall d | 0 <= d <= |lines| && |Join(lines[..d])| <= k
        ensures d <= j
      {
        if d > 0 {
          assert lines[..d][0] == lines[0] && lines[..d][1..] == lines[1..][..d - 1];
        }
      }
    }
  }

  // ---- reading line by line ----

  /** The line at `pos` ends at the newline at `i`. */
  predicate LineAt(s: string, pos: nat, i: nat) {
    pos <= i < |s| && s[i] == '\n' && NoNewline(s[pos..i])
  }

  /** Where the line at `pos` ends, if it ends. */
  method FindLine(s: string, pos: nat) returns (more: bool, end: nat)
    requires pos <= |s|
    ensures more ==> LineAt(s, pos, end)
    ensures !more ==> NoNewline(s[pos..])
  {
    end := NextNewline(s, pos);
    more := end < |s|;
  }

  lemma LineWhole(s: string, pos: nat, i: nat)
    requires LineAt(s, pos, i)
    ensures Whole(s[pos..]) == [s[pos..i]] + Whole(s[i + 1..])
    ensures Tail(s[pos..]) == Tail(s[i + 1..])
  {
    WholeCons(s[pos..i], s[i + 1..]);
    assert s[pos..] == s[pos..i] + "\n" + s[i + 1..];
  }

  /** A reader that has read `n` of the lines of `s`, up to `pos`. */
  ghost predicate LinesRead(s: string, lines: seq<string>, tail: string, n: nat, pos: nat) {
    && pos <= |s| && n <= |lines|
    && Whole(s[pos..]) == lines[n..] && Tail(s[pos..]) == tail
    && s[..pos] == Join(lines[..n])
  }

  lemma LinesReadStart(s: string)
    ensures LinesRead(s, Whole(s), Tail(s), 0, 0)
  {
    assert s[0..] == s;
  }

  lemma LinesReadNext(s: string, lines: seq<string>, tail: string, n: nat, pos: nat, end: nat)
    requires LinesRead(s, lines, tail, n, pos) && LineAt(s, pos, end)
    ensures n < |lines| && lines[n] == s[pos..end] && lines[..n + 1][..n] == lines[..n]
    ensures LinesRead(s, lines, tail, n + 1, end + 1)
  {
    LineWhole(s, pos, end);
    NextOf(lines, n, s[pos..end], Whole(s[end + 1..]));
    JoinNext(s, lines[..n], pos, end);
  }

  lemma NextOf(lines: seq<string>, n: nat, line: string, rest: seq<string>)
    requires n <= |lines| && lines[n..] == [line] + rest
    ensures n < |lines| && lines[n] == line && lines[n + 1..] == rest
    ensures lines[..n + 1] == lines[..n] + [line]
  {
    assert lines[n..][0] == line && lines[n..][1..] == rest;
  }

  lemma JoinNext(s: string, before: seq<string>, pos: nat, end: nat)
    requires LineAt(s, pos, end) && s[..pos] == Join(before)
    ensures s[..end + 1] == Join(before + [s[pos..end]])
  {
    JoinSnoc(before, s[pos..end]);
    assert s[..end + 1] == s[..pos] + s[pos..end] + "\n";
  }

  lemma LinesReadAll(s: string, lines: seq<string>, tail: string, n: nat, pos: nat)
    requires LinesRead(s, lines, tail, n, pos) && NoNewline(s[pos..])
    ensures n == |lines| && lines[..n] == lines && tail == s[pos..]
  {
    assert NextNewline(s[pos..], 0) == |s| - pos;
    assert lines[n..] == [];
  }

  // ---- surrounding space ----

  /** The spaces that are one byte long. */
  predicate IsSpace(ch: char) {
    ch in "\t\n\r \U{0B}\U{0C}"
  }

  function TrimLeft(s: string): string {
    if s != "" && IsSpace(s[0]) then TrimLeft(s[1..]) else s
  }

  function TrimRight(s: string): string {
    if s != "" && IsSpace(s[|s| - 1]) then TrimRight(s[..|s| - 1]) else s
  }

  function Trim(s: string): string {
    TrimRight(TrimLeft(s))
  }

  lemma {:induction false} TrimsLeft(a: string, s: string)
    requires forall k :: 0 <= k < |a| ==> IsSpace(a[k])
    ensures TrimLeft(a + s) == TrimLeft(s)
  {
    if a == "" {
      assert a + s == s;
    } else {
      assert (a + s)[1..] == a[1..] + s;
      TrimsLeft(a[1..], s);
    }
  }

  lemma {:induction false} TrimsRight(s: string, b: string)
    requires forall k :: 0 <= k < |b| ==> IsSpace(b[k])
    ensures TrimRight(s + b) == TrimRight(s)
    decreases |b|
  {
    if b == "" {
      assert s + b == s;
    } else {
      assert (s + b)[..|s + b| - 1] == s + b[..|b| - 1];
      TrimsRight(s, b[..|b| - 1]);
    }
  }

  /** Tabs, newlines, returns, spaces, and vertical and form feeds around a text are cut off, and nothing else. */
  lemma TrimsExactly(a: string, s: string, b: string)
    requires forall k :: 0 <= k < |a| ==> a[k] in "\t\n\U{0B}\U{0C}\r "
    requires forall k :: 0 <= k < |b| ==> b[k] in "\t\n\U{0B}\U{0C}\r "
    requires s != "" ==> s[0] !in "\t\n\U{0B}\U{0C}\r " && s[|s| - 1] !in "\t\n\U{0B}\U{0C}\r "
    ensures Trim(a + s + b) == s
  {
    assert a + s + b == a + (s + b);
    TrimsLeft(a, s + b);
    if s == "" {
      TrimsLeft(b, "");
      assert b + "" == b && s + b == b;
    } else {
      assert (s + b)[0] == s[0];
      TrimsRight(s, b);
    }
  }
}
