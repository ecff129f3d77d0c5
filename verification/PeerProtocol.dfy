/**
 The peers protocol: how a queued op becomes an op on the wire, how a batch is
 applied, and that batches and their results survive the trip.
 */
module PeerProtocol {
  import opened Lines
  import opened Options
  import opened PeerLog
  import opened Wire

  const MAX_BATCH_OPS := 256
  const MAX_VALUE := 64 * 0x10_0000

  datatype PeerOp =
    | OpSet(key: string, raw: string)
    | OpDel(key: string)
    | OpClone(key: string, to: string)
    | OpVacuum

  // ---- queued ops ----

  function QueuedSet(key: string, raw: string): SyncOp {
    SyncOp("PUT", "/db/" + key, raw, "application/json")
  }

  function QueuedDelete(key: string): SyncOp {
    SyncOp("DELETE", "/db/" + key, "", "")
  }

  function QueuedClone(from: string, to: string): SyncOp {
    SyncOp("POST", "/clone/" + from + "/" + to, "", "")
  }

  function QueuedVacuum(): SyncOp {
    SyncOp("POST", "/vacuum", "", "")
  }

  /** strings.Cut at the first slash. */
  function CutSlash(s: string): Option<(string, string)> {
    if s == "" then None
    else if s[0] == '/' then Some(("", s[1..]))
    else
      match CutSlash(s[1..])
      case Some((a, b)) => Some(([s[0]] + a, b))
      case None => None
  }

  function ToOp(s: SyncOp): Option<PeerOp> {
    if s.verb == "PUT" && "/db/" <= s.path then Some(OpSet(s.path[4..], s.body))
    else if s.verb == "DELETE" && "/db/" <= s.path then Some(OpDel(s.path[4..]))
    else if s.verb == "POST" && "/clone/" <= s.path then
      match CutSlash(s.path[7..])
      case Some((from, to)) => if '/' in to then None else Some(OpClone(from, to))
      case None => None
    else if s.verb == "POST" && s.path == "/vacuum" then Some(OpVacuum)
    else None
  }

  lemma {:induction false} CutFirst(a: string, b: string)
    ensures var r := CutSlash(a + "/" + b);
            && r.Some? && r.value.0 + "/" + r.value.1 == a + "/" + b && '/' !in r.value.0
            && ('/' !in a ==> r == Some((a, b)))
            && ('/' in a ==> '/' in r.value.1)
  {
    var s := a + "/" + b;
    if a == "" {
      assert s[1..] == b;
    } else {
      assert s[1..] == a[1..] + "/" + b;
      CutFirst(a[1..], b);
      assert a == [a[0]] + a[1..];
    }
  }

  /** A queued op is read back as it was meant; a clone with a slash in a key is refused, never misread. */
  lemma QueuedOpsReadBack(key: string, raw: string, from: string, to: string)
    ensures ToOp(QueuedSet(key, raw)) == Some(OpSet(key, raw))
    ensures ToOp(QueuedDelete(key)) == Some(OpDel(key))
    ensures ToOp(QueuedClone(from, to)) == if '/' in from || '/' in to then None else Some(OpClone(from, to))
    ensures ToOp(QueuedVacuum()) == Some(OpVacuum)
  {
    assert ("/db/" + key)[4..] == key;
    var path := "/clone/" + from + "/" + to;
    assert path == "/clone/" + (from + "/" + to);
    assert path[7..] == from + "/" + to;
    CutFirst(from, to);
    assert QueuedVacuum().path[1] == 'v';
  }

  // ---- ops on the wire ----

  predicate OpFits(o: PeerOp) {
    match o
    case OpSet(key, raw) => |key| <= MAX_VALUE && |raw| <= MAX_VALUE
    case OpDel(key) => |key| <= MAX_VALUE
    case OpClone(key, to) => |key| <= MAX_VALUE && |to| <= MAX_VALUE
    case OpVacuum => true
  }

  function EncodeOp(o: PeerOp): string {
    match o
    case OpSet(key, raw) => "s" + Frame(key) + Frame(raw)
    case OpDel(key) => "d" + Frame(key)
    case OpClone(key, to) => "c" + Frame(key) + Frame(to)
    case OpVacuum => "v"
  }

  function TwoFrames(s: string): Option<(string, string, string)> {
    match Unframe(s, MAX_VALUE)
    case None => None
    case Some((a, rest)) =>
      match Unframe(rest, MAX_VALUE)
      case None => None
      case Some((b, after)) => Some((a, b, after))
  }

  function DecodeOp(s: string): Option<(PeerOp, string)> {
    if s == "" then None
    else
      match s[0]
      case 's' => (match TwoFrames(s[1..]) case Some((a, b, t)) => Some((OpSet(a, b), t)) case None => None)
      case 'd' => (match Unframe(s[1..], MAX_VALUE) case Some((a, t)) => Some((OpDel(a), t)) case None => None)
      case 'c' => (match TwoFrames(s[1..]) case Some((a, b, t)) => Some((OpClone(a, b), t)) case None => None)
      case 'v' => Some((OpVacuum, s[1..]))
      case _ => None
  }

  lemma TwoFramesReadBack(a: string, b: string, rest: string)
    requires |a| <= MAX_VALUE && |b| <= MAX_VALUE
    ensures TwoFrames(Frame(a) + Frame(b) + rest) == Some((a, b, rest))
  {
    assert Frame(a) + Frame(b) + rest == Frame(a) + (Frame(b) + rest);
    UnframeFrame(a, Frame(b) + rest, MAX_VALUE);
    UnframeFrame(b, rest, MAX_VALUE);
  }

  lemma OneFrameReadsBack(tag: string, a: string, rest: string)
    requires |tag| == 1 && |a| <= MAX_VALUE
    ensures Unframe((tag + Frame(a) + rest)[1..], MAX_VALUE) == Some((a, rest))
  {
    assert (tag + Frame(a) + rest)[1..] == Frame(a) + rest;
    UnframeFrame(a, rest, MAX_VALUE);
  }

  lemma TaggedFramesReadBack(tag: string, a: string, b: string, rest: string)
    requires |tag| == 1 && |a| <= MAX_VALUE && |b| <= MAX_VALUE
    ensures TwoFrames((tag + Frame(a) + Frame(b) + rest)[1..]) == Some((a, b, rest))
  {
    assert (tag + Frame(a) + Frame(b) + rest)[1..] == Frame(a) + Frame(b) + rest;
    TwoFramesReadBack(a, b, rest);
  }

  lemma OpReadsBack(o: PeerOp, rest: string)
    requires OpFits(o)
    ensures DecodeOp(EncodeOp(o) + rest) == Some((o, rest))
  {
    match o
    case OpSet(key, raw) => TaggedFramesReadBack("s", key, raw, rest);
    case OpDel(key) => OneFrameReadsBack("d", key, rest);
    case OpClone(key, to) => TaggedFramesReadBack("c", key, to, rest);
    case OpVacuum => assert ("v" + rest)[1..] == rest;
  }

  // ---- a batch ----

  function EncodeOps(ops: seq<PeerOp>): string {
    if ops == [] then "" else EncodeOp(ops[0]) + EncodeOps(ops[1..])
  }

  /** A batch request after its first byte. */
  function EncodeBatch(ops: seq<PeerOp>): string {
    PutUvarint(|ops|) + EncodeOps(ops)
  }

  function DecodeOps(s: string, n: nat): Option<(seq<PeerOp>, string)>
    decreases n
  {
    if n == 0 then Some(([], s))
    else
      match DecodeOp(s)
      case None => None
      case Some((o, rest)) =>
        match DecodeOps(rest, n - 1)
        case None => None
        case Some((ops, after)) => Some(([o] + ops, after))
  }

  function DecodeBatch(s: string): Option<(seq<PeerOp>, string)> {
    match Count(s, MAX_BATCH_OPS)
    case None => None
    case Some((n, rest)) => DecodeOps(rest, n)
  }

  lemma DecodeOpsCons(s: string, o: PeerOp, rest: string, ops: seq<PeerOp>, after: string)
    requires DecodeOp(s) == Some((o, rest)) && DecodeOps(rest, |ops|) == Some((ops, after))
    ensures DecodeOps(s, |ops| + 1) == Some(([o] + ops, after))
  {
  }

  lemma {:induction false} OpsReadBack(ops: seq<PeerOp>, rest: string)
    requires forall i :: 0 <= i < |ops| ==> OpFits(ops[i])
    ensures DecodeOps(EncodeOps(ops) + rest, |ops|) == Some((ops, rest))
  {
    if ops == [] {
      assert EncodeOps(ops) + rest == rest;
    } else {
      var o, more := ops[0], ops[1..];
      var text, tail := EncodeOp(o), EncodeOps(more) + rest;
      OpReadsBack(o, tail);
      OpsReadBack(more, rest);
      DecodeOpsCons(text + tail, o, tail, more, rest);
      Regroup(text, EncodeOps(more), rest);
      assert [o] + more == ops;
    }
  }

  /** A batch within the limits is read back whole, and not a byte more. */
  lemma BatchReadsBack(ops: seq<PeerOp>, rest: string)
    requires |ops| <= MAX_BATCH_OPS && forall i :: 0 <= i < |ops| ==> OpFits(ops[i])
    ensures DecodeBatch(EncodeBatch(ops) + rest) == Some((ops, rest))
  {
    Regroup(PutUvarint(|ops|), EncodeOps(ops), rest);
    CountPut(|ops|, EncodeOps(ops) + rest, MAX_BATCH_OPS);
    OpsReadBack(ops, rest);
  }

  // ---- a batch result ----

  /** The peer took the first `done` ops, of which it rejected some for good. */
  datatype BatchResult = BatchResult(done: nat, rejected: map<nat, string>, stopped: string)

  predicate ResultFits(r: BatchResult, sent: nat) {
    && r.done <= sent <= MAX_BATCH_OPS
    && |r.stopped| <= MAX_VALUE
    && forall i :: i in r.rejected ==> i < r.done && |r.rejected[i]| <= MAX_VALUE
  }

  /** `order` is an order in which a map may be iterated. */
  predicate Iterates(order: seq<nat>, m: map<nat, string>) {
    && (forall i, j :: 0 <= i < j < |order| ==> order[i] != order[j])
    && (forall i :: 0 <= i < |order| ==> order[i] in m)
    && (forall k :: k in m ==> k in order)
  }

  function EncodeRejects(m: map<nat, string>, order: seq<nat>): string
    requires forall k :: k in order ==> k in m
  {
    if order == [] then "" else PutUvarint(order[0]) + Frame(m[order[0]]) + EncodeRejects(m, order[1..])
  }

  function EncodeResult(r: BatchResult, order: seq<nat>): string
    requires forall k :: k in order ==> k in r.rejected
  {
    PutUvarint(r.done) + PutUvarint(|order|) + EncodeRejects(r.rejected, order) + Frame(r.stopped)
  }

  function DecodeRejects(s: string, n: nat, max: nat, m: map<nat, string>): Option<(map<nat, string>, string)>
    decreases n
  {
    if n == 0 then Some((m, s))
    else
      match Count(s, max)
      case None => None
      case Some((i, rest)) =>
        match Unframe(rest, MAX_VALUE)
        case None => None
        case Some((msg, after)) => DecodeRejects(after, n - 1, max, m[i := msg])
  }

  function DecodeResult(s: string, sent: nat): Option<(BatchResult, string)> {
    match Count(s, sent)
    case None => None
    case Some((done, s1)) =>
      match Count(s1, done)
      case None => None
      case Some((n, s2)) =>
        match DecodeRejects(s2, n, if done > 0 then done - 1 else 0, map[])
        case None => None
        case Some((m, s3)) =>
          match Unframe(s3, MAX_VALUE)
          case None => None
          case Some((stopped, rest)) => Some((BatchResult(done, m, stopped), rest))
  }

  function Picked(m: map<nat, string>, order: seq<nat>): map<nat, string>
    requires forall k :: k in order ==> k in m
  {
    map k | k in order :: m[k]
  }

  lemma {:induction false} RejectsReadBack(m: map<nat, string>, order: seq<nat>, rest: string, max: nat,
      acc: map<nat, string>)
    requires forall k :: k in order ==> k in m && k <= max && |m[k]| <= MAX_VALUE
    requires max <= MAX_BATCH_OPS
    ensures DecodeRejects(EncodeRejects(m, order) + rest, |order|, max, acc) ==
            Some((acc + Picked(m, order), rest))
  {
    if order == [] {
      assert EncodeRejects(m, order) + rest == rest;
      assert acc + Picked(m, order) == acc;
    } else {
      var k := order[0];
      var tail := EncodeRejects(m, order[1..]) + rest;
      assert EncodeRejects(m, order) + rest == PutUvarint(k) + (Frame(m[k]) + tail);
      UvarintPut(k, Frame(m[k]) + tail);
      UnframeFrame(m[k], tail, MAX_VALUE);
      RejectsReadBack(m, order[1..], rest, max, acc[k := m[k]]);
      RejectsPart(m, order, acc);
    }
  }

  lemma RejectsPart(m: map<nat, string>, order: seq<nat>, acc: map<nat, string>)
    requires order != [] && forall k :: k in order ==> k in m
    ensures acc[order[0] := m[order[0]]] + Picked(m, order[1..]) == acc + Picked(m, order)
  {
    assert forall j :: j in order <==> j == order[0] || j in order[1..];
  }

  lemma {:induction false} OrderLength(order: seq<nat>, bound: nat)
    requires forall i, j :: 0 <= i < j < |order| ==> order[i] != order[j]
    requires forall i :: 0 <= i < |order| ==> order[i] < bound
    ensures |order| <= bound
  {
    if order != [] {
      assert order[0] < bound;
      if bound - 1 in order {
        var i :| 0 <= i < |order| && order[i] == bound - 1;
        var others := order[..i] + order[i + 1..];
        assert forall j :: 0 <= j < |others| ==> others[j] == order[if j < i then j else j + 1];
        OrderLength(others, bound - 1);
      } else {
        OrderLength(order, bound - 1);
      }
    }
  }

  lemma AllRejects(r: BatchResult, order: seq<nat>, sent: nat, max: nat, rest: string)
    requires ResultFits(r, sent) && Iterates(order, r.rejected)
    requires max == if r.done > 0 then r.done - 1 else 0
    ensures |order| <= r.done
    ensures DecodeRejects(EncodeRejects(r.rejected, order) + rest, |order|, max, map[]) == Some((r.rejected, rest))
  {
    OrderLength(order, r.done);
    WholeMap(r.rejected, order);
    RejectsReadBack(r.rejected, order, rest, max, map[]);
  }

  lemma WholeMap(m: map<nat, string>, order: seq<nat>)
    requires Iterates(order, m)
    ensures forall k :: k in order ==> k in m
    ensures map[] + Picked(m, order) == m
  {
    var copy := Picked(m, order);
    assert copy.Keys == m.Keys;
    assert forall k :: k in copy ==> copy[k] == m[k];
  }

  /** A result is read back whole whatever order the peer's map was iterated in. */
  lemma ResultReadsBack(r: BatchResult, order: seq<nat>, sent: nat, rest: string)
    requires ResultFits(r, sent) && Iterates(order, r.rejected)
    ensures DecodeResult(EncodeResult(r, order) + rest, sent) == Some((r, rest))
  {
    var max := if r.done > 0 then r.done - 1 else 0;
    var rejects, stopped := EncodeRejects(r.rejected, order), Frame(r.stopped);
    var t3 := stopped + rest;
    var t2 := rejects + t3;
    var t1 := PutUvarint(|order|) + t2;
    RegroupFour(PutUvarint(r.done), PutUvarint(|order|), rejects, stopped, rest);
    AllRejects(r, order, sent, max, t3);
    CountPut(r.done, t1, sent);
    CountPut(|order|, t2, r.done);
    UnframeFrame(r.stopped, rest, MAX_VALUE);
    DecodeResultParts(PutUvarint(r.done) + t1, sent, r, t1, |order|, t2, t3, rest);
  }

  lemma RegroupFour(a: string, b: string, c: string, d: string, e: string)
    ensures a + b + c + d + e == a + (b + (c + (d + e)))
  {
  }

  lemma DecodeResultParts(s: string, sent: nat, r: BatchResult, s1: string, n: nat, s2: string, s3: string,
      rest: string)
    requires Count(s, sent) == Some((r.done, s1)) && Count(s1, r.done) == Some((n, s2))
    requires DecodeRejects(s2, n, if r.done > 0 then r.done - 1 else 0, map[]) == Some((r.rejected, s3))
    requires Unframe(s3, MAX_VALUE) == Some((r.stopped, rest))
    ensures DecodeResult(s, sent) == Some((r, rest))
  {
  }

  // ---- the methods that read and apply a batch ----

  method WriteOp(w: Writer, o: PeerOp)
    modifies w
    ensures w.out == old(w.out) + EncodeOp(o)
  {
    match o
    case OpSet(key, raw) => WriteTwo(w, 's', key, raw);
    case OpDel(key) =>
      w.WriteByte('d');
      w.WriteFrame(key);
    case OpClone(key, to) => WriteTwo(w, 'c', key, to);
    case OpVacuum => w.WriteByte('v');
  }

  method WriteTwo(w: Writer, kind: char, a: string, b: string)
    modifies w
    ensures w.out == old(w.out) + ([kind] + Frame(a) + Frame(b))
  {
    w.WriteByte(kind);
    w.WriteFrame(a);
    w.WriteFrame(b);
    Regroup(old(w.out), [kind], Frame(a));
    Regroup(old(w.out), [kind] + Frame(a), Frame(b));
  }

  method ReadOp(r: Reader) returns (o: Option<PeerOp>)
    modifies r
    ensures match DecodeOp(old(r.rest))
            case Some((x, after)) => o == Some(x) && r.rest == after
            case None => o == None
  {
    var kind := r.ReadByte();
    if kind.None? || kind.value !in "sdcv" {
      return None;
    }
    if kind == Some('v') {
      return Some(OpVacuum);
    }
    var key := r.ReadFrame(MAX_VALUE);
    if key.None? {
      return None;
    }
    if kind == Some('d') {
      return Some(OpDel(key.value));
    }
    var second := r.ReadFrame(MAX_VALUE);
    if second.None? {
      return None;
    }
    return Some(if kind == Some('s') then OpSet(key.value, second.value) else OpClone(key.value, second.value));
  }

  /** serveBatch up to the apply: the ops of a request, or an error that closes the connection. */
  method ReadBatch(r: Reader) returns (ops: Option<seq<PeerOp>>)
    modifies r
    ensures match DecodeBatch(old(r.rest))
            case Some((x, after)) => ops == Some(x) && r.rest == after
            case None => ops == None
  {
    var n := r.ReadCount(MAX_BATCH_OPS);
    if n.None? {
      return None;
    }
    var out: seq<PeerOp> := [];
    ghost var start := r.rest;
    assert forall more: seq<PeerOp> {:trigger out + more} :: out + more == more;
    for i := 0 to n.value
      invariant DecodeOps(start, n.value) ==
                match DecodeOps(r.rest, n.value - i)
                case Some((more, after)) => Some((out + more, after))
                case None => None
    {
      var o := ReadOp(r);
      if o.None? {
        return None;
      }
      PrefixGrows(out, o.value);
      out := out + [o.value];
    }
    assert out + [] == out;
    return Some(out);
  }

  lemma PrefixGrows(out: seq<PeerOp>, o: PeerOp)
    ensures forall more: seq<PeerOp> {:trigger out + [o] + more} :: out + [o] + more == out + ([o] + more)
  {
  }

  datatype Outcome = Applied | Rejected(msg: string) | Refused(msg: string)

  /** How many ops a batch takes once it is past its first `i`. */
  function DoneFrom(outcomes: seq<Outcome>, late: seq<bool>, i: nat): (n: nat)
    requires i <= |outcomes| == |late|
    ensures i <= n <= |outcomes|
    decreases |outcomes| - i
  {
    if i == |outcomes| || (i > 0 && late[i]) || outcomes[i].Refused? then i else DoneFrom(outcomes, late, i + 1)
  }

  /** A batch takes its first op unless the peer refuses it, however late it is. */
  lemma TakesFirstExactly(outcomes: seq<Outcome>, late: seq<bool>)
    requires 0 < |outcomes| == |late|
    ensures DoneFrom(outcomes, late, 0) == 0 <==> outcomes[0].Refused?
  {
  }

  /**
   applyBatch, where `outcomes` are what applying each op gives and `late`
   says before which ops the time budget was over. It stops before an op only
   when the peer refuses it, or, after the first, when the budget is over.
   */
  method ApplyBatch(ops: seq<PeerOp>, outcomes: seq<Outcome>, late: seq<bool>) returns (res: BatchResult)
    requires |ops| == |outcomes| == |late|
    ensures res.done <= |ops| && res.done == DoneFrom(outcomes, late, 0)
    ensures forall i :: 0 <= i < res.done ==> !outcomes[i].Refused?
    ensures forall i :: i in res.rejected <==> 0 <= i < res.done && outcomes[i].Rejected?
    ensures forall i :: i in res.rejected ==> res.rejected[i] == outcomes[i].msg
    ensures res.done < |ops| ==>
              (if res.done > 0 && late[res.done] then res.stopped == ""
               else outcomes[res.done] == Outcome.Refused(res.stopped))
    ensures res.done == |ops| ==> res.stopped == ""
    ensures forall i :: 0 < i < res.done ==> !late[i]
  {
    res := BatchResult(0, map[], "");
    for i := 0 to |ops|
      invariant res.done == i && res.stopped == ""
      invariant DoneFrom(outcomes, late, i) == DoneFrom(outcomes, late, 0)
      invariant forall j :: 0 <= j < i ==> !outcomes[j].Refused?
      invariant forall j :: j in res.rejected <==> 0 <= j < i && outcomes[j].Rejected?
      invariant forall j :: j in res.rejected ==> res.rejected[j] == outcomes[j].msg
      invariant forall j :: 0 < j < i ==> !late[j]
    {
      if i > 0 && late[i] {
        return;
      }
      if outcomes[i].Refused? {
        res := res.(stopped := outcomes[i].msg);
        return;
      }
      if outcomes[i].Rejected? {
        res := res.(rejected := res.rejected[i := outcomes[i].msg]);
      }
      res := res.(done := i + 1);
    }
  }

  method ReadRejects(r: Reader, n: nat, max: nat) returns (m: Option<map<nat, string>>)
    modifies r
    ensures match DecodeRejects(old(r.rest), n, max, map[])
            case Some((x, after)) => m == Some(x) && r.rest == after
            case None => m == None
  {
    var rejected: map<nat, string> := map[];
    for k := 0 to n
      invariant DecodeRejects(old(r.rest), n, max, map[]) == DecodeRejects(r.rest, n - k, max, rejected)
    {
      var i := r.ReadCount(max);
      if i.None? {
        return None;
      }
      var msg := r.ReadFrame(MAX_VALUE);
      if msg.None? {
        return None;
      }
      rejected := rejected[i.value := msg.value];
    }
    return Some(rejected);
  }

  /** sendBatch after its request: the result of a batch of `sent` ops. */
  method ReadResult(r: Reader, sent: nat) returns (res: Option<BatchResult>)
    modifies r
    ensures match DecodeResult(old(r.rest), sent)
            case Some((x, after)) => res == Some(x) && r.rest == after
            case None => res == None
  {
    var done := r.ReadCount(sent);
    if done.None? {
      return None;
    }
    var n := r.ReadCount(done.value);
    if n.None? {
      return None;
    }
    var rejected := ReadRejects(r, n.value, if done.value > 0 then done.value - 1 else 0);
    if rejected.None? {
      return None;
    }
    var stopped := r.ReadFrame(MAX_VALUE);
    if stopped.None? {
      return None;
    }
    return Some(BatchResult(done.value, rejected.value, stopped.value));
  }
}
