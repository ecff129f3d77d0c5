/**
 Why sending a batch again is harmless: the document after writes that were
 applied in order, with stretches applied again, is up to key order the
 document after each write was applied once.
 */
module Resend {
  import opened Options
  import opened JsonStrings
  import opened OrderedObject
  import opened JsonTree

  /** A write along a path of segments. */
  datatype Write = SetW(path: seq<string>, val: Node) | DelW(path: seq<string>)

  /** A failed set leaves the document as it was. */
  function Apply(d: Node, w: Write): Node
    requires w.path != []
  {
    match w
    case SetW(p, v) => (match Set(d, p, v) case Ok(n) => n case Err(_) => d)
    case DelW(p) => Del(d, p)
  }

  // ---- the document up to key order ----

  /** What stands at a path of object keys. An array counts as one value. */
  datatype Kind = Absent | Scalar(node: Node) | Array(elems: seq<Node>) | Object

  function KindOf(n: Node): Kind {
    match n
    case Obj(_) => Object
    case Arr(a) => Array(a)
    case _ => Scalar(n)
  }

  function View(n: Node, q: seq<string>): Kind {
    if q == [] then KindOf(n)
    else if n.Obj? && Has(n.fields, q[0]) then View(At(n.fields, q[0]), q[1..])
    else Absent
  }

  ghost predicate SameView(n: Node, m: Node) {
    forall q {:trigger View(n, q)} {:trigger View(m, q)} :: View(n, q) == View(m, q)
  }

  /** Equal but for the order of keys (and their texts) in objects outside arrays. */
  predicate EqualUpToOrder(n: Node, m: Node) {
    match (n, m)
    case (Obj(es), Obj(fs)) =>
      && (forall i :: 0 <= i < |es| ==> Has(fs, es[i].key) && EqualUpToOrder(es[i].val, At(fs, es[i].key)))
      && (forall j :: 0 <= j < |fs| ==> Has(es, fs[j].key))
    case _ => !n.Obj? && n == m
  }

  lemma ViewField(es: seq<Entry<Node>>, k: string, q: seq<string>)
    ensures View(Obj(es), [k] + q) == if Has(es, k) then View(At(es, k), q) else Absent
  {
    assert ([k] + q)[1..] == q;
  }

  /** Reading the same at every path is being equal up to key order. */
  lemma {:induction false} SameViewExactly(n: Node, m: Node)
    requires DistinctKeys(n) && DistinctKeys(m)
    ensures SameView(n, m) <==> EqualUpToOrder(n, m)
    decreases n
  {
    if SameView(n, m) {
      SameViewOrder(n, m);
    }
    if EqualUpToOrder(n, m) {
      forall q {
        OrderSameView(n, m, q);
      }
    }
  }

  lemma ViewHas(es: seq<Entry<Node>>, k: string)
    ensures View(Obj(es), [k]) != Absent <==> Has(es, k)
  {
    ViewField(es, k, []);
    assert [k] + [] == [k];
  }

  lemma {:induction false} SameViewOrder(n: Node, m: Node)
    requires DistinctKeys(n) && DistinctKeys(m) && SameView(n, m)
    ensures EqualUpToOrder(n, m)
    decreases n
  {
    assert View(n, []) == View(m, []);
    if n.Obj? {
      var es, fs := n.fields, m.fields;
      forall i | 0 <= i < |es|
        ensures Has(fs, es[i].key) && EqualUpToOrder(es[i].val, At(fs, es[i].key))
      {
        var k := es[i].key;
        IndexOfAt(es, i);
        ViewHas(es, k);
        ViewHas(fs, k);
        forall q
          ensures View(es[i].val, q) == View(At(fs, k), q)
        {
          ViewField(es, k, q);
          ViewField(fs, k, q);
        }
        SameViewOrder(es[i].val, At(fs, k));
      }
      forall j | 0 <= j < |fs|
        ensures Has(es, fs[j].key)
      {
        IndexOfAt(fs, j);
        ViewHas(es, fs[j].key);
        ViewHas(fs, fs[j].key);
      }
    }
  }

  lemma {:induction false} OrderSameView(n: Node, m: Node, q: seq<string>)
    requires DistinctKeys(n) && DistinctKeys(m) && EqualUpToOrder(n, m)
    ensures View(n, q) == View(m, q)
    decreases |q|
  {
    if n.Obj? && q != [] {
      var es, fs := n.fields, m.fields;
      var i, j := IndexOf(es, q[0]), IndexOf(fs, q[0]);
      assert j < |fs| ==> Has(es, fs[j].key);
      if i < |es| {
        OrderSameView(es[i].val, At(fs, q[0]), q[1..]);
      }
    }
  }

  // ---- what one write does at one path ----

  /** Walking `p` from `n` meets no array before its end. */
  predicate ThroughObjects(n: Node, p: seq<string>) {
    p == [] || (!n.Arr? && (n.Obj? && Has(n.fields, p[0]) ==> ThroughObjects(At(n.fields, p[0]), p[1..])))
  }

  /** Whatever the document was, a write either leaves a path alone or decides what stands there. */
  function Effect(w: Write, q: seq<string>): Option<Kind> {
    if w.path <= q then Some(match w case SetW(p, v) => View(v, q[|p|..]) case DelW(_) => Absent)
    else if w.SetW? && q < w.path then Some(Object)
    else None
  }

  function Or(k: Option<Kind>, old_: Kind): Kind {
    match k case Some(x) => x case None => old_
  }

  lemma {:induction false} SetEffect(n: Node, p: seq<string>, v: Node, q: seq<string>)
    requires p != [] && ThroughObjects(n, p)
    ensures Set(n, p, v).Ok?
    ensures View(Set(n, p, v).node, q) == Or(Effect(SetW(p, v), q), View(n, q))
    decreases |p|, if IsContainer(n) then 0 else 1
  {
    if n.Obj? {
      var es := n.fields;
      var d := Descend(Child(n, p[0]));
      if |p| > 1 {
        SetEffect(d, p[1..], v, if q == [] then [] else q[1..]);
      }
      var w := if |p| == 1 then v else Set(d, p[1..], v).node;
      assert Set(n, p, v) == Ok(Obj(PutEntry(es, p[0], Quote(p[0]), w)));
      if q != [] {
        PutReads(es, p[0], Quote(p[0]), w, q[0]);
        TailEffect(SetW(p, v), q);
      }
    } else {
      SetEffect(EMPTY_OBJ, p, v, q);
    }
  }

  lemma TailEffect(w: Write, q: seq<string>)
    requires w.path != [] && q != []
    ensures w.path[0] != q[0] ==> Effect(w, q) == None
    ensures w.path[0] == q[0] && |w.path| > 1 ==>
              Effect(w, q) == Effect(match w case SetW(p, v) => SetW(p[1..], v) case DelW(p) => DelW(p[1..]), q[1..])
  {
    var p := w.path;
    assert p <= q <==> p[0] == q[0] && p[1..] <= q[1..];
    assert q <= p <==> p[0] == q[0] && q[1..] <= p[1..];
    if p <= q && |p| > 1 {
      assert q[|p|..] == q[1..][|p| - 1..];
    }
  }

  lemma {:induction false} DelEffect(n: Node, p: seq<string>, q: seq<string>)
    requires p != [] && ThroughObjects(n, p) && DistinctKeys(n)
    ensures View(Del(n, p), q) == Or(Effect(DelW(p), q), View(n, q))
    decreases |p|
  {
    if q != [] {
      TailEffect(DelW(p), q);
    }
    if n.Obj? {
      var es := n.fields;
      if |p| == 1 {
        if q != [] {
          RemoveReads(es, p[0], q[0]);
        }
      } else if Has(es, p[0]) {
        var c := At(es, p[0]);
        DelEffect(c, p[1..], if q == [] then [] else q[1..]);
        if q != [] {
          PutReads(es, p[0], Quote(p[0]), Del(c, p[1..]), q[0]);
        }
      }
    }
  }

  // ---- documents whose writes stay on object keys ----

  /** No write's path goes on beyond a place of `arrays`, where arrays may stand. */
  ghost predicate KeysOnly(w: Write, arrays: iset<seq<string>>) {
    && w.path != []
    && (forall r :: r in arrays ==> !(r < w.path))
    && (w.SetW? ==> DistinctKeys(w.val) && forall q {:trigger View(w.val, q)} ::
          View(w.val, q).Array? ==> w.path + q in arrays)
  }

  ghost predicate ArraysAt(n: Node, arrays: iset<seq<string>>) {
    DistinctKeys(n) && forall q {:trigger View(n, q)} :: View(n, q).Array? ==> q in arrays
  }

  lemma {:induction false} ArraysThrough(n: Node, p: seq<string>, prefix: seq<string>, arrays: iset<seq<string>>)
    requires forall r :: r in arrays ==> !(r < prefix + p)
    requires forall q {:trigger View(n, q)} :: View(n, q).Array? ==> prefix + q in arrays
    ensures ThroughObjects(n, p)
    decreases |p|
  {
    if p != [] {
      assert View(n, []).Array? ==> prefix + [] in arrays;
      assert prefix + [] == prefix < prefix + p;
      if n.Obj? && Has(n.fields, p[0]) {
        var c := At(n.fields, p[0]);
        assert prefix + p == (prefix + [p[0]]) + p[1..];
        forall q | View(c, q).Array?
          ensures (prefix + [p[0]]) + q in arrays
        {
          ViewField(n.fields, p[0], q);
          assert View(n, [p[0]] + q).Array?;
          assert prefix + ([p[0]] + q) == (prefix + [p[0]]) + q;
        }
        ArraysThrough(c, p[1..], prefix + [p[0]], arrays);
      }
    }
  }

  /** One write: its effect at every path, and arrays stay where they may be. */
  lemma ApplyEffect(d: Node, w: Write, arrays: iset<seq<string>>)
    requires ArraysAt(d, arrays) && KeysOnly(w, arrays)
    ensures ArraysAt(Apply(d, w), arrays)
    ensures forall q {:trigger View(Apply(d, w), q)} :: View(Apply(d, w), q) == Or(Effect(w, q), View(d, q))
  {
    assert [] + w.path == w.path;
    forall q | View(d, q).Array?
      ensures [] + q in arrays
    {
      assert [] + q == q;
    }
    ArraysThrough(d, w.path, [], arrays);
    forall q
      ensures View(Apply(d, w), q) == Or(Effect(w, q), View(d, q))
      ensures View(Apply(d, w), q).Array? ==> q in arrays
    {
      match w
      case SetW(p, v) =>
        SetEffect(d, p, v, q);
        if p <= q {
          assert p + q[|p|..] == q;
        }
      case DelW(p) => DelEffect(d, p, q);
    }
    match w
    case SetW(p, v) => SetDistinct(d, p, v);
    case DelW(p) => DelDistinct(d, p);
  }

  // ---- writes of a history, some of them applied again ----

  ghost predicate HistoryOk(hist: seq<Option<Write>>, arrays: iset<seq<string>>) {
    forall i :: 0 <= i < |hist| && hist[i].Some? ==> KeysOnly(hist[i].value, arrays)
  }

  /** The document after the ops of `hist` numbered by `trace`, in that order; an op without a write changes nothing. */
  function Replay(d: Node, hist: seq<Option<Write>>, trace: seq<nat>): Node
    requires forall i :: 0 <= i < |trace| ==> trace[i] < |hist|
    requires forall i :: 0 <= i < |hist| && hist[i].Some? ==> hist[i].value.path != []
  {
    if trace == [] then d
    else
      var before := Replay(d, hist, trace[..|trace| - 1]);
      match hist[trace[|trace| - 1]]
      case Some(w) => Apply(before, w)
      case None => before
  }

  function UpTo(n: nat): seq<nat> {
    seq(n, i requires 0 <= i < n => i)
  }

  function EffectAt(hist: seq<Option<Write>>, i: nat, q: seq<string>): Option<Kind>
    requires i < |hist|
  {
    match hist[i] case Some(w) => Effect(w, q) case None => None
  }

  /** The last op of `trace` that decides what stands at `q`. */
  function LastAt(hist: seq<Option<Write>>, trace: seq<nat>, q: seq<string>): (r: Option<nat>)
    requires forall i :: 0 <= i < |trace| ==> trace[i] < |hist|
    ensures r.Some? ==> r.value in trace && EffectAt(hist, r.value, q).Some?
  {
    if trace == [] then None
    else
      var i := trace[|trace| - 1];
      if EffectAt(hist, i, q).Some? then Some(i) else LastAt(hist, trace[..|trace| - 1], q)
  }

  lemma {:induction false} ReplayView(d: Node, hist: seq<Option<Write>>, trace: seq<nat>, arrays: iset<seq<string>>,
      q: seq<string>)
    requires HistoryOk(hist, arrays) && ArraysAt(d, arrays)
    requires forall i :: 0 <= i < |trace| ==> trace[i] < |hist|
    ensures ArraysAt(Replay(d, hist, trace), arrays)
    ensures View(Replay(d, hist, trace), q) ==
            match LastAt(hist, trace, q)
            case Some(i) => if i < |hist| then Or(EffectAt(hist, i, q), View(d, q)) else Absent
            case None => View(d, q)
  {
    if trace != [] {
      var init := trace[..|trace| - 1];
      ReplayView(d, hist, init, arrays, q);
      var i := trace[|trace| - 1];
      if hist[i].Some? {
        ApplyEffect(Replay(d, hist, init), hist[i].value, arrays);
      }
    }
  }

  // ---- the order that matters ----

  /** One more than the last place of `i` in `trace`; 0 if it is not there. */
  function LastPlace(trace: seq<nat>, i: nat): (p: nat)
    ensures p <= |trace| && (p > 0 <==> i in trace)
  {
    if trace == [] then 0
    else if trace[|trace| - 1] == i then |trace|
    else LastPlace(trace[..|trace| - 1], i)
  }

  /** The last time an op is applied comes after the last time of every op before it in the history. */
  predicate InQueueOrder(trace: seq<nat>) {
    forall i, j :: i in trace && j in trace && i < j ==> LastPlace(trace, i) < LastPlace(trace, j)
  }

  /** `trace` applies exactly the first `n` ops, each of them at least once. */
  predicate Covers(trace: seq<nat>, n: nat) {
    (forall k :: 0 <= k < |trace| ==> trace[k] < n) && forall i: nat :: i < n ==> i in trace
  }

  /** Of the ops that decide at `q`, the last one applied has the last word. */
  lemma {:induction false} LastAtIsLast(hist: seq<Option<Write>>, trace: seq<nat>, q: seq<string>, i: nat)
    requires forall k :: 0 <= k < |trace| ==> trace[k] < |hist|
    requires i in trace && i < |hist| && EffectAt(hist, i, q).Some?
    ensures var last := LastAt(hist, trace, q); last.Some? && LastPlace(trace, i) <= LastPlace(trace, last.value)
  {
    var init, k := trace[..|trace| - 1], trace[|trace| - 1];
    if EffectAt(hist, k, q).None? {
      LastAtIsLast(hist, init, q, i);
    }
  }

  lemma {:induction false} PlaceUpTo(n: nat, i: nat)
    ensures LastPlace(UpTo(n), i) == if i < n then i + 1 else 0
  {
    if n > 0 {
      assert UpTo(n)[..n - 1] == UpTo(n - 1);
      PlaceUpTo(n - 1, i);
    }
  }

  lemma UpToCovers(n: nat)
    ensures Covers(UpTo(n), n)
  {
    forall i: nat | i < n
      ensures i in UpTo(n)
    {
      assert UpTo(n)[i] == i;
    }
  }

  /** Applied in order for the last time, the ops decide at every path as if applied once. */
  lemma OrderLast(hist: seq<Option<Write>>, trace: seq<nat>, q: seq<string>)
    requires Covers(trace, |hist|) && InQueueOrder(trace)
    ensures LastAt(hist, trace, q) == LastAt(hist, UpTo(|hist|), q)
  {
    var n := |hist|;
    var r, t := LastAt(hist, trace, q), LastAt(hist, UpTo(n), q);
    if r.Some? {
      assert UpTo(n)[r.value] == r.value;
      LastAtIsLast(hist, UpTo(n), q, r.value);
      PlaceUpTo(n, r.value);
      PlaceUpTo(n, t.value);
    }
    if t.Some? {
      LastAtIsLast(hist, trace, q, t.value);
    }
  }

  lemma InOrderReplay(d: Node, hist: seq<Option<Write>>, trace: seq<nat>, arrays: iset<seq<string>>)
    requires HistoryOk(hist, arrays) && ArraysAt(d, arrays)
    requires Covers(trace, |hist|) && InQueueOrder(trace)
    ensures SameView(Replay(d, hist, trace), Replay(d, hist, UpTo(|hist|)))
    ensures EqualUpToOrder(Replay(d, hist, trace), Replay(d, hist, UpTo(|hist|)))
  {
    var n, m := Replay(d, hist, trace), Replay(d, hist, UpTo(|hist|));
    forall q
      ensures View(n, q) == View(m, q) && ArraysAt(n, arrays) && ArraysAt(m, arrays)
    {
      OrderLast(hist, trace, q);
      ReplayView(d, hist, trace, arrays, q);
      ReplayView(d, hist, UpTo(|hist|), arrays, q);
    }
    assert View(n, []) == View(m, []);
    SameViewExactly(n, m);
  }

  /** Two sets of one key, the second one alone if they are the same op, and nothing else that it depends on. */
  function TwoSets(n: nat, i: nat, j: nat): seq<Option<Write>> {
    seq(n, k requires 0 <= k < n =>
      if k == j then Some(SetW(["x"], Leaf("2")))
      else if k == i then Some(SetW(["x"], Leaf("1")))
      else Some(DelW(["y"])))
  }

  lemma TwoSetsEffect(n: nat, i: nat, j: nat, k: nat)
    requires i < n && j < n && k < n
    ensures EffectAt(TwoSets(n, i, j), k, ["x"]) ==
            if k == j then Some(Scalar(Leaf("2"))) else if k == i then Some(Scalar(Leaf("1"))) else None
    ensures HistoryOk(TwoSets(n, i, j), iset{})
  {
    assert ["x"][1..] == [] && "x"[0] != "y"[0];
    assert ["x"][0] != ["y"][0] && !(["y"] <= ["x"]);
    assert forall q :: View(Leaf("1"), q) == if q == [] then Scalar(Leaf("1")) else Absent;
    assert forall q :: View(Leaf("2"), q) == if q == [] then Scalar(Leaf("2")) else Absent;
  }

  /** What the last of the two sets leaves at their key. */
  lemma TwoSetsView(trace: seq<nat>, n: nat, i: nat, j: nat, last: nat)
    requires i < n && j < n && i != j && Covers(trace, n)
    requires last == if LastPlace(trace, i) < LastPlace(trace, j) then j else i
    ensures View(Replay(EMPTY_OBJ, TwoSets(n, i, j), trace), ["x"]) ==
            Scalar(Leaf(if last == i then "1" else "2"))
    ensures DistinctKeys(Replay(EMPTY_OBJ, TwoSets(n, i, j), trace))
  {
    var hist := TwoSets(n, i, j);
    TwoSetsEffect(n, i, j, i);
    TwoSetsEffect(n, i, j, j);
    ReplayView(EMPTY_OBJ, hist, trace, iset{}, ["x"]);
    LastAtIsLast(hist, trace, ["x"], i);
    LastAtIsLast(hist, trace, ["x"], j);
    var r := LastAt(hist, trace, ["x"]).value;
    TwoSetsEffect(n, i, j, r);
    SamePlace(trace, i, j);
  }

  lemma {:induction false} SamePlace(trace: seq<nat>, i: nat, j: nat)
    requires i in trace && i != j
    ensures LastPlace(trace, i) != LastPlace(trace, j)
  {
    if trace[|trace| - 1] != i && trace[|trace| - 1] != j {
      SamePlace(trace[..|trace| - 1], i, j);
    }
  }

  /** Out of order, the earlier of two sets may have the last word. */
  lemma OutOfOrderDiffers(trace: seq<nat>, n: nat, i: nat, j: nat)
    requires Covers(trace, n) && i < j < n && LastPlace(trace, j) <= LastPlace(trace, i)
    ensures HistoryOk(TwoSets(n, i, j), iset{}) && ArraysAt(EMPTY_OBJ, iset{})
    ensures !EqualUpToOrder(Replay(EMPTY_OBJ, TwoSets(n, i, j), trace), Replay(EMPTY_OBJ, TwoSets(n, i, j), UpTo(n)))
  {
    var a, b := Replay(EMPTY_OBJ, TwoSets(n, i, j), trace), Replay(EMPTY_OBJ, TwoSets(n, i, j), UpTo(n));
    TwoSetsEffect(n, i, j, i);
    TwoSetsView(trace, n, i, j, i);
    PlaceUpTo(n, i);
    PlaceUpTo(n, j);
    UpToCovers(n);
    TwoSetsView(UpTo(n), n, i, j, j);
    assert View(a, ["x"]) != View(b, ["x"]);
    SameViewExactly(a, b);
  }

  /** Whatever the ops are and wherever they start: `trace` and each op once leave the same, up to key order. */
  ghost predicate Harmless(trace: seq<nat>, n: nat)
    requires Covers(trace, n)
  {
    forall d, hist, arrays: iset<seq<string>> {:trigger Replay(d, hist, trace), HistoryOk(hist, arrays)} ::
      |hist| == n && HistoryOk(hist, arrays) && ArraysAt(d, arrays) ==>
        EqualUpToOrder(Replay(d, hist, trace), Replay(d, hist, UpTo(n)))
  }

  /**
   Ops may be applied again, and out of order, exactly as long as their last
   times are in queue order.
   */
  lemma HarmlessExactly(trace: seq<nat>, n: nat)
    requires Covers(trace, n)
    ensures Harmless(trace, n) <==> InQueueOrder(trace)
  {
    if InQueueOrder(trace) {
      forall d, hist, arrays: iset<seq<string>> {:trigger Replay(d, hist, trace), HistoryOk(hist, arrays)}
        | |hist| == n && HistoryOk(hist, arrays) && ArraysAt(d, arrays)
        ensures EqualUpToOrder(Replay(d, hist, trace), Replay(d, hist, UpTo(n)))
      {
        InOrderReplay(d, hist, trace, arrays);
      }
    } else {
      var i, j :| i in trace && j in trace && i < j && LastPlace(trace, j) <= LastPlace(trace, i);
      OutOfOrderDiffers(trace, n, i, j);
      var hist, none: iset<seq<string>> := TwoSets(n, i, j), iset{};
      assert HistoryOk(hist, none) && |hist| == n;
      assert !EqualUpToOrder(Replay(EMPTY_OBJ, hist, trace), Replay(EMPTY_OBJ, hist, UpTo(n)));
    }
  }

  // ---- what the first ops left ----

  /**
   At every path that the first `a` ops decide, what the last of them to decide there
   left still stands, or what a later op left.
   */
  ghost predicate Retains(doc: Node, hist: seq<Option<Write>>, a: nat)
    requires a <= |hist|
  {
    forall q {:trigger LastAt(hist, UpTo(a), q)} ::
      var last := LastAt(hist, UpTo(a), q);
      last.Some? ==> exists i: nat ::
        last.value <= i < |hist| && EffectAt(hist, i, q) == Some(View(doc, q))
  }

  /** Each of the first `a` ops is applied, and for the last time after every op before it. */
  predicate KeepsFirst(trace: seq<nat>, a: nat) {
    forall j: nat :: j < a ==> j in trace && forall i: nat :: i < j ==> LastPlace(trace, i) < LastPlace(trace, j)
  }

  lemma LastUpTo(hist: seq<Option<Write>>, a: nat, q: seq<string>)
    requires a <= |hist|
    ensures LastAt(hist, UpTo(a), q).Some? ==> LastAt(hist, UpTo(a), q).value < a
  {
    assert forall k :: 0 <= k < a ==> UpTo(a)[k] == k;
  }

  lemma KeepsFirstRetains(d: Node, hist: seq<Option<Write>>, trace: seq<nat>, a: nat, arrays: iset<seq<string>>)
    requires HistoryOk(hist, arrays) && ArraysAt(d, arrays)
    requires a <= |hist| && KeepsFirst(trace, a) && forall k :: 0 <= k < |trace| ==> trace[k] < |hist|
    ensures Retains(Replay(d, hist, trace), hist, a)
  {
    forall q {:trigger LastAt(hist, UpTo(a), q)} | LastAt(hist, UpTo(a), q).Some?
      ensures exists i: nat :: LastAt(hist, UpTo(a), q).value <= i < |hist|
                && EffectAt(hist, i, q) == Some(View(Replay(d, hist, trace), q))
    {
      var j := LastAt(hist, UpTo(a), q).value;
      LastUpTo(hist, a, q);
      LastAtIsLast(hist, trace, q, j);
      ReplayView(d, hist, trace, arrays, q);
      var r := LastAt(hist, trace, q).value;
      assert r in trace && j <= r;
    }
  }

  /** A set that is not applied, or before an earlier one, is lost. */
  lemma NotRetained(trace: seq<nat>, n: nat, a: nat, i: nat, j: nat)
    requires i <= j < a <= n && forall k :: 0 <= k < |trace| ==> trace[k] < n
    requires if i == j then j !in trace else LastPlace(trace, j) <= LastPlace(trace, i)
    ensures HistoryOk(TwoSets(n, i, j), iset{}) && ArraysAt(EMPTY_OBJ, iset{})
    ensures !Retains(Replay(EMPTY_OBJ, TwoSets(n, i, j), trace), TwoSets(n, i, j), a)
  {
    var hist, q := TwoSets(n, i, j), ["x"];
    TwoSetsEffect(n, i, j, j);
    LastUpTo(hist, a, q);
    assert UpTo(a)[j] == j;
    LastAtIsLast(hist, UpTo(a), q, j);
    var last := LastAt(hist, UpTo(a), q).value;
    TwoSetsEffect(n, i, j, last);
    PlaceUpTo(a, i);
    PlaceUpTo(a, j);
    assert last == j;
    OnlyFirstSet(trace, n, i, j);
    forall k: nat | j <= k < n
      ensures EffectAt(hist, k, q) != Some(View(Replay(EMPTY_OBJ, hist, trace), q))
    {
      TwoSetsEffect(n, i, j, k);
    }
  }

  lemma OnlyFirstSet(trace: seq<nat>, n: nat, i: nat, j: nat)
    requires i <= j < n && forall k :: 0 <= k < |trace| ==> trace[k] < n
    requires if i == j then j !in trace else LastPlace(trace, j) <= LastPlace(trace, i)
    ensures View(Replay(EMPTY_OBJ, TwoSets(n, i, j), trace), ["x"]) != Scalar(Leaf("2"))
  {
    var hist, q := TwoSets(n, i, j), ["x"];
    TwoSetsEffect(n, i, j, i);
    ReplayView(EMPTY_OBJ, hist, trace, iset{}, q);
    if LastAt(hist, trace, q).Some? {
      var r := LastAt(hist, trace, q).value;
      TwoSetsEffect(n, i, j, r);
      if r == j {
        SamePlace(trace, j, i);
        LastAtIsLast(hist, trace, q, i);
      }
    }
  }

  /** Every choice of sets and deletes along object keys, and every document. */
  ghost predicate AlwaysRetains(trace: seq<nat>, n: nat, a: nat)
    requires a <= n && forall k :: 0 <= k < |trace| ==> trace[k] < n
  {
    forall d, hist, arrays: iset<seq<string>> {:trigger Replay(d, hist, trace), HistoryOk(hist, arrays)} ::
      |hist| == n && HistoryOk(hist, arrays) && ArraysAt(d, arrays) ==>
        Retains(Replay(d, hist, trace), hist, a)
  }

  /** The first `a` ops are kept exactly if each is applied, and for the last time after every op before it. */
  lemma RetainsExactly(trace: seq<nat>, n: nat, a: nat)
    requires a <= n && forall k :: 0 <= k < |trace| ==> trace[k] < n
    ensures AlwaysRetains(trace, n, a) <==> KeepsFirst(trace, a)
  {
    if KeepsFirst(trace, a) {
      forall d, hist, arrays: iset<seq<string>> {:trigger Replay(d, hist, trace), HistoryOk(hist, arrays)}
        | |hist| == n && HistoryOk(hist, arrays) && ArraysAt(d, arrays)
        ensures Retains(Replay(d, hist, trace), hist, a)
      {
        KeepsFirstRetains(d, hist, trace, a, arrays);
      }
    } else {
      var j: nat :| j < a && !(j in trace && forall i: nat :: i < j ==> LastPlace(trace, i) < LastPlace(trace, j));
      var i := j;
      if j in trace {
        i :| 0 <= i < j && LastPlace(trace, j) <= LastPlace(trace, i);
      }
      NotRetained(trace, n, a, i, j);
      var hist, none: iset<seq<string>> := TwoSets(n, i, j), iset{};
      assert HistoryOk(hist, none) && |hist| == n;
      assert !Retains(Replay(EMPTY_OBJ, hist, trace), hist, a);
    }
  }

  // ---- a document that no prefix gives ----

  function PairB(): Node {
    Obj([Entry("b", "\"b\"", Leaf("2"))])
  }

  /** A set of a key inside an object, a set of the whole object, and nothing else that they depend on. */
  function NestedSets(n: nat, i: nat, j: nat): seq<Option<Write>> {
    seq(n, k requires 0 <= k < n =>
      if k == i then Some(SetW(["x", "a"], Leaf("1")))
      else if k == j then Some(SetW(["x"], PairB()))
      else Some(DelW(["y"])))
  }

  lemma PairViews(q: seq<string>)
    ensures !View(PairB(), q).Array? && !View(Leaf("1"), q).Array?
    ensures View(PairB(), ["a"]) == Absent && View(PairB(), ["b"]) == Scalar(Leaf("2"))
  {
    var es := PairB().fields;
    assert "a"[0] != "b"[0] && IndexOf(es, "b") == 0 && !Has(es, "a");
    ViewField(es, "a", []);
    ViewField(es, "b", []);
    assert ["a"] + [] == ["a"] && ["b"] + [] == ["b"];
  }

  lemma NestedEffects(n: nat, i: nat, j: nat, k: nat)
    requires i < n && j < n && i != j && k < n
    ensures EffectAt(NestedSets(n, i, j), k, ["x", "a"]) ==
            if k == i then Some(Scalar(Leaf("1"))) else if k == j then Some(Absent) else None
    ensures EffectAt(NestedSets(n, i, j), k, ["x", "b"]) == if k == j then Some(Scalar(Leaf("2"))) else None
  {
    var pa, pb := ["x", "a"], ["x", "b"];
    assert "x"[0] != "y"[0] && "a"[0] != "b"[0];
    assert pa[0] != "y" && pb[0] != "y" && pa[1] != pb[1];
    assert pa[2..] == [] && pa[1..] == ["a"] && pb[1..] == ["b"];
    PairViews([]);
    assert ["x"] <= pa && ["x"] <= pb && !(["y"] <= pa) && !(["y"] <= pb) && !(pa <= pb) && !(pb < pa);
  }

  lemma PathsDiffer()
    ensures ["x", "a"] != ["x", "b"]
  {
    assert "a"[0] != "b"[0];
    assert ["x", "a"][1] != ["x", "b"][1];
  }

  lemma NestedOk(n: nat, i: nat, j: nat)
    ensures HistoryOk(NestedSets(n, i, j), iset{})
  {
    forall q
      ensures !View(PairB(), q).Array? && !View(Leaf("1"), q).Array?
    {
      PairViews(q);
    }
  }

  lemma NestedView(trace: seq<nat>, n: nat, i: nat, j: nat, q: seq<string>)
    requires i < n && j < n && i != j && q in {["x", "a"], ["x", "b"]}
    requires forall k :: 0 <= k < |trace| ==> trace[k] < n
    ensures var doc := Replay(EMPTY_OBJ, NestedSets(n, i, j), trace);
            && DistinctKeys(doc)
            && View(doc, q) ==
               if q == ["x", "b"] then (if j in trace then Scalar(Leaf("2")) else Absent)
               else if LastPlace(trace, j) < LastPlace(trace, i) then Scalar(Leaf("1")) else Absent
  {
    var hist := NestedSets(n, i, j);
    NestedOk(n, i, j);
    LastDecides(hist, trace, q, i, j, n);
    ReplayView(EMPTY_OBJ, hist, trace, iset{}, q);
    NestedEffects(n, i, j, i);
    NestedEffects(n, i, j, j);
    EmptyView(q);
    SamePlaces(trace, i, j);
  }

  lemma EmptyView(q: seq<string>)
    requires q != []
    ensures View(EMPTY_OBJ, q) == Absent
  {
  }

  lemma SamePlaces(trace: seq<nat>, i: nat, j: nat)
    requires i != j
    ensures LastPlace(trace, i) == LastPlace(trace, j) ==> LastPlace(trace, i) == 0
  {
    if i in trace {
      SamePlace(trace, i, j);
    }
  }

  lemma LastDecides(hist: seq<Option<Write>>, trace: seq<nat>, q: seq<string>, i: nat, j: nat, n: nat)
    requires i < n && j < n && i != j && hist == NestedSets(n, i, j) && q in {["x", "a"], ["x", "b"]}
    requires forall k :: 0 <= k < |trace| ==> trace[k] < n
    ensures LastAt(hist, trace, q) ==
            if q == ["x", "b"] then (if j in trace then Some(j) else None)
            else if LastPlace(trace, i) < LastPlace(trace, j) then Some(j)
            else if i in trace then Some(i) else None
  {
    var r := LastAt(hist, trace, q);
    NestedEffects(n, i, j, i);
    NestedEffects(n, i, j, j);
    PathsDiffer();
    if i in trace && q == ["x", "a"] {
      LastAtIsLast(hist, trace, q, i);
    }
    if j in trace {
      LastAtIsLast(hist, trace, q, j);
    }
    if r.Some? {
      NestedEffects(n, i, j, r.value);
    }
    SamePlaces(trace, i, j);
  }

  /** The set inside the object, applied again after the set of it: no prefix gives both keys. */
  lemma NoPrefixGives(trace: seq<nat>, n: nat, i: nat, j: nat, m: nat)
    requires i < j < n && m <= n && forall k :: 0 <= k < |trace| ==> trace[k] < n
    requires 0 < LastPlace(trace, j) < LastPlace(trace, i)
    ensures var hist := NestedSets(n, i, j);
            !EqualUpToOrder(Replay(EMPTY_OBJ, hist, trace), Replay(EMPTY_OBJ, hist, UpTo(m)))
  {
    var hist := NestedSets(n, i, j);
    var doc, prefix := Replay(EMPTY_OBJ, hist, trace), Replay(EMPTY_OBJ, hist, UpTo(m));
    UpToCovers(m);
    PathsDiffer();
    NestedView(trace, n, i, j, ["x", "a"]);
    NestedView(trace, n, i, j, ["x", "b"]);
    NestedView(UpTo(m), n, i, j, ["x", "a"]);
    NestedView(UpTo(m), n, i, j, ["x", "b"]);
    PlaceUpTo(m, i);
    PlaceUpTo(m, j);
    assert View(doc, ["x", "a"]) != View(prefix, ["x", "a"]) || View(doc, ["x", "b"]) != View(prefix, ["x", "b"]);
    SameViewExactly(doc, prefix);
  }

  // ---- stretches applied again ----

  function Front(trace: seq<nat>): nat {
    if trace == [] then 0 else trace[|trace| - 1] + 1
  }

  /** Each op follows the one before it in the history, or goes back to an earlier one. */
  predicate Gentle(trace: seq<nat>) {
    trace == [] ||
    (Gentle(trace[..|trace| - 1]) && trace[|trace| - 1] <= Front(trace[..|trace| - 1]))
  }

  /** After a gentle trace the ops below its front have all been applied, for the last time in order. */
  lemma {:induction false} GentleOrder(trace: seq<nat>, i: nat, j: nat)
    requires Gentle(trace) && i < j < Front(trace)
    ensures 0 < LastPlace(trace, i) < LastPlace(trace, j)
  {
    if j + 1 < Front(trace) {
      GentleOrder(trace[..|trace| - 1], i, j);
    } else if i + 1 < j {
      GentleOrder(trace[..|trace| - 1], i, j - 1);
    } else {
      GentleFirst(trace[..|trace| - 1], i);
    }
  }

  lemma {:induction false} GentleFirst(trace: seq<nat>, i: nat)
    requires Gentle(trace) && i < Front(trace)
    ensures i in trace
  {
    if i + 1 < Front(trace) {
      GentleFirst(trace[..|trace| - 1], i);
    }
  }

  lemma GentleInOrder(trace: seq<nat>)
    requires Gentle(trace) && forall k :: 0 <= k < |trace| ==> trace[k] < Front(trace)
    ensures Covers(trace, Front(trace)) && InQueueOrder(trace)
  {
    forall i: nat | i < Front(trace)
      ensures i in trace
    {
      GentleFirst(trace, i);
    }
    forall i, j | i in trace && j in trace && i < j
      ensures LastPlace(trace, i) < LastPlace(trace, j)
    {
      GentleOrder(trace, i, j);
    }
  }

  /**
   Once a gentle trace ends at the furthest op it reached, the document is up
   to key order what applying each op once, in order, gives.
   */
  lemma GentleReplay(d: Node, hist: seq<Option<Write>>, trace: seq<nat>, arrays: iset<seq<string>>)
    requires HistoryOk(hist, arrays) && ArraysAt(d, arrays)
    requires Gentle(trace) && Front(trace) == |hist| && forall k :: 0 <= k < |trace| ==> trace[k] < |hist|
    ensures EqualUpToOrder(Replay(d, hist, trace), Replay(d, hist, UpTo(|hist|)))
  {
    GentleInOrder(trace);
    InOrderReplay(d, hist, trace, arrays);
  }

  lemma GentleSnoc(t: seq<nat>, i: nat)
    requires Gentle(t) && i <= Front(t)
    ensures Gentle(t + [i]) && Front(t + [i]) == i + 1
  {
    assert (t + [i])[..|t|] == t;
  }

  lemma {:induction false} GentleFrom(t: seq<nat>, n: nat)
    requires Gentle(t)
    ensures Gentle(t + UpTo(n)) && (n > 0 ==> Front(t + UpTo(n)) == n)
  {
    if n == 0 {
      assert t + UpTo(0) == t;
    } else {
      GentleFrom(t, n - 1);
      GentleSnoc(t + UpTo(n - 1), n - 1);
      UpToSnoc(t, n);
    }
  }

  lemma UpToSnoc(t: seq<nat>, n: nat)
    requires n > 0
    ensures t + UpTo(n) == t + UpTo(n - 1) + [n - 1]
    ensures n == 1 ==> t + UpTo(n - 1) == t
  {
    assert UpTo(n) == UpTo(n - 1) + [n - 1];
  }

  lemma BatchTwice(k: nat, n: nat)
    requires k <= n
    ensures var trace := UpTo(k) + UpTo(n);
            && Gentle(trace) && (n > 0 ==> Front(trace) == n) && forall i :: 0 <= i < |trace| ==> trace[i] < n
  {
    GentleFrom([], k);
    assert [] + UpTo(k) == UpTo(k);
    GentleFrom(UpTo(k), n);
  }

  /** A whole batch applied again after any prefix of it. */
  lemma BatchAgain(d: Node, hist: seq<Option<Write>>, k: nat, arrays: iset<seq<string>>)
    requires HistoryOk(hist, arrays) && ArraysAt(d, arrays) && k <= |hist|
    ensures EqualUpToOrder(Replay(d, hist, UpTo(k) + UpTo(|hist|)), Replay(d, hist, UpTo(|hist|)))
  {
    BatchTwice(k, |hist|);
    if |hist| > 0 {
      GentleReplay(d, hist, UpTo(k) + UpTo(|hist|), arrays);
    } else {
      assert UpTo(k) + UpTo(0) == UpTo(0);
      SameViewExactly(d, d);
    }
  }
}
