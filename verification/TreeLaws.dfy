/** What a set or a delete changes in the document, and what it leaves alone. */
module TreeLaws {
  import opened Options
  import opened JsonStrings
  import opened OrderedObject
  import opened JsonTree

  // ---- set, then look up ----

  /** The path at which a value set at `p` is read: "-1" becomes the appended index. */
  function ReadPath(n: Node, p: seq<string>): seq<string>
    decreases |p|
  {
    if p == [] then []
    else
      match n
      case Arr(a) =>
        if p[0] == "-1" then [Decimal(|a|)] + ReadPath(EMPTY_OBJ, p[1..])
        else [p[0]] + ReadPath(Descend(Child(n, p[0])), p[1..])
      case Obj(_) => [p[0]] + ReadPath(Descend(Child(n, p[0])), p[1..])
      case _ => [p[0]] + ReadPath(EMPTY_OBJ, p[1..])
  }

  /** The arrays a path appends to have an index to spare, as a Go slice has. */
  predicate Fits(n: Node, p: seq<string>)
    decreases |p|
  {
    if p == [] then true
    else
      match n
      case Arr(a) => |a| <= MAX_INT && (p[0] == "-1" || Fits(Descend(Child(n, p[0])), p[1..]))
      case Obj(_) => Fits(Descend(Child(n, p[0])), p[1..])
      case _ => true
  }

  lemma {:induction false} EmptyFits(p: seq<string>)
    ensures Fits(EMPTY_OBJ, p)
  {
    if p != [] {
      EmptyFits(p[1..]);
    }
  }

  lemma {:induction false} SetThenLookup(n: Node, p: seq<string>, v: Node)
    requires p != [] && Fits(n, p)
    requires Set(n, p, v).Ok?
    ensures Lookup(Set(n, p, v).node, ReadPath(n, p)) == Some(v)
    decreases |p|, if IsContainer(n) then 0 else 1
  {
    var t, r := Set(n, p, v).node, ReadPath(n, p);
    match n
    case Obj(es) =>
      var d := Descend(Child(n, p[0]));
      assert r[1..] == ReadPath(d, p[1..]);
      if |p| > 1 {
        SetThenLookup(d, p[1..], v);
        PutReads(es, p[0], Quote(p[0]), Set(d, p[1..], v).node, p[0]);
      } else {
        PutReads(es, p[0], Quote(p[0]), v, p[0]);
      }
    case Arr(a) =>
      if p[0] == "-1" {
        assert r[1..] == ReadPath(EMPTY_OBJ, p[1..]);
        IndexDecimal(|a|);
        if |p| > 1 {
          EmptyFits(p[1..]);
          SetThenLookup(EMPTY_OBJ, p[1..], v);
        }
      } else {
        assert r[1..] == ReadPath(Descend(Child(n, p[0])), p[1..]);
        if |p| > 1 {
          PadReads(a, Index(p[0]).value);
          SetThenLookup(Descend(Child(n, p[0])), p[1..], v);
        }
      }
    case _ =>
      EmptyFits(p);
      SetThenLookup(EMPTY_OBJ, p, v);
      assert ReadPath(n, p) == ReadPath(EMPTY_OBJ, p);
  }

  /**
   What stands on the way to a set value is what was there, with the rest of the path
   set in it, or a new object if no container was there.
   */
  lemma {:induction false} SetAbove(n: Node, p: seq<string>, v: Node, k: nat)
    requires 0 < k < |p| && Fits(n, p) && Set(n, p, v).Ok?
    ensures |ReadPath(n, p)| == |p|
    ensures var q := ReadPath(n, p)[..k];
            var below := Set(Descend(Lookup(n, q)), p[k..], v);
            below.Ok? && Lookup(Set(n, p, v).node, q) == Some(below.node)
    decreases |p|, if IsContainer(n) then 0 else 1
  {
    ReadLength(n, p);
    if IsContainer(n) {
      var d := if n.Arr? && p[0] == "-1" then EMPTY_OBJ else Descend(Child(n, p[0]));
      SetChild(n, p, v, d);
      var s, q := ReadPath(n, p)[0], ReadPath(n, p)[..k];
      assert q[0] == s && q[1..] == ReadPath(d, p[1..])[..k - 1];
      if k > 1 {
        if d == EMPTY_OBJ {
          EmptyFits(p[1..]);
        }
        SetAbove(d, p[1..], v, k - 1);
        assert p[1..][k - 1..] == p[k..];
        DescendReads(Child(n, s), q[1..]);
      } else {
        assert q == [s] && q[1..] == [];
      }
    } else {
      EmptyFits(p);
      SetAbove(EMPTY_OBJ, p, v, k);
      assert ReadPath(n, p) == ReadPath(EMPTY_OBJ, p);
      DescendReads(Some(n), ReadPath(n, p)[..k]);
    }
  }

  lemma {:induction false} ReadLength(n: Node, p: seq<string>)
    ensures |ReadPath(n, p)| == |p|
    decreases |p|
  {
    if p != [] {
      match n
      case Arr(_) =>
        if p[0] == "-1" {
          ReadLength(EMPTY_OBJ, p[1..]);
        } else {
          ReadLength(Descend(Child(n, p[0])), p[1..]);
        }
      case Obj(_) => ReadLength(Descend(Child(n, p[0])), p[1..]);
      case _ => ReadLength(EMPTY_OBJ, p[1..]);
    }
  }

  /** A set puts the child, with the rest of the path set in it, where the path reads it. */
  lemma SetChild(n: Node, p: seq<string>, v: Node, d: Node)
    requires |p| > 1 && IsContainer(n) && Fits(n, p) && Set(n, p, v).Ok?
    requires d == if n.Arr? && p[0] == "-1" then EMPTY_OBJ else Descend(Child(n, p[0]))
    ensures Set(d, p[1..], v).Ok?
    ensures ReadPath(n, p)[1..] == ReadPath(d, p[1..]) && Descend(Child(n, ReadPath(n, p)[0])) == d
    ensures Child(Set(n, p, v).node, ReadPath(n, p)[0]) == Some(Set(d, p[1..], v).node)
  {
    match n
    case Obj(es) => PutReads(es, p[0], Quote(p[0]), Set(d, p[1..], v).node, p[0]);
    case Arr(a) =>
      if p[0] == "-1" {
        IndexDecimal(|a|);
      } else {
        PadReads(a, Index(p[0]).value);
      }
  }

  // ---- the order of keys ----

  /** A set keeps the keys of an object in their order and with their texts, and a new one goes last. */
  lemma SetKeepsOrder(es: seq<Entry<Node>>, p: seq<string>, v: Node)
    requires p != [] && Distinct(es) && Set(Obj(es), p, v).Ok?
    ensures Set(Obj(es), p, v).node.Obj?
    ensures var fs := Set(Obj(es), p, v).node.fields;
            && |fs| == (if exists i :: 0 <= i < |es| && es[i].key == p[0] then |es| else |es| + 1)
            && (forall i :: 0 <= i < |es| ==> fs[i].key == es[i].key && fs[i].raw == es[i].raw)
            && (|fs| > |es| ==> fs[|es|].key == p[0] && fs[|es|].raw == Quote(p[0]))
  {
    if i :| 0 <= i < |es| && es[i].key == p[0] {
      IndexOfAt(es, i);
    }
  }

  /** A delete drops one entry of an object, or changes one value in it. */
  lemma DeleteKeepsOrder(es: seq<Entry<Node>>, p: seq<string>)
    requires p != [] && Distinct(es)
    ensures Del(Obj(es), p).Obj?
    ensures var fs := Del(Obj(es), p).fields;
            if |p| == 1 && exists i :: 0 <= i < |es| && es[i].key == p[0]
            then exists i :: 0 <= i < |es| && es[i].key == p[0] && fs == es[..i] + es[i + 1..]
            else |fs| == |es| && forall i :: 0 <= i < |es| ==> fs[i].key == es[i].key && fs[i].raw == es[i].raw
  {
    if i :| 0 <= i < |es| && es[i].key == p[0] {
      IndexOfAt(es, i);
    }
  }

  // ---- paths that part ----

  /** The index at which a set at segment `s` writes an array of length `len`. */
  function WriteIndex(len: nat, s: string): Option<nat> {
    if s == "-1" then Some(len) else Index(s)
  }

  /** `q` leaves `p` at a different key or numeric index. */
  predicate Parts(n: Node, p: seq<string>, q: seq<string>)
    decreases |p|
  {
    if p == [] || q == [] then false
    else
      match n
      case Arr(a) =>
        WriteIndex(|a|, p[0]) != Index(q[0]) || Index(q[0]).None? ||
        (|p| > 1 && Parts(Descend(Child(n, q[0])), p[1..], q[1..]))
      case Obj(_) => p[0] != q[0] || Parts(Descend(Child(n, p[0])), p[1..], q[1..])
      case _ => p[0] != q[0] || Parts(EMPTY_OBJ, p[1..], q[1..])
  }

  /** `q` names a slot that setting `p` pads an array with. */
  predicate Padded(n: Node, p: seq<string>, q: seq<string>)
    decreases |p|
  {
    if p == [] || q == [] then false
    else
      match n
      case Arr(a) =>
        (match (WriteIndex(|a|, p[0]), Index(q[0]))
         case (Some(i), Some(j)) =>
           if i == j then Padded(Descend(Child(n, q[0])), p[1..], q[1..])
           else |q| == 1 && |a| <= j < i
         case _ => false)
      case Obj(_) => p[0] == q[0] && Padded(Descend(Child(n, p[0])), p[1..], q[1..])
      case _ => false
  }

  lemma {:induction false} EmptyUnpadded(p: seq<string>, q: seq<string>)
    ensures !Padded(EMPTY_OBJ, p, q)
  {
    if p != [] && q != [] {
      EmptyUnpadded(p[1..], q[1..]);
    }
  }

  /** A node that a set replaces by an empty object has nothing below it. */
  lemma DescendReads(c: Option<Node>, q: seq<string>)
    requires q != []
    ensures Lookup(Descend(c), q) == match c case Some(d) => Lookup(d, q) case None => None
  {
  }

  /** Every path that parts from `p` reads as before, and a padded slot as a hole. */
  lemma {:induction false} SetLeavesOthers(n: Node, p: seq<string>, v: Node, q: seq<string>)
    requires p != [] && Set(n, p, v).Ok? && Parts(n, p, q)
    ensures Lookup(Set(n, p, v).node, q) == if Padded(n, p, q) then Some(Nil) else Lookup(n, q)
    decreases |p|, if IsContainer(n) then 0 else 1
  {
    match n
    case Obj(es) =>
      var d := Descend(Child(n, p[0]));
      var w := if |p| == 1 then v else Set(d, p[1..], v).node;
      PutReads(es, p[0], Quote(p[0]), w, q[0]);
      if p[0] == q[0] {
        SetLeavesOthers(d, p[1..], v, q[1..]);
        DescendReads(Child(n, p[0]), q[1..]);
      }
    case Arr(a) => SetLeavesOthersInArray(a, p, v, q);
    case _ =>
      SetLeavesOthers(EMPTY_OBJ, p, v, q);
      EmptyUnpadded(p, q);
  }

  lemma {:induction false} SetLeavesOthersInArray(a: seq<Node>, p: seq<string>, v: Node, q: seq<string>)
    requires p != [] && Set(Arr(a), p, v).Ok? && Parts(Arr(a), p, q)
    ensures Lookup(Set(Arr(a), p, v).node, q) == if Padded(Arr(a), p, q) then Some(Nil) else Lookup(Arr(a), q)
    decreases |p|, 0, 0
  {
    var n := Arr(a);
    var i := WriteIndex(|a|, p[0]).value;
    var b := Pad(a, i + 1);
    var d := Descend(Child(n, p[0]));
    var e := if p[0] == "-1" then EMPTY_OBJ else d;
    assert p[0] != "-1" ==> Descend(Some(b[i])) == d by {
      PadReads(a, i);
    }
    var w := if |p| == 1 then v else Set(e, p[1..], v).node;
    assert p[0] == "-1" ==> a + [w] == b[i := w];
    assert Set(n, p, v).node == Arr(b[i := w]);
    if Index(q[0]) == Some(i) {
      assert p[0] == "-1" ==> Child(n, q[0]) == None;
      assert p[0] != "-1" ==> Child(n, q[0]) == Child(n, p[0]);
      assert e == Descend(Child(n, q[0]));
      SetLeavesOthers(e, p[1..], v, q[1..]);
      DescendReads(Child(n, q[0]), q[1..]);
    } else if Index(q[0]).Some? && Index(q[0]).value < |b| && Index(q[0]).value >= |a| {
      assert b[Index(q[0]).value] == Nil;
    }
  }

  // ---- delete ----

  /** The old path of what `q` reads after a delete at `p`; None if it was deleted. */
  function Before(n: Node, p: seq<string>, q: seq<string>): Option<seq<string>>
    requires p != [] && q != []
    decreases |p|
  {
    match n
    case Obj(_) =>
      if p[0] != q[0] then Some(q)
      else if |p| == 1 then None
      else if |q| == 1 || Child(n, p[0]).None? then Some(q)
      else (match Before(Child(n, p[0]).value, p[1..], q[1..])
            case Some(r) => Some([q[0]] + r)
            case None => None)
    case Arr(a) =>
      if Index(p[0]).None? || Index(q[0]).None? || Index(p[0]).value >= |a| then Some(q)
      else
        var i, j := Index(p[0]).value, Index(q[0]).value;
        if |p| == 1 then (if j < i then Some(q) else Some([Decimal(j + 1)] + q[1..]))
        else if i != j || |q| == 1 then Some(q)
        else
          (match Before(a[i], p[1..], q[1..])
           case Some(r) => Some([q[0]] + r)
           case None => None)
    case _ => Some(q)
  }

  /** `q` names an object or array on the way to what `p` deletes. */
  predicate Above(n: Node, p: seq<string>, q: seq<string>)
    requires p != [] && q != []
    decreases |p|
  {
    match n
    case Obj(_) =>
      p[0] == q[0] && |p| > 1 && Child(n, p[0]).Some? &&
      (|q| == 1 || Above(Child(n, p[0]).value, p[1..], q[1..]))
    case Arr(a) =>
      Index(p[0]).Some? && Index(p[0]) == Index(q[0]) && Index(p[0]).value < |a| && |p| > 1 &&
      (|q| == 1 || Above(a[Index(p[0]).value], p[1..], q[1..]))
    case _ => false
  }

  predicate ShortArrays(n: Node, p: seq<string>)
    decreases |p|
  {
    p == [] || n.Nil? || n.Leaf? ||
    ((n.Arr? ==> |n.elems| <= MAX_INT) && (Child(n, p[0]).Some? ==> ShortArrays(Child(n, p[0]).value, p[1..])))
  }

  /**
   A delete removes exactly its subtree: later elements of an array read one
   place down, a deleted key is absent, and every other path reads as before.
   */
  lemma {:induction false} DeleteRemovesOnly(n: Node, p: seq<string>, q: seq<string>)
    requires p != [] && q != [] && DistinctKeys(n) && ShortArrays(n, p) && !Above(n, p, q)
    ensures Lookup(Del(n, p), q) == match Before(n, p, q) case Some(r) => Lookup(n, r) case None => None
    decreases |p|
  {
    match n
    case Obj(es) =>
      if |p| == 1 {
        RemoveReads(es, p[0], q[0]);
      } else if Has(es, p[0]) {
        var c := At(es, p[0]);
        PutReads(es, p[0], Quote(p[0]), Del(c, p[1..]), q[0]);
        if p[0] == q[0] {
          DeleteRemovesOnly(c, p[1..], q[1..]);
          PrefixLookup(n, q[0], Before(c, p[1..], q[1..]));
        }
      }
    case Arr(a) =>
      if Index(p[0]).Some? && Index(p[0]).value < |a| && Index(q[0]).Some? {
        var i, j := Index(p[0]).value, Index(q[0]).value;
        if |p| == 1 {
          if j >= i {
            ShiftedLookup(a, i, j, q);
          }
        } else if i == j {
          DeleteRemovesOnly(a[i], p[1..], q[1..]);
          PrefixLookup(n, q[0], Before(a[i], p[1..], q[1..]));
        }
      }
    case _ =>
  }

  /** What stands on the way is what was there, with the rest of the path deleted from it, and no more. */
  lemma {:induction false} DeleteAbove(n: Node, p: seq<string>, q: seq<string>)
    requires p != [] && q != [] && DistinctKeys(n) && Above(n, p, q)
    ensures |q| < |p| && Lookup(n, q).Some?
    ensures Lookup(Del(n, p), q) == Some(Del(Lookup(n, q).value, p[|q|..]))
    decreases |p|
  {
    if |q| > 1 {
      DeleteAbove(Child(n, p[0]).value, p[1..], q[1..]);
      assert p[|q|..] == p[1..][|q| - 1..];
    }
    match n
    case Obj(es) => PutReads(es, p[0], Quote(p[0]), Del(At(es, p[0]), p[1..]), q[0]);
    case _ =>
  }

  lemma PrefixLookup(n: Node, s: string, r: Option<seq<string>>)
    requires Child(n, s).Some?
    ensures r.Some? ==> Lookup(n, [s] + r.value) == Lookup(Child(n, s).value, r.value)
  {
    if r.Some? {
      assert ([s] + r.value)[1..] == r.value;
    }
  }

  lemma DecimalLookup(a: seq<Node>, k: nat, rest: seq<string>)
    requires |a| <= MAX_INT
    ensures Lookup(Arr(a), [Decimal(k)] + rest) == if k < |a| then Lookup(a[k], rest) else None
  {
    assert ([Decimal(k)] + rest)[1..] == rest;
    if k <= MAX_INT {
      IndexDecimal(k);
    } else {
      TooBig(k);
    }
  }

  lemma ShiftedLookup(a: seq<Node>, i: nat, j: nat, q: seq<string>)
    requires q != [] && Index(q[0]) == Some(j) && i <= j && i < |a| <= MAX_INT
    ensures Lookup(Arr(a[..i] + a[i + 1..]), q) == Lookup(Arr(a), [Decimal(j + 1)] + q[1..])
  {
    DecimalLookup(a, j + 1, q[1..]);
    assert j < |a| - 1 ==> (a[..i] + a[i + 1..])[j] == a[j + 1];
  }

  lemma TooBig(n: nat)
    requires n > MAX_INT
    ensures Index(Decimal(n)) == None
  {
    DecimalDigits(n);
    assert Decimal(n)[0] in Decimal(n);
  }

  // ---- a hole is a null ----

  /** The tree with every hole filled by the leaf `null`. */
  function Norm(n: Node): Node {
    match n
    case Nil => Leaf("null")
    case Leaf(_) => n
    case Obj(es) => Obj(NormFields(es))
    case Arr(a) => Arr(NormElems(a))
  }

  function NormElems(a: seq<Node>): seq<Node> {
    seq(|a|, i requires 0 <= i < |a| => Norm(a[i]))
  }

  function NormFields(es: seq<Entry<Node>>): seq<Entry<Node>> {
    seq(|es|, i requires 0 <= i < |es| => Entry(es[i].key, es[i].raw, Norm(es[i].val)))
  }

  lemma NormIndex(es: seq<Entry<Node>>, k: string)
    ensures IndexOf(NormFields(es), k) == IndexOf(es, k)
    ensures Has(es, k) ==> At(NormFields(es), k) == Norm(At(es, k))
  {
    var i, j := IndexOf(es, k), IndexOf(NormFields(es), k);
    assert forall m :: 0 <= m < |es| ==> NormFields(es)[m].key == es[m].key;
  }

  lemma NormChild(n: Node, s: string)
    ensures Child(Norm(n), s) == match Child(n, s) case Some(c) => Some(Norm(c)) case None => None
  {
    if n.Obj? {
      NormIndex(n.fields, s);
    }
  }

  lemma NormPut(es: seq<Entry<Node>>, k: string, raw: string, v: Node)
    ensures Norm(Obj(PutEntry(es, k, raw, v))) == Obj(PutEntry(NormFields(es), k, raw, Norm(v)))
  {
    NormIndex(es, k);
    assert NormFields(PutEntry(es, k, raw, v)) == PutEntry(NormFields(es), k, raw, Norm(v));
  }

  lemma NormRemove(es: seq<Entry<Node>>, k: string)
    ensures Norm(Obj(RemoveEntry(es, k))) == Obj(RemoveEntry(NormFields(es), k))
  {
    NormIndex(es, k);
    assert NormFields(RemoveEntry(es, k)) == RemoveEntry(NormFields(es), k);
  }

  /** No lookup can tell a hole from a null. */
  lemma {:induction false} LookupNorm(n: Node, q: seq<string>)
    ensures Lookup(Norm(n), q) == match Lookup(n, q) case Some(c) => Some(Norm(c)) case None => None
    decreases |q|
  {
    if q != [] {
      NormChild(n, q[0]);
      if Child(n, q[0]).Some? {
        LookupNorm(Child(n, q[0]).value, q[1..]);
      }
    }
  }

  /** Equal but for holes and nulls. */
  predicate Same(n: Node, m: Node) {
    Norm(n) == Norm(m)
  }

  predicate SameResult(r: SetResult, t: SetResult) {
    match (r, t)
    case (Ok(n), Ok(m)) => Same(n, m)
    case (Err(d), Err(e)) => d == e
    case _ => false
  }

  predicate SameChildren(c: Option<Node>, d: Option<Node>) {
    c.Some? == d.Some? && (c.Some? ==> Same(c.value, d.value))
  }

  lemma SameChild(n: Node, m: Node, s: string)
    requires Same(n, m)
    ensures SameChildren(Child(n, s), Child(m, s))
    ensures Same(Descend(Child(n, s)), Descend(Child(m, s)))
  {
    NormChild(n, s);
    NormChild(m, s);
  }

  lemma SamePut(es: seq<Entry<Node>>, fs: seq<Entry<Node>>, k: string, raw: string, v: Node, w: Node)
    requires Same(Obj(es), Obj(fs)) && Same(v, w)
    ensures Same(Obj(PutEntry(es, k, raw, v)), Obj(PutEntry(fs, k, raw, w)))
  {
    NormPut(es, k, raw, v);
    NormPut(fs, k, raw, w);
  }

  lemma SameFill(a: seq<Node>, b: seq<Node>, i: nat, v: Node, w: Node)
    requires Same(Arr(a), Arr(b)) && Same(v, w)
    ensures |a| == |b|
    ensures Same(Arr(Pad(a, i + 1)[i := v]), Arr(Pad(b, i + 1)[i := w]))
    ensures Same(Arr(a + [v]), Arr(b + [w]))
  {
    assert |NormElems(a)| == |NormElems(b)|;
    forall j | 0 <= j < |a|
      ensures Same(a[j], b[j])
    {
      assert NormElems(a)[j] == NormElems(b)[j];
    }
    assert NormElems(Pad(a, i + 1)[i := v]) == NormElems(Pad(b, i + 1)[i := w]);
    assert NormElems(a + [v]) == NormElems(b + [w]);
  }

  /** No set can tell a hole from a null, in the document or in the value. */
  lemma {:induction false} SetSame(n: Node, m: Node, p: seq<string>, v: Node, w: Node)
    requires p != [] && Same(n, m) && Same(v, w)
    ensures SameResult(Set(n, p, v), Set(m, p, w))
    decreases |p|, if IsContainer(n) then 0 else 1
  {
    SameChild(n, m, p[0]);
    match n
    case Obj(es) =>
      if |p| == 1 {
        SamePut(es, m.fields, p[0], Quote(p[0]), v, w);
      } else {
        var c, d := Descend(Child(n, p[0])), Descend(Child(m, p[0]));
        SetSame(c, d, p[1..], v, w);
        if Set(c, p[1..], v).Ok? {
          SamePut(es, m.fields, p[0], Quote(p[0]), Set(c, p[1..], v).node, Set(d, p[1..], w).node);
        }
      }
    case Arr(a) => SetSameInArray(a, m.elems, p, v, w);
    case _ => SetSame(EMPTY_OBJ, EMPTY_OBJ, p, v, w);
  }

  lemma {:induction false} SetSameInArray(a: seq<Node>, b: seq<Node>, p: seq<string>, v: Node, w: Node)
    requires p != [] && Same(Arr(a), Arr(b)) && Same(v, w)
    ensures SameResult(Set(Arr(a), p, v), Set(Arr(b), p, w))
    decreases |p|, 0, 0
  {
    if p[0] == "-1" {
      if |p| == 1 {
        SameFill(a, b, 0, v, w);
      } else {
        SetSame(EMPTY_OBJ, EMPTY_OBJ, p[1..], v, w);
        if Set(EMPTY_OBJ, p[1..], v).Ok? {
          SameFill(a, b, 0, Set(EMPTY_OBJ, p[1..], v).node, Set(EMPTY_OBJ, p[1..], w).node);
        }
      }
    } else if Index(p[0]).Some? {
      var i := Index(p[0]).value;
      if |p| == 1 {
        SameFill(a, b, i, v, w);
      } else {
        PadReads(a, i);
        PadReads(b, i);
        SameChild(Arr(a), Arr(b), p[0]);
        var c, d := Descend(Child(Arr(a), p[0])), Descend(Child(Arr(b), p[0]));
        SetSame(c, d, p[1..], v, w);
        if Set(c, p[1..], v).Ok? {
          SameFill(a, b, i, Set(c, p[1..], v).node, Set(d, p[1..], w).node);
        }
      }
    }
  }

  /** No delete can. */
  lemma {:induction false} DelSame(n: Node, m: Node, p: seq<string>)
    requires p != [] && Same(n, m)
    ensures Same(Del(n, p), Del(m, p))
    decreases |p|
  {
    SameChild(n, m, p[0]);
    match n
    case Obj(es) =>
      var fs := m.fields;
      NormIndex(es, p[0]);
      NormIndex(fs, p[0]);
      if |p| == 1 {
        NormRemove(es, p[0]);
        NormRemove(fs, p[0]);
      } else if Has(es, p[0]) {
        DelSame(At(es, p[0]), At(fs, p[0]), p[1..]);
        SamePut(es, fs, p[0], Quote(p[0]), Del(At(es, p[0]), p[1..]), Del(At(fs, p[0]), p[1..]));
      }
    case Arr(a) =>
      var b, j := m.elems, Index(p[0]);
      assert |NormElems(a)| == |NormElems(b)|;
      if j.Some? && j.value < |a| {
        var i := j.value;
        assert forall k :: 0 <= k < |a| ==> NormElems(a)[k] == Norm(a[k]) && NormElems(b)[k] == Norm(b[k]);
        if |p| == 1 {
          assert NormElems(a[..i] + a[i + 1..]) == NormElems(b[..i] + b[i + 1..]);
        } else {
          DelSame(a[i], b[i], p[1..]);
          assert NormElems(a[i := Del(a[i], p[1..])]) == NormElems(b[i := Del(b[i], p[1..])]);
        }
      }
    case _ =>
  }

  /** Filling the holes gives a document that is the same. */
  lemma {:induction false} NormSame(n: Node)
    ensures Same(Norm(n), n)
  {
    match n
    case Obj(es) =>
      forall i | 0 <= i < |es|
        ensures Same(Norm(es[i].val), es[i].val)
      {
        NormSame(es[i].val);
      }
      assert NormFields(NormFields(es)) == NormFields(es);
    case Arr(a) =>
      forall i | 0 <= i < |a|
        ensures Same(Norm(a[i]), a[i])
      {
        NormSame(a[i]);
      }
      assert NormElems(NormElems(a)) == NormElems(a);
    case _ =>
  }
}
