/**
 The document as a tree: lookup, set and delete along path segments, and what
 a set or a delete changes and leaves alone.
 */
module JsonTree {
  import opened Options
  import opened JsonNumbers
  import opened JsonStrings
  import opened OrderedObject

  /** `Nil` is the hole that padding an array leaves. */
  datatype Node =
    | Nil
    | Leaf(text: string)
    | Obj(fields: seq<Entry<Node>>)
    | Arr(elems: seq<Node>)

  datatype SetResult = Ok(node: Node) | Err(key: string)

  const EMPTY_OBJ := Obj([])

  predicate IsContainer(n: Node) {
    n.Obj? || n.Arr?
  }

  // ---- strconv.Atoi ----

  const MAX_INT := 0x7FFF_FFFF_FFFF_FFFF

  function DigitsValue(s: string): nat {
    if s == "" then 0
    else
      var ch := s[|s| - 1];
      DigitsValue(s[..|s| - 1]) * 10 + if IsDigit(ch) then ch as int - '0' as int else 0
  }

  function Atoi(s: string): Option<int> {
    var digits := if s != "" && s[0] in "+-" then s[1..] else s;
    if digits == "" || !AllDigits(digits) then None
    else
      var n: int := DigitsValue(digits);
      if s[0] == '-' then (if n <= MAX_INT + 1 then Some(-n) else None)
      else if n <= MAX_INT then Some(n) else None
  }

  /** The array index a segment names. */
  function Index(s: string): Option<nat> {
    match Atoi(s)
    case Some(i) => if i >= 0 then Some(i) else None
    case None => None
  }

  function Decimal(n: nat): string {
    var last := [('0' as int + n % 10) as char];
    if n < 10 then last else Decimal(n / 10) + last
  }

  lemma {:induction false} DecimalDigits(n: nat)
    ensures AllDigits(Decimal(n))
    ensures DigitsValue(Decimal(n)) == n && Decimal(n) != ""
  {
    var last := ('0' as int + n % 10) as char;
    if n >= 10 {
      DecimalDigits(n / 10);
      var d := Decimal(n);
      assert d[..|d| - 1] == Decimal(n / 10) && d[|d| - 1] == last;
    } else {
      assert Decimal(n) == [last] && [last][..0] == [];
      assert DigitsValue([]) == 0;
    }
  }

  lemma IndexDecimal(n: nat)
    requires n <= MAX_INT
    ensures Index(Decimal(n)) == Some(n)
  {
    DecimalDigits(n);
    assert Decimal(n)[0] in Decimal(n);
  }

  // ---- lookup, set, delete ----

  function Child(n: Node, s: string): Option<Node> {
    match n
    case Obj(es) => if Has(es, s) then Some(At(es, s)) else None
    case Arr(a) => (match Index(s) case Some(i) => if i < |a| then Some(a[i]) else None case None => None)
    case _ => None
  }

  function Lookup(n: Node, segs: seq<string>): Option<Node> {
    if segs == [] then Some(n)
    else
      match Child(n, segs[0])
      case Some(c) => Lookup(c, segs[1..])
      case None => None
  }

  /** The node a set descends into: a child that is no container is replaced by an object. */
  function Descend(c: Option<Node>): Node {
    if c.Some? && IsContainer(c.value) then c.value else EMPTY_OBJ
  }

  function Pad(a: seq<Node>, len: nat): seq<Node> {
    if |a| < len then a + seq(len - |a|, _ => Nil) else a
  }

  function Set(n: Node, segs: seq<string>, val: Node): SetResult
    requires segs != []
    decreases |segs|, if IsContainer(n) then 0 else 1
  {
    var s := segs[0];
    var last := |segs| == 1;
    match n
    case Obj(es) =>
      if last then Ok(Obj(PutEntry(es, s, Quote(s), val)))
      else
        (match Set(Descend(Child(n, s)), segs[1..], val)
         case Ok(c) => Ok(Obj(PutEntry(es, s, Quote(s), c)))
         case Err(e) => Err(e))
    case Arr(a) =>
      if s == "-1" then
        if last then Ok(Arr(a + [val]))
        else
          (match Set(EMPTY_OBJ, segs[1..], val)
           case Ok(c) => Ok(Arr(a + [c]))
           case Err(e) => Err(e))
      else
        (match Index(s)
         case None => Err(s)
         case Some(i) =>
           var b := Pad(a, i + 1);
           if last then Ok(Arr(b[i := val]))
           else
             match Set(Descend(Some(b[i])), segs[1..], val)
             case Ok(c) => Ok(Arr(b[i := c]))
             case Err(e) => Err(e))
    case _ => Set(EMPTY_OBJ, segs, val)
  }

  function Del(n: Node, segs: seq<string>): Node
    requires segs != []
    decreases |segs|
  {
    var s := segs[0];
    var last := |segs| == 1;
    match n
    case Obj(es) =>
      if last then Obj(RemoveEntry(es, s))
      else if Has(es, s) then Obj(PutEntry(es, s, Quote(s), Del(At(es, s), segs[1..])))
      else n
    case Arr(a) =>
      (match Index(s)
       case None => n
       case Some(i) =>
         if i >= |a| then n
         else if last then Arr(a[..i] + a[i + 1..])
         else Arr(a[i := Del(a[i], segs[1..])]))
    case _ => n
  }

  /** The lookup loop. */
  method TreeLookup(root: Node, segs: seq<string>) returns (r: Option<Node>)
    ensures r == Lookup(root, segs)
  {
    var n := root;
    for k := 0 to |segs|
      invariant Lookup(root, segs) == Lookup(n, segs[k..])
    {
      assert segs[k..][0] == segs[k] && segs[k..][1..] == segs[k + 1..];
      match n
      case Obj(es) =>
        if !Has(es, segs[k]) {
          return None;
        }
        n := At(es, segs[k]);
      case Arr(a) =>
        var i := Index(segs[k]);
        if i.None? || i.value >= |a| {
          return None;
        }
        n := a[i.value];
      case _ =>
        return None;
    }
    return Some(n);
  }

  // ---- well-formed objects ----

  /** Every object in the tree has distinct keys. */
  predicate DistinctKeys(n: Node) {
    match n
    case Obj(es) => Distinct(es) && forall i :: 0 <= i < |es| ==> DistinctKeys(es[i].val)
    case Arr(a) => forall i :: 0 <= i < |a| ==> DistinctKeys(a[i])
    case _ => true
  }

  lemma PutDistinct(es: seq<Entry<Node>>, k: string, raw: string, v: Node)
    requires DistinctKeys(Obj(es)) && DistinctKeys(v)
    ensures DistinctKeys(Obj(PutEntry(es, k, raw, v)))
  {
    KeepsOrder(es, k, raw, v);
  }

  lemma {:induction false} SetDistinct(n: Node, p: seq<string>, v: Node)
    requires p != [] && DistinctKeys(n) && DistinctKeys(v)
    ensures Set(n, p, v).Ok? ==> DistinctKeys(Set(n, p, v).node)
    decreases |p|, if IsContainer(n) then 0 else 1
  {
    match n
    case Obj(es) =>
      if |p| == 1 {
        PutDistinct(es, p[0], Quote(p[0]), v);
      } else {
        SetDistinct(Descend(Child(n, p[0])), p[1..], v);
        var r := Set(Descend(Child(n, p[0])), p[1..], v);
        if r.Ok? {
          PutDistinct(es, p[0], Quote(p[0]), r.node);
        }
      }
    case Arr(a) =>
      if |p| > 1 {
        if p[0] == "-1" {
          SetDistinct(EMPTY_OBJ, p[1..], v);
        } else if Index(p[0]).Some? {
          SetDistinct(Descend(Some(Pad(a, Index(p[0]).value + 1)[Index(p[0]).value])), p[1..], v);
        }
      }
    case _ => SetDistinct(EMPTY_OBJ, p, v);
  }

  lemma {:induction false} DelDistinct(n: Node, p: seq<string>)
    requires p != [] && DistinctKeys(n)
    ensures DistinctKeys(Del(n, p))
    decreases |p|
  {
    match n
    case Obj(es) =>
      if |p| == 1 {
        KeepsOrder(es, p[0], "", Nil);
      } else if Has(es, p[0]) {
        DelDistinct(At(es, p[0]), p[1..]);
        PutDistinct(es, p[0], Quote(p[0]), Del(At(es, p[0]), p[1..]));
      }
    case Arr(a) =>
      if |p| > 1 && Index(p[0]).Some? && Index(p[0]).value < |a| {
        DelDistinct(a[Index(p[0]).value], p[1..]);
      }
    case _ =>
  }

  // ---- when a set fails ----

  /** Where a path meets an array, its segment is neither "-1" nor an index. */
  predicate Misses(n: Node, p: seq<string>)
    decreases |p|, if IsContainer(n) then 0 else 1
  {
    if p == [] then false
    else
      match n
      case Obj(es) => |p| > 1 && Misses(Descend(Child(n, p[0])), p[1..])
      case Arr(a) => p[0] != "-1" && (Index(p[0]).None? || (|p| > 1 && Misses(Descend(Child(n, p[0])), p[1..])))
      case _ => false
  }

  lemma {:induction false} EmptyNeverMisses(p: seq<string>)
    ensures !Misses(EMPTY_OBJ, p)
  {
    if |p| > 1 {
      EmptyNeverMisses(p[1..]);
    }
  }

  lemma PadReads(a: seq<Node>, i: nat)
    ensures Descend(Some(Pad(a, i + 1)[i])) == Descend(if i < |a| then Some(a[i]) else None)
  {
  }

  /** A set fails exactly there. */
  lemma {:induction false} SetFailsExactly(n: Node, p: seq<string>, v: Node)
    requires p != []
    ensures Set(n, p, v).Err? <==> Misses(n, p)
    decreases |p|, if IsContainer(n) then 0 else 1
  {
    match n
    case Obj(es) =>
      if |p| > 1 {
        SetFailsExactly(Descend(Child(n, p[0])), p[1..], v);
      }
    case Arr(a) =>
      if |p| > 1 {
        if p[0] == "-1" {
          SetFailsExactly(EMPTY_OBJ, p[1..], v);
          EmptyNeverMisses(p[1..]);
        } else if Index(p[0]).Some? {
          PadReads(a, Index(p[0]).value);
          SetFailsExactly(Descend(Child(n, p[0])), p[1..], v);
        }
      }
    case _ =>
      SetFailsExactly(EMPTY_OBJ, p, v);
      EmptyNeverMisses(p);
  }

  /** A set never turns an object into anything else. */
  lemma SetKeepsObject(n: Node, p: seq<string>, v: Node)
    requires p != [] && !n.Arr?
    ensures Set(n, p, v).Ok? ==> Set(n, p, v).node.Obj?
  {
  }
}
