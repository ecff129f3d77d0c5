/**
 The text of a document and the parser of RFC 8259 that reads it back, with
 numbers rewritten to the form the document stores.
 */
module JsonText {
  import opened Options
  import opened JsonNumbers
  import opened JsonStrings
  import opened OrderedObject
  import opened JsonTree
  import opened TreeLaws

  // ---- rendering ----

  function Render(n: Node): string {
    match n
    case Leaf(t) => t
    case Obj(es) => "{" + RenderFields(es) + "}"
    case Arr(a) => "[" + RenderElems(a) + "]"
    case Nil => "null"
  }

  function RenderFields(es: seq<Entry<Node>>): string {
    if es == [] then ""
    else es[0].raw + ":" + Render(es[0].val) + if |es| == 1 then "" else "," + RenderFields(es[1..])
  }

  function RenderElems(a: seq<Node>): string {
    if a == [] then "" else Render(a[0]) + if |a| == 1 then "" else "," + RenderElems(a[1..])
  }

  // ---- parsing ----

  function SkipSpace(s: string): (t: string)
    ensures |t| <= |s|
    ensures t != "" ==> t[0] !in " \t\n\r"
  {
    if s != "" && s[0] in " \t\n\r" then SkipSpace(s[1..]) else s
  }

  /** The text a number is stored as; one out of float range is kept. */
  function Stored(t: string, float: FloatText): string {
    match Canonical(t, float)
    case Some(c) => c
    case None => t
  }

  function ParseScalar(t: string, float: FloatText): (r: Option<(Node, string)>)
    ensures r.Some? ==> |r.value.1| < |t|
  {
    if t == "" then None
    else if t[0] == '"' then
      (match BodyLength(t[1..])
       case None => None
       case Some(n) => if n + 2 <= |t| then Some((Leaf(t[..n + 2]), t[n + 2..])) else None)
    else if "true" <= t then Some((Leaf("true"), t[4..]))
    else if "false" <= t then Some((Leaf("false"), t[5..]))
    else if "null" <= t then Some((Leaf("null"), t[4..]))
    else
      match Scan(t)
      case None => None
      case Some((_, _, c)) => if 0 < c <= |t| then Some((Leaf(Stored(t[..c], float)), t[c..])) else None
  }

  function ParseValue(s: string, float: FloatText): (r: Option<(Node, string)>)
    ensures r.Some? ==> |r.value.1| < |s|
    decreases |s|, 0
  {
    var t := SkipSpace(s);
    if t == "" then None
    else if t[0] == '{' then
      var u := SkipSpace(t[1..]);
      if u != "" && u[0] == '}' then Some((Obj([]), u[1..])) else ParseMembers(u, [], float)
    else if t[0] == '[' then
      var u := SkipSpace(t[1..]);
      if u != "" && u[0] == ']' then Some((Arr([]), u[1..])) else ParseElems(u, [], float)
    else ParseScalar(t, float)
  }

  /** One member: the text of its key, its value, and what follows. */
  function ParseMember(s: string, float: FloatText): (r: Option<(string, Node, string)>)
    ensures r.Some? ==> |r.value.0| >= 2 && |r.value.2| < |s|
    decreases |s|, 1
  {
    if s == "" || s[0] != '"' || BodyLength(s[1..]).None? || BodyLength(s[1..]).value + 2 > |s| then None
    else
      var end := BodyLength(s[1..]).value + 2;
      var u := SkipSpace(s[end..]);
      if u == "" || u[0] != ':' then None
      else
        match ParseValue(u[1..], float)
        case None => None
        case Some((v, rest)) => Some((s[..end], v, SkipSpace(rest)))
  }

  /** Members up to the closing brace; a repeated key keeps its first place and text. */
  function ParseMembers(s: string, acc: seq<Entry<Node>>, float: FloatText): (r: Option<(Node, string)>)
    ensures r.Some? ==> |r.value.1| < |s|
    decreases |s|, 2
  {
    match ParseMember(s, float)
    case None => None
    case Some((raw, v, w)) =>
      var es := PutEntry(acc, Unescape(raw[1..|raw| - 1]), raw, v);
      if w == "" then None
      else if w[0] == '}' then Some((Obj(es), w[1..]))
      else if w[0] == ',' then ParseMembers(SkipSpace(w[1..]), es, float)
      else None
  }

  function ParseElems(s: string, acc: seq<Node>, float: FloatText): (r: Option<(Node, string)>)
    ensures r.Some? ==> |r.value.1| < |s|
    decreases |s|, 1
  {
    match ParseValue(s, float)
    case None => None
    case Some((v, rest)) =>
      var w := SkipSpace(rest);
      if w == "" then None
      else if w[0] == ']' then Some((Arr(acc + [v]), w[1..]))
      else if w[0] == ',' then ParseElems(w[1..], acc + [v], float)
      else None
  }

  /** One whole JSON text. */
  function Parse(s: string, float: FloatText): Option<Node> {
    match ParseValue(s, float)
    case None => None
    case Some((n, rest)) => if SkipSpace(rest) == "" then Some(n) else None
  }

  // ---- well-formed documents ----

  ghost predicate IsScalarText(t: string, float: FloatText) {
    || IsJsonString(t)
    || t == "true" || t == "false" || t == "null"
    || (IsNumber(t) && (Canonical(t, float) == Some(t) || Canonical(t, float) == None))
  }

  /** Leaves hold stored scalars, and keys are distinct strings kept with their text. */
  ghost predicate WellFormed(n: Node, float: FloatText) {
    match n
    case Nil => true
    case Leaf(t) => IsScalarText(t, float)
    case Obj(es) =>
      && Distinct(es)
      && forall i :: 0 <= i < |es| ==>
           && IsJsonString(es[i].raw) && StringValue(es[i].raw) == es[i].key
           && WellFormed(es[i].val, float)
    case Arr(a) => forall i :: 0 <= i < |a| ==> WellFormed(a[i], float)
  }

  // ---- parsing undoes rendering ----

  lemma StringScalar(t: string, rest: string, float: FloatText)
    requires IsJsonString(t)
    ensures BodyLength((t + rest)[1..]) == Some(|t| - 2)
    ensures ParseScalar(t + rest, float) == Some((Leaf(t), rest))
  {
    BodyThenRest(t[1..], rest);
    assert (t + rest)[1..] == t[1..] + rest;
    assert (t + rest)[..|t|] == t && (t + rest)[|t|..] == rest;
  }

  lemma NumberScalar(t: string, rest: string, float: FloatText)
    requires IsNumber(t) && Stored(t, float) == t && StopsNumber(rest)
    ensures ParseScalar(t + rest, float) == Some((Leaf(t), rest))
    ensures t != "" && t[0] !in " \t\n\r{["
  {
    ScansExactlyNumbers(t);
    NumberThenRest(t, rest);
    assert (t + rest)[..|t|] == t && (t + rest)[|t|..] == rest;
    assert t != "" && (t[0] == '-' || IsDigit(t[0]));
    assert (t + rest)[0] == t[0];
  }

  lemma ScalarReadsBack(t: string, rest: string, float: FloatText)
    requires IsScalarText(t, float) && StopsNumber(rest)
    ensures ParseValue(t + rest, float) == Some((Leaf(t), rest))
    ensures t != "" && t[0] !in " \t\n\r}]"
  {
    var s := t + rest;
    if IsJsonString(t) {
      StringScalar(t, rest, float);
    } else if t == "true" || t == "false" || t == "null" {
      assert s[..|t|] == t && s[|t|..] == rest;
    } else {
      NumberScalar(t, rest, float);
    }
    assert s[0] == t[0];
    assert SkipSpace(s) == s;
  }

  lemma RenderStart(n: Node, float: FloatText)
    requires WellFormed(n, float)
    ensures Render(n) != "" && Render(n)[0] !in " \t\n\r}]"
  {
    if n.Leaf? {
      ScalarReadsBack(n.text, "", float);
    }
  }

  /** What follows the `i`th member or element of `n` values, the rest of them and `close` to come. */
  function After(last: bool, more: string, close: char, rest: string): string {
    if last then [close] + rest else "," + more + [close] + rest
  }

  lemma AfterStops(last: bool, more: string, close: char, rest: string)
    requires close in "}]"
    ensures var t := After(last, more, close, rest);
            StopsNumber(t) && SkipSpace(t) == t && t != "" && t[0] == (if last then close else ',')
    ensures last ==> After(last, more, close, rest)[1..] == rest
    ensures !last ==> After(last, more, close, rest)[1..] == more + [close] + rest
  {
    assert ("," + more + [close] + rest)[1..] == more + [close] + rest;
  }

  lemma FieldsText(es: seq<Entry<Node>>, i: nat, rest: string)
    requires i < |es|
    ensures RenderFields(es[i..]) + "}" + rest ==
            es[i].raw + ":" + Render(es[i].val) + After(i + 1 == |es|, RenderFields(es[i + 1..]), '}', rest)
  {
    assert es[i..][0] == es[i] && es[i..][1..] == es[i + 1..];
  }

  lemma FieldsStart(es: seq<Entry<Node>>, i: nat, rest: string)
    requires i < |es| && IsJsonString(es[i].raw)
    ensures var s := RenderFields(es[i..]) + "}" + rest;
            s != "" && s[0] == '"' && SkipSpace(s) == s
  {
    var e, after := es[i], After(i + 1 == |es|, RenderFields(es[i + 1..]), '}', rest);
    FieldsText(es, i, rest);
    NoSpaceBefore(e.raw, ":" + Render(e.val) + after);
    RegroupMember(e.raw, Render(e.val), after);
  }

  lemma RegroupMember(raw: string, text: string, tail: string)
    ensures raw + ":" + text + tail == raw + (":" + text + tail)
  {
  }

  lemma ElemsText(a: seq<Node>, i: nat, rest: string)
    requires i < |a|
    ensures RenderElems(a[i..]) + "]" + rest ==
            Render(a[i]) + After(i + 1 == |a|, RenderElems(a[i + 1..]), ']', rest)
  {
    assert a[i..][0] == a[i] && a[i..][1..] == a[i + 1..];
  }

  lemma NoSpaceBefore(s: string, t: string)
    requires s != "" && s[0] !in " \t\n\r"
    ensures SkipSpace(s + t) == s + t && (s + t)[0] == s[0]
  {
  }

  /** A rendered node, whatever follows it, parses as the node with nulls for holes. */
  lemma {:induction false} RenderedReadsBack(n: Node, rest: string, float: FloatText)
    requires WellFormed(n, float) && StopsNumber(rest)
    ensures ParseValue(Render(n) + rest, float) == Some((Norm(n), rest))
    decreases n, 1
  {
    match n
    case Nil => ScalarReadsBack("null", rest, float);
    case Leaf(t) => ScalarReadsBack(t, rest, float);
    case Obj(es) => ObjReadsBack(es, rest, float);
    case Arr(a) => ArrReadsBack(a, rest, float);
  }

  lemma {:induction false} ObjReadsBack(es: seq<Entry<Node>>, rest: string, float: FloatText)
    requires WellFormed(Obj(es), float)
    ensures ParseValue(Render(Obj(es)) + rest, float) == Some((Obj(NormFields(es)), rest))
    decreases es, |es| + 1
  {
    var s := Render(Obj(es)) + rest;
    var body := RenderFields(es) + "}" + rest;
    assert s[0] == '{' && s[1..] == body;
    assert SkipSpace(s) == s;
    if es == [] {
      assert body == "}" + rest && body[1..] == rest;
      assert NormFields(es) == [];
    } else {
      assert es[0..] == es && NormFields(es)[..0] == [];
      FieldsStart(es, 0, rest);
      FieldsReadBack(es, 0, rest, float);
    }
  }

  lemma {:induction false} ArrReadsBack(a: seq<Node>, rest: string, float: FloatText)
    requires WellFormed(Arr(a), float)
    ensures ParseValue(Render(Arr(a)) + rest, float) == Some((Arr(NormElems(a)), rest))
    decreases a, |a| + 1
  {
    var s := Render(Arr(a)) + rest;
    var body := RenderElems(a) + "]" + rest;
    assert s[0] == '[' && s[1..] == body;
    assert SkipSpace(s) == s;
    if a == [] {
      assert body == "]" + rest && body[1..] == rest;
      assert NormElems(a) == [];
    } else {
      RenderStart(a[0], float);
      ElemsText(a, 0, rest);
      ElemsReadBack(a, 0, rest, float);
      assert a[0..] == a && NormElems(a)[..0] == [];
      NoSpaceBefore(Render(a[0]), After(1 == |a|, RenderElems(a[1..]), ']', rest));
    }
  }

  lemma PutAbsent(es: seq<Entry<Node>>, k: string, raw: string, v: Node)
    requires forall j :: 0 <= j < |es| ==> es[j].key != k
    ensures PutEntry(es, k, raw, v) == es + [Entry(k, raw, v)]
  {
    AbsentKey(es, k);
  }

  lemma PutNewKey(es: seq<Entry<Node>>, i: nat)
    requires Distinct(es) && i < |es|
    ensures PutEntry(NormFields(es)[..i], es[i].key, es[i].raw, Norm(es[i].val)) == NormFields(es)[..i + 1]
  {
    var all := NormFields(es);
    PutAbsent(all[..i], es[i].key, es[i].raw, Norm(es[i].val));
    TakeNext(all, i);
  }

  lemma {:induction false} AbsentKey(es: seq<Entry<Node>>, k: string)
    requires forall j :: 0 <= j < |es| ==> es[j].key != k
    ensures IndexOf(es, k) == |es|
  {
    if es != [] {
      AbsentKey(es[1..], k);
    }
  }

  lemma MemberRead(raw: string, text: string, tail: string, v: Node, rest: string, float: FloatText)
    requires IsJsonString(raw)
    requires ParseValue(text + tail, float) == Some((v, rest)) && SkipSpace(rest) == rest
    ensures ParseMember(raw + (":" + text + tail), float) == Some((raw, v, rest))
  {
    var more := ":" + text + tail;
    StringScalar(raw, more, float);
    MemberParts(raw, more);
    assert SkipSpace(more) == more && more[1..] == text + tail;
  }

  lemma MemberStep(raw: string, text: string, tail: string, acc: seq<Entry<Node>>, v: Node, rest: string,
      float: FloatText)
    requires IsJsonString(raw)
    requires ParseValue(text + tail, float) == Some((v, rest)) && SkipSpace(rest) == rest && rest != ""
    ensures var s := raw + ":" + text + tail;
            var es := PutEntry(acc, StringValue(raw), raw, v);
            ParseMembers(s, acc, float) ==
            if rest[0] == '}' then Some((Obj(es), rest[1..]))
            else if rest[0] == ',' then ParseMembers(SkipSpace(rest[1..]), es, float)
            else None
  {
    MemberRead(raw, text, tail, v, rest, float);
    assert raw + ":" + text + tail == raw + (":" + text + tail);
  }

  lemma MemberParts(raw: string, more: string)
    requires |raw| >= 2
    ensures var s := raw + more;
            s[0] == raw[0] && s[..|raw|] == raw && s[|raw|..] == more && s[1..|raw| - 1] == raw[1..|raw| - 1]
  {
  }

  lemma {:induction false} FieldsReadBack(es: seq<Entry<Node>>, i: nat, rest: string, float: FloatText)
    requires WellFormed(Obj(es), float) && i < |es|
    ensures ParseMembers(RenderFields(es[i..]) + "}" + rest, NormFields(es)[..i], float) ==
            Some((Obj(NormFields(es)), rest))
    decreases es, |es| - i
  {
    var e, last := es[i], i + 1 == |es|;
    var after := After(last, RenderFields(es[i + 1..]), '}', rest);
    FieldsText(es, i, rest);
    AfterStops(last, RenderFields(es[i + 1..]), '}', rest);
    RenderedReadsBack(e.val, after, float);
    MemberStep(e.raw, Render(e.val), after, NormFields(es)[..i], Norm(e.val), after, float);
    PutNewKey(es, i);
    if last {
      assert NormFields(es)[..i + 1] == NormFields(es);
    } else {
      FieldsReadBack(es, i + 1, rest, float);
      FieldsStart(es, i + 1, rest);
    }
  }

  lemma ElemStep(text: string, after: string, acc: seq<Node>, v: Node, float: FloatText)
    requires ParseValue(text + after, float) == Some((v, after)) && SkipSpace(after) == after && after != ""
    ensures ParseElems(text + after, acc, float) ==
            if after[0] == ']' then Some((Arr(acc + [v]), after[1..]))
            else if after[0] == ',' then ParseElems(after[1..], acc + [v], float)
            else None
  {
  }

  lemma {:induction false} ElemsReadBack(a: seq<Node>, i: nat, rest: string, float: FloatText)
    requires WellFormed(Arr(a), float) && i < |a|
    ensures ParseElems(RenderElems(a[i..]) + "]" + rest, NormElems(a)[..i], float) ==
            Some((Arr(NormElems(a)), rest))
    decreases a, |a| - i
  {
    var last := i + 1 == |a|;
    var after := After(last, RenderElems(a[i + 1..]), ']', rest);
    ElemsText(a, i, rest);
    AfterStops(last, RenderElems(a[i + 1..]), ']', rest);
    RenderedReadsBack(a[i], after, float);
    ElemStep(Render(a[i]), after, NormElems(a)[..i], Norm(a[i]), float);
    ElemsPrefix(a, i);
    if !last {
      ElemsReadBack(a, i + 1, rest, float);
    }
  }

  lemma TakeNext<T>(t: seq<T>, i: nat)
    requires i < |t|
    ensures t[..i] + [t[i]] == t[..i + 1]
    ensures i + 1 == |t| ==> t[..i + 1] == t
  {
  }

  lemma ElemsPrefix(a: seq<Node>, i: nat)
    requires i < |a|
    ensures NormElems(a)[..i] + [Norm(a[i])] == NormElems(a)[..i + 1]
    ensures i + 1 == |a| ==> NormElems(a)[..i + 1] == NormElems(a)
  {
    TakeNext(NormElems(a), i);
  }

  /** A document's text parses as the document, hole for null. */
  lemma ParseRender(n: Node, float: FloatText)
    requires WellFormed(n, float)
    ensures Parse(Render(n), float) == Some(Norm(n)) && Same(Norm(n), n)
  {
    RenderedReadsBack(n, "", float);
    assert Render(n) + "" == Render(n);
    NormSame(n);
  }

  /** The text does not tell a hole from a null either. */
  lemma {:induction false} RenderNorm(n: Node)
    ensures Render(Norm(n)) == Render(n)
    decreases n, 0
  {
    match n
    case Obj(es) => RenderNormFields(es);
    case Arr(a) => RenderNormElems(a);
    case _ =>
  }

  lemma {:induction false} RenderNormFields(es: seq<Entry<Node>>)
    ensures RenderFields(NormFields(es)) == RenderFields(es)
    decreases es, 1
  {
    if es != [] {
      RenderNorm(es[0].val);
      RenderNormFields(es[1..]);
      assert NormFields(es)[1..] == NormFields(es[1..]);
    }
  }

  lemma {:induction false} RenderNormElems(a: seq<Node>)
    ensures RenderElems(NormElems(a)) == RenderElems(a)
    decreases a, 1
  {
    if a != [] {
      RenderNorm(a[0]);
      RenderNormElems(a[1..]);
      assert NormElems(a)[1..] == NormElems(a[1..]);
    }
  }

  // ---- reachable documents are well-formed ----

  /** What a member of a well-formed object is. */
  ghost predicate MemberOk(e: Entry<Node>, float: FloatText) {
    IsJsonString(e.raw) && StringValue(e.raw) == e.key && WellFormed(e.val, float)
  }

  ghost predicate MembersOk(es: seq<Entry<Node>>, float: FloatText) {
    forall i :: 0 <= i < |es| ==> MemberOk(es[i], float)
  }

  lemma PutMembersOk(es: seq<Entry<Node>>, k: string, raw: string, v: Node, float: FloatText)
    requires MembersOk(es, float) && MemberOk(Entry(k, raw, v), float)
    ensures MembersOk(PutEntry(es, k, raw, v), float)
  {
  }

  lemma PutWellFormed(es: seq<Entry<Node>>, k: string, raw: string, v: Node, float: FloatText)
    requires WellFormed(Obj(es), float) && WellFormed(v, float)
    requires IsJsonString(raw) && StringValue(raw) == k
    ensures WellFormed(Obj(PutEntry(es, k, raw, v)), float)
  {
    KeepsOrder(es, k, raw, v);
    assert MembersOk(es, float);
    PutMembersOk(es, k, raw, v, float);
    ObjOk(PutEntry(es, k, raw, v), float);
  }

  lemma ObjOk(es: seq<Entry<Node>>, float: FloatText)
    requires Distinct(es) && MembersOk(es, float)
    ensures WellFormed(Obj(es), float)
  {
    forall i | 0 <= i < |es|
      ensures MemberOk(es[i], float)
    {
    }
  }

  lemma PadWellFormed(a: seq<Node>, i: nat, v: Node, float: FloatText)
    requires WellFormed(Arr(a), float) && WellFormed(v, float)
    ensures WellFormed(Arr(a + [v]), float) && WellFormed(Arr(Pad(a, i + 1)[i := v]), float)
    ensures WellFormed(Descend(Some(Pad(a, i + 1)[i])), float)
  {
  }

  lemma {:induction false} SetWellFormed(n: Node, p: seq<string>, v: Node, float: FloatText)
    requires p != [] && WellFormed(n, float) && WellFormed(v, float)
    ensures Set(n, p, v).Ok? ==> WellFormed(Set(n, p, v).node, float)
    decreases |p|, if IsContainer(n) then 0 else 1
  {
    match n
    case Obj(es) => SetWellFormedObj(es, p, v, float);
    case Arr(a) => SetWellFormedArr(a, p, v, float);
    case _ => SetWellFormed(EMPTY_OBJ, p, v, float);
  }

  lemma {:induction false} SetWellFormedObj(es: seq<Entry<Node>>, p: seq<string>, v: Node, float: FloatText)
    requires p != [] && WellFormed(Obj(es), float) && WellFormed(v, float)
    ensures Set(Obj(es), p, v).Ok? ==> WellFormed(Set(Obj(es), p, v).node, float)
    decreases |p|, 0, 0
  {
    QuoteReadsBack(p[0]);
    if |p| == 1 {
      PutWellFormed(es, p[0], Quote(p[0]), v, float);
    } else {
      var d := Descend(Child(Obj(es), p[0]));
      SetWellFormed(d, p[1..], v, float);
      if Set(d, p[1..], v).Ok? {
        PutWellFormed(es, p[0], Quote(p[0]), Set(d, p[1..], v).node, float);
      }
    }
  }

  lemma {:induction false} SetWellFormedArr(a: seq<Node>, p: seq<string>, v: Node, float: FloatText)
    requires p != [] && WellFormed(Arr(a), float) && WellFormed(v, float)
    ensures Set(Arr(a), p, v).Ok? ==> WellFormed(Set(Arr(a), p, v).node, float)
    decreases |p|, 0, 0
  {
    if p[0] == "-1" || Index(p[0]).Some? {
      var i := if p[0] == "-1" then |a| else Index(p[0]).value;
      var d := if p[0] == "-1" then EMPTY_OBJ else Descend(Some(Pad(a, i + 1)[i]));
      PadWellFormed(a, i, v, float);
      if |p| > 1 {
        SetWellFormed(d, p[1..], v, float);
        if Set(d, p[1..], v).Ok? {
          PadWellFormed(a, i, Set(d, p[1..], v).node, float);
        }
      }
    }
  }

  lemma CutWellFormed(a: seq<Node>, i: nat, v: Node, float: FloatText)
    requires WellFormed(Arr(a), float) && i < |a| && WellFormed(v, float)
    ensures WellFormed(Arr(a[..i] + a[i + 1..]), float) && WellFormed(Arr(a[i := v]), float)
    ensures WellFormed(a[i], float)
  {
  }

  lemma {:induction false} DelWellFormed(n: Node, p: seq<string>, float: FloatText)
    requires p != [] && WellFormed(n, float)
    ensures WellFormed(Del(n, p), float)
    decreases |p|, 1
  {
    match n
    case Obj(es) => DelWellFormedObj(es, p, float);
    case Arr(a) =>
      if Index(p[0]).Some? && Index(p[0]).value < |a| {
        var i := Index(p[0]).value;
        CutWellFormed(a, i, Nil, float);
        if |p| > 1 {
          DelWellFormed(a[i], p[1..], float);
          CutWellFormed(a, i, Del(a[i], p[1..]), float);
        }
      }
    case _ =>
  }

  lemma RemoveWellFormed(es: seq<Entry<Node>>, k: string, float: FloatText)
    requires WellFormed(Obj(es), float)
    ensures WellFormed(Obj(RemoveEntry(es, k)), float)
    ensures Has(es, k) ==> WellFormed(At(es, k), float)
  {
    KeepsOrder(es, k, "", Nil);
  }

  lemma {:induction false} DelWellFormedObj(es: seq<Entry<Node>>, p: seq<string>, float: FloatText)
    requires p != [] && WellFormed(Obj(es), float)
    ensures WellFormed(Del(Obj(es), p), float)
    decreases |p|, 0
  {
    RemoveWellFormed(es, p[0], float);
    if |p| > 1 && Has(es, p[0]) {
      QuoteReadsBack(p[0]);
      DelWellFormed(At(es, p[0]), p[1..], float);
      PutWellFormed(es, p[0], Quote(p[0]), Del(At(es, p[0]), p[1..]), float);
    }
  }

  lemma {:induction false} BodyCut(s: string)
    requires BodyLength(s).Some?
    ensures BodyLength(s).value < |s| && BodyLength(s[..BodyLength(s).value + 1]) == BodyLength(s)
    ensures s[BodyLength(s).value] == '"'
    decreases |s|
  {
    var n := BodyLength(s).value;
    if s[0] != '"' {
      var skip := if s[0] != '\\' then 1 else if |s| > 1 && s[1] == 'u' then 6 else 2;
      var rest := s[skip..];
      BodyCut(rest);
      assert BodyLength(rest) == Some(n - skip);
      CutLater(s, skip, n + 1);
    }
  }

  lemma CutLater(s: string, skip: nat, end: nat)
    requires skip <= end <= |s|
    ensures s[..end][skip..] == s[skip..][..end - skip]
    ensures skip == 6 ==> Hex4(s[..end][2..]) == Hex4(s[2..])
  {
  }

  lemma StringCut(t: string)
    requires t != "" && t[0] == '"' && BodyLength(t[1..]).Some?
    ensures var end := BodyLength(t[1..]).value + 2;
            end <= |t| && IsJsonString(t[..end]) && StringValue(t[..end]) == Unescape(t[1..end - 1])
  {
    var end := BodyLength(t[1..]).value + 2;
    BodyCut(t[1..]);
    assert t[..end][1..] == t[1..][..end - 1];
    assert t[..end][1..end - 1] == t[1..end - 1];
  }

  lemma NumberCut(t: string, float: FloatText)
    requires Shortest(float) && Scan(t).Some?
    ensures var c := Scan(t).value.2;
            0 < c <= |t| && IsScalarText(Stored(t[..c], float), float)
  {
    ScanCut(t);
    var num := t[..Scan(t).value.2];
    ScansExactlyNumbers(num);
    if Canonical(num, float).Some? {
      CanonicalIdempotent(num, float);
    }
  }

  lemma {:induction false} ParsedWellFormed(s: string, float: FloatText)
    requires Shortest(float)
    ensures ParseValue(s, float).Some? ==> WellFormed(ParseValue(s, float).value.0, float)
    decreases |s|, 0
  {
    var t := SkipSpace(s);
    if t == "" {
    } else if t[0] == '{' {
      MembersWellFormed(SkipSpace(t[1..]), [], float);
    } else if t[0] == '[' {
      ElemsWellFormed(SkipSpace(t[1..]), [], float);
    } else if t[0] == '"' {
      if BodyLength(t[1..]).Some? {
        StringCut(t);
      }
    } else if Scan(t).Some? {
      NumberCut(t, float);
    }
  }

  lemma {:induction false} MembersWellFormed(s: string, acc: seq<Entry<Node>>, float: FloatText)
    requires Shortest(float) && WellFormed(Obj(acc), float)
    ensures ParseMembers(s, acc, float).Some? ==> WellFormed(ParseMembers(s, acc, float).value.0, float)
    decreases |s|, 1
  {
    if s != "" && s[0] == '"' && BodyLength(s[1..]).Some? {
      StringCut(s);
      var end := BodyLength(s[1..]).value + 2;
      var u := SkipSpace(s[end..]);
      if u != "" && u[0] == ':' && ParseValue(u[1..], float).Some? {
        var (v, rest) := ParseValue(u[1..], float).value;
        ParsedWellFormed(u[1..], float);
        var w := SkipSpace(rest);
        PutWellFormed(acc, Unescape(s[1..end - 1]), s[..end], v, float);
        if w != "" && w[0] == ',' {
          MembersWellFormed(SkipSpace(w[1..]), PutEntry(acc, Unescape(s[1..end - 1]), s[..end], v), float);
        }
      }
    }
  }

  lemma {:induction false} ElemsWellFormed(s: string, acc: seq<Node>, float: FloatText)
    requires Shortest(float) && WellFormed(Arr(acc), float)
    ensures ParseElems(s, acc, float).Some? ==> WellFormed(ParseElems(s, acc, float).value.0, float)
    decreases |s|, 1
  {
    ParsedWellFormed(s, float);
    if ParseValue(s, float).Some? {
      var (v, rest) := ParseValue(s, float).value;
      var w := SkipSpace(rest);
      if w != "" && w[0] == ',' {
        ElemsWellFormed(w[1..], acc + [v], float);
      }
    }
  }
}
