/**
 The document and its writes: what a write does in memory, what its record does
 when the file is loaded, and the store that caches the document's text.
 */
module Document {
  import opened Lines
  import opened Options
  import opened JsonNumbers
  import opened JsonStrings
  import opened OrderedObject
  import opened JsonTree
  import opened TreePaths
  import opened TreeLaws
  import opened JsonText
  import opened AofLog

  datatype Write = SetWrite(key: string, val: Node) | DelWrite(key: string)

  /** A failed set leaves the document as it was. */
  function Apply(d: Node, w: Write): Node {
    match w
    case SetWrite(k, v) => (match SetPath(d, k, v) case Ok(n) => n case Err(_) => d)
    case DelWrite(k) => DelPath(d, k)
  }

  function Live(d: Node, ws: seq<Write>): Node {
    if ws == [] then d else Apply(Live(d, ws[..|ws| - 1]), ws[|ws| - 1])
  }

  // ---- records ----

  function ToRecord(w: Write): Record {
    match w
    case SetWrite(k, v) => SetRec(k, Render(v))
    case DelWrite(k) => DelRec(k)
  }

  function ToRecords(ws: seq<Write>): seq<Record> {
    seq(|ws|, i requires 0 <= i < |ws| => ToRecord(ws[i]))
  }

  /** nodeFromRaw: a scalar's text is stored, an object or array is parsed. */
  function NodeFromRaw(raw: string, float: FloatText): Node {
    var t := SkipSpace(raw);
    if t != "" && t[0] !in "{[" then Leaf(Stored(raw, float))
    else
      match Parse(raw, float)
      case Some(n) => n
      case None => Leaf(raw)
  }

  /** A snapshot record that holds no object leaves an empty document. */
  function Root(raw: string, float: FloatText): Node {
    match Parse(raw, float)
    case Some(n) => if n.Obj? then n else EMPTY_OBJ
    case None => EMPTY_OBJ
  }

  function ApplyRecord(d: Node, r: Record, float: FloatText): Node {
    match r
    case SetRec(k, t) => Apply(d, SetWrite(k, NodeFromRaw(t, float)))
    case DelRec(k) => Apply(d, DelWrite(k))
    case SnapRec(t) => Root(t, float)
  }

  /** The document after loading `recs` into `d`. */
  function Reload(d: Node, recs: seq<Record>, float: FloatText): Node {
    if recs == [] then d else ApplyRecord(Reload(d, recs[..|recs| - 1], float), recs[|recs| - 1], float)
  }

  ghost predicate WriteOk(w: Write, float: FloatText) {
    NoNewline(w.key) && (w.SetWrite? ==> WellFormed(w.val, float))
  }

  ghost predicate WritesOk(ws: seq<Write>, float: FloatText) {
    forall i :: 0 <= i < |ws| ==> WriteOk(ws[i], float)
  }

  /** Root documents are well-formed objects. */
  ghost predicate DocumentOk(d: Node, float: FloatText) {
    d.Obj? && WellFormed(d, float)
  }

  // ---- text has no newlines ----

  lemma {:induction false} BodyVisible(s: string)
    requires BodyLength(s).Some?
    ensures forall i :: 0 <= i <= BodyLength(s).value < |s| ==> s[i] >= ' '
    decreases |s|
  {
    if s[0] != '"' {
      var skip := if s[0] != '\\' then 1 else if |s| > 1 && s[1] == 'u' then 6 else 2;
      BodyVisible(s[skip..]);
      forall i | 0 <= i <= BodyLength(s).value < |s|
        ensures s[i] >= ' '
      {
        if i >= skip {
          assert s[i] == s[skip..][i - skip];
        } else if i >= 2 {
          assert s[i] == s[2..][i - 2];
        }
      }
    }
  }

  lemma StringNewlineFree(t: string)
    requires IsJsonString(t)
    ensures NoNewline(t)
  {
    BodyVisible(t[1..]);
    forall i | 0 <= i < |t|
      ensures t[i] >= ' '
    {
      if i > 0 {
        assert t[i] == t[1..][i - 1];
      }
    }
  }

  lemma NumberNewlineFree(t: string)
    requires IsNumber(t)
    ensures NoNewline(t)
  {
    var minus, int_, frac, exp :| NumberParts(t, minus, int_, frac, exp);
    assert NoNewline(int_) && NoNewline(frac) by {
      assert frac != "" ==> frac == ['.'] + frac[1..];
    }
    assert NoNewline(exp) by {
      if exp != "" {
        var n := if |exp| > 1 && exp[1] in "+-" then 2 else 1;
        assert exp == exp[..n] + exp[n..];
        assert exp[..n] == if n == 1 then [exp[0]] else [exp[0], exp[1]];
      }
    }
  }

  lemma {:induction false} RenderNewlineFree(n: Node, float: FloatText)
    requires WellFormed(n, float)
    ensures NoNewline(Render(n))
    decreases n, 0
  {
    match n
    case Leaf(t) =>
      if IsJsonString(t) {
        StringNewlineFree(t);
      } else if IsNumber(t) {
        NumberNewlineFree(t);
      }
    case Obj(es) => FieldsNewlineFree(es, float);
    case Arr(a) => ElemsNewlineFree(a, float);
    case Nil =>
  }

  lemma {:induction false} FieldsNewlineFree(es: seq<Entry<Node>>, float: FloatText)
    requires forall i :: 0 <= i < |es| ==> IsJsonString(es[i].raw) && WellFormed(es[i].val, float)
    ensures NoNewline(RenderFields(es))
    decreases es, 1
  {
    if es != [] {
      StringNewlineFree(es[0].raw);
      RenderNewlineFree(es[0].val, float);
      FieldsNewlineFree(es[1..], float);
    }
  }

  lemma {:induction false} ElemsNewlineFree(a: seq<Node>, float: FloatText)
    requires forall i :: 0 <= i < |a| ==> WellFormed(a[i], float)
    ensures NoNewline(RenderElems(a))
    decreases a, 1
  {
    if a != [] {
      RenderNewlineFree(a[0], float);
      ElemsNewlineFree(a[1..], float);
    }
  }

  lemma RecordsPrintable(ws: seq<Write>, float: FloatText)
    requires WritesOk(ws, float)
    ensures forall i :: 0 <= i < |ws| ==> Printable(ToRecords(ws)[i])
  {
    forall i | 0 <= i < |ws|
      ensures Printable(ToRecord(ws[i]))
    {
      if ws[i].SetWrite? {
        RenderNewlineFree(ws[i].val, float);
      }
    }
  }

  // ---- loading a record does what its write did ----

  lemma LeafStored(t: string, float: FloatText)
    requires IsScalarText(t, float)
    ensures Stored(t, float) == t && SkipSpace(t) == t && t != "" && t[0] !in "{["
  {
    ScalarReadsBack(t, "", float);
    if !IsNumber(t) {
      CanonicalAccepts(t, float);
    } else {
      NumberScalar(t, "", float);
    }
  }

  // ---- the text a number is stored as ----

  /** An integer as it is, any other number as the text of its float, or as it is if that is out of range. */
  ghost function NumberText(t: string, float: FloatText): string {
    if IsIntegerText(t) then t
    else match float(t) case Some(c) => c case None => t
  }

  /** Every number that is loaded, on its own or as a whole document, is stored as that text. */
  lemma NumberStored(t: string, float: FloatText)
    requires IsNumber(t)
    ensures NodeFromRaw(t, float) == Leaf(NumberText(t, float))
    ensures Parse(t, float) == Some(Leaf(NumberText(t, float)))
  {
    CanonicalExactly(t, float);
    NumberStart(t);
    NumberParses(t, float);
  }

  lemma NumberParses(t: string, float: FloatText)
    requires IsNumber(t)
    ensures Parse(t, float) == Some(Leaf(Stored(t, float)))
  {
    NumberStart(t);
    ScansExactlyNumbers(t);
    assert t[..|t|] == t && t[|t|..] == "";
  }

  lemma NumberStart(t: string)
    requires IsNumber(t)
    ensures t != "" && (t[0] == '-' || IsDigit(t[0])) && SkipSpace(t) == t
  {
    ScansExactlyNumbers(t);
  }

  lemma {:induction false} LookupWellFormed(n: Node, p: seq<string>, float: FloatText)
    requires WellFormed(n, float) && Lookup(n, p).Some?
    ensures WellFormed(Lookup(n, p).value, float)
    decreases |p|
  {
    if p != [] {
      LookupWellFormed(Child(n, p[0]).value, p[1..], float);
    }
  }

  /**
   However deep in a document that is loaded, a number that is no integer has the text
   of its float, if that is in range.
   */
  lemma ParsedNumbers(s: string, n: Node, p: seq<string>, t: string, float: FloatText)
    requires Shortest(float) && Parse(s, float) == Some(n) && Lookup(n, p) == Some(Leaf(t)) && IsNumber(t)
    ensures IsIntegerText(t) || float(t) == Some(t) || float(t) == None
  {
    ParsedWellFormed(s, float);
    LookupWellFormed(n, p, float);
    CanonicalExactly(t, float);
    NumberStart(t);
  }

  /** A value's stored text gives the value back, hole for null. */
  lemma RenderedNode(n: Node, float: FloatText)
    requires WellFormed(n, float)
    ensures NodeFromRaw(Render(n), float) == Norm(n)
  {
    match n
    case Leaf(t) => LeafStored(t, float);
    case Nil => LeafStored("null", float);
    case _ =>
      ParseRender(n, float);
      assert SkipSpace(Render(n)) == Render(n);
  }

  lemma WriteRecordSame(d: Node, e: Node, w: Write, float: FloatText)
    requires Same(d, e) && WriteOk(w, float)
    ensures Same(Apply(d, w), ApplyRecord(e, ToRecord(w), float))
  {
    match w
    case SetWrite(k, v) =>
      RenderedNode(v, float);
      NormSame(v);
      PathRefinesSegments(d, k, v);
      PathRefinesSegments(e, k, Norm(v));
      SetSame(d, e, SplitTreePath(k), v, Norm(v));
    case DelWrite(k) =>
      PathRefinesSegments(d, k, Nil);
      PathRefinesSegments(e, k, Nil);
      DelSame(d, e, SplitTreePath(k));
  }

  /** A write cannot tell a hole from null. */
  lemma ApplySame(d: Node, e: Node, w: Write)
    requires Same(d, e)
    ensures Same(Apply(d, w), Apply(e, w))
  {
    var v := if w.SetWrite? then w.val else Nil;
    PathRefinesSegments(d, w.key, v);
    PathRefinesSegments(e, w.key, v);
    match w
    case SetWrite(k, v) => SetSame(d, e, SplitTreePath(k), v, v);
    case DelWrite(k) => DelSame(d, e, SplitTreePath(k));
  }

  /** Loading the records of writes gives, hole for null, the document the writes gave. */
  lemma {:induction false} ReloadSame(d: Node, e: Node, ws: seq<Write>, float: FloatText)
    requires Same(d, e) && WritesOk(ws, float)
    ensures Same(Live(d, ws), Reload(e, ToRecords(ws), float))
  {
    if ws != [] {
      var init := ws[..|ws| - 1];
      ReloadSame(d, e, init, float);
      assert ToRecords(ws)[..|ws| - 1] == ToRecords(init);
      WriteRecordSame(Live(d, init), Reload(e, ToRecords(init), float), ws[|ws| - 1], float);
    }
  }

  /** Loading a snapshot gives the document, whatever was there before. */
  lemma SnapshotSame(d: Node, e: Node, float: FloatText)
    requires DocumentOk(d, float)
    ensures Same(d, ApplyRecord(e, SnapRec(Render(d)), float))
  {
    ParseRender(d, float);
  }

  lemma SetOk(d: Node, p: seq<string>, v: Node, float: FloatText)
    requires p != [] && DocumentOk(d, float) && WellFormed(v, float)
    ensures Set(d, p, v).Ok? ==> DocumentOk(Set(d, p, v).node, float)
  {
    SetWellFormed(d, p, v, float);
    SetKeepsObject(d, p, v);
  }

  lemma DelOk(d: Node, p: seq<string>, float: FloatText)
    requires p != [] && DocumentOk(d, float)
    ensures DocumentOk(Del(d, p), float)
  {
    DelWellFormed(d, p, float);
  }

  lemma ApplyOk(d: Node, w: Write, float: FloatText)
    requires DocumentOk(d, float) && WriteOk(w, float)
    ensures DocumentOk(Apply(d, w), float)
  {
    PathRefinesSegments(d, w.key, if w.SetWrite? then w.val else Nil);
    match w
    case SetWrite(k, v) => SetOk(d, SplitTreePath(k), v, float);
    case DelWrite(k) => DelOk(d, SplitTreePath(k), float);
  }

  // ---- the store ----

  /** The document with its lazily rebuilt text. Each method is one section under the lock. */
  class Store {
    const float: FloatText
    var root: Node
    var text: string
    var stale: bool

    ghost predicate Valid()
      reads this
    {
      DocumentOk(root, float) && (!stale ==> text == Render(root))
    }

    constructor (float: FloatText)
      ensures Valid() && this.float == float && root == EMPTY_OBJ && !stale
    {
      this.float := float;
      root, text, stale := EMPTY_OBJ, "{}", false;
      new;
      assert Render(EMPTY_OBJ) == "{}";
    }

    /** A failed set changes nothing. */
    method SetNode(k: string, val: Node) returns (ok: bool)
      requires Valid() && WellFormed(val, float)
      modifies this
      ensures Valid()
      ensures ok <==> !Misses(old(root), SplitTreePath(k))
      ensures ok ==> Ok(root) == Set(old(root), SplitTreePath(k), val) && stale
      ensures !ok ==> unchanged(this)
    {
      PathRefinesSegments(root, k, val);
      SetFailsExactly(root, SplitTreePath(k), val);
      SetOk(root, SplitTreePath(k), val, float);
      match SetPath(root, k, val)
      case Err(_) => ok := false;
      case Ok(n) => root, stale, ok := n, true, true;
    }

    method DelOnly(k: string)
      requires Valid()
      modifies this
      ensures Valid() && root == Del(old(root), SplitTreePath(k)) && stale
    {
      PathRefinesSegments(root, k, Nil);
      DelOk(root, SplitTreePath(k), float);
      root, stale := DelPath(root, k), true;
    }

    /** The first section of a clone: the source, if it is there. */
    method CloneSource(from: string) returns (src: Option<Node>)
      ensures src == Lookup(root, SplitTreePath(from))
    {
      src := LookupPath(root, from);
    }

    /** The second section: stores a copy of `src` and reports its text, empty if the set failed. */
    method CloneStore(src: Node, to: string) returns (raw: string)
      requires Valid() && WellFormed(src, float)
      modifies this
      ensures Valid()
      ensures !Misses(old(root), SplitTreePath(to)) ==>
                raw == Render(src) && Ok(root) == Set(old(root), SplitTreePath(to), Norm(src)) && stale
      ensures Misses(old(root), SplitTreePath(to)) ==> raw == "" && unchanged(this)
    {
      RenderedNode(src, float);
      NormWellFormed(src, float);
      raw := Render(src);
      var ok := SetNode(to, if src.Leaf? then src else NodeFromRaw(raw, float));
      if !ok {
        raw := "";
      }
    }

    /** snapshot's first section: the cached text, unless a write made it stale. */
    method SnapshotCached() returns (s: Option<string>)
      requires Valid()
      ensures s == if stale then None else Some(Render(root))
    {
      s := if stale then None else Some(text);
    }

    /** Its second section, after which any writer may have run: the text at this instant. */
    method SnapshotRebuilt() returns (s: string)
      requires Valid()
      modifies this`text, this`stale
      ensures Valid() && s == Render(root) && !stale
    {
      if stale {
        text, stale := Render(root), false;
      }
      s := text;
    }

    /** Takes over a document's text as it is; the cache is right exactly if the text is rendered. */
    method Replace(raw: string) returns (ok: bool)
      requires Valid() && Shortest(float)
      modifies this
      ensures ok <==> Parse(raw, float).Some?
      ensures !ok ==> unchanged(this)
      ensures ok ==> root == Root(raw, float) && text == raw && !stale
      ensures ok ==> (Valid() <==> raw == Render(root))
    {
      var n := Parse(raw, float);
      if n.None? {
        return false;
      }
      ParsedWellFormed(raw, float);
      root := if n.value.Obj? then n.value else EMPTY_OBJ;
      text, stale := raw, false;
      return true;
    }
  }

  lemma {:induction false} NormWellFormed(n: Node, float: FloatText)
    requires WellFormed(n, float)
    ensures WellFormed(Norm(n), float)
  {
    match n
    case Obj(es) =>
      forall i | 0 <= i < |es|
        ensures WellFormed(NormFields(es)[i].val, float)
      {
        NormWellFormed(es[i].val, float);
      }
    case Arr(a) =>
      forall i | 0 <= i < |a|
        ensures WellFormed(NormElems(a)[i], float)
      {
        NormWellFormed(a[i], float);
      }
    case _ =>
  }

  /** Restoring a rendered document keeps the cache right. */
  lemma ReplaceRendered(d: Node, float: FloatText)
    requires DocumentOk(d, float)
    ensures Parse(Render(d), float).Some? && Render(Root(Render(d), float)) == Render(d)
    ensures Same(Root(Render(d), float), d)
  {
    ParseRender(d, float);
    RenderNorm(d);
  }

  /** Restoring other text of the same document does not. */
  lemma ReplaceUnrendered(float: FloatText)
    ensures Parse("{ }", float) == Some(EMPTY_OBJ)
    ensures Render(Root("{ }", float)) != "{ }"
  {
    assert "{ }"[1..] == " }" && " }"[1..] == "}" && "}"[1..] == "";
    assert SkipSpace("{ }") == "{ }" && SkipSpace(" }") == "}";
    assert ParseValue("{ }", float) == Some((Obj([]), ""));
    assert Render(EMPTY_OBJ) == "{}" && |"{ }"| == 3;
  }
}
