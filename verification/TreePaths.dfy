/**
 Dotted paths: how they are split into segments, and the walks over a path
 without escapes, which must agree with the walks over its segments.
 */
module TreePaths {
  import opened Options
  import opened JsonStrings
  import opened OrderedObject
  import opened JsonTree

  // ---- splitting ----

  predicate HasEscape(path: string) {
    '\\' in path
  }

  /** The first position of `ch`, or the length. */
  function IndexByte(s: string, ch: char): (i: nat)
    ensures i <= |s| && (i < |s| ==> s[i] == ch)
    ensures forall j :: 0 <= j < i ==> s[j] != ch
  {
    if s == "" || s[0] == ch then 0 else 1 + IndexByte(s[1..], ch)
  }

  /** strings.Split on dots. */
  function SplitDots(path: string): (segs: seq<string>)
    ensures segs != []
    decreases |path|
  {
    var i := IndexByte(path, '.');
    if i == |path| then [path] else [path[..i]] + SplitDots(path[i + 1..])
  }

  /** The segments after the unfinished one `cur`, a backslash escaping what follows it. */
  function SplitFrom(path: string, cur: string): (segs: seq<string>)
    ensures segs != []
    decreases |path|
  {
    if path == "" then [cur]
    else if path[0] == '\\' && |path| > 1 then SplitFrom(path[2..], cur + [path[1]])
    else if path[0] == '.' then [cur] + SplitFrom(path[1..], "")
    else SplitFrom(path[1..], cur + [path[0]])
  }

  function SplitTreePath(path: string): (segs: seq<string>)
    ensures segs != []
  {
    if HasEscape(path) then SplitFrom(path, "") else SplitDots(path)
  }

  /** splitTreePath. */
  method SplitPath(path: string) returns (segs: seq<string>)
    ensures segs == SplitTreePath(path)
  {
    if '\\' !in path {
      return SplitDots(path);
    }
    var out, cur, i := [], "", 0;
    assert path[0..] == path && [] + SplitFrom(path, "") == SplitFrom(path, "");
    while i < |path|
      invariant i <= |path|
      invariant out + SplitFrom(path[i..], cur) == SplitFrom(path, "")
    {
      if path[i] == '\\' && i + 1 < |path| {
        assert path[i..][2..] == path[i + 2..];
        cur, i := cur + [path[i + 1]], i + 2;
      } else {
        assert path[i..][1..] == path[i + 1..];
        if path[i] == '.' {
          assert out + SplitFrom(path[i..], cur) == out + [cur] + SplitFrom(path[i + 1..], "");
          out, cur := out + [cur], "";
        } else {
          cur := cur + [path[i]];
        }
        i := i + 1;
      }
    }
    return out + [cur];
  }

  datatype Cut = Cut(seg: string, rest: string, last: bool)

  function CutSeg(path: string): Cut {
    var i := IndexByte(path, '.');
    if i == |path| then Cut(path, "", true) else Cut(path[..i], path[i + 1..], false)
  }

  lemma CutSplit(path: string)
    ensures var c := CutSeg(path);
            SplitDots(path) == if c.last then [c.seg] else [c.seg] + SplitDots(c.rest)
    ensures !CutSeg(path).last ==> |CutSeg(path).rest| < |path|
  {
  }

  lemma CutUnescaped(path: string)
    requires !HasEscape(path)
    ensures !HasEscape(CutSeg(path).rest)
    ensures '.' !in CutSeg(path).seg && '\\' !in CutSeg(path).seg
  {
    var i := IndexByte(path, '.');
    assert forall ch :: ch in path[..i] ==> ch in path;
    if i < |path| {
      assert forall ch :: ch in path[i + 1..] ==> ch in path;
    }
  }

  // ---- joining ----

  function Escape(seg: string): string {
    if seg == "" then ""
    else (if seg[0] == '.' || seg[0] == '\\' then ['\\', seg[0]] else [seg[0]]) + Escape(seg[1..])
  }

  function JoinEscaped(segs: seq<string>): string
    requires segs != []
  {
    Escape(segs[0]) + if |segs| == 1 then "" else "." + JoinEscaped(segs[1..])
  }

  lemma {:induction false} SplitEscaped(seg: string, cur: string, rest: string)
    ensures SplitFrom(Escape(seg) + rest, cur) == SplitFrom(rest, cur + seg)
    decreases |seg|
  {
    var t := Escape(seg) + rest;
    if seg == "" {
      assert t == rest && cur + seg == cur;
    } else {
      SplitEscaped(seg[1..], cur + [seg[0]], rest);
      assert cur + [seg[0]] + seg[1..] == cur + seg;
      if seg[0] == '.' || seg[0] == '\\' {
        assert t[2..] == Escape(seg[1..]) + rest;
      } else {
        assert t[1..] == Escape(seg[1..]) + rest;
      }
    }
  }

  lemma {:induction false} SplitJoined(segs: seq<string>)
    requires segs != []
    ensures SplitFrom(JoinEscaped(segs), "") == segs
  {
    var rest := if |segs| == 1 then "" else "." + JoinEscaped(segs[1..]);
    SplitEscaped(segs[0], "", rest);
    assert "" + segs[0] == segs[0];
    if |segs| > 1 {
      SplitJoined(segs[1..]);
      assert rest[1..] == JoinEscaped(segs[1..]);
    }
  }

  lemma {:induction false} SplitPlainSegment(seg: string, cur: string, rest: string)
    requires '.' !in seg && '\\' !in seg
    ensures SplitFrom(seg + rest, cur) == SplitFrom(rest, cur + seg)
    decreases |seg|
  {
    if seg == "" {
      assert seg + rest == rest && cur + seg == cur;
    } else {
      assert seg[0] in seg && forall ch :: ch in seg[1..] ==> ch in seg;
      SplitPlainSegment(seg[1..], cur + [seg[0]], rest);
      assert (seg + rest)[1..] == seg[1..] + rest;
      assert cur + [seg[0]] + seg[1..] == cur + seg;
    }
  }

  /** Without escapes the two ways to split agree. */
  lemma {:induction false} DotsAreSplits(path: string)
    requires !HasEscape(path)
    ensures SplitFrom(path, "") == SplitDots(path)
    decreases |path|
  {
    var c := CutSeg(path);
    CutSplit(path);
    CutUnescaped(path);
    CutSplitFrom(path);
    if !c.last {
      DotsAreSplits(c.rest);
    }
  }

  lemma CutSplitFrom(path: string)
    requires !HasEscape(path)
    ensures var c := CutSeg(path);
            SplitFrom(path, "") == if c.last then [c.seg] else [c.seg] + SplitFrom(c.rest, "")
  {
    var c := CutSeg(path);
    CutUnescaped(path);
    var rest := if c.last then "" else "." + c.rest;
    SplitPlainSegment(c.seg, "", rest);
    assert path == c.seg + rest;
    assert "" + c.seg == c.seg;
    assert !c.last ==> rest[1..] == c.rest;
  }

  /** Escaping, joining and splitting any list of segments gives the list back. */
  lemma EscapeJoinSplit(segs: seq<string>)
    requires segs != []
    ensures SplitTreePath(JoinEscaped(segs)) == segs
  {
    var path := JoinEscaped(segs);
    SplitJoined(segs);
    if !HasEscape(path) {
      DotsAreSplits(path);
    }
  }

  // ---- what any path says ----

  /**
   `text` says the segment `seg`: a backslash stands before a character to be taken as
   it is, and every dot and every backslash has one, but for a backslash that ends the
   path (`last`).
   */
  predicate Says(text: string, seg: string, last: bool)
    decreases |text|
  {
    if text == "" then seg == ""
    else if text == "\\" then last && seg == "\\"
    else if text[0] == '\\' then seg != "" && seg[0] == text[1] && Says(text[2..], seg[1..], last)
    else text[0] != '.' && seg != "" && seg[0] == text[0] && Says(text[1..], seg[1..], last)
  }

  /** The path is texts with dots between them, each of which says one of the segments. */
  ghost predicate SaysAll(path: string, segs: seq<string>)
    requires segs != []
    decreases |segs|
  {
    if |segs| == 1 then Says(path, segs[0], true)
    else exists i :: DotAt(path, i) && Says(path[..i], segs[0], false) && SaysAll(path[i + 1..], segs[1..])
  }

  predicate DotAt(path: string, i: int) {
    0 <= i < |path| && path[i] == '.'
  }

  /** A segment that is said is split off, up to the dot after it or the end. */
  lemma {:induction false} SaidIsSplit(text: string, seg: string, cur: string, rest: string, last: bool)
    requires Says(text, seg, last) && (if last then rest == "" else rest != "" && rest[0] == '.')
    ensures SplitFrom(text + rest, cur) == if last then [cur + seg] else [cur + seg] + SplitFrom(rest[1..], "")
    decreases |text|
  {
    var path := text + rest;
    if text == "" {
      assert path == rest && cur + seg == cur;
    } else if text == "\\" {
      assert path == text && path[1..] == "" && [path[0]] == seg;
    } else if text[0] == '\\' {
      SaidIsSplit(text[2..], seg[1..], cur + [text[1]], rest, last);
      assert path[2..] == text[2..] + rest && path[1] == text[1];
      assert cur + [text[1]] + seg[1..] == cur + seg;
    } else {
      SaidIsSplit(text[1..], seg[1..], cur + [text[0]], rest, last);
      assert path[1..] == text[1..] + rest;
      assert cur + [text[0]] + seg[1..] == cur + seg;
    }
  }

  lemma {:induction false} AllSaidIsSplit(path: string, segs: seq<string>)
    requires segs != [] && SaysAll(path, segs)
    ensures SplitFrom(path, "") == segs
    decreases |segs|
  {
    if |segs| == 1 {
      SaidIsSplit(path, segs[0], "", "", true);
      assert path + "" == path && "" + segs[0] == segs[0];
    } else {
      var i :| DotAt(path, i) && Says(path[..i], segs[0], false) && SaysAll(path[i + 1..], segs[1..]);
      AllSaidIsSplit(path[i + 1..], segs[1..]);
      SaidIsSplit(path[..i], segs[0], "", path[i..], false);
      assert path == path[..i] + path[i..] && "" + segs[0] == segs[0];
    }
  }

  /** What is left of a path after some text says its first segment's beginning. */
  lemma {:induction false} SplitIsSaid(path: string, cur: string) returns (seg: string, i: nat)
    ensures i <= |path| && Says(path[..i], seg, i == |path|)
    ensures i < |path| ==> path[i] == '.'
    ensures SplitFrom(path, cur) == if i == |path| then [cur + seg] else [cur + seg] + SplitFrom(path[i + 1..], "")
    decreases |path|
  {
    if path == "" {
      seg, i := "", 0;
      assert cur + "" == cur;
    } else if path[0] == '\\' && |path| > 1 {
      var s, j := SplitIsSaid(path[2..], cur + [path[1]]);
      seg, i := [path[1]] + s, j + 2;
      assert cur + [path[1]] + s == cur + seg && path[..i][2..] == path[2..][..j];
    } else if path[0] == '.' {
      seg, i := "", 0;
      assert cur + "" == cur && path[..0] == "";
    } else {
      var s, j := SplitIsSaid(path[1..], cur + [path[0]]);
      seg, i := [path[0]] + s, j + 1;
      assert cur + [path[0]] + s == cur + seg && path[..i][1..] == path[1..][..j];
      if path[0] == '\\' {
        assert path == "\\" && j == 0 && seg == "\\";
      } else if path[..i] == "\\" {
        assert path[..i][0] == path[0];
      }
    }
  }

  lemma {:induction false} SplitSaysAll(path: string)
    ensures SaysAll(path, SplitFrom(path, ""))
    decreases |path|
  {
    var seg, i := SplitIsSaid(path, "");
    assert "" + seg == seg;
    if i == |path| {
      assert path[..i] == path;
    } else {
      SplitSaysAll(path[i + 1..]);
      assert SplitFrom(path, "")[1..] == SplitFrom(path[i + 1..], "");
      assert DotAt(path, i);
    }
  }

  /** Any path is split into exactly the segments that it says. */
  lemma SplitsExactly(path: string, segs: seq<string>)
    requires segs != []
    ensures SplitTreePath(path) == segs <==> SaysAll(path, segs)
  {
    if !HasEscape(path) {
      DotsAreSplits(path);
    }
    SplitSaysAll(path);
    if SaysAll(path, segs) {
      AllSaidIsSplit(path, segs);
    }
  }

  // ---- walking a path without splitting it ----

  function SetPlain(n: Node, path: string, val: Node): SetResult
    decreases |path|, if IsContainer(n) then 0 else 1
  {
    var c := CutSeg(path);
    match n
    case Obj(es) =>
      if c.last then Ok(Obj(PutEntry(es, c.seg, Quote(c.seg), val)))
      else
        var child := if Has(es, c.seg) && IsContainer(At(es, c.seg)) then At(es, c.seg) else EMPTY_OBJ;
        (match SetPlain(child, c.rest, val)
         case Ok(d) => Ok(Obj(PutEntry(es, c.seg, Quote(c.seg), d)))
         case Err(e) => Err(e))
    case Arr(a) =>
      if c.seg == "-1" then
        if c.last then Ok(Arr(a + [val]))
        else
          (match SetPlain(EMPTY_OBJ, c.rest, val)
           case Ok(d) => Ok(Arr(a + [d]))
           case Err(e) => Err(e))
      else
        (match Index(c.seg)
         case None => Err(c.seg)
         case Some(i) =>
           var b := Pad(a, i + 1);
           if c.last then Ok(Arr(b[i := val]))
           else
             match SetPlain(if IsContainer(b[i]) then b[i] else EMPTY_OBJ, c.rest, val)
             case Ok(d) => Ok(Arr(b[i := d]))
             case Err(e) => Err(e))
    case _ => SetPlain(EMPTY_OBJ, path, val)
  }

  function DelPlain(n: Node, path: string): Node
    decreases |path|
  {
    var c := CutSeg(path);
    match n
    case Obj(es) =>
      if c.last then Obj(RemoveEntry(es, c.seg))
      else if Has(es, c.seg) then Obj(PutEntry(es, c.seg, Quote(c.seg), DelPlain(At(es, c.seg), c.rest)))
      else n
    case Arr(a) =>
      (match Index(c.seg)
       case None => n
       case Some(i) =>
         if i >= |a| then n
         else if c.last then Arr(a[..i] + a[i + 1..])
         else Arr(a[i := DelPlain(a[i], c.rest)]))
    case _ => n
  }

  function SetPath(n: Node, path: string, val: Node): SetResult {
    if HasEscape(path) then Set(n, SplitTreePath(path), val) else SetPlain(n, path, val)
  }

  function DelPath(n: Node, path: string): Node {
    if HasEscape(path) then Del(n, SplitTreePath(path)) else DelPlain(n, path)
  }

  /** treeLookupPath: the plain loop gives what the segments give. */
  method LookupPath(root: Node, path: string) returns (r: Option<Node>)
    ensures r == Lookup(root, SplitTreePath(path))
  {
    if '\\' in path {
      var segs := SplitPath(path);
      r := TreeLookup(root, segs);
      return;
    }
    var n, p, last := root, path, false;
    while !last
      invariant !HasEscape(p)
      invariant Lookup(root, SplitDots(path)) == if last then Some(n) else Lookup(n, SplitDots(p))
      decreases !last, |p|
    {
      var c := CutSeg(p);
      CutSplit(p);
      CutUnescaped(p);
      assert SplitDots(p)[1..] == if c.last then [] else SplitDots(c.rest);
      match n {
        case Obj(es) =>
          if !Has(es, c.seg) {
            return None;
          }
          n := At(es, c.seg);
        case Arr(a) =>
          var i := Index(c.seg);
          if i.None? || i.value >= |a| {
            return None;
          }
          n := a[i.value];
        case _ =>
          return None;
      }
      p, last := c.rest, c.last;
    }
    return Some(n);
  }

  /** Below here, the plain walk of the rest of the path does what the rest of the segments do. */
  ghost predicate RestRefines(d: Node, c: Cut, val: Node) {
    c.last || SetPlain(d, c.rest, val) == Set(d, SplitDots(c.rest), val)
  }

  lemma FirstCut(path: string)
    ensures var c, segs := CutSeg(path), SplitDots(path);
            && segs[0] == c.seg && (|segs| == 1 <==> c.last)
            && (!c.last ==> segs[1..] == SplitDots(c.rest))
  {
    CutSplit(path);
  }

  lemma SetPlainObj(es: seq<Entry<Node>>, path: string, val: Node)
    requires RestRefines(Descend(Child(Obj(es), CutSeg(path).seg)), CutSeg(path), val)
    ensures SetPlain(Obj(es), path, val) == Set(Obj(es), SplitDots(path), val)
  {
    FirstCut(path);
  }

  lemma SetPlainAppend(a: seq<Node>, path: string, val: Node)
    requires CutSeg(path).seg == "-1" && RestRefines(EMPTY_OBJ, CutSeg(path), val)
    ensures SetPlain(Arr(a), path, val) == Set(Arr(a), SplitDots(path), val)
  {
    FirstCut(path);
  }

  lemma SetPlainNowhere(a: seq<Node>, path: string, val: Node)
    requires CutSeg(path).seg != "-1" && Index(CutSeg(path).seg) == None
    ensures SetPlain(Arr(a), path, val) == Set(Arr(a), SplitDots(path), val)
  {
    FirstCut(path);
  }

  lemma SetPlainAt(a: seq<Node>, path: string, val: Node, i: nat)
    requires CutSeg(path).seg != "-1" && Index(CutSeg(path).seg) == Some(i)
    requires RestRefines(Descend(Some(Pad(a, i + 1)[i])), CutSeg(path), val)
    ensures SetPlain(Arr(a), path, val) == Set(Arr(a), SplitDots(path), val)
  {
    FirstCut(path);
  }

  /** The plain set is the segment set on the split path. */
  lemma {:induction false} SetPlainRefines(n: Node, path: string, val: Node)
    ensures SetPlain(n, path, val) == Set(n, SplitDots(path), val)
    decreases |path|, if IsContainer(n) then 0 else 1
  {
    var c := CutSeg(path);
    match n
    case Obj(es) =>
      if !c.last {
        SetPlainRefines(Descend(Child(n, c.seg)), c.rest, val);
      }
      SetPlainObj(es, path, val);
    case Arr(a) =>
      if c.seg == "-1" {
        if !c.last {
          SetPlainRefines(EMPTY_OBJ, c.rest, val);
        }
        SetPlainAppend(a, path, val);
      } else {
        match Index(c.seg)
        case None => SetPlainNowhere(a, path, val);
        case Some(i) =>
          if !c.last {
            SetPlainRefines(Descend(Some(Pad(a, i + 1)[i])), c.rest, val);
          }
          SetPlainAt(a, path, val, i);
      }
    case _ => SetPlainRefines(EMPTY_OBJ, path, val);
  }

  lemma {:induction false} DelPlainRefines(n: Node, path: string)
    ensures DelPlain(n, path) == Del(n, SplitDots(path))
    decreases |path|
  {
    var c, segs := CutSeg(path), SplitDots(path);
    CutSplit(path);
    assert segs[0] == c.seg;
    if !c.last {
      assert segs[1..] == SplitDots(c.rest);
      if Child(n, c.seg).Some? {
        DelPlainRefines(Child(n, c.seg).value, c.rest);
      }
    }
  }

  /** Whatever the path, the set and the delete the document makes are those of its segments. */
  lemma PathRefinesSegments(n: Node, path: string, val: Node)
    ensures SetPath(n, path, val) == Set(n, SplitTreePath(path), val)
    ensures DelPath(n, path) == Del(n, SplitTreePath(path))
  {
    SetPlainRefines(n, path, val);
    DelPlainRefines(n, path);
  }
}
