/**
 The JSON grammar of RFC 8259, and what each text of it stands for: the parser reads
 exactly these texts, and as just that.
 */
module JsonGrammar {
  import opened Options
  import opened JsonNumbers
  import opened JsonStrings
  import opened OrderedObject
  import opened JsonTree
  import opened JsonText

  // ---- the grammar ----

  /** ws: insignificant space. */
  predicate Spaces(s: string) {
    forall k :: 0 <= k < |s| ==> s[k] in " \t\n\r"
  }

  /** A member of an object: the text of its key, quotes included, and its value. */
  datatype Member = Member(raw: string, val: Node)

  function KeyOf(raw: string): string {
    if |raw| < 2 then "" else Unescape(raw[1..|raw| - 1])
  }

  /** The members in order; one with a key that is there already only replaces the value. */
  function PutAll(es: seq<Entry<Node>>, ms: seq<Member>): seq<Entry<Node>>
    decreases |ms|
  {
    if ms == [] then es else PutAll(PutEntry(es, KeyOf(ms[0].raw), ms[0].raw, ms[0].val), ms[1..])
  }

  ghost predicate ScalarFor(s: string, t: string, float: FloatText) {
    || (t == s && (IsJsonString(s) || s == "true" || s == "false" || s == "null"))
    || (IsNumber(s) && (Canonical(s, float) == Some(t) || (Canonical(s, float) == None && t == s)))
  }

  /** `s` is a value, without space around it, that stands for `n`. */
  ghost predicate Spells(s: string, n: Node, float: FloatText)
    decreases |s|, 0
  {
    match n
    case Nil => false
    case Leaf(t) => ScalarFor(s, t, float)
    case Arr(a) =>
      && |s| >= 2 && s[0] == '[' && s[|s| - 1] == ']'
      && var body := s[1..|s| - 1];
         if a == [] then Spaces(body) else SpellsElems(body, a, float)
    case Obj(es) =>
      && |s| >= 2 && s[0] == '{' && s[|s| - 1] == '}'
      && var body := s[1..|s| - 1];
         if es == [] then Spaces(body)
         else exists ms :: ms != [] && es == PutAll([], ms) && SpellsMembers(body, ms, float)
  }

  /** A value and the space around it. */
  ghost predicate Padded(s: string, n: Node, float: FloatText)
    decreases |s|, 2
  {
    exists before, text, after :: PaddedBy(s, before, text, after, n, float)
  }

  ghost predicate PaddedBy(s: string, before: string, text: string, after: string, n: Node, float: FloatText)
    decreases |s|, 1
  {
    s == before + text + after && Spaces(before) && Spaces(after) && Spells(text, n, float)
  }

  /** Values with commas between them. */
  ghost predicate SpellsElems(s: string, a: seq<Node>, float: FloatText)
    requires a != []
    decreases |s|, 4
  {
    if |a| == 1 then Padded(s, a[0], float) else exists c :: ElemCut(s, c, a, float)
  }

  ghost predicate ElemCut(s: string, c: nat, a: seq<Node>, float: FloatText)
    requires |a| > 1
    decreases |s|, 3
  {
    c < |s| && s[c] == ',' && Padded(s[..c], a[0], float) && SpellsElems(s[c + 1..], a[1..], float)
  }

  ghost predicate SpellsMembers(s: string, ms: seq<Member>, float: FloatText)
    requires ms != []
    decreases |s|, 4
  {
    if |ms| == 1 then SpellsMember(s, ms[0], float) else exists c :: MemberCut(s, c, ms, float)
  }

  ghost predicate MemberCut(s: string, c: nat, ms: seq<Member>, float: FloatText)
    requires |ms| > 1
    decreases |s|, 3
  {
    c < |s| && s[c] == ',' && SpellsMember(s[..c], ms[0], float) && SpellsMembers(s[c + 1..], ms[1..], float)
  }

  /** A key, a colon and a value, and space around each. */
  ghost predicate SpellsMember(s: string, m: Member, float: FloatText)
    decreases |s|, 2
  {
    exists before, after, value :: MemberBy(s, before, after, value, m, float)
  }

  ghost predicate MemberBy(s: string, before: string, after: string, value: string, m: Member, float: FloatText)
    decreases |s|, 1
  {
    && s == before + m.raw + after + ":" + value
    && Spaces(before) && IsJsonString(m.raw) && Spaces(after) && Padded(value, m.val, float)
  }

  // ---- space ----

  lemma {:induction false} SkipsSpaces(a: string, t: string)
    requires Spaces(a)
    ensures SkipSpace(a + t) == SkipSpace(t)
  {
    if a == "" {
      assert a + t == t;
    } else {
      assert (a + t)[1..] == a[1..] + t;
      SkipsSpaces(a[1..], t);
    }
  }

  lemma {:induction false} SkippedSpaces(s: string)
    ensures var n := |s| - |SkipSpace(s)|; Spaces(s[..n]) && s == s[..n] + SkipSpace(s) && s[n..] == SkipSpace(s)
  {
    if s != "" && s[0] in " \t\n\r" {
      SkippedSpaces(s[1..]);
      var n := |s[1..]| - |SkipSpace(s[1..])|;
      assert s[..n + 1] == [s[0]] + s[1..][..n];
    }
  }

  lemma NoSpace(t: string, rest: string)
    requires t != "" && t[0] !in " \t\n\r"
    ensures SkipSpace(t + rest) == t + rest
  {
    assert (t + rest)[0] == t[0];
  }

  /** A value may have space before it. */
  lemma LeadingSpace(s: string, t: string, float: FloatText)
    requires SkipSpace(s) == SkipSpace(t)
    ensures ParseValue(s, float) == ParseValue(t, float)
  {
  }

  lemma SpacesStop(b: string, rest: string)
    requires Spaces(b) && StopsNumber(rest)
    ensures StopsNumber(b + rest)
  {
    if b == "" {
      assert b + rest == rest;
    }
  }

  // ---- every text of the grammar is read ----

  lemma NumberIsRead(s: string, t: string, rest: string, float: FloatText)
    requires IsNumber(s) && StopsNumber(rest)
    requires Canonical(s, float) == Some(t) || (Canonical(s, float) == None && t == s)
    ensures s != "" && (s[0] == '-' || IsDigit(s[0]))
    ensures ParseScalar(s + rest, float) == Some((Leaf(t), rest))
  {
    ScansExactlyNumbers(s);
    NumberThenRest(s, rest);
    assert (s + rest)[0] == s[0] && (s + rest)[..|s|] == s && (s + rest)[|s|..] == rest;
  }

  lemma WordIsRead(s: string, rest: string, float: FloatText)
    requires s == "true" || s == "false" || s == "null"
    ensures ParseScalar(s + rest, float) == Some((Leaf(s), rest))
  {
    assert (s + rest)[..|s|] == s && (s + rest)[|s|..] == rest;
  }

  lemma ScalarIsRead(s: string, t: string, rest: string, float: FloatText)
    requires ScalarFor(s, t, float) && StopsNumber(rest)
    ensures ParseValue(s + rest, float) == Some((Leaf(t), rest))
    ensures s != "" && s[0] !in " \t\n\r]}"
  {
    if IsNumber(s) && (Canonical(s, float) == Some(t) || (Canonical(s, float) == None && t == s)) {
      NumberIsRead(s, t, rest, float);
    } else if IsJsonString(s) {
      StringScalar(s, rest, float);
    } else {
      WordIsRead(s, rest, float);
    }
    NoSpace(s, rest);
    assert (s + rest)[0] == s[0];
  }

  /** The text is read as the value, up to whatever follows that no number goes on with. */
  lemma {:induction false} IsRead(s: string, n: Node, rest: string, float: FloatText)
    requires Spells(s, n, float) && StopsNumber(rest)
    ensures ParseValue(s + rest, float) == Some((n, rest))
    ensures s != "" && s[0] !in " \t\n\r]}"
    decreases |s|, 0
  {
    match n
    case Leaf(t) => ScalarIsRead(s, t, rest, float);
    case Arr(a) =>
      var body := s[1..|s| - 1];
      Bracketed(s, body, '[', ']');
      assert s == "[" + body + "]";
      ArrIsRead(body, a, rest, float);
    case Obj(es) =>
      var body := s[1..|s| - 1];
      Bracketed(s, body, '{', '}');
      assert s == "{" + body + "}";
      ObjIsRead(body, es, rest, float);
  }

  lemma Bracketed(s: string, body: string, open: char, close: char)
    requires |s| >= 2 && s[0] == open && s[|s| - 1] == close && body == s[1..|s| - 1]
    ensures s == [open] + body + [close]
  {
  }

  lemma {:induction false} ArrIsRead(body: string, a: seq<Node>, rest: string, float: FloatText)
    requires if a == [] then Spaces(body) else SpellsElems(body, a, float)
    ensures ParseValue("[" + body + "]" + rest, float) == Some((Arr(a), rest))
    decreases |body|, 6
  {
    var s := "[" + body + "]" + rest;
    var more := body + "]" + rest;
    assert s[1..] == more;
    assert s[0] == '[' && SkipSpace(s) == s;
    if a == [] {
      SkipsSpaces(body, "]" + rest);
      assert more == body + ("]" + rest) && ("]" + rest)[1..] == rest;
    } else {
      ElemsAreRead(body, a, [], rest, float);
      assert [] + a == a;
      SkippedSpaces(more);
      ElemsSkip(more, [], float);
    }
  }

  lemma ElemsSkip(s: string, acc: seq<Node>, float: FloatText)
    ensures ParseElems(SkipSpace(s), acc, float) == ParseElems(s, acc, float)
  {
    SkippedSpaces(s);
    SkipsSpaces(s[..|s| - |SkipSpace(s)|], SkipSpace(s));
    LeadingSpace(SkipSpace(s), s, float);
  }

  lemma {:induction false} PaddedIsRead(s: string, n: Node, rest: string, float: FloatText)
    requires Padded(s, n, float) && StopsNumber(rest) && (rest == "" || rest[0] !in " \t\n\r")
    ensures var r := ParseValue(s + rest, float);
            r.Some? && r.value.0 == n && SkipSpace(r.value.1) == rest
    ensures SkipSpace(s + rest) != "" && SkipSpace(s + rest)[0] !in "]}"
    decreases |s|, 1
  {
    var before, text, after :| PaddedBy(s, before, text, after, n, float);
    SpacesStop(after, rest);
    IsRead(text, n, after + rest, float);
    InSpaces(s, before, text, after, rest, float);
  }

  lemma InSpaces(s: string, before: string, text: string, after: string, rest: string, float: FloatText)
    requires s == before + text + after && Spaces(before) && Spaces(after)
    requires text != "" && text[0] !in " \t\n\r]}" && (rest == "" || rest[0] !in " \t\n\r")
    ensures ParseValue(s + rest, float) == ParseValue(text + (after + rest), float)
    ensures SkipSpace(after + rest) == rest
    ensures SkipSpace(s + rest) != "" && SkipSpace(s + rest)[0] !in "]}"
  {
    var more := text + (after + rest);
    assert s + rest == before + more && more[0] == text[0];
    SkipsSpaces(before, more);
    LeadingSpace(s + rest, more, float);
    SkipsSpaces(after, rest);
  }

  lemma ElemIsRead(s: string, n: Node, acc: seq<Node>, rest: string, float: FloatText)
    requires Padded(s, n, float) && rest != "" && rest[0] in ",]"
    ensures ParseElems(s + rest, acc, float) ==
            if rest[0] == ']' then Some((Arr(acc + [n]), rest[1..])) else ParseElems(rest[1..], acc + [n], float)
    ensures SkipSpace(s + rest) != "" && SkipSpace(s + rest)[0] != ']'
    decreases |s|, 2
  {
    PaddedIsRead(s, n, rest, float);
  }

  /** A text cut at its comma at `c`, with `close` and `rest` after it. */
  lemma CommaCut(s: string, c: nat, close: string, rest: string)
    requires c < |s| && s[c] == ',' && |close| == 1
    ensures s + close + rest == s[..c] + ("," + (s[c + 1..] + close + rest))
    ensures ("," + (s[c + 1..] + close + rest))[1..] == s[c + 1..] + close + rest
  {
  }

  lemma Closed(s: string, close: string, rest: string)
    requires |close| == 1
    ensures s + close + rest == s + (close + rest) && (close + rest)[1..] == rest && (close + rest)[0] == close[0]
  {
  }

  lemma {:induction false} ElemsAreRead(s: string, a: seq<Node>, acc: seq<Node>, rest: string, float: FloatText)
    requires a != [] && SpellsElems(s, a, float)
    ensures ParseElems(s + "]" + rest, acc, float) == Some((Arr(acc + a), rest))
    ensures SkipSpace(s + "]" + rest) != "" && SkipSpace(s + "]" + rest)[0] != ']'
    decreases |s|, 4
  {
    if |a| == 1 {
      Closed(s, "]", rest);
      ElemIsRead(s, a[0], acc, "]" + rest, float);
      assert acc + a == acc + [a[0]];
    } else {
      var c: nat :| ElemCut(s, c, a, float);
      CommaCut(s, c, "]", rest);
      ElemIsRead(s[..c], a[0], acc, "," + (s[c + 1..] + "]" + rest), float);
      ElemsAreRead(s[c + 1..], a[1..], acc + [a[0]], rest, float);
      assert acc + [a[0]] + a[1..] == acc + a;
    }
  }

  lemma {:induction false} ObjIsRead(body: string, es: seq<Entry<Node>>, rest: string, float: FloatText)
    requires if es == [] then Spaces(body)
             else exists ms :: ms != [] && es == PutAll([], ms) && SpellsMembers(body, ms, float)
    ensures ParseValue("{" + body + "}" + rest, float) == Some((Obj(es), rest))
    decreases |body|, 6
  {
    var s := "{" + body + "}" + rest;
    var more := body + "}" + rest;
    assert s[1..] == more;
    assert s[0] == '{' && SkipSpace(s) == s;
    if es == [] {
      SkipsSpaces(body, "}" + rest);
      assert more == body + ("}" + rest) && ("}" + rest)[1..] == rest;
    } else {
      var ms :| ms != [] && es == PutAll([], ms) && SpellsMembers(body, ms, float);
      MembersAreRead(body, ms, [], rest, float);
    }
  }

  /** One member is read, up to the comma or brace after it. */
  lemma {:induction false} MemberIsRead(s: string, m: Member, acc: seq<Entry<Node>>, rest: string, float: FloatText)
    requires SpellsMember(s, m, float) && rest != "" && rest[0] in ",}"
    ensures var t := SkipSpace(s + rest);
            var es := PutEntry(acc, KeyOf(m.raw), m.raw, m.val);
            && t != "" && t[0] == '"'
            && ParseMembers(t, acc, float) ==
               if rest[0] == '}' then Some((Obj(es), rest[1..])) else ParseMembers(SkipSpace(rest[1..]), es, float)
    decreases |s|, 2
  {
    var before, after, value :| MemberBy(s, before, after, value, m, float);
    var more := after + (":" + (value + rest));
    assert s + rest == before + (m.raw + more);
    SkipsSpaces(before, m.raw + more);
    NoSpace(m.raw, more);
    StringScalar(m.raw, more, float);
    MemberParts(m.raw, more);
    SkipsSpaces(after, ":" + (value + rest));
    NoSpace(":", value + rest);
    assert (":" + (value + rest))[1..] == value + rest;
    PaddedIsRead(value, m.val, rest, float);
  }

  lemma {:induction false} MembersAreRead(s: string, ms: seq<Member>, acc: seq<Entry<Node>>, rest: string,
      float: FloatText)
    requires ms != [] && SpellsMembers(s, ms, float)
    ensures var t := SkipSpace(s + "}" + rest);
            t != "" && t[0] == '"' && ParseMembers(t, acc, float) == Some((Obj(PutAll(acc, ms)), rest))
    decreases |s|, 4
  {
    var es := PutEntry(acc, KeyOf(ms[0].raw), ms[0].raw, ms[0].val);
    if |ms| == 1 {
      Closed(s, "}", rest);
      MemberIsRead(s, ms[0], acc, "}" + rest, float);
      assert PutAll(es, ms[1..]) == es;
    } else {
      var c: nat :| MemberCut(s, c, ms, float);
      CommaCut(s, c, "}", rest);
      MemberIsRead(s[..c], ms[0], acc, "," + (s[c + 1..] + "}" + rest), float);
      MembersAreRead(s[c + 1..], ms[1..], es, rest, float);
    }
  }

  // ---- nothing else is read ----

  /** Space in front changes nothing. */
  lemma PaddedAfter(a: string, s: string, n: Node, float: FloatText)
    requires Spaces(a) && Padded(s, n, float)
    ensures Padded(a + s, n, float)
  {
    var before, text, after :| PaddedBy(s, before, text, after, n, float);
    assert a + s == (a + before) + text + after;
    assert PaddedBy(a + s, a + before, text, after, n, float);
  }

  lemma ElemsAfter(a: string, s: string, elems: seq<Node>, float: FloatText)
    requires Spaces(a) && elems != [] && SpellsElems(s, elems, float)
    ensures SpellsElems(a + s, elems, float)
  {
    if |elems| == 1 {
      PaddedAfter(a, s, elems[0], float);
    } else {
      var c: nat :| ElemCut(s, c, elems, float);
      PaddedAfter(a, s[..c], elems[0], float);
      assert (a + s)[..|a| + c] == a + s[..c] && (a + s)[|a| + c + 1..] == s[c + 1..];
      assert ElemCut(a + s, |a| + c, elems, float);
    }
  }

  lemma MemberAfter(a: string, s: string, m: Member, float: FloatText)
    requires Spaces(a) && SpellsMember(s, m, float)
    ensures SpellsMember(a + s, m, float)
  {
    var before, after, value :| MemberBy(s, before, after, value, m, float);
    assert a + s == (a + before) + m.raw + after + ":" + value;
    assert MemberBy(a + s, a + before, after, value, m, float);
  }

  lemma MembersAfter(a: string, s: string, ms: seq<Member>, float: FloatText)
    requires Spaces(a) && ms != [] && SpellsMembers(s, ms, float)
    ensures SpellsMembers(a + s, ms, float)
  {
    if |ms| == 1 {
      MemberAfter(a, s, ms[0], float);
    } else {
      var c: nat :| MemberCut(s, c, ms, float);
      MemberAfter(a, s[..c], ms[0], float);
      assert (a + s)[..|a| + c] == a + s[..c] && (a + s)[|a| + c + 1..] == s[c + 1..];
      assert MemberCut(a + s, |a| + c, ms, float);
    }
  }

  /** The space that is skipped. */
  lemma Skipped(s: string) returns (a: string)
    ensures Spaces(a) && s == a + SkipSpace(s)
  {
    SkippedSpaces(s);
    a := s[..|s| - |SkipSpace(s)|];
  }

  lemma {:induction false} PutAllKeeps(es: seq<Entry<Node>>, ms: seq<Member>)
    ensures |PutAll(es, ms)| >= |es| && (ms != [] ==> PutAll(es, ms) != [])
    decreases |ms|
  {
    if ms != [] {
      PutAllKeeps(PutEntry(es, KeyOf(ms[0].raw), ms[0].raw, ms[0].val), ms[1..]);
    }
  }

  /** What is read as a scalar is one. */
  lemma ScalarIsSpelled(t: string, float: FloatText) returns (text: string)
    requires ParseScalar(t, float).Some?
    ensures var (n, rest) := ParseScalar(t, float).value;
            t == text + rest && Spells(text, n, float)
  {
    var (n, rest) := ParseScalar(t, float).value;
    text := t[..|t| - |rest|];
    if t[0] == '"' {
      StringCut(t);
    } else if !("true" <= t || "false" <= t || "null" <= t) {
      ScanCut(t);
      ScansExactlyNumbers(text);
    }
  }

  lemma SkippedTwice(s: string)
    ensures SkipSpace(SkipSpace(s)) == SkipSpace(s)
  {
  }

  /** What is read is a value of the grammar, with space before it. */
  lemma {:induction false} IsSpelled(s: string, float: FloatText) returns (before: string, text: string)
    requires ParseValue(s, float).Some?
    ensures var (n, rest) := ParseValue(s, float).value;
            s == before + text + rest && Spaces(before) && Spells(text, n, float)
    decreases |s|, 0, 2
  {
    SkippedTwice(s);
    LeadingSpace(s, SkipSpace(s), float);
    before := Skipped(s);
    text := ValueIsSpelled(SkipSpace(s), float);
  }

  lemma {:induction false} ValueIsSpelled(t: string, float: FloatText) returns (text: string)
    requires SkipSpace(t) == t && ParseValue(t, float).Some?
    ensures var (n, rest) := ParseValue(t, float).value; t == text + rest && Spells(text, n, float)
    decreases |t|, 0, 1
  {
    if t[0] == '{' {
      text := ObjIsSpelled(t, float);
    } else if t[0] == '[' {
      text := ArrIsSpelled(t, float);
    } else {
      text := ScalarIsSpelled(t, float);
    }
  }

  lemma Framed(open: string, body: string, close: string, rest: string)
    requires |open| == |close| == 1
    ensures var text := open + body + close;
            && |text| >= 2 && text[0] == open[0] && text[|text| - 1] == close[0] && text[1..|text| - 1] == body
            && text + rest == open + (body + close + rest)
  {
  }

  lemma ArrStep(t: string, float: FloatText)
    requires t != "" && t[0] == '[' && SkipSpace(t) == t && ParseValue(t, float).Some?
    ensures var u := SkipSpace(t[1..]);
            && u != ""
            && ParseValue(t, float) == if u[0] == ']' then Some((Arr([]), u[1..])) else ParseElems(u, [], float)
  {
  }

  lemma ObjStep(t: string, float: FloatText)
    requires t != "" && t[0] == '{' && SkipSpace(t) == t && ParseValue(t, float).Some?
    ensures var u := SkipSpace(t[1..]);
            && u != ""
            && ParseValue(t, float) == if u[0] == '}' then Some((Obj([]), u[1..])) else ParseMembers(u, [], float)
  {
  }

  lemma BracketText(t: string, open: string, a: string, b: string, close: string, rest: string)
    requires |open| == 1 && t != "" && t[0] == open[0] && t[1..] == a + (b + close + rest)
    ensures t == open + (a + b) + close + rest
  {
    assert t == open + t[1..];
  }

  lemma {:induction false} ArrIsSpelled(t: string, float: FloatText) returns (text: string)
    requires t != "" && t[0] == '[' && SkipSpace(t) == t && ParseValue(t, float).Some?
    ensures var (n, rest) := ParseValue(t, float).value; t == text + rest && Spells(text, n, float)
    decreases |t|, 0, 0
  {
    ArrStep(t, float);
    var rest := ParseValue(t, float).value.1;
    var u := SkipSpace(t[1..]);
    var b := "";
    var a := Skipped(t[1..]);
    if u[0] == ']' {
      assert u == "" + "]" + rest && a + b == a;
    } else {
      var elems;
      b, elems := ElemsAreSpelled(u, [], float);
      assert [] + elems == elems;
      ElemsAfter(a, b, elems, float);
    }
    BracketText(t, "[", a, b, "]", rest);
    text := "[" + (a + b) + "]";
    Framed("[", a + b, "]", rest);
  }

  lemma {:induction false} ObjIsSpelled(t: string, float: FloatText) returns (text: string)
    requires t != "" && t[0] == '{' && SkipSpace(t) == t && ParseValue(t, float).Some?
    ensures var (n, rest) := ParseValue(t, float).value; t == text + rest && Spells(text, n, float)
    decreases |t|, 0, 0
  {
    ObjStep(t, float);
    var rest := ParseValue(t, float).value.1;
    var u := SkipSpace(t[1..]);
    var b := "";
    var a := Skipped(t[1..]);
    if u[0] == '}' {
      assert u == "" + "}" + rest && a + b == a;
    } else {
      var ms;
      b, ms := MembersAreSpelled(u, [], float);
      MembersAfter(a, b, ms, float);
      PutAllKeeps([], ms);
    }
    BracketText(t, "{", a, b, "}", rest);
    text := "{" + (a + b) + "}";
    Framed("{", a + b, "}", rest);
  }

  lemma ElemsStep(s: string, acc: seq<Node>, float: FloatText)
    requires ParseElems(s, acc, float).Some?
    ensures ParseValue(s, float).Some?
    ensures var (v, rest) := ParseValue(s, float).value;
            var w := SkipSpace(rest);
            && w != "" && (w[0] == ']' || w[0] == ',')
            && ParseElems(s, acc, float) ==
               if w[0] == ']' then Some((Arr(acc + [v]), w[1..])) else ParseElems(w[1..], acc + [v], float)
  {
  }

  lemma MembersStep(s: string, acc: seq<Entry<Node>>, float: FloatText)
    requires ParseMembers(s, acc, float).Some?
    ensures ParseMember(s, float).Some?
    ensures var (raw, v, w) := ParseMember(s, float).value;
            var es := PutEntry(acc, KeyOf(raw), raw, v);
            && w != "" && (w[0] == '}' || w[0] == ',')
            && ParseMembers(s, acc, float) ==
               if w[0] == '}' then Some((Obj(es), w[1..])) else ParseMembers(SkipSpace(w[1..]), es, float)
  {
  }

  lemma {:induction false} ElemsAreSpelled(s: string, acc: seq<Node>, float: FloatText)
    returns (body: string, elems: seq<Node>)
    requires ParseElems(s, acc, float).Some?
    ensures var (m, rest) := ParseElems(s, acc, float).value;
            s == body + "]" + rest && elems != [] && m == Arr(acc + elems) && SpellsElems(body, elems, float)
    decreases |s|, 1
  {
    ElemsStep(s, acc, float);
    var value, v, w := ValueAndSpace(s, float);
    if w[0] == ']' {
      body, elems := value, [v];
      LastText(value, w, "]");
    } else {
      body, elems := MoreElems(value, v, w, acc, float);
    }
  }

  /** After a value and a comma. */
  lemma {:induction false} MoreElems(value: string, v: Node, w: string, acc: seq<Node>, float: FloatText)
    returns (body: string, elems: seq<Node>)
    requires Padded(value, v, float) && w != "" && w[0] == ',' && ParseElems(w[1..], acc + [v], float).Some?
    ensures var (m, rest) := ParseElems(w[1..], acc + [v], float).value;
            && value + w == body + "]" + rest
            && elems != [] && m == Arr(acc + elems) && SpellsElems(body, elems, float)
    decreases |w|, 0
  {
    var b, more := ElemsAreSpelled(w[1..], acc + [v], float);
    body, elems := ElemsOn(value, v, w, b, more, ParseElems(w[1..], acc + [v], float).value.1, float);
    assert acc + [v] + more == acc + elems;
  }

  lemma LastText(first: string, w: string, close: string)
    requires |close| == 1 && w != "" && w[0] == close[0]
    ensures first + w == first + close + w[1..]
  {
    assert w == close + w[1..];
  }

  lemma ElemsOn(value: string, v: Node, w: string, b: string, more: seq<Node>, rest: string, float: FloatText)
    returns (body: string, elems: seq<Node>)
    requires Padded(value, v, float) && more != [] && SpellsElems(b, more, float)
    requires w != "" && w[0] == ',' && w[1..] == b + "]" + rest
    ensures elems == [v] + more && value + w == body + "]" + rest && SpellsElems(body, elems, float)
  {
    ElemsJoin(value, v, b, more, float);
    body, elems := value + "," + b, [v] + more;
    assert "" + b == b;
    MembersText(value, w, "", b, "]", rest);
  }

  lemma MembersOn(first: string, m: Member, w: string, skip: string, b: string, more: seq<Member>, rest: string,
      float: FloatText)
    returns (body: string, ms: seq<Member>)
    requires SpellsMember(first, m, float) && Spaces(skip) && more != [] && SpellsMembers(b, more, float)
    requires w != "" && w[0] == ',' && w[1..] == skip + (b + "}" + rest)
    ensures ms == [m] + more && first + w == body + "}" + rest && SpellsMembers(body, ms, float)
  {
    MembersAfter(skip, b, more, float);
    MembersJoin(first, m, skip + b, more, float);
    body, ms := first + "," + (skip + b), [m] + more;
    MembersText(first, w, skip, b, "}", rest);
  }

  lemma ElemsJoin(value: string, v: Node, b: string, rest: seq<Node>, float: FloatText)
    requires Padded(value, v, float) && rest != [] && SpellsElems(b, rest, float)
    ensures SpellsElems(value + "," + b, [v] + rest, float)
  {
    var body, elems := value + "," + b, [v] + rest;
    assert elems[1..] == rest && body[..|value|] == value && body[|value| + 1..] == b;
    assert ElemCut(body, |value|, elems, float);
  }

  lemma MembersJoin(first: string, m: Member, b: string, rest: seq<Member>, float: FloatText)
    requires SpellsMember(first, m, float) && rest != [] && SpellsMembers(b, rest, float)
    ensures SpellsMembers(first + "," + b, [m] + rest, float)
  {
    var body, ms := first + "," + b, [m] + rest;
    assert ms[1..] == rest && body[..|first|] == first && body[|first| + 1..] == b;
    assert MemberCut(body, |first|, ms, float);
  }

  lemma MemberStep(s: string, float: FloatText) returns (raw: string, colon: string)
    requires ParseMember(s, float).Some?
    ensures IsJsonString(raw) && |raw| <= |s| && raw == s[..|raw|] && colon == SkipSpace(s[|raw|..])
    ensures colon != "" && colon[0] == ':' && |colon| < |s| && ParseValue(colon[1..], float).Some?
    ensures var (v, rest) := ParseValue(colon[1..], float).value;
            ParseMember(s, float) == Some((raw, v, SkipSpace(rest)))
  {
    StringCut(s);
    raw := s[..BodyLength(s[1..]).value + 2];
    colon := SkipSpace(s[|raw|..]);
  }

  lemma MemberText(s: string, raw: string, after: string, colon: string, value: string, w: string)
    requires |raw| <= |s| && raw == s[..|raw|] && s[|raw|..] == after + colon
    requires colon != "" && colon[0] == ':' && colon[1..] == value + w
    ensures s == raw + after + ":" + value + w && raw + after + ":" + value == "" + raw + after + ":" + value
  {
    assert colon == ":" + (value + w);
    assert s == raw + (after + colon);
  }

  /** The member that is read, and what follows it. */
  lemma {:induction false} MemberIsSpelled(s: string, float: FloatText) returns (first: string)
    requires ParseMember(s, float).Some?
    ensures var (raw, v, w) := ParseMember(s, float).value;
            s == first + w && first != "" && SpellsMember(first, Member(raw, v), float)
    decreases |s|, 0, 4
  {
    var raw, colon := MemberStep(s, float);
    var after := Skipped(s[|raw|..]);
    var value, v, w := ValueAndSpace(colon[1..], float);
    MemberText(s, raw, after, colon, value, w);
    first := raw + after + ":" + value;
    assert MemberBy(first, "", after, value, Member(raw, v), float);
  }

  lemma {:induction false} MembersAreSpelled(s: string, acc: seq<Entry<Node>>, float: FloatText)
    returns (body: string, ms: seq<Member>)
    requires ParseMembers(s, acc, float).Some?
    ensures var (m, rest) := ParseMembers(s, acc, float).value;
            s == body + "}" + rest && ms != [] && m == Obj(PutAll(acc, ms)) && SpellsMembers(body, ms, float)
    decreases |s|, 1
  {
    MembersStep(s, acc, float);
    var (raw, v, w) := ParseMember(s, float).value;
    var first := MemberIsSpelled(s, float);
    var m := Member(raw, v);
    var es := PutEntry(acc, KeyOf(m.raw), m.raw, m.val);
    if w[0] == '}' {
      body, ms := first, [m];
      LastText(first, w, "}");
      assert PutAll(es, ms[1..]) == es;
    } else {
      var skip := Skipped(w[1..]);
      var b, more := MembersAreSpelled(SkipSpace(w[1..]), es, float);
      body, ms := MembersOn(first, m, w, skip, b, more, ParseMembers(s, acc, float).value.1, float);
      assert ms[1..] == more && PutAll(acc, ms) == PutAll(es, more);
    }
  }

  lemma MembersText(first: string, w: string, skip: string, b: string, close: string, rest: string)
    requires w != "" && w[0] == ',' && w[1..] == skip + (b + close + rest)
    ensures first + w == first + "," + (skip + b) + close + rest
  {
    assert w == "," + w[1..];
  }

  /** A value that is read, with the space around it, and what follows. */
  lemma {:induction false} ValueAndSpace(s: string, float: FloatText) returns (value: string, v: Node, w: string)
    requires ParseValue(s, float).Some?
    ensures v == ParseValue(s, float).value.0 && w == SkipSpace(ParseValue(s, float).value.1)
    ensures s == value + w && Padded(value, v, float)
    decreases |s|, 0, 3
  {
    var before, text := IsSpelled(s, float);
    var rest := ParseValue(s, float).value.1;
    var after := Skipped(rest);
    v, w := ParseValue(s, float).value.0, SkipSpace(rest);
    value := PaddedParts(s, before, text, rest, after, w, v, float);
  }

  lemma PaddedParts(s: string, before: string, text: string, rest: string, after: string, w: string, v: Node,
      float: FloatText)
    returns (value: string)
    requires s == before + text + rest && rest == after + w
    requires Spaces(before) && Spaces(after) && Spells(text, v, float)
    ensures s == value + w && Padded(value, v, float)
  {
    value := before + text + after;
    assert PaddedBy(value, before, text, after, v, float);
  }

  // ---- the parser reads the grammar ----

  /** A text is read as a document exactly if it is one of the grammar that stands for it. */
  lemma ParsesExactly(s: string, n: Node, float: FloatText)
    ensures Parse(s, float) == Some(n) <==> Padded(s, n, float)
  {
    if Padded(s, n, float) {
      PaddedIsRead(s, n, "", float);
      assert s + "" == s;
    }
    if Parse(s, float) == Some(n) {
      var before, text := IsSpelled(s, float);
      var rest := ParseValue(s, float).value.1;
      SkippedSpaces(rest);
      assert rest[..|rest|] == rest;
      assert PaddedBy(s, before, text, rest, n, float);
    }
  }
}
