/** The number scanner, against the grammar of section 6 of RFC 8259. */
module JsonNumbers {
  import opened Options

  predicate IsDigit(ch: char) {
    '0' <= ch <= '9'
  }

  predicate AllDigits(s: string) {
    forall ch :: ch in s ==> IsDigit(ch)
  }

  // ---- the grammar ----

  predicate IsInt(s: string) {
    s == "0" || (s != "" && s[0] != '0' && AllDigits(s))
  }

  predicate IsFrac(s: string) {
    s == "" || (|s| > 1 && s[0] == '.' && AllDigits(s[1..]))
  }

  predicate IsExp(s: string) {
    s == "" ||
    (s[0] in "eE" &&
     var d := if |s| > 1 && s[1] in "+-" then s[2..] else s[1..];
     d != "" && AllDigits(d))
  }

  /** number = [ minus ] int [ frac ] [ exp ] */
  ghost predicate IsNumber(s: string) {
    exists minus, int_, frac, exp :: NumberParts(s, minus, int_, frac, exp)
  }

  predicate NumberParts(s: string, minus: string, int_: string, frac: string, exp: string) {
    s == minus + int_ + frac + exp && (minus == "" || minus == "-") && IsInt(int_) && IsFrac(frac) && IsExp(exp)
  }

  ghost predicate IsIntegerText(s: string) {
    IsInt(s) || (s != "" && s[0] == '-' && IsInt(s[1..]))
  }

  // ---- the scanner ----

  /** The first position from `i` on that holds no digit. */
  function Digits(s: string, i: nat): (j: nat)
    requires i <= |s|
    ensures i <= j <= |s|
    decreases |s| - i
  {
    if i < |s| && IsDigit(s[i]) then Digits(s, i + 1) else i
  }

  function IntEnd(s: string, i: nat): Option<nat>
    requires i <= |s|
  {
    if i == |s| || !IsDigit(s[i]) then None
    else if s[i] == '0' then Some(i + 1)
    else Some(Digits(s, i))
  }

  function FracEnd(s: string, i: nat): Option<nat>
    requires i <= |s|
  {
    if i == |s| || s[i] != '.' then Some(i)
    else
      var j := Digits(s, i + 1);
      if j == i + 1 then None else Some(j)
  }

  function ExpDigits(s: string, b: nat): nat
    requires b < |s|
  {
    if b + 1 < |s| && s[b + 1] in "+-" then b + 2 else b + 1
  }

  function ExpEnd(s: string, i: nat): Option<nat>
    requires i <= |s|
  {
    if i == |s| || s[i] !in "eE" then Some(i)
    else
      var start := ExpDigits(s, i);
      var j := Digits(s, start);
      if j == start then None else Some(j)
  }

  /** The ends of the integer, fraction and exponent parts of the number `s` starts with. */
  function Scan(s: string): Option<(nat, nat, nat)> {
    var i := if s != "" && s[0] == '-' then 1 else 0;
    match IntEnd(s, i)
    case None => None
    case Some(a) =>
      match FracEnd(s, a)
      case None => None
      case Some(b) =>
        match ExpEnd(s, b)
        case None => None
        case Some(c) => Some((a, b, c))
  }

  /** What ParseFloat followed by AppendFloat gives; None is a range error. */
  type FloatText = string -> Option<string>

  /** An integer is kept verbatim, any other number gets its canonical decimal text. */
  function Canonical(s: string, float: FloatText): Option<string> {
    match Scan(s)
    case None => None
    case Some((a, b, c)) =>
      if c != |s| then None
      else if a == c then Some(s)
      else float(s)
  }

  method ScanDigits(s: string, from: nat) returns (i: nat)
    requires from <= |s|
    ensures i == Digits(s, from)
  {
    i := from;
    while i < |s| && IsDigit(s[i])
      invariant from <= i <= |s| && Digits(s, i) == Digits(s, from)
    {
      i := i + 1;
    }
  }

  /** canonicalNumberText. */
  method CanonicalNumberText(raw: string, float: FloatText) returns (text: Option<string>)
    ensures text == Canonical(raw, float)
  {
    if |raw| == 0 || raw[0] == '"' {
      return None;
    }
    var i := 0;
    if raw[0] == '-' {
      i := 1;
      if i == |raw| {
        return None;
      }
    }
    if raw[i] < '0' || raw[i] > '9' {
      return None;
    }
    if raw[i] == '0' {
      i := i + 1;
    } else {
      i := ScanDigits(raw, i);
    }
    ghost var a := i;
    assert IntEnd(raw, if raw[0] == '-' then 1 else 0) == Some(a);
    var frac, exp;
    frac, i := ScanFrac(raw, i);
    if i > |raw| {
      return None;
    }
    exp, i := ScanExp(raw, i);
    if i != |raw| {
      return None;
    }
    if !frac && !exp {
      return Some(raw);
    }
    return float(raw);
  }

  /** The fraction from `from`; `i` is past the end when it has no digits. */
  method ScanFrac(raw: string, from: nat) returns (frac: bool, i: nat)
    requires from <= |raw|
    ensures i <= |raw| ==> FracEnd(raw, from) == Some(i) && (frac <==> from < i)
    ensures i > |raw| ==> FracEnd(raw, from) == None
  {
    frac, i := false, from;
    if i < |raw| && raw[i] == '.' {
      frac := true;
      var start := i + 1;
      i := ScanDigits(raw, start);
      if i == start {
        i := |raw| + 1;
      }
    }
  }

  method ScanExp(raw: string, from: nat) returns (exp: bool, i: nat)
    requires from <= |raw|
    ensures i <= |raw| ==> ExpEnd(raw, from) == Some(i) && (exp <==> from < i)
    ensures i > |raw| ==> ExpEnd(raw, from) == None
  {
    exp, i := false, from;
    if i < |raw| && (raw[i] == 'e' || raw[i] == 'E') {
      exp := true;
      i := i + 1;
      if i < |raw| && (raw[i] == '+' || raw[i] == '-') {
        i := i + 1;
      }
      var start := i;
      i := ScanDigits(raw, start);
      if i == start {
        i := |raw| + 1;
      }
    }
  }

  // ---- the scanner accepts exactly the grammar ----

  lemma {:induction false} DigitsSpan(s: string, i: nat)
    requires i <= |s|
    ensures var j := Digits(s, i);
            AllDigits(s[i..j]) && (j < |s| ==> !IsDigit(s[j]))
    decreases |s| - i
  {
    if i < |s| && IsDigit(s[i]) {
      DigitsSpan(s, i + 1);
      var j := Digits(s, i);
      assert s[i..j] == [s[i]] + s[i + 1..j];
    }
  }

  lemma {:induction false} DigitsUnique(s: string, i: nat, j: nat)
    requires i <= j <= |s|
    requires AllDigits(s[i..j]) && (j < |s| ==> !IsDigit(s[j]))
    ensures Digits(s, i) == j
    decreases j - i
  {
    if i < j {
      assert s[i..j][0] == s[i] && s[i] in s[i..j];
      assert forall ch :: ch in s[i + 1..j] ==> ch in s[i..j] by {
        assert s[i..j] == [s[i]] + s[i + 1..j];
      }
      DigitsUnique(s, i + 1, j);
    }
  }

  /** A whole text scans exactly when it is a number of the grammar. */
  lemma ScansExactlyNumbers(s: string)
    ensures (Scan(s).Some? && Scan(s).value.2 == |s|) <==> IsNumber(s)
  {
    if Scan(s).Some? && Scan(s).value.2 == |s| {
      ScannedIsNumber(s);
    }
    if IsNumber(s) {
      var minus, int_, frac, exp :| NumberParts(s, minus, int_, frac, exp);
      NumberScans(s, minus, int_, frac, exp);
    }
  }

  lemma IntPart(s: string, i: nat)
    requires i <= |s|
    ensures IntEnd(s, i).Some? ==> i < IntEnd(s, i).value <= |s| && IsInt(s[i..IntEnd(s, i).value])
  {
    DigitsSpan(s, i);
    if i < |s| && s[i] == '0' {
      assert s[i..i + 1] == "0";
    }
  }

  lemma FracPart(s: string, a: nat)
    requires a <= |s|
    ensures FracEnd(s, a).Some? ==> a <= FracEnd(s, a).value <= |s| && IsFrac(s[a..FracEnd(s, a).value])
  {
    if a < |s| && s[a] == '.' && FracEnd(s, a).Some? {
      DigitsSpan(s, a + 1);
      var b := FracEnd(s, a).value;
      assert s[a..b][1..] == s[a + 1..b];
    }
  }

  lemma ExpPart(s: string, b: nat)
    requires b <= |s| && ExpEnd(s, b) == Some(|s|)
    ensures IsExp(s[b..])
  {
    if b < |s| {
      var start := ExpDigits(s, b);
      DigitsSpan(s, start);
      assert s[b..][start - b..] == s[start..] == s[start..|s|];
    }
  }

  lemma SplitThree(s: string, i: nat, a: nat, b: nat)
    requires i <= a <= b <= |s|
    ensures s[..i] + s[i..a] + s[a..b] + s[b..] == s
  {
  }

  lemma ScannedIsNumber(s: string)
    requires Scan(s).Some? && Scan(s).value.2 == |s|
    ensures IsNumber(s)
  {
    var i := if s != "" && s[0] == '-' then 1 else 0;
    var (a, b, c) := Scan(s).value;
    IntPart(s, i);
    FracPart(s, a);
    ExpPart(s, b);
    SplitThree(s, i, a, b);
    PartsAreNumber(s, s[..i], s[i..a], s[a..b], s[b..]);
  }

  lemma PartsAreNumber(s: string, minus: string, int_: string, frac: string, exp: string)
    requires NumberParts(s, minus, int_, frac, exp)
    ensures IsNumber(s)
  {
  }

  lemma IntScans(s: string, i: nat, a: nat)
    requires i <= a <= |s| && IsInt(s[i..a]) && (a < |s| ==> !IsDigit(s[a]))
    ensures IntEnd(s, i) == Some(a)
  {
    var t := s[i..a];
    assert t[0] == s[i] && t[0] in t;
    if t != "0" {
      DigitsUnique(s, i, a);
    }
  }

  lemma FracScans(s: string, a: nat, b: nat)
    requires a <= b <= |s| && IsFrac(s[a..b]) && (b < |s| ==> !IsDigit(s[b]) && s[b] != '.')
    ensures FracEnd(s, a) == Some(b)
  {
    if a < b {
      assert s[a..b][0] == s[a] && s[a..b][1..] == s[a + 1..b];
      DigitsUnique(s, a + 1, b);
    }
  }

  lemma ExpScans(s: string, b: nat)
    requires b <= |s| && IsExp(s[b..])
    ensures ExpEnd(s, b) == Some(|s|)
  {
    if b < |s| {
      var t, start := s[b..], ExpDigits(s, b);
      assert t[0] == s[b] && (|t| > 1 ==> t[1] == s[b + 1]);
      assert t[start - b..] == s[start..] == s[start..|s|];
      DigitsUnique(s, start, |s|);
    }
  }

  lemma NumberScans(s: string, minus: string, int_: string, frac: string, exp: string)
    requires NumberParts(s, minus, int_, frac, exp)
    ensures Scan(s) == Some((|minus + int_|, |minus + int_ + frac|, |s|))
  {
    var i, a, b := |minus|, |minus + int_|, |minus + int_ + frac|;
    assert s[i..a] == int_ && s[a..b] == frac && s[b..] == exp;
    assert int_[0] in int_ && s[i] == int_[0];
    assert a < b ==> s[a] == frac[0];
    assert b < |s| ==> s[b] == exp[0];
    IntScans(s, i, a);
    FracScans(s, a, b);
    ExpScans(s, b);
  }

  predicate StopsNumber(rest: string) {
    rest == "" || (!IsDigit(rest[0]) && rest[0] !in ".eE+-")
  }

  lemma {:induction false} DigitsThenRest(s: string, i: nat, rest: string)
    requires i <= |s| && StopsNumber(rest)
    ensures Digits(s + rest, i) == Digits(s, i)
    decreases |s| - i
  {
    if i < |s| && IsDigit(s[i]) {
      DigitsThenRest(s, i + 1, rest);
    }
  }

  /** A number in a document ends where its text ends. */
  lemma NumberThenRest(s: string, rest: string)
    requires Scan(s).Some? && Scan(s).value.2 == |s| && StopsNumber(rest)
    ensures Scan(s + rest) == Scan(s)
  {
    var t := s + rest;
    var i := if s != "" && s[0] == '-' then 1 else 0;
    var (a, b, c) := Scan(s).value;
    assert IntEnd(t, i) == Some(a) by {
      DigitsThenRest(s, i, rest);
    }
    assert FracEnd(t, a) == Some(b) by {
      if a < |s| {
        DigitsThenRest(s, a + 1, rest);
      }
    }
    assert ExpEnd(t, b) == Some(c) by {
      if b < |s| {
        DigitsThenRest(s, ExpDigits(s, b), rest);
      }
    }
  }

  lemma DigitsCut(s: string, i: nat, c: nat)
    requires i <= |s| && Digits(s, i) <= c <= |s|
    ensures Digits(s[..c], i) == Digits(s, i)
  {
    var j := Digits(s, i);
    DigitsSpan(s, i);
    assert s[..c][i..j] == s[i..j];
    DigitsUnique(s[..c], i, j);
  }

  lemma IntCut(s: string, i: nat, c: nat)
    requires i < |s| && IntEnd(s, i).Some? && IntEnd(s, i).value <= c <= |s|
    ensures IntEnd(s[..c], i) == IntEnd(s, i)
  {
    IntPart(s, i);
    if s[i] != '0' {
      DigitsCut(s, i, c);
    }
  }

  lemma FracCut(s: string, a: nat, c: nat)
    requires a <= |s| && FracEnd(s, a).Some? && FracEnd(s, a).value <= c <= |s|
    requires c < |s| && a == c ==> s[a] != '.'
    ensures FracEnd(s[..c], a) == FracEnd(s, a)
  {
    FracPart(s, a);
    if a < |s| && s[a] == '.' {
      DigitsCut(s, a + 1, c);
    }
  }

  /** The number a text starts with, cut off, scans the same. */
  lemma ScanCut(s: string)
    requires Scan(s).Some?
    ensures 0 < Scan(s).value.2 <= |s| && Scan(s[..Scan(s).value.2]) == Scan(s)
  {
    var i := if s != "" && s[0] == '-' then 1 else 0;
    var (a, b, c) := Scan(s).value;
    IntPart(s, i);
    FracPart(s, a);
    assert b <= c <= |s|;
    var t := s[..c];
    IntCut(s, i, c);
    FracCut(s, a, c);
    assert ExpEnd(t, b) == Some(c) by {
      if b < c {
        DigitsCut(s, ExpDigits(s, b), c);
      }
    }
  }

  // ---- canonical text ----

  /** strconv's shortest text reads back as itself. */
  ghost predicate Shortest(float: FloatText) {
    forall s {:trigger float(s)} :: float(s).Some? ==> Canonical(float(s).value, float) == float(s)
  }

  /** Canonical text is a number and is its own canonical text. */
  lemma CanonicalIdempotent(s: string, float: FloatText)
    requires Shortest(float) && Canonical(s, float).Some?
    ensures Canonical(Canonical(s, float).value, float) == Canonical(s, float)
    ensures IsNumber(s) && IsNumber(Canonical(s, float).value)
    ensures IsIntegerText(s) ==> Canonical(s, float).value == s
  {
    ScansExactlyNumbers(s);
    ScansExactlyNumbers(Canonical(s, float).value);
    if IsIntegerText(s) {
      var minus := if IsInt(s) then "" else "-";
      var int_ := if IsInt(s) then s else s[1..];
      assert s == minus + int_ + "" + "";
      NumberScans(s, minus, int_, "", "");
    }
  }

  lemma IntegerScans(s: string)
    requires IsIntegerText(s)
    ensures exists a :: Scan(s) == Some((a, a, a)) && a == |s|
  {
    var minus := if IsInt(s) then "" else "-";
    var int_ := if IsInt(s) then s else s[1..];
    assert s == minus + int_ + "" + "";
    NumberScans(s, minus, int_, "", "");
    assert Scan(s) == Some((|s|, |s|, |s|));
  }

  /** By the grammar: an integer is its own canonical text, and any other number has the text of its float. */
  lemma CanonicalExactly(s: string, float: FloatText)
    ensures Canonical(s, float) ==
            if !IsNumber(s) then None else if IsIntegerText(s) then Some(s) else float(s)
  {
    ScansExactlyNumbers(s);
    if IsIntegerText(s) {
      IntegerScans(s);
    } else if Scan(s).Some? && Scan(s).value.2 == |s| {
      var (a, b, c) := Scan(s).value;
      if a == c {
        WholeInteger(s);
      }
    }
  }

  lemma WholeInteger(s: string)
    requires Scan(s) == Some((|s|, |s|, |s|))
    ensures IsIntegerText(s)
  {
    var i := if s[0] == '-' then 1 else 0;
    ScannedIsNumber(s);
    DigitsSpan(s, i);
    assert s[i..|s|] == s[i..];
  }

  /** The scanner refuses exactly what is no number, and floats out of range. */
  lemma CanonicalAccepts(s: string, float: FloatText)
    ensures Canonical(s, float).Some? <==> IsNumber(s) && (IsIntegerText(s) || float(s).Some?)
  {
    CanonicalExactly(s, float);
    if IsIntegerText(s) {
      IntegerScans(s);
      ScansExactlyNumbers(s);
    }
  }
}
