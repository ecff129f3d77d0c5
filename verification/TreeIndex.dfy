/** Which segments name an element of an array, and which one. */
module TreeIndex {
  import opened Options
  import opened JsonNumbers
  import opened JsonTree

  // ---- the number a text names ----

  predicate Digit(ch: char) {
    ch in "0123456789"
  }

  lemma DigitIs(ch: char)
    ensures IsDigit(ch) <==> Digit(ch)
  {
    if IsDigit(ch) {
      assert "0123456789"[ch as int - '0' as int] == ch;
    }
  }

  lemma DigitChars(s: string)
    ensures AllDigits(s) <==> forall k :: 0 <= k < |s| ==> Digit(s[k])
  {
    forall k | 0 <= k < |s|
      ensures s[k] in s && (IsDigit(s[k]) <==> Digit(s[k]))
    {
      DigitIs(s[k]);
    }
  }

  /** Digits are read in base ten, the last one worth the least. */
  lemma BaseTen(s: string, d: nat)
    requires d < 10
    ensures DigitsValue("") == 0
    ensures DigitsValue(s + ["0123456789"[d]]) == 10 * DigitsValue(s) + d
  {
    var t := s + ["0123456789"[d]];
    assert t[..|t| - 1] == s && t[|t| - 1] == "0123456789"[d];
  }

  lemma {:induction false} ZeroDigits(s: string, k: nat)
    requires AllDigits(s) && DigitsValue(s) == 0 && k < |s|
    ensures s[k] == '0'
  {
    var init, last := s[..|s| - 1], s[|s| - 1];
    assert last in s && forall ch :: ch in init ==> ch in s;
    if k < |init| {
      ZeroDigits(init, k);
      assert s[k] == init[k];
    }
  }

  /** An optional sign and digits worth `i`; a minus sign only before zero. */
  ghost predicate Names(s: string, i: nat) {
    exists sign, digits :: NamesBy(s, sign, digits, i)
  }

  predicate NamesBy(s: string, sign: string, digits: string, i: nat) {
    && s == sign + digits && digits != "" && (forall k :: 0 <= k < |digits| ==> Digit(digits[k]))
    && DigitsValue(digits) == i && (sign == "" || sign == "+" || (sign == "-" && i == 0))
  }

  lemma NamedIndex(s: string, sign: string, digits: string, i: nat)
    requires NamesBy(s, sign, digits, i)
    ensures Index(s) == if i <= 9223372036854775807 then Some(i) else None
  {
    DigitChars(digits);
    assert s[|sign|..] == digits;
    if sign == "" {
      assert s == digits && Digit(digits[0]);
    }
  }

  lemma IndexNamed(s: string, i: nat)
    requires Index(s) == Some(i)
    ensures Names(s, i)
  {
    var sign := if s[0] in "+-" then [s[0]] else "";
    var digits := s[|sign|..];
    DigitChars(digits);
    assert NamesBy(s, sign, digits, i);
  }

  /** A segment is an index exactly if it names a number from 0 to the largest 64-bit one. */
  lemma IndexExactly(s: string, i: nat)
    ensures Index(s) == Some(i) <==> Names(s, i) && i <= 9223372036854775807
  {
    if Names(s, i) {
      var sign, digits :| NamesBy(s, sign, digits, i);
      NamedIndex(s, sign, digits, i);
    }
    if Index(s) == Some(i) {
      IndexNamed(s, i);
      var sign, digits :| NamesBy(s, sign, digits, i);
      NamedIndex(s, sign, digits, i);
    }
  }

  /**
   At `k` it has a digit other than zero after a minus sign, or a character that is
   neither digit nor sign in front.
   */
  predicate NoNumberAt(s: string, k: nat)
    requires k < |s|
  {
    || (k > 0 && s[0] == '-' && s[k] != '0')
    || (s[k] !in "0123456789" && (k > 0 || s[0] !in "+-"))
  }

  lemma NoIndex(s: string, k: nat)
    requires k < |s| && NoNumberAt(s, k)
    ensures Index(s) == None
  {
    if Index(s).Some? {
      IndexNamed(s, Index(s).value);
      var sign, digits :| NamesBy(s, sign, digits, Index(s).value);
      SignThenDigit(s, sign, digits, k);
      if sign == "-" {
        DigitChars(digits);
        ZeroDigits(digits, k - 1);
      }
    }
  }

  lemma SignThenDigit(s: string, sign: string, digits: string, k: nat)
    requires NamesBy(s, sign, digits, DigitsValue(digits)) && k < |s| && NoNumberAt(s, k)
    ensures sign == "-" && k > 0 && s[k] == digits[k - 1] != '0'
  {
    if k >= |sign| {
      assert s[k] == digits[k - |sign|];
    }
  }

  // ---- an array at a segment ----

  /**
   Below zero, or at any text that is no number, an array has nothing to find and
   nothing to delete, and a set fails, but for "-1", which appends.
   */
  lemma NoElement(a: seq<Node>, p: seq<string>, v: Node, k: nat)
    requires p != [] && k < |p[0]| && NoNumberAt(p[0], k)
    ensures Lookup(Arr(a), p) == None && Del(Arr(a), p) == Arr(a)
    ensures p[0] != "-1" ==> Set(Arr(a), p, v) == Err(p[0])
    ensures p == ["-1"] ==> Set(Arr(a), p, v) == Ok(Arr(a + [v]))
  {
    NoIndex(p[0], k);
  }

  /** Nor above the largest 64-bit number. */
  lemma NoSuchElement(a: seq<Node>, p: seq<string>, v: Node, i: nat)
    requires p != [] && Names(p[0], i) && i > 9223372036854775807
    ensures Lookup(Arr(a), p) == None && Del(Arr(a), p) == Arr(a) && Set(Arr(a), p, v) == Err(p[0])
  {
    var sign, digits :| NamesBy(p[0], sign, digits, i);
    NamedIndex(p[0], sign, digits, i);
    assert sign == "" ==> p[0][0] == digits[0];
  }

  /**
   At a number it is the element with that number that is found, dropped or replaced;
   holes fill the array up to it.
   */
  lemma ElementAt(a: seq<Node>, s: string, i: nat, v: Node)
    requires Names(s, i) && i <= 9223372036854775807
    ensures Lookup(Arr(a), [s]) == if i < |a| then Some(a[i]) else None
    ensures Del(Arr(a), [s]) == if i < |a| then Arr(a[..i] + a[i + 1..]) else Arr(a)
    ensures Set(Arr(a), [s], v) == if i < |a| then Ok(Arr(a[i := v])) else Ok(Arr(a + seq(i - |a|, _ => Nil) + [v]))
  {
    IndexExactly(s, i);
    assert [s][1..] == [];
    if s == "-1" {
      NoIndex(s, 1);
    }
    if i >= |a| {
      assert Pad(a, i + 1)[i := v] == a + seq(i - |a|, _ => Nil) + [v];
    }
  }
}
