/** The strings of section 7 of RFC 8259: which texts are one, and which characters they stand for. */
module StringGrammar {
  import opened Options
  import opened JsonStrings

  predicate HexChar(ch: char) {
    ch in "0123456789abcdefABCDEF"
  }

  /** unescaped, a two-character escape, or four hex digits. */
  predicate Piece(p: string) {
    || (|p| == 1 && p[0] >= ' ' && p[0] != '"' && p[0] != '\\')
    || (|p| == 2 && p[0] == '\\' && p[1] in "\"\\/bfnrt")
    || (|p| == 6 && p[0] == '\\' && p[1] == 'u'
        && HexChar(p[2]) && HexChar(p[3]) && HexChar(p[4]) && HexChar(p[5]))
  }

  function Concat(ps: seq<string>): string {
    if ps == [] then "" else ps[0] + Concat(ps[1..])
  }

  predicate Pieces(ps: seq<string>) {
    forall i :: 0 <= i < |ps| ==> Piece(ps[i])
  }

  // ---- which texts are strings ----

  /** The hex digit `d`, of either case. */
  predicate HexOf(ch: char, d: nat) {
    d < 16 && (ch == "0123456789abcdef"[d] || ch == "0123456789ABCDEF"[d])
  }

  lemma HexCharExactly(ch: char)
    ensures HexValue(ch).Some? <==> HexChar(ch)
  {
    if HexValue(ch).Some? {
      var d := HexValue(ch).value;
      assert ch == "0123456789abcdefABCDEF"[if 'A' <= ch <= 'F' then d + 6 else d];
    }
  }

  lemma HexOfValue(ch: char, d: nat)
    requires HexOf(ch, d)
    ensures HexValue(ch) == Some(d)
  {
  }

  lemma Hex4Exactly(s: string)
    requires |s| >= 4
    ensures Hex4(s).Some? <==> HexChar(s[0]) && HexChar(s[1]) && HexChar(s[2]) && HexChar(s[3])
  {
    HexCharExactly(s[0]);
    HexCharExactly(s[1]);
    HexCharExactly(s[2]);
    HexCharExactly(s[3]);
  }

  lemma PieceLength(p: string, rest: string)
    requires Piece(p)
    ensures BodyLength(p + rest) == match BodyLength(rest) case Some(n) => Some(n + |p|) case None => None
  {
    var s := p + rest;
    assert s[|p|..] == rest && s[0] == p[0];
    if |p| == 6 {
      Hex4Exactly(s[2..]);
      assert s[2..][0] == p[2] && s[2..][1] == p[3] && s[2..][2] == p[4] && s[2..][3] == p[5];
    }
  }

  lemma {:induction false} PiecesLength(ps: seq<string>, rest: string)
    requires Pieces(ps)
    ensures BodyLength(Concat(ps) + "\"" + rest) == Some(|Concat(ps)|)
  {
    if ps == [] {
      assert Concat(ps) + "\"" + rest == "\"" + rest;
    } else {
      PiecesLength(ps[1..], rest);
      PieceLength(ps[0], Concat(ps[1..]) + "\"" + rest);
      assert Concat(ps) + "\"" + rest == ps[0] + (Concat(ps[1..]) + "\"" + rest);
    }
  }

  lemma FirstPiece(s: string) returns (n: nat)
    requires BodyLength(s).Some? && s[0] != '"'
    ensures n <= |s| && Piece(s[..n]) && BodyLength(s[n..]).Some?
    ensures BodyLength(s).value == n + BodyLength(s[n..]).value
  {
    n := if s[0] != '\\' then 1 else if |s| > 1 && s[1] == 'u' then 6 else 2;
    if n == 6 {
      Hex4Exactly(s[2..]);
    }
  }

  lemma ConsPieces(p: string, more: seq<string>)
    requires Piece(p) && Pieces(more)
    ensures Pieces([p] + more) && Concat([p] + more) == p + Concat(more)
  {
    var ps := [p] + more;
    assert ps[1..] == more && ps[0] == p;
    assert forall i :: 0 < i < |ps| ==> ps[i] == more[i - 1];
  }

  lemma TwoParts(s: string, n: nat, m: nat)
    requires n + m <= |s|
    ensures s[..n] + s[n..][..m] == s[..n + m]
  {
  }

  lemma {:induction false} BodyPieces(s: string) returns (ps: seq<string>)
    requires BodyLength(s).Some?
    ensures BodyLength(s).value < |s| && s[BodyLength(s).value] == '"'
    ensures Pieces(ps) && Concat(ps) == s[..BodyLength(s).value]
    decreases |s|
  {
    if s[0] == '"' {
      ps := [];
    } else {
      var n := FirstPiece(s);
      var more := BodyPieces(s[n..]);
      ps := [s[..n]] + more;
      ConsPieces(s[..n], more);
      TwoParts(s, n, BodyLength(s[n..]).value);
    }
  }

  /** A text is a string exactly if it is pieces between quotes. */
  lemma StringsExactly(t: string)
    ensures IsJsonString(t) <==> exists ps :: Pieces(ps) && t == "\"" + Concat(ps) + "\""
  {
    if IsJsonString(t) {
      var ps := BodyPieces(t[1..]);
      Quoted(t);
    }
    if ps :| Pieces(ps) && t == "\"" + Concat(ps) + "\"" {
      PiecesAreString(t, ps);
    }
  }

  lemma Quoted(t: string)
    requires IsJsonString(t)
    ensures t == "\"" + t[1..][..|t| - 2] + "\""
  {
  }

  lemma PiecesAreString(t: string, ps: seq<string>)
    requires Pieces(ps) && t == "\"" + Concat(ps) + "\""
    ensures IsJsonString(t)
  {
    PiecesLength(ps, "");
    assert t[1..] == Concat(ps) + "\"" + "";
  }

  // ---- what a string stands for ----

  /** The number of four hex digits. */
  predicate HexNumber(p: string, n: nat) {
    && |p| == 6 && p[0] == '\\' && p[1] == 'u' && n < 0x10000
    && HexOf(p[2], n / 0x1000) && HexOf(p[3], n / 0x100 % 16) && HexOf(p[4], n / 16 % 16) && HexOf(p[5], n % 16)
  }

  lemma HexNumberValue(p: string, rest: string, n: nat)
    requires HexNumber(p, n)
    ensures Hex4((p + rest)[2..]) == Some(n)
  {
    var s := (p + rest)[2..];
    assert s[0] == p[2] && s[1] == p[3] && s[2] == p[4] && s[3] == p[5];
    HexOfValue(p[2], n / 0x1000);
    HexOfValue(p[3], n / 0x100 % 16);
    HexOfValue(p[4], n / 16 % 16);
    HexOfValue(p[5], n % 16);
    FourDigits(s, n / 0x1000, n / 0x100 % 16, n / 16 % 16, n % 16);
    HexDigitsOf(n);
  }

  lemma FourDigits(s: string, a: nat, b: nat, c: nat, d: nat)
    requires |s| >= 4 && HexValue(s[0]) == Some(a) && HexValue(s[1]) == Some(b)
    requires HexValue(s[2]) == Some(c) && HexValue(s[3]) == Some(d)
    ensures Hex4(s) == Some(((a * 16 + b) * 16 + c) * 16 + d)
  {
  }

  /** A character stands for itself, and a two-character escape for what it names. */
  lemma ShortPiece(p: string, rest: string)
    requires Piece(p) && |p| < 6
    ensures var ch := if |p| == 1 then p[0]
                      else match p[1] case 'b' => '\U{08}' case 'f' => '\U{0C}' case 'n' => '\n'
                                      case 'r' => '\r' case 't' => '\t' case other => other;
            Unescape(p + rest) == [ch] + Unescape(rest)
  {
    assert (p + rest)[|p|..] == rest && (p + rest)[0] == p[0];
    if |p| == 2 {
      assert (p + rest)[1] == p[1];
    }
  }

  /**
   Four hex digits stand for the character with that number, and two of them in a row
   for one beyond U+FFFF if they are a surrogate pair. Half a pair stands for U+FFFD.
   */
  lemma HexPiece(p: string, rest: string, n: nat)
    requires HexNumber(p, n)
    requires !(0xD800 <= n < 0xDC00 && |rest| >= 6 && rest[0] == '\\' && rest[1] == 'u')
    ensures Unescape(p + rest) ==
            [if 0xD800 <= n < 0xE000 then '\U{FFFD}' else n as char] + Unescape(rest)
  {
    var s := p + rest;
    HexNumberValue(p, rest, n);
    assert s[0] == '\\' && s[1] == 'u' && s[6..] == rest;
    NoPair(s, rest, n);
  }

  lemma NoPair(s: string, rest: string, n: nat)
    requires |s| >= 6 && s[6..] == rest && Hex4(s[2..]) == Some(n)
    requires !(0xD800 <= n < 0xDC00 && |rest| >= 6 && rest[0] == '\\' && rest[1] == 'u')
    ensures SurrogatePair(s).None?
  {
    if |s| >= 12 {
      assert rest[0] == s[6] && rest[1] == s[7];
    }
  }

  lemma TwoUnits(p: string, q: string, rest: string)
    requires |p| == |q| == 6 && p[0] == q[0] == '\\' && p[1] == q[1] == 'u'
    ensures var s := p + (q + rest);
            && s[0] == '\\' && s[1] == 'u' && s[..2] == s[6..8] == "\\u" && |s| >= 12
            && s[6..] == q + rest && s[8..] == (q + rest)[2..] && s[12..] == rest
  {
  }

  lemma SurrogatePieces(p: string, q: string, rest: string, hi: nat, lo: nat)
    requires HexNumber(p, hi) && HexNumber(q, lo) && 0xD800 <= hi < 0xDC00 && 0xDC00 <= lo < 0xE000
    ensures Unescape(p + (q + rest)) ==
            [(0x10000 + (hi - 0xD800) * 0x400 + (lo - 0xDC00)) as char] + Unescape(rest)
  {
    var s := p + (q + rest);
    HexNumberValue(p, q + rest, hi);
    HexNumberValue(q, rest, lo);
    TwoUnits(p, q, rest);
    PairValue(s, hi, lo);
  }

  lemma PairValue(s: string, hi: nat, lo: nat)
    requires |s| >= 12 && s[..2] == s[6..8] == "\\u" && Hex4(s[2..]) == Some(hi) && Hex4(s[8..]) == Some(lo)
    ensures SurrogatePair(s) ==
            if 0xD800 <= hi < 0xDC00 && 0xDC00 <= lo < 0xE000
            then Some((0x10000 + (hi - 0xD800) * 0x400 + (lo - 0xDC00)) as char) else None
  {
  }

  /** Half a pair that no other half follows. */
  lemma LonePiece(p: string, q: string, rest: string, hi: nat, lo: nat)
    requires HexNumber(p, hi) && HexNumber(q, lo) && 0xD800 <= hi < 0xDC00 && !(0xDC00 <= lo < 0xE000)
    ensures Unescape(p + (q + rest)) == ['\U{FFFD}'] + Unescape(q + rest)
  {
    var s := p + (q + rest);
    HexNumberValue(p, q + rest, hi);
    HexNumberValue(q, rest, lo);
    TwoUnits(p, q, rest);
    PairValue(s, hi, lo);
  }
}
