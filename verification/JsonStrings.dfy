/**
 JSON string text: how keys and values are quoted when they are stored, and
 the strings of section 7 of RFC 8259 that read them back.
 */
module JsonStrings {
  import opened Options

  // ---- writing ----

  function HexDigit(n: nat): char
    requires n < 16
  {
    "0123456789abcdef"[n]
  }

  function UnicodeEscape(ch: char): string
    requires ch as int < 0x10000
  {
    var n := ch as int;
    ['\\', 'u', HexDigit(n / 0x1000), HexDigit(n / 0x100 % 16), HexDigit(n / 16 % 16), HexDigit(n % 16)]
  }

  /** One character as Go's encoding/json writes it, HTML escaping on. */
  function EscapeChar(ch: char): string {
    if ch == '"' then "\\\""
    else if ch == '\\' then "\\\\"
    else if ch == '\U{08}' then "\\b"
    else if ch == '\U{0C}' then "\\f"
    else if ch == '\n' then "\\n"
    else if ch == '\r' then "\\r"
    else if ch == '\t' then "\\t"
    else if ch < ' ' || ch in "<>&\U{2028}\U{2029}" then UnicodeEscape(ch)
    else [ch]
  }

  function EscapeAll(s: string): string {
    if s == "" then "" else EscapeChar(s[0]) + EscapeAll(s[1..])
  }

  /** Text that needs no escape is only put in quotes. */
  predicate IsPlain(s: string) {
    forall ch :: ch in s ==> ' ' <= ch <= '\U{7F}' && ch != '"' && ch != '\\'
  }

  function Quote(s: string): string {
    "\"" + (if IsPlain(s) then s else EscapeAll(s)) + "\""
  }

  // ---- reading ----

  function HexValue(ch: char): Option<nat> {
    if '0' <= ch <= '9' then Some(ch as int - '0' as int)
    else if 'a' <= ch <= 'f' then Some(ch as int - 'a' as int + 10)
    else if 'A' <= ch <= 'F' then Some(ch as int - 'A' as int + 10)
    else None
  }

  /** The code unit of the four hex digits at the start of `s`. */
  function Hex4(s: string): Option<nat> {
    if |s| < 4 then None
    else
      match (HexValue(s[0]), HexValue(s[1]), HexValue(s[2]), HexValue(s[3]))
      case (Some(a), Some(b), Some(c), Some(d)) => Some(((a * 16 + b) * 16 + c) * 16 + d)
      case _ => None
  }

  /** Length of the string body at the start of `s`, up to its closing quote. */
  function BodyLength(s: string): Option<nat>
    decreases |s|
  {
    if s == "" || s[0] < ' ' then None
    else if s[0] == '"' then Some(0)
    else
      var skip := if s[0] != '\\' then 1 else if |s| > 1 && s[1] == 'u' then 6 else 2;
      if s[0] == '\\' && (|s| < 2 || s[1] !in "\"\\/bfnrtu" || (s[1] == 'u' && Hex4(s[2..]).None?)) then None
      else
        match BodyLength(s[skip..])
        case Some(n) => Some(n + skip)
        case None => None
  }

  function SimpleEscape(ch: char): char {
    match ch
    case 'b' => '\U{08}'
    case 'f' => '\U{0C}'
    case 'n' => '\n'
    case 'r' => '\r'
    case 't' => '\t'
    case _ => ch
  }

  /** The character of a code unit; half a surrogate pair reads as U+FFFD. */
  function CodeUnit(n: nat): char {
    if n < 0xD800 || 0xE000 <= n < 0x10000 then n as char else '\U{FFFD}'
  }

  function SurrogatePair(s: string): Option<char> {
    if |s| < 12 || s[..2] != "\\u" || s[6..8] != "\\u" then None
    else
      match (Hex4(s[2..]), Hex4(s[8..]))
      case (Some(hi), Some(lo)) =>
        if 0xD800 <= hi < 0xDC00 && 0xDC00 <= lo < 0xE000
        then Some((0x10000 + (hi - 0xD800) * 0x400 + (lo - 0xDC00)) as char) else None
      case _ => None
  }

  /** The string that a body stands for. */
  function Unescape(body: string): string
    decreases |body|
  {
    if body == "" then ""
    else if body[0] != '\\' || |body| < 2 then [body[0]] + Unescape(body[1..])
    else if body[1] != 'u' then [SimpleEscape(body[1])] + Unescape(body[2..])
    else if SurrogatePair(body).Some? then [SurrogatePair(body).value] + Unescape(body[12..])
    else
      match Hex4(body[2..])
      case Some(n) => [CodeUnit(n)] + Unescape(body[6..])
      case None => [body[0]] + Unescape(body[1..])
  }

  /** A whole JSON string: quotes around a body. */
  predicate IsJsonString(text: string) {
    && |text| >= 2 && text[0] == '"' && text[|text| - 1] == '"'
    && BodyLength(text[1..]) == Some(|text| - 2)
  }

  function StringValue(text: string): string
    requires IsJsonString(text)
  {
    Unescape(text[1..|text| - 1])
  }

  // ---- reading undoes writing ----

  lemma HexDigitValue(d: nat)
    requires d < 16
    ensures HexValue(HexDigit(d)) == Some(d)
  {
  }

  lemma HexDigitsOf(n: nat)
    requires n < 0x10000
    ensures n / 0x1000 < 16
    ensures ((n / 0x1000 * 16 + n / 0x100 % 16) * 16 + n / 16 % 16) * 16 + n % 16 == n
  {
    assert n / 0x100 / 16 == n / 0x1000 && n / 16 / 16 == n / 0x100;
  }

  lemma Hex4Escape(ch: char, rest: string)
    requires ch as int < 0x10000
    ensures Hex4(UnicodeEscape(ch)[2..] + rest) == Some(ch as int)
  {
    var n := ch as int;
    var t := UnicodeEscape(ch)[2..] + rest;
    HexDigitsOf(n);
    HexDigitValue(n / 0x1000);
    HexDigitValue(n / 0x100 % 16);
    HexDigitValue(n / 16 % 16);
    HexDigitValue(n % 16);
    assert t[0] == HexDigit(n / 0x1000) && t[1] == HexDigit(n / 0x100 % 16);
    assert t[2] == HexDigit(n / 16 % 16) && t[3] == HexDigit(n % 16);
  }

  lemma UnicodeText(ch: char, rest: string)
    requires |EscapeChar(ch)| == 6
    ensures var t := EscapeChar(ch) + rest;
            && t[0] == '\\' && t[1] == 'u' && t[6..] == rest
            && Hex4(t[2..]) == Some(ch as int)
  {
    Hex4Escape(ch, rest);
    SixText(EscapeChar(ch), rest);
    EscapeStart(ch);
  }

  lemma SixText(u: string, rest: string)
    requires |u| == 6
    ensures (u + rest)[2..] == u[2..] + rest && (u + rest)[6..] == rest
    ensures (u + rest)[0] == u[0] && (u + rest)[1] == u[1]
  {
  }

  lemma EscapeStart(ch: char)
    requires |EscapeChar(ch)| == 6
    ensures EscapeChar(ch) == UnicodeEscape(ch) && ch as int < 0x10000
    ensures EscapeChar(ch)[0] == '\\' && EscapeChar(ch)[1] == 'u'
  {
  }

  lemma ShortText(ch: char, rest: string)
    requires |EscapeChar(ch)| != 6
    ensures var t, n := EscapeChar(ch) + rest, |EscapeChar(ch)|;
            && 1 <= n <= 2 && t[n..] == rest && t[0] == EscapeChar(ch)[0] && t[n - 1] == EscapeChar(ch)[n - 1]
  {
  }

  lemma UnescapeUnicode(ch: char, rest: string)
    requires |EscapeChar(ch)| == 6
    ensures Unescape(EscapeChar(ch) + rest) == [ch] + Unescape(rest)
  {
    UnicodeText(ch, rest);
    assert SurrogatePair(EscapeChar(ch) + rest).None?;
  }

  lemma UnescapeChar(ch: char, rest: string)
    ensures Unescape(EscapeChar(ch) + rest) == [ch] + Unescape(rest)
  {
    if |EscapeChar(ch)| == 6 {
      UnescapeUnicode(ch, rest);
    } else {
      ShortText(ch, rest);
    }
  }

  lemma BodyOfUnicode(ch: char, rest: string)
    requires |EscapeChar(ch)| == 6
    ensures BodyLength(EscapeChar(ch) + rest) ==
            match BodyLength(rest) case Some(n) => Some(n + 6) case None => None
  {
    UnicodeText(ch, rest);
  }

  lemma BodyOfChar(ch: char, rest: string)
    ensures BodyLength(EscapeChar(ch) + rest) ==
            match BodyLength(rest) case Some(n) => Some(n + |EscapeChar(ch)|) case None => None
  {
    if |EscapeChar(ch)| == 6 {
      BodyOfUnicode(ch, rest);
    } else {
      ShortText(ch, rest);
    }
  }

  lemma EscapeNext(s: string, rest: string)
    requires s != ""
    ensures EscapeAll(s) + "\"" + rest == EscapeChar(s[0]) + (EscapeAll(s[1..]) + "\"" + rest)
  {
  }

  lemma {:induction false} EscapedReadsBack(s: string, rest: string)
    ensures Unescape(EscapeAll(s)) == s
    ensures BodyLength(EscapeAll(s) + "\"" + rest) == Some(|EscapeAll(s)|)
  {
    if s == "" {
      assert ("\"" + rest)[0] == '"';
      assert "" + "\"" + rest == "\"" + rest;
    } else {
      EscapedReadsBack(s[1..], rest);
      UnescapeChar(s[0], EscapeAll(s[1..]));
      BodyOfChar(s[0], EscapeAll(s[1..]) + "\"" + rest);
      EscapeNext(s, rest);
    }
  }

  lemma {:induction false} PlainReadsBack(s: string, rest: string)
    requires IsPlain(s)
    ensures Unescape(s) == s
    ensures BodyLength(s + "\"" + rest) == Some(|s|)
  {
    if s == "" {
      assert "" + "\"" + rest == "\"" + rest;
    } else {
      assert s[0] in s && forall ch :: ch in s[1..] ==> ch in s;
      PlainReadsBack(s[1..], rest);
      assert (s + "\"" + rest)[1..] == s[1..] + "\"" + rest;
    }
  }

  lemma QuotedBody(body: string)
    requires BodyLength(body + "\"" + "") == Some(|body|)
    ensures IsJsonString("\"" + body + "\"") && StringValue("\"" + body + "\"") == Unescape(body)
  {
    Unquoted(body);
  }

  lemma Unquoted(body: string)
    ensures var text := "\"" + body + "\"";
            && text[0] == '"' && text[1..] == body + "\"" + "" && text[1..|text| - 1] == body
  {
  }

  /** Every string, quoted, is a JSON string that stands for it. */
  lemma QuoteReadsBack(s: string)
    ensures IsJsonString(Quote(s)) && StringValue(Quote(s)) == s
  {
    if IsPlain(s) {
      PlainReadsBack(s, "");
      QuotedBody(s);
    } else {
      EscapedReadsBack(s, "");
      QuotedBody(EscapeAll(s));
    }
  }

  /** The closing quote is found whatever follows it. */
  lemma {:induction false} BodyThenRest(s: string, rest: string)
    requires BodyLength(s).Some?
    ensures BodyLength(s + rest) == BodyLength(s)
    ensures BodyLength(s).value < |s| && s[BodyLength(s).value] == '"'
    decreases |s|
  {
    if s[0] != '"' {
      var skip := if s[0] != '\\' then 1 else if |s| > 1 && s[1] == 'u' then 6 else 2;
      assert skip <= |s|;
      BodyThenRest(s[skip..], rest);
      RestLater(s, skip, rest);
    }
  }

  lemma RestLater(s: string, skip: nat, rest: string)
    requires skip <= |s|
    ensures (s + rest)[skip..] == s[skip..] + rest
    ensures skip == 6 ==> Hex4((s + rest)[2..]) == Hex4(s[2..])
  {
  }
}
