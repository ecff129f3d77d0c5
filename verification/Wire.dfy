/**
 Length-prefixed frames: a uvarint length and the bytes. A byte on the wire is
 the char with its code.
 */
module Wire {
  import opened Options

  const MAX_UINT64 := 0xFFFF_FFFF_FFFF_FFFF

  /** binary.PutUvarint: seven bits a byte, low bits first, the top bit set on all but the last. */
  function PutUvarint(n: nat): string {
    if n < 0x80 then [n as char] else [(n % 0x80 + 0x80) as char] + PutUvarint(n / 0x80)
  }

  function Scale(i: nat): nat {
    if i == 0 then 1 else 0x80 * Scale(i - 1)
  }

  function Plus(x: nat, digit: nat, i: nat): nat {
    x + digit * Scale(i)
  }

  /** binary.ReadUvarint after `i` bytes worth `x`: the number and what is left; at most ten bytes, 64 bits. */
  function UvarintFrom(s: string, i: nat, x: nat): Option<(nat, string)>
    decreases 10 - i
  {
    if i >= 10 || s == "" then None
    else
      var b := s[0] as int;
      if b >= 0x80 then UvarintFrom(s[1..], i + 1, Plus(x, b - 0x80, i))
      else if i == 9 && b > 1 then None
      else Some((Plus(x, b, i), s[1..]))
  }

  function Uvarint(s: string): Option<(nat, string)> {
    UvarintFrom(s, 0, 0)
  }

  function Frame(b: string): string {
    PutUvarint(|b|) + b
  }

  /** One frame of at most `max` bytes, and what is left. */
  function Unframe(s: string, max: nat): Option<(string, string)> {
    match Uvarint(s)
    case None => None
    case Some((n, rest)) => if n > max || n > |rest| then None else Some((rest[..n], rest[n..]))
  }

  /** A count of at most `max`. */
  function Count(s: string, max: nat): Option<(nat, string)> {
    match Uvarint(s)
    case None => None
    case Some((n, rest)) => if n > max then None else Some((n, rest))
  }

  // ---- reading undoes writing ----

  lemma {:induction false} ScaleTen(i: nat)
    requires i >= 10
    ensures Scale(i) > MAX_UINT64
  {
    if i > 10 {
      ScaleTen(i - 1);
    } else {
      assert Scale(2) == 0x4000 && Scale(4) == 0x1000_0000 && Scale(6) == 0x400_0000_0000;
      assert Scale(8) == 0x100_0000_0000_0000 && Scale(10) == 0x40_0000_0000_0000_0000;
    }
  }

  lemma SplitDigits(n: nat, scale: nat)
    ensures (n % 0x80) * scale + (n / 0x80) * (0x80 * scale) == n * scale
    ensures (n / 0x80) * (0x80 * scale) <= n * scale
  {
    var low, high := n % 0x80, n / 0x80;
    assert n == low + 0x80 * high;
    assert n * scale == low * scale + (0x80 * high) * scale;
  }

  /** Digits of a 64-bit number fill at most ten bytes, and of the tenth only the low bit. */
  lemma TenBytes(n: nat, i: nat)
    ensures n > 0 && n * Scale(i) <= MAX_UINT64 ==> i < 10 && (i == 9 ==> n == 1)
  {
    if i >= 10 && n > 0 {
      ScaleTen(i);
      assert n * Scale(i) >= Scale(i);
    } else if i == 9 && n > 1 {
      assert Scale(3) == 0x20_0000 && Scale(6) == 0x400_0000_0000 && Scale(9) == 0x8000_0000_0000_0000;
      assert n * Scale(9) >= 2 * Scale(9);
    }
  }

  lemma LastByte(n: nat, rest: string, i: nat, x: nat)
    requires n < 0x80 && i < 10 && (i == 9 ==> n <= 1)
    ensures UvarintFrom(PutUvarint(n) + rest, i, x) == Some((x + n * Scale(i), rest))
  {
    var s := PutUvarint(n) + rest;
    assert s[1..] == rest;
  }

  lemma MoreByte(n: nat, rest: string, i: nat, x: nat)
    requires n >= 0x80 && i < 10
    ensures UvarintFrom(PutUvarint(n) + rest, i, x) ==
            UvarintFrom(PutUvarint(n / 0x80) + rest, i + 1, x + (n % 0x80) * Scale(i))
  {
    var s := PutUvarint(n) + rest;
    assert s[1..] == PutUvarint(n / 0x80) + rest;
  }

  lemma {:induction false} UvarintFromPut(n: nat, rest: string, i: nat, x: nat)
    requires n * Scale(i) <= MAX_UINT64 && (n > 0 || i < 10)
    ensures UvarintFrom(PutUvarint(n) + rest, i, x) == Some((x + n * Scale(i), rest))
    decreases n
  {
    TenBytes(n, i);
    if n < 0x80 {
      LastByte(n, rest, i, x);
    } else {
      SplitDigits(n, Scale(i));
      MoreByte(n, rest, i, x);
      UvarintFromPut(n / 0x80, rest, i + 1, x + (n % 0x80) * Scale(i));
    }
  }

  lemma UvarintPut(n: nat, rest: string)
    requires n <= MAX_UINT64
    ensures Uvarint(PutUvarint(n) + rest) == Some((n, rest))
  {
    UvarintFromPut(n, rest, 0, 0);
    assert Scale(0) == 1 && n * 1 == n;
  }

  lemma CountPut(n: nat, rest: string, max: nat)
    requires n <= max <= MAX_UINT64
    ensures Count(PutUvarint(n) + rest, max) == Some((n, rest))
  {
    UvarintPut(n, rest);
  }

  /** Reading a frame consumes exactly the bytes that writing it produced. */
  lemma UnframeFrame(b: string, rest: string, max: nat)
    requires |b| <= max <= MAX_UINT64
    ensures Unframe(Frame(b) + rest, max) == Some((b, rest))
  {
    UvarintPut(|b|, b + rest);
    assert Frame(b) + rest == PutUvarint(|b|) + (b + rest);
    assert (b + rest)[..|b|] == b && (b + rest)[|b|..] == rest;
  }

  /** A frame over the limit is refused, whatever follows. */
  lemma LongFrameRefused(b: string, rest: string, max: nat)
    requires max < |b| <= MAX_UINT64
    ensures Unframe(Frame(b) + rest, max) == None
  {
    UvarintPut(|b|, b + rest);
    assert Frame(b) + rest == PutUvarint(|b|) + (b + rest);
  }

  // ---- limits ----

  predicate Bytes(s: string) {
    forall k :: 0 <= k < |s| ==> s[k] as int < 0x100
  }

  lemma {:induction false} ScaleGrows(i: nat, j: nat)
    requires i <= j
    ensures 0 < Scale(i) <= Scale(j)
  {
    if i < j {
      ScaleGrows(i, j - 1);
    } else if i > 0 {
      ScaleGrows(i - 1, i - 1);
    }
  }

  lemma ScaleNine()
    ensures Scale(9) == 0x8000_0000_0000_0000
  {
    assert Scale(3) == 0x20_0000 && Scale(6) == 0x400_0000_0000;
  }

  lemma DigitBound(x: nat, digit: nat, i: nat)
    requires x < Scale(i) && digit < 0x80
    ensures Plus(x, digit, i) < Scale(i + 1)
  {
    assert digit * Scale(i) <= 0x7F * Scale(i);
  }

  lemma {:induction false} DigitsBound(s: string, i: nat, x: nat)
    requires Bytes(s) && x < Scale(i) && UvarintFrom(s, i, x).Some?
    ensures UvarintFrom(s, i, x).value.0 < 0x1_0000_0000_0000_0000
    ensures |UvarintFrom(s, i, x).value.1| < |s| <= |UvarintFrom(s, i, x).value.1| + 10 - i
    decreases 10 - i
  {
    var b := s[0] as int;
    if b >= 0x80 {
      DigitBound(x, b - 0x80, i);
      DigitsBound(s[1..], i + 1, Plus(x, b - 0x80, i));
    } else if i < 9 {
      DigitBound(x, b, i);
      ScaleGrows(i + 1, 9);
      ScaleNine();
    } else {
      ScaleNine();
      assert b * Scale(9) <= Scale(9);
    }
  }

  /** Whatever the bytes, a number that is read fits 64 bits and takes at most ten of them. */
  lemma UvarintFits(s: string)
    requires Bytes(s) && Uvarint(s).Some?
    ensures Uvarint(s).value.0 < 0x1_0000_0000_0000_0000
    ensures |Uvarint(s).value.1| < |s| <= |Uvarint(s).value.1| + 10
  {
    assert Scale(0) == 1;
    DigitsBound(s, 0, 0);
  }

  /** A count over its limit is refused. */
  lemma LongCountRefused(n: nat, rest: string, max: nat)
    requires max < n <= MAX_UINT64
    ensures Count(PutUvarint(n) + rest, max) == None
  {
    UvarintPut(n, rest);
  }

  // ---- streams ----

  class Writer {
    var out: string

    constructor ()
      ensures out == ""
    {
      out := "";
    }

    method WriteByte(b: char)
      modifies this
      ensures out == old(out) + [b]
    {
      out := out + [b];
    }

    method WriteUvarint(n: nat)
      modifies this
      ensures out == old(out) + PutUvarint(n)
    {
      var m := n;
      while m >= 0x80
        invariant out + PutUvarint(m) == old(out) + PutUvarint(n)
      {
        out := out + [(m % 0x80 + 0x80) as char];
        m := m / 0x80;
      }
      out := out + [m as char];
    }

    method WriteFrame(b: string)
      modifies this
      ensures out == old(out) + Frame(b)
    {
      WriteUvarint(|b|);
      out := out + b;
    }
  }

  class Reader {
    var rest: string

    constructor (s: string)
      ensures rest == s
    {
      rest := s;
    }

    method ReadByte() returns (b: Option<char>)
      modifies this
      ensures old(rest) == "" ==> b == None
      ensures old(rest) != "" ==> b == Some(old(rest)[0]) && rest == old(rest)[1..]
    {
      if rest == "" {
        return None;
      }
      b, rest := Some(rest[0]), rest[1..];
    }

    /** Byte `i` of a number, the bytes before it worth `x`: the last one, or one more is worth `more`. */
    method ReadDigit(i: nat, x: nat) returns (last: bool, n: Option<nat>, more: nat)
      requires i < 10
      modifies this
      ensures last ==> match UvarintFrom(old(rest), i, x)
                       case Some((y, after)) => n == Some(y) && rest == after
                       case None => n == None
      ensures !last ==> UvarintFrom(rest, i + 1, more) == UvarintFrom(old(rest), i, x)
    {
      var c := ReadByte();
      if c.None? {
        return true, None, 0;
      }
      var b := c.value as int;
      if b >= 0x80 {
        return false, None, Plus(x, b - 0x80, i);
      }
      if i == 9 && b > 1 {
        return true, None, 0;
      }
      return true, Some(Plus(x, b, i)), 0;
    }

    method ReadUvarint() returns (n: Option<nat>)
      modifies this
      ensures match Uvarint(old(rest))
              case Some((x, after)) => n == Some(x) && rest == after
              case None => n == None
    {
      var x: nat := 0;
      for i := 0 to 10
        invariant UvarintFrom(rest, i, x) == Uvarint(old(rest))
      {
        var last;
        last, n, x := ReadDigit(i, x);
        if last {
          return;
        }
      }
      return None;
    }

    method ReadCount(max: nat) returns (n: Option<nat>)
      modifies this
      ensures match Count(old(rest), max)
              case Some((x, after)) => n == Some(x) && rest == after
              case None => n == None
    {
      n := ReadUvarint();
      if n.Some? && n.value > max {
        n := None;
      }
    }

    method ReadFrame(max: nat) returns (b: Option<string>)
      modifies this
      ensures match Unframe(old(rest), max)
              case Some((x, after)) => b == Some(x) && rest == after
              case None => b == None
    {
      var n := ReadUvarint();
      if n.None? || n.value > max || n.value > |rest| {
        return None;
      }
      b, rest := Some(rest[..n.value]), rest[n.value..];
    }
  }
}
