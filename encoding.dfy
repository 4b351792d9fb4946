/**
  Byte payloads: the UTF-8 form of a string, C `strlen`, and `NSDataFromString`,
  which turns a string into the NUL-terminated payload handed to the IRC engine.
  UTF-8 follows RFC 3629, section 3 (one to four bytes per Unicode scalar value).
 */
module Encoding {
  import opened Options

  type Byte = b: int | 0 <= b < 256

  type Bytes = seq<Byte>

  const NUL: char := '\0'

  /** True of a UTF-8 continuation byte (10xxxxxx). */
  predicate IsContinuation(b: Byte) {
    0x80 <= b < 0xC0
  }

  /** The UTF-8 form of one scalar value; only NUL contains a 0 byte. */
  function EncodeChar(c: char): (r: Bytes)
    ensures 1 <= |r| <= 4
    ensures (c == NUL) == (0 in r)
  {
    var n := c as int;
    if n < 0x80 then [n]
    else if n < 0x800 then [0xC0 + n / 0x40, 0x80 + n % 0x40]
    else if n < 0x1_0000 then [0xE0 + n / 0x1000, 0x80 + n / 0x40 % 0x40, 0x80 + n % 0x40]
    else [0xF0 + n / 0x4_0000, 0x80 + n / 0x1000 % 0x40, 0x80 + n / 0x40 % 0x40, 0x80 + n % 0x40]
  }

  /** The UTF-8 form of a string (what `cStringUsingEncoding(NSUTF8StringEncoding)` yields before its terminator). */
  function Encode(s: string): (r: Bytes)
    ensures |s| <= |r| <= 4 * |s|
    ensures (NUL in s) == (0 in r)
  {
    if s == [] then [] else EncodeChar(s[0]) + Encode(s[1..])
  }

  lemma {:induction false} EncodeAppend(a: string, b: string)
    ensures Encode(a + b) == Encode(a) + Encode(b)
  {
    if a == [] {
      assert a + b == b;
    } else {
      assert (a + b)[1..] == a[1..] + b;
      EncodeAppend(a[1..], b);
    }
  }

  /** The value carried by a two-, three- or four-byte sequence (lead byte, then continuation bytes). */
  function Value2(b0: int, b1: int): int { (b0 - 0xC0) * 0x40 + (b1 - 0x80) }
  function Value3(b0: int, b1: int, b2: int): int { (b0 - 0xE0) * 0x1000 + (b1 - 0x80) * 0x40 + (b2 - 0x80) }
  function Value4(b0: int, b1: int, b2: int, b3: int): int {
    (b0 - 0xF0) * 0x4_0000 + (b1 - 0x80) * 0x1000 + (b2 - 0x80) * 0x40 + (b3 - 0x80)
  }

  /** True of the integers that are Unicode scalar values, the values of `char`. */
  predicate IsScalar(n: int) {
    0 <= n < 0xD800 || 0xE000 <= n <= 0x10_FFFF
  }

  /**
    Decodes the well-formed UTF-8 sequence at the start of `b`: the scalar value and the number of
    bytes it takes. Overlong forms, surrogates and values above U+10FFFF are refused.
   */
  function DecodeFirst(b: Bytes): (r: Option<(char, nat)>)
    ensures r.Some? ==> 1 <= r.value.1 <= |b| && r.value.1 <= 4
  {
    if |b| == 0 then None
    else if b[0] < 0x80 then Some((b[0] as char, 1))
    else if b[0] < 0xC2 then None
    else if b[0] < 0xE0 then
      if |b| >= 2 && IsContinuation(b[1]) then
        var n := Value2(b[0], b[1]);
        if IsScalar(n) then Some((n as char, 2)) else None
      else None
    else if b[0] < 0xF0 then
      if |b| >= 3 && IsContinuation(b[1]) && IsContinuation(b[2]) then
        var n := Value3(b[0], b[1], b[2]);
        if 0x800 <= n && IsScalar(n) then Some((n as char, 3)) else None
      else None
    else if b[0] < 0xF5 then
      if |b| >= 4 && IsContinuation(b[1]) && IsContinuation(b[2]) && IsContinuation(b[3]) then
        var n := Value4(b[0], b[1], b[2], b[3]);
        if 0x1_0000 <= n && IsScalar(n) then Some((n as char, 4)) else None
      else None
    else None
  }

  /** Decodes a whole byte sequence as UTF-8; None if any part is malformed. */
  function Decode(b: Bytes): Option<string>
    decreases |b|
  {
    if b == [] then Some([])
    else match DecodeFirst(b)
      case None => None
      case Some((c, k)) =>
        match Decode(b[k..])
        case None => None
        case Some(rest) => Some([c] + rest)
  }

  lemma Value2Of(n: int)
    requires 0x80 <= n < 0x800
    ensures Value2(0xC0 + n / 0x40, 0x80 + n % 0x40) == n
  {
  }

  lemma Value3Of(n: int)
    requires 0x800 <= n < 0x1_0000
    ensures Value3(0xE0 + n / 0x1000, 0x80 + n / 0x40 % 0x40, 0x80 + n % 0x40) == n
  {
    var q := n / 0x40;
    assert n == q * 0x40 + n % 0x40;
    assert q == (q / 0x40) * 0x40 + q % 0x40;
    assert q / 0x40 == n / 0x1000;
  }

  lemma Value4Of(n: int)
    requires 0x1_0000 <= n <= 0x10_FFFF
    ensures Value4(0xF0 + n / 0x4_0000, 0x80 + n / 0x1000 % 0x40, 0x80 + n / 0x40 % 0x40, 0x80 + n % 0x40) == n
  {
    var q := n / 0x40;
    var p := q / 0x40;
    assert n == q * 0x40 + n % 0x40;
    assert q == p * 0x40 + q % 0x40;
    assert p == (p / 0x40) * 0x40 + p % 0x40;
    assert p == n / 0x1000;
    assert p / 0x40 == n / 0x4_0000;
  }

  lemma DecodeFirstEncodeChar(c: char, rest: Bytes)
    ensures DecodeFirst(EncodeChar(c) + rest) == Some((c, |EncodeChar(c)|))
  {
    var n := c as int;
    var e := EncodeChar(c);
    var b := e + rest;
    assert b[..|e|] == e;
    if n < 0x80 {
    } else if n < 0x800 {
      Value2Of(n);
      assert b[0] == e[0] && b[1] == e[1];
    } else if n < 0x1_0000 {
      Value3Of(n);
      assert b[0] == e[0] && b[1] == e[1] && b[2] == e[2];
    } else {
      Value4Of(n);
      assert b[0] == e[0] && b[1] == e[1] && b[2] == e[2] && b[3] == e[3];
    }
  }

  /** Decoding undoes encoding, for every string. */
  lemma {:induction false} DecodeEncode(s: string)
    ensures Decode(Encode(s)) == Some(s)
  {
    if s != [] {
      var e := EncodeChar(s[0]);
      DecodeFirstEncodeChar(s[0], Encode(s[1..]));
      assert (e + Encode(s[1..]))[|e|..] == Encode(s[1..]);
      DecodeEncode(s[1..]);
      assert [s[0]] + s[1..] == s;
    }
  }

  /** C `strlen`: the number of bytes before the first 0 byte, which must be present. */
  function StrLen(b: Bytes): (n: nat)
    requires 0 in b
    ensures n < |b| && b[n] == 0 && 0 !in b[..n]
  {
    if b[0] == 0 then 0 else 1 + StrLen(b[1..])
  }

  /** `strlen` is the position of the first 0 byte, wherever that is. */
  lemma {:induction false} StrLenAt(b: Bytes, k: nat)
    requires k < |b| && b[k] == 0 && 0 !in b[..k]
    ensures StrLen(b) == k
  {
    if k > 0 {
      assert b[0] == b[..k][0];
      assert b[1..][..k - 1] == b[..k][1..];
      StrLenAt(b[1..], k - 1);
    }
  }

  /** The part of `s` before its first NUL character (all of `s` if it has none). */
  function UntilNul(s: string): (r: string)
    ensures r <= s && NUL !in r
    ensures |r| < |s| ==> s[|r|] == NUL
  {
    if s == [] || s[0] == NUL then [] else [s[0]] + UntilNul(s[1..])
  }

  /**
    The NUL-terminated UTF-8 C string of `s`: it always holds a 0 byte, so `strlen` is defined on it,
    and it holds one before its terminator exactly when the text holds a NUL character.
   */
  function CString(s: string): (c: Bytes)
    ensures |c| >= 1 && c[|c| - 1] == 0
    ensures (0 in c[..|c| - 1]) == (NUL in s)
  {
    var e := Encode(s);
    assert (e + [0])[..|e|] == e;
    e + [0]
  }

  /** The C string of `s` starts with the encoding of the part before the first NUL, then a 0 byte. */
  lemma CStringPrefix(s: string)
    ensures var e := Encode(UntilNul(s)); var c := CString(s);
            |e| < |c| && c[..|e|] == e && c[|e|] == 0
  {
    var u := UntilNul(s);
    var rest := s[|u|..];
    assert s == u + rest;
    EncodeAppend(u, rest);
    var e := Encode(u);
    var tail := Encode(rest) + [0];
    assert tail[0] == 0 by {
      if rest != [] {
        assert rest[0] == NUL;
        assert Encode(rest)[0] == EncodeChar(NUL)[0];
      }
    }
    BytesAppendAssoc(e, Encode(rest), [0]);
    PrefixOfAppend(e, tail);
  }

  lemma BytesAppendAssoc(a: Bytes, b: Bytes, c: Bytes)
    ensures (a + b) + c == a + (b + c)
  {
  }

  lemma PrefixOfAppend(a: Bytes, b: Bytes)
    requires b != []
    ensures (a + b)[..|a|] == a && (a + b)[|a|] == b[0]
  {
  }

  /**
    `NSDataFromString(s)` with the default UTF-8 encoding: the encoded characters up to the first
    NUL and exactly one terminating 0 byte.
   */
  function DataFromString(s: string): (r: Bytes)
    ensures |r| >= 1 && r[|r| - 1] == 0 && 0 !in r[..|r| - 1]
  {
    var e := Encode(UntilNul(s));
    assert (e + [0])[..|e|] == e;
    e + [0]
  }

  /** The payload is what the function builds: the first `strlen + 1` bytes of the C string. */
  lemma DataFromStringIsStrlenCopy(s: string)
    ensures var c := CString(s); DataFromString(s) == c[..StrLen(c) + 1]
  {
    var c := CString(s);
    var e := Encode(UntilNul(s));
    CStringPrefix(s);
    assert 0 !in c[..|e|] by {
      assert NUL !in UntilNul(s);
    }
    StrLenAt(c, |e|);
    TakeOneMore(c, |e|);
  }

  lemma TakeOneMore(b: Bytes, k: nat)
    requires k < |b|
    ensures b[..k + 1] == b[..k] + [b[k]]
  {
  }

  /** The payload always decodes back to the string it was made from, cut at the first NUL. */
  lemma DataFromStringDecodes(s: string)
    ensures var d := DataFromString(s); Decode(d[..|d| - 1]) == Some(UntilNul(s))
    ensures NUL !in s ==> var d := DataFromString(s); Decode(d[..|d| - 1]) == Some(s)
  {
    var d := DataFromString(s);
    var u := UntilNul(s);
    assert d[..|d| - 1] == Encode(u);
    DecodeEncode(u);
    if NUL !in s {
      assert |u| == |s|;
      assert u == s;
    }
  }

}
