/**
 * UTF-8 (section 3 of RFC 3629): how strings become bytes where the library hands a string to
 * Buffer (the Basic credentials) or to encodeURIComponent (each escaped octet).
 */
module Utf8 {
  import opened Common

  /** An octet. */
  type Byte = b: int | 0 <= b < 256

  /** A code point that a `char` can hold: a Unicode scalar value. */
  predicate IsScalar(n: int)
  {
    0 <= n < 0xD800 || 0xE000 <= n < 0x11_0000
  }

  /** The UTF-8 encoding of one character: 1 to 4 octets, a single octet exactly for ASCII. */
  function EncodeChar(c: char): (bs: seq<Byte>)
    ensures 1 <= |bs| <= 4
    ensures |bs| == 1 <==> c as int < 0x80
    ensures |bs| == 1 ==> bs[0] == c as int
  {
    var n := c as int;
    if n < 0x80 then [n]
    else if n < 0x800 then [0xC0 + n / 64, 0x80 + n % 64]
    else if n < 0x1_0000 then [0xE0 + n / 4096, 0x80 + (n / 64) % 64, 0x80 + n % 64]
    else [0xF0 + n / 262144, 0x80 + (n / 4096) % 64, 0x80 + (n / 64) % 64, 0x80 + n % 64]
  }

  /** The UTF-8 encoding of a string. */
  function Encode(s: string): (bs: seq<Byte>)
    ensures |bs| >= |s|
  {
    if s == [] then [] else EncodeChar(s[0]) + Encode(s[1..])
  }

  predicate IsContinuation(b: Byte)
  {
    0x80 <= b < 0xC0
  }

  /** The code point spelled by a lead octet's payload and `k` continuation octets. */
  function Payload(bs: seq<Byte>, lead: int, k: nat): int
    requires k < |bs|
  {
    if k == 0 then bs[0] as int - lead else Payload(bs, lead, k - 1) * 64 + (bs[k] as int - 0x80)
  }

  /** Decodes the character at the front of bs, with the number of octets it takes. */
  function DecodeChar(bs: seq<Byte>): (r: Option<(char, nat)>)
    ensures r.Some? ==> 1 <= r.value.1 <= |bs|
  {
    if bs == [] then None
    else if bs[0] < 0x80 then Some((bs[0] as char, 1))
    else
      var (lead, len, least) :=
        if 0xC0 <= bs[0] < 0xE0 then (0xC0, 2, 0x80)
        else if 0xE0 <= bs[0] < 0xF0 then (0xE0, 3, 0x800)
        else if 0xF0 <= bs[0] < 0xF8 then (0xF0, 4, 0x1_0000)
        else (0, 0, 0);
      if len == 0 || |bs| < len then None
      else if !(forall i :: 1 <= i < len ==> IsContinuation(bs[i])) then None
      else
        var n := Payload(bs, lead, len - 1);
        if least <= n && IsScalar(n) then Some((n as char, len)) else None
  }

  /** UTF-8 decoding: None for a malformed, overlong or truncated sequence. */
  function Decode(bs: seq<Byte>): (r: Option<string>)
    decreases |bs|
  {
    if bs == [] then Some("")
    else
      match DecodeChar(bs)
      case None => None
      case Some((c, k)) =>
        match Decode(bs[k..])
        case None => None
        case Some(rest) => Some([c] + rest)
  }

  lemma EncodeTwoDecodes(n: int, bs: seq<Byte>)
    requires 0x80 <= n < 0x800 && |bs| >= 2
    requires bs[0] == 0xC0 + n / 64 && bs[1] == 0x80 + n % 64
    ensures Payload(bs, 0xC0, 1) == n
  {
    assert Payload(bs, 0xC0, 0) == n / 64;
  }

  lemma EncodeThreeDecodes(n: int, bs: seq<Byte>)
    requires 0x800 <= n < 0x1_0000 && |bs| >= 3
    requires bs[0] == 0xE0 + n / 4096 && bs[1] == 0x80 + (n / 64) % 64 && bs[2] == 0x80 + n % 64
    ensures Payload(bs, 0xE0, 2) == n
  {
    assert n / 64 == (n / 4096) * 64 + (n / 64) % 64;
    assert Payload(bs, 0xE0, 1) == n / 64;
  }

  lemma EncodeFourDecodes(n: int, bs: seq<Byte>)
    requires 0x1_0000 <= n && |bs| >= 4
    requires bs[0] == 0xF0 + n / 262144 && bs[1] == 0x80 + (n / 4096) % 64
    requires bs[2] == 0x80 + (n / 64) % 64 && bs[3] == 0x80 + n % 64
    ensures Payload(bs, 0xF0, 3) == n
  {
    assert n / 4096 == (n / 262144) * 64 + (n / 4096) % 64;
    assert Payload(bs, 0xF0, 1) == n / 4096;
    assert n / 64 == (n / 4096) * 64 + (n / 64) % 64;
    assert Payload(bs, 0xF0, 2) == n / 64;
  }

  lemma EncodeCharDecodes(c: char, rest: seq<Byte>)
    ensures DecodeChar(EncodeChar(c) + rest) == Some((c, |EncodeChar(c)|))
  {
    var n := c as int;
    var bs := EncodeChar(c) + rest;
    if n < 0x80 {
    } else if n < 0x800 {
      EncodeTwoDecodes(n, bs);
    } else if n < 0x1_0000 {
      EncodeThreeDecodes(n, bs);
    } else {
      EncodeFourDecodes(n, bs);
    }
  }

  /** Decoding undoes encoding: every string survives the trip through UTF-8. */
  lemma {:induction false} DecodeEncode(s: string)
    ensures Decode(Encode(s)) == Some(s)
  {
    if s != [] {
      var e := EncodeChar(s[0]);
      EncodeCharDecodes(s[0], Encode(s[1..]));
      assert (e + Encode(s[1..]))[|e|..] == Encode(s[1..]);
      DecodeEncode(s[1..]);
      assert [s[0]] + s[1..] == s;
    }
  }

  /** Encoding distributes over concatenation. */
  lemma {:induction false} EncodeAppend(a: string, b: string)
    ensures Encode(a + b) == Encode(a) + Encode(b)
  {
    if a != [] {
      assert (a + b)[1..] == a[1..] + b;
      EncodeAppend(a[1..], b);
    } else {
      assert a + b == b;
    }
  }
}
