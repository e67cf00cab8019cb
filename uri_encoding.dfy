/**
 * encodeURIComponent as ECMA-262 5.1 section 15.1.3.4 defines it: every character outside the
 * unreserved set is written as the percent-encoded octets of its UTF-8 form (section 2.1 of
 * RFC 3986), upper-case hexadecimal. Decoding is the partner used to state what encoding keeps.
 */
module UriEncoding {
  import opened Common
  import Utf8

  /** uriUnescaped: letters, decimal digits and the marks - _ . ! ~ * ' ( ). */
  predicate IsUnescaped(c: char)
  {
    ('A' <= c <= 'Z') || ('a' <= c <= 'z') || ('0' <= c <= '9')
    || c == '-' || c == '_' || c == '.' || c == '!' || c == '~' || c == '*' || c == '\'' || c == '(' || c == ')'
  }

  /** The upper-case hexadecimal digit of 0 <= d < 16. */
  function HexDigit(d: nat): (c: char)
    requires d < 16
    ensures IsUnescaped(c)
  {
    if d < 10 then '0' + d as char else 'A' + (d - 10) as char
  }

  /** The value of a hexadecimal digit of either case. */
  function HexValue(c: char): Option<nat>
  {
    if '0' <= c <= '9' then Some(c as int - '0' as int)
    else if 'A' <= c <= 'F' then Some(c as int - 'A' as int + 10)
    else if 'a' <= c <= 'f' then Some(c as int - 'a' as int + 10)
    else None
  }

  /** "%XY" for one octet. */
  function Escape(b: Utf8.Byte): (r: string)
    ensures |r| == 3 && r[0] == '%' && IsUnescaped(r[1]) && IsUnescaped(r[2])
  {
    ['%', HexDigit(b / 16), HexDigit(b % 16)]
  }

  function EscapeAll(bs: seq<Utf8.Byte>): (r: string)
    ensures |r| == 3 * |bs|
    ensures forall i :: 0 <= i < |r| ==> IsUnescaped(r[i]) || r[i] == '%'
  {
    if bs == [] then "" else Escape(bs[0]) + EscapeAll(bs[1..])
  }

  /** One character: itself when unreserved, otherwise its escaped UTF-8 octets. */
  function EscapeChar(c: char): (r: string)
    ensures forall i :: 0 <= i < |r| ==> IsUnescaped(r[i]) || r[i] == '%'
  {
    if IsUnescaped(c) then [c] else EscapeAll(Utf8.EncodeChar(c))
  }

  /**
   * encodeURIComponent. The result holds only unreserved characters and '%', so in particular
   * never '&', '=', '?', '#' or a space; unreserved characters come through unchanged.
   */
  function EncodeURIComponent(s: string): (r: string)
    ensures forall i :: 0 <= i < |r| ==> IsUnescaped(r[i]) || r[i] == '%'
    ensures (forall i :: 0 <= i < |s| ==> IsUnescaped(s[i])) ==> r == s
  {
    if s == [] then "" else EscapeChar(s[0]) + EncodeURIComponent(s[1..])
  }

  function Prepend(bs: seq<Utf8.Byte>, o: Option<seq<Utf8.Byte>>): Option<seq<Utf8.Byte>>
  {
    if o.Some? then Some(bs + o.value) else None
  }

  /** Percent-decoding to octets: "%XY" is one octet, any other character its UTF-8 octets. */
  function Unescape(s: string): Option<seq<Utf8.Byte>>
    decreases |s|
  {
    if s == [] then Some([])
    else if s[0] == '%' then
      if |s| < 3 then None
      else
        match (HexValue(s[1]), HexValue(s[2]))
        case (Some(h), Some(l)) => Prepend([h * 16 + l], Unescape(s[3..]))
        case _ => None
    else Prepend(Utf8.EncodeChar(s[0]), Unescape(s[1..]))
  }

  /** decodeURIComponent: percent-decoding followed by UTF-8 decoding. */
  function DecodeURIComponent(s: string): Option<string>
  {
    match Unescape(s)
    case None => None
    case Some(bs) => Utf8.Decode(bs)
  }

  lemma HexRoundTrip(b: Utf8.Byte)
    ensures HexValue(HexDigit(b / 16)) == Some(b / 16)
    ensures HexValue(HexDigit(b % 16)) == Some(b % 16)
  {
  }

  lemma UnescapeEscape(b: Utf8.Byte, rest: string)
    ensures Unescape(Escape(b) + rest) == Prepend([b], Unescape(rest))
  {
    var t := Escape(b) + rest;
    HexRoundTrip(b);
    assert t[0] == '%' && t[1] == HexDigit(b / 16) && t[2] == HexDigit(b % 16);
    assert t[3..] == rest;
    assert (b / 16) * 16 + b % 16 == b;
  }

  lemma PrependPrepend(a: seq<Utf8.Byte>, b: seq<Utf8.Byte>, o: Option<seq<Utf8.Byte>>)
    ensures Prepend(a, Prepend(b, o)) == Prepend(a + b, o)
  {
    if o.Some? {
      assert a + (b + o.value) == (a + b) + o.value;
    }
  }

  lemma EscapeAllCons(bs: seq<Utf8.Byte>, rest: string)
    requires bs != []
    ensures EscapeAll(bs) + rest == Escape(bs[0]) + (EscapeAll(bs[1..]) + rest)
  {
    assert EscapeAll(bs) == Escape(bs[0]) + EscapeAll(bs[1..]);
  }

  lemma UnescapeEscapeNone(rest: string)
    ensures Unescape(EscapeAll([]) + rest) == Prepend([], Unescape(rest))
  {
    assert EscapeAll([]) + rest == rest;
    if Unescape(rest).Some? {
      assert [] + Unescape(rest).value == Unescape(rest).value;
    }
  }

  lemma UnescapeEscapeAllStep(bs: seq<Utf8.Byte>, rest: string)
    requires bs != []
    requires Unescape(EscapeAll(bs[1..]) + rest) == Prepend(bs[1..], Unescape(rest))
    ensures Unescape(EscapeAll(bs) + rest) == Prepend(bs, Unescape(rest))
  {
    var tail := EscapeAll(bs[1..]) + rest;
    EscapeAllCons(bs, rest);
    UnescapeEscape(bs[0], tail);
    PrependPrepend([bs[0]], bs[1..], Unescape(rest));
    assert [bs[0]] + bs[1..] == bs;
  }

  lemma {:induction false} UnescapeEscapeAll(bs: seq<Utf8.Byte>, rest: string)
    ensures Unescape(EscapeAll(bs) + rest) == Prepend(bs, Unescape(rest))
  {
    if bs != [] {
      UnescapeEscapeAll(bs[1..], rest);
      UnescapeEscapeAllStep(bs, rest);
    } else {
      UnescapeEscapeNone(rest);
    }
  }

  /** Percent-decoding the encoding of a string gives back its UTF-8 octets. */
  lemma {:induction false} UnescapeEncode(s: string)
    ensures Unescape(EncodeURIComponent(s)) == Some(Utf8.Encode(s))
  {
    if s != [] {
      var c := s[0];
      var tail := EncodeURIComponent(s[1..]);
      UnescapeEncode(s[1..]);
      if IsUnescaped(c) {
        assert ([c] + tail)[1..] == tail;
      } else {
        UnescapeEscapeAll(Utf8.EncodeChar(c), tail);
      }
    }
  }

  /** decodeURIComponent undoes encodeURIComponent for every string. */
  lemma EncodeRoundTrip(s: string)
    ensures DecodeURIComponent(EncodeURIComponent(s)) == Some(s)
  {
    UnescapeEncode(s);
    Utf8.DecodeEncode(s);
  }
}
