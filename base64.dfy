/**
 * The base 64 encoding of section 4 of RFC 4648 (alphabet A-Z a-z 0-9 + /, padding '='), which
 * the library applies to the UTF-8 octets of "user:password" for the Basic authorization header.
 */
module Base64 {
  import opened Common
  import Utf8

  /** The alphabet character for a 6-bit value. */
  function Char(v: nat): char
    requires v < 64
  {
    if v < 26 then 'A' + v as char
    else if v < 52 then 'a' + (v - 26) as char
    else if v < 62 then '0' + (v - 52) as char
    else if v == 62 then '+'
    else '/'
  }

  /** The 6-bit value of an alphabet character; None for any other character, '=' included. */
  function Index(c: char): (r: Option<nat>)
    ensures r.Some? ==> r.value < 64
  {
    if 'A' <= c <= 'Z' then Some(c as int - 'A' as int)
    else if 'a' <= c <= 'z' then Some(c as int - 'a' as int + 26)
    else if '0' <= c <= '9' then Some(c as int - '0' as int + 52)
    else if c == '+' then Some(62)
    else if c == '/' then Some(63)
    else None
  }

  lemma IndexChar(v: nat)
    requires v < 64
    ensures Index(Char(v)) == Some(v)
  {
  }

  /** Four characters for three octets. */
  function Quad(x: Utf8.Byte, y: Utf8.Byte, z: Utf8.Byte): (q: string)
    ensures |q| == 4 && q[3] != '='
  {
    [Char(x / 4), Char((x % 4) * 16 + y / 16), Char((y % 16) * 4 + z / 64), Char(z % 64)]
  }

  /** Base 64 encoding: four characters for every three octets, the last group padded with '='. */
  function Encode(bs: seq<Utf8.Byte>): (s: string)
    ensures |bs| <= |s| && (s == [] <==> bs == [])
    decreases |bs|
  {
    if |bs| == 0 then ""
    else if |bs| == 1 then
      [Char(bs[0] / 4), Char((bs[0] % 4) * 16), '=', '=']
    else if |bs| == 2 then
      [Char(bs[0] / 4), Char((bs[0] % 4) * 16 + bs[1] / 16), Char((bs[1] % 16) * 4), '=']
    else
      Quad(bs[0], bs[1], bs[2]) + Encode(bs[3..])
  }

  /** Four characters for every started group of three octets. */
  lemma {:induction false} EncodeLength(bs: seq<Utf8.Byte>)
    ensures |Encode(bs)| == 4 * ((|bs| + 2) / 3)
    decreases |bs|
  {
    if |bs| >= 3 {
      EncodeLength(bs[3..]);
      assert (|bs| + 2) / 3 == (|bs| - 3 + 2) / 3 + 1;
    }
  }

  /** Base 64 decoding; None unless the text is a canonical encoding (unused pad bits zero). */
  function Decode(s: string): Option<seq<Utf8.Byte>>
    decreases |s|
  {
    if s == [] then Some([])
    else if |s| < 4 || Index(s[0]).None? || Index(s[1]).None? then None
    else
      var a, b := Index(s[0]).value, Index(s[1]).value;
      if s[2] == '=' && s[3] == '=' then
        if |s| == 4 && b % 16 == 0 then Some([a * 4 + b / 16]) else None
      else if Index(s[2]).None? then None
      else
        var c := Index(s[2]).value;
        if s[3] == '=' then
          if |s| == 4 && c % 4 == 0 then Some([a * 4 + b / 16, (b % 16) * 16 + c / 4]) else None
        else if Index(s[3]).None? then None
        else
          var d := Index(s[3]).value;
          var rest := Decode(s[4..]);
          if rest.None? then None
          else Some([a * 4 + b / 16, (b % 16) * 16 + c / 4, (c % 4) * 64 + d] + rest.value)
  }

  lemma DecodeOne(x: Utf8.Byte)
    ensures Decode(Encode([x])) == Some([x])
  {
    var a, b := x / 4, (x % 4) * 16;
    IndexChar(a);
    IndexChar(b);
    assert a * 4 + b / 16 == x;
  }

  /** The octets three 6-bit values spell back, for two octets. */
  lemma SextetsTwo(x: Utf8.Byte, y: Utf8.Byte)
    ensures x / 4 * 4 + ((x % 4) * 16 + y / 16) / 16 == x
    ensures (((x % 4) * 16 + y / 16) % 16) * 16 + ((y % 16) * 4) / 4 == y
    ensures ((y % 16) * 4) % 4 == 0
  {
    var b := (x % 4) * 16 + y / 16;
    assert b / 16 == x % 4 && b % 16 == y / 16;
  }

  /** The octets four 6-bit values spell back, for three octets. */
  lemma SextetsThree(x: Utf8.Byte, y: Utf8.Byte, z: Utf8.Byte)
    ensures x / 4 * 4 + ((x % 4) * 16 + y / 16) / 16 == x
    ensures (((x % 4) * 16 + y / 16) % 16) * 16 + ((y % 16) * 4 + z / 64) / 4 == y
    ensures (((y % 16) * 4 + z / 64) % 4) * 64 + z % 64 == z
  {
    var b := (x % 4) * 16 + y / 16;
    var c := (y % 16) * 4 + z / 64;
    assert b / 16 == x % 4 && b % 16 == y / 16;
    assert c / 4 == y % 16 && c % 4 == z / 64;
  }

  lemma DecodeTwo(x: Utf8.Byte, y: Utf8.Byte)
    ensures Decode(Encode([x, y])) == Some([x, y])
  {
    var a, b, c := x / 4, (x % 4) * 16 + y / 16, (y % 16) * 4;
    IndexChar(a);
    IndexChar(b);
    IndexChar(c);
    assert Encode([x, y]) == [Char(a), Char(b), Char(c), '='];
    SextetsTwo(x, y);
  }

  lemma DecodeQuad(x: Utf8.Byte, y: Utf8.Byte, z: Utf8.Byte, t: string)
    ensures Decode(Quad(x, y, z) + t) == if Decode(t).Some? then Some([x, y, z] + Decode(t).value) else None
  {
    var a, b, c, d := x / 4, (x % 4) * 16 + y / 16, (y % 16) * 4 + z / 64, z % 64;
    IndexChar(a);
    IndexChar(b);
    IndexChar(c);
    IndexChar(d);
    var s := Quad(x, y, z) + t;
    assert s[4..] == t;
    SextetsThree(x, y, z);
  }

  lemma DecodeEncodeShort(bs: seq<Utf8.Byte>)
    requires 1 <= |bs| <= 2
    ensures Decode(Encode(bs)) == Some(bs)
  {
    if |bs| == 1 {
      assert bs == [bs[0]];
      DecodeOne(bs[0]);
    } else {
      assert bs == [bs[0], bs[1]];
      DecodeTwo(bs[0], bs[1]);
    }
  }

  lemma EncodeGroup(bs: seq<Utf8.Byte>)
    requires |bs| >= 3
    ensures Encode(bs) == Quad(bs[0], bs[1], bs[2]) + Encode(bs[3..])
  {
  }

  lemma DecodeEncodeGroup(bs: seq<Utf8.Byte>)
    requires |bs| >= 3 && Decode(Encode(bs[3..])) == Some(bs[3..])
    ensures Decode(Encode(bs)) == Some(bs)
  {
    var rest := bs[3..];
    EncodeGroup(bs);
    DecodeQuad(bs[0], bs[1], bs[2], Encode(rest));
    SplitThree(bs);
  }

  lemma SplitThree(bs: seq<Utf8.Byte>)
    requires |bs| >= 3
    ensures [bs[0], bs[1], bs[2]] + bs[3..] == bs
  {
  }

  /** Decoding undoes encoding for every octet string. */
  lemma {:induction false} DecodeEncode(bs: seq<Utf8.Byte>)
    ensures Decode(Encode(bs)) == Some(bs)
    decreases |bs|
  {
    if 1 <= |bs| <= 2 {
      DecodeEncodeShort(bs);
    } else if |bs| >= 3 {
      DecodeEncode(bs[3..]);
      DecodeEncodeGroup(bs);
    }
  }
}
