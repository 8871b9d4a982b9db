/** UTF-8 (section 3 of RFC 3629): `str.encode` and the strict `bytes.decode`. */
module Utf8 {
  import opened Wrappers

  type byte = b: int | 0 <= b < 256

  function EncodeChar(c: char): (bs: seq<byte>)
    ensures 1 <= |bs| <= 4
  {
    var n := c as int;
    if n < 0x80 then [n]
    else if n < 0x800 then [0xC0 + n / 64, 0x80 + n % 64]
    else if n < 0x10000 then [0xE0 + n / 4096, 0x80 + n / 64 % 64, 0x80 + n % 64]
    else [0xF0 + n / 262144, 0x80 + n / 4096 % 64, 0x80 + n / 64 % 64, 0x80 + n % 64]
  }

  function Encode(s: string): seq<byte> {
    if s == [] then [] else EncodeChar(s[0]) + Encode(s[1..])
  }

  predicate IsTail(bs: seq<byte>, i: nat) {
    i < |bs| && 0x80 <= bs[i] < 0xC0
  }

  predicate IsScalar(n: int) {
    0 <= n < 0xD800 || 0xE000 <= n < 0x110000
  }

  /** The code point at the head and its width; none for an overlong form, a surrogate or a stray byte. */
  function DecodeHead(bs: seq<byte>): (r: Option<(char, nat)>)
    ensures r.Some? ==> 1 <= r.value.1 <= |bs|
  {
    if bs == [] then None
    else if bs[0] < 0x80 then Some((bs[0] as char, 1))
    else if 0xC0 <= bs[0] < 0xE0 && IsTail(bs, 1) then
      var n: int := (bs[0] as int - 0xC0) * 64 + (bs[1] as int - 0x80);
      if n >= 0x80 then Some((n as char, 2)) else None
    else if 0xE0 <= bs[0] < 0xF0 && IsTail(bs, 1) && IsTail(bs, 2) then
      var n: int := (bs[0] as int - 0xE0) * 4096 + (bs[1] as int - 0x80) * 64 + (bs[2] as int - 0x80);
      if n >= 0x800 && IsScalar(n) then Some((n as char, 3)) else None
    else if 0xF0 <= bs[0] < 0xF8 && IsTail(bs, 1) && IsTail(bs, 2) && IsTail(bs, 3) then
      var n: int := (bs[0] as int - 0xF0) * 262144 + (bs[1] as int - 0x80) * 4096 + (bs[2] as int - 0x80) * 64 + (bs[3] as int - 0x80);
      if n >= 0x10000 && IsScalar(n) then Some((n as char, 4)) else None
    else None
  }

  function Decode(bs: seq<byte>): Option<string>
    decreases |bs|
  {
    if bs == [] then Some([])
    else
      match DecodeHead(bs)
      case None => None
      case Some((c, width)) =>
        match Decode(bs[width..])
        case None => None
        case Some(rest) => Some([c] + rest)
  }

  lemma Sixths(n: nat)
    ensures n == n / 4096 * 4096 + n / 64 % 64 * 64 + n % 64
    ensures n / 4096 == n / 262144 * 64 + n / 4096 % 64
  {
    assert n / 64 / 64 == n / 4096;
    assert n / 4096 / 64 == n / 262144;
  }

  lemma DecodeHeadOfChar(c: char, rest: seq<byte>)
    ensures DecodeHead(EncodeChar(c) + rest) == Some((c, |EncodeChar(c)|))
  {
    var n := c as int;
    assert IsScalar(n);
    if n >= 0x800 {
      Sixths(n);
    }
  }

  lemma {:induction false} DecodeEncode(s: string)
    ensures Decode(Encode(s)) == Some(s)
  {
    hide EncodeChar, DecodeHead;
    if s != [] {
      DecodeHeadOfChar(s[0], Encode(s[1..]));
      assert Encode(s)[|EncodeChar(s[0])|..] == Encode(s[1..]);
      DecodeEncode(s[1..]);
      assert s == [s[0]] + s[1..];
    }
  }

  lemma {:induction false} EncodeConcat(s: string, t: string)
    ensures Encode(s + t) == Encode(s) + Encode(t)
  {
    hide EncodeChar;
    if s == [] {
      assert s + t == t;
    } else {
      EncodeConcat(s[1..], t);
      assert (s + t)[1..] == s[1..] + t;
    }
  }

  /** ASCII text costs one byte a character. */
  lemma {:induction false} EncodeAscii(s: string)
    requires forall i :: 0 <= i < |s| ==> s[i] < 128 as char
    ensures |Encode(s)| == |s|
  {
    if s != [] { EncodeAscii(s[1..]); }
  }
}
