/**
 * Base64 with the URL alphabet (section 5 of RFC 4648), its padding stripped for the token and restored to read it.
 * Reading is the lenient one of CPython's binascii.a2b_base64: characters outside the alphabet are skipped, a
 * completed pad ends the input, and only a dangling quantum is an error.
 */
module Base64Url {
  import opened Wrappers
  import opened Utf8

  type sextet = n: int | 0 <= n < 64

  /** ASCII, printable, and neither a pad, a dot nor a character JSON escapes. */
  predicate IsTokenChar(c: char) {
    ' ' < c < 128 as char && c != '=' && c != '.' && c != '"' && c != '\\'
  }

  predicate IsTokenText(s: string) {
    forall i :: 0 <= i < |s| ==> IsTokenChar(s[i])
  }

  function CharOf(n: sextet): (c: char)
    ensures IsTokenChar(c)
    ensures ValueOf(c) == Some(n)
  {
    if n < 26 then (n + 'A' as int) as char
    else if n < 52 then (n - 26 + 'a' as int) as char
    else if n < 62 then (n - 52 + '0' as int) as char
    else if n == 62 then '-' else '_'
  }

  /** Both alphabets are read, since the URL characters are translated to the standard ones first. */
  function ValueOf(c: char): Option<sextet> {
    if 'A' <= c <= 'Z' then Some(c as int - 'A' as int)
    else if 'a' <= c <= 'z' then Some(c as int - 'a' as int + 26)
    else if '0' <= c <= '9' then Some(c as int - '0' as int + 52)
    else if c == '-' || c == '+' then Some(62)
    else if c == '_' || c == '/' then Some(63)
    else None
  }

  function Sextet0(b0: byte): sextet { b0 as int / 4 }

  function Sextet1(b0: byte, b1: byte): sextet { b0 as int % 4 * 16 + b1 as int / 16 }

  function Sextet2(b1: byte, b2: byte): sextet { b1 as int % 16 * 4 + b2 as int / 64 }

  function Sextet3(b2: byte): sextet { b2 as int % 64 }

  /** The two, three or four characters that carry one, two or three bytes. */
  function Quad2(b0: byte, b1: byte): (s: string)
    ensures |s| == 2 && IsTokenText(s)
  {
    [CharOf(Sextet0(b0)), CharOf(Sextet1(b0, b1))]
  }

  function Quad3(b0: byte, b1: byte, b2: byte): (s: string)
    ensures |s| == 3 && IsTokenText(s)
  {
    [CharOf(Sextet0(b0)), CharOf(Sextet1(b0, b1)), CharOf(Sextet2(b1, b2))]
  }

  function Quad(b0: byte, b1: byte, b2: byte): (s: string)
    ensures |s| == 4 && IsTokenText(s)
  {
    [CharOf(Sextet0(b0)), CharOf(Sextet1(b0, b1)), CharOf(Sextet2(b1, b2)), CharOf(Sextet3(b2))]
  }

  function Padded(bs: seq<byte>): string {
    if |bs| == 0 then ""
    else if |bs| == 1 then Quad2(bs[0], 0) + "=="
    else if |bs| == 2 then Quad3(bs[0], bs[1], 0) + "="
    else Quad(bs[0], bs[1], bs[2]) + Padded(bs[3..])
  }

  function StripPad(s: string): string {
    if s != [] && s[|s| - 1] == '=' then StripPad(s[..|s| - 1]) else s
  }

  function Pad(n: nat): string {
    seq(n, i => '=')
  }

  /** `-n % 4`, floored as Python does. */
  function PadCount(n: nat): nat {
    (4 - n % 4) % 4
  }

  function Write(bs: seq<byte>): string {
    StripPad(Padded(bs))
  }

  function Read(s: string): Option<seq<byte>> {
    var padded := s + Pad(PadCount(|s|));
    if exists i :: 0 <= i < |padded| && padded[i] >= 128 as char then None
    else Quanta(padded, 0, 0, 0)
  }

  function Cons(b: byte, r: Option<seq<byte>>): Option<seq<byte>> {
    if r.Some? then Some([b] + r.value) else None
  }

  /** `pos` sextets of the current quantum are read, `left` holds their bits not yet in a byte, `pads` counts pads. */
  function Quanta(s: string, pos: nat, left: nat, pads: nat): Option<seq<byte>>
    requires pos < 4
    requires left < if pos == 1 then 64 else if pos == 2 then 16 else if pos == 3 then 4 else 1
  {
    if s == [] then
      if pos == 0 then Some([]) else None
    else if s[0] == '=' then
      if pos < 2 then Quanta(s[1..], pos, left, pads)
      else if pos + pads + 1 >= 4 then Some([])
      else Quanta(s[1..], pos, left, pads + 1)
    else
      match ValueOf(s[0])
      case None => Quanta(s[1..], pos, left, pads)
      case Some(v) =>
        if pos == 0 then Quanta(s[1..], 1, v, 0)
        else if pos == 1 then Cons(left * 4 + v / 16, Quanta(s[1..], 2, v % 16, 0))
        else if pos == 2 then Cons(left * 16 + v / 4, Quanta(s[1..], 3, v % 4, 0))
        else Cons(left * 64 + v, Quanta(s[1..], 0, 0, 0))
  }

  lemma ReadFirst(v0: sextet, v1: sextet, rest: string)
    ensures Quanta([CharOf(v0), CharOf(v1)] + rest, 0, 0, 0) == Cons(v0 * 4 + v1 / 16, Quanta(rest, 2, v1 % 16, 0))
  {
    var s := [CharOf(v0), CharOf(v1)] + rest;
    assert s[1..] == [CharOf(v1)] + rest;
    assert s[1..][1..] == rest;
  }

  lemma ReadSecond(v: sextet, left: nat, rest: string)
    requires left < 16
    ensures Quanta([CharOf(v)] + rest, 2, left, 0) == Cons(left * 16 + v / 4, Quanta(rest, 3, v % 4, 0))
  {
    assert ([CharOf(v)] + rest)[1..] == rest;
  }

  lemma ReadThird(v: sextet, left: nat, rest: string)
    requires left < 4
    ensures Quanta([CharOf(v)] + rest, 3, left, 0) == Cons(left * 64 + v, Quanta(rest, 0, 0, 0))
  {
    assert ([CharOf(v)] + rest)[1..] == rest;
  }

  /** What four characters stand for, however much of the quantum is present. */
  lemma ReadSextets(v0: sextet, v1: sextet, v2: sextet, v3: sextet, rest: string)
    ensures Quanta([CharOf(v0), CharOf(v1), CharOf(v2)] + rest, 0, 0, 0)
         == Cons(v0 * 4 + v1 / 16, Cons(v1 % 16 * 16 + v2 / 4, Quanta(rest, 3, v2 % 4, 0)))
    ensures Quanta([CharOf(v0), CharOf(v1), CharOf(v2), CharOf(v3)] + rest, 0, 0, 0)
         == Cons(v0 * 4 + v1 / 16, Cons(v1 % 16 * 16 + v2 / 4, Cons(v2 % 4 * 64 + v3, Quanta(rest, 0, 0, 0))))
  {
    hide CharOf, Quanta;
    assert [CharOf(v0), CharOf(v1), CharOf(v2)] + rest == [CharOf(v0), CharOf(v1)] + ([CharOf(v2)] + rest);
    assert [CharOf(v0), CharOf(v1), CharOf(v2), CharOf(v3)] + rest == [CharOf(v0), CharOf(v1)] + ([CharOf(v2)] + ([CharOf(v3)] + rest));
    ReadFirst(v0, v1, [CharOf(v2)] + rest);
    ReadFirst(v0, v1, [CharOf(v2)] + ([CharOf(v3)] + rest));
    ReadSecond(v2, v1 % 16, rest);
    ReadSecond(v2, v1 % 16, [CharOf(v3)] + rest);
    ReadThird(v3, v2 % 4, rest);
  }

  /** The first byte of a quantum needs two characters, the second a third, the last all four. */
  lemma ReadQuad(b0: byte, b1: byte, b2: byte, rest: string)
    ensures Quanta(Quad2(b0, b1) + rest, 0, 0, 0) == Cons(b0, Quanta(rest, 2, b1 as int / 16, 0))
    ensures Quanta(Quad3(b0, b1, b2) + rest, 0, 0, 0) == Cons(b0, Cons(b1, Quanta(rest, 3, b2 as int / 64, 0)))
    ensures Quanta(Quad(b0, b1, b2) + rest, 0, 0, 0) == Cons(b0, Cons(b1, Cons(b2, Quanta(rest, 0, 0, 0))))
  {
    hide CharOf, Quanta, Cons, Sextet0, Sextet1, Sextet2, Sextet3;
    Regroup(b0, b1, b2);
    ReadFirst(Sextet0(b0), Sextet1(b0, b1), rest);
    ReadSextets(Sextet0(b0), Sextet1(b0, b1), Sextet2(b1, b2), Sextet3(b2), rest);
  }

  lemma Regroup(b0: byte, b1: byte, b2: byte)
    ensures Sextet0(b0) * 4 + Sextet1(b0, b1) / 16 == b0 && Sextet1(b0, b1) % 16 == b1 as int / 16
    ensures Sextet1(b0, b1) % 16 * 16 + Sextet2(b1, b2) / 4 == b1 && Sextet2(b1, b2) % 4 == b2 as int / 64
    ensures Sextet2(b1, b2) % 4 * 64 + Sextet3(b2) == b2
  {
  }

  lemma ReadPads()
    ensures Quanta("==", 2, 0, 0) == Some([]) && Quanta("=", 3, 0, 0) == Some([])
  {
    assert "=="[1..] == "=";
    assert Quanta("=", 2, 0, 1) == Some([]);
  }

  lemma ConsThree(bs: seq<byte>)
    requires |bs| >= 3
    ensures Cons(bs[0], Cons(bs[1], Cons(bs[2], Some(bs[3..])))) == Some(bs)
  {
    assert bs == [bs[0]] + ([bs[1]] + ([bs[2]] + bs[3..]));
  }

  lemma {:induction false} ReadPadded(bs: seq<byte>)
    ensures Quanta(Padded(bs), 0, 0, 0) == Some(bs)
  {
    assert Quanta("", 0, 0, 0) == Some([]);
    hide Quanta, Quad, Quad2, Quad3;
    ReadPads();
    if |bs| == 1 {
      ReadQuad(bs[0], 0, 0, "==");
      assert bs == [bs[0]] + [];
    } else if |bs| == 2 {
      ReadQuad(bs[0], bs[1], 0, "=");
      assert bs == [bs[0]] + ([bs[1]] + []);
    } else if |bs| >= 3 {
      var rest := bs[3..];
      assert Padded(bs) == Quad(bs[0], bs[1], bs[2]) + Padded(rest);
      hide Padded;
      ReadQuad(bs[0], bs[1], bs[2], Padded(rest));
      ReadPadded(rest);
      ConsThree(bs);
    }
  }

  lemma {:induction false} StripPads(s: string, n: nat)
    requires IsTokenText(s)
    ensures StripPad(s + Pad(n)) == s
  {
    var t := s + Pad(n);
    if n == 0 {
      assert t == s;
    } else {
      assert t[..|t| - 1] == s + Pad(n - 1);
      StripPads(s, n - 1);
    }
  }

  /** The characters before the padding. */
  function Body(bs: seq<byte>): (s: string)
    ensures IsTokenText(s)
  {
    if |bs| == 0 then ""
    else if |bs| == 1 then Quad2(bs[0], 0)
    else if |bs| == 2 then Quad3(bs[0], bs[1], 0)
    else Quad(bs[0], bs[1], bs[2]) + Body(bs[3..])
  }

  lemma {:induction false} BodyLength(bs: seq<byte>)
    ensures |Body(bs)| == (4 * |bs| + 2) / 3
  {
    if |bs| >= 3 { BodyLength(bs[3..]); }
  }

  lemma {:induction false} BodyThenPads(bs: seq<byte>)
    ensures Padded(bs) == Body(bs) + Pad(PadCount(|Body(bs)|))
  {
    hide Quad, Quad2, Quad3;
    if |bs| == 0 {
      assert Pad(0) == "";
    } else if |bs| == 1 {
      assert "==" == Pad(2);
    } else if |bs| == 2 {
      assert "=" == Pad(1);
    } else if |bs| >= 3 {
      BodyThenPads(bs[3..]);
      ShiftByFour(|Body(bs[3..])|);
      var quad, body := Quad(bs[0], bs[1], bs[2]), Body(bs[3..]);
      assert quad + (body + Pad(PadCount(|body|))) == quad + body + Pad(PadCount(|body|));
    }
  }

  lemma ShiftByFour(n: nat)
    ensures PadCount(4 + n) == PadCount(n)
  {
  }

  /** Unpadded text: no pad, no dot, ASCII, and 4/3 of the bytes, rounded up. */
  lemma WriteShape(bs: seq<byte>)
    ensures IsTokenText(Write(bs)) && |Write(bs)| == (4 * |bs| + 2) / 3
    ensures Padded(bs) == Write(bs) + Pad(PadCount(|Write(bs)|))
  {
    BodyLength(bs);
    BodyThenPads(bs);
    StripPads(Body(bs), PadCount(|Body(bs)|));
  }

  lemma ReadWritten(bs: seq<byte>)
    ensures Read(Write(bs)) == Some(bs)
  {
    WriteShape(bs);
    ReadPadded(bs);
  }
}
