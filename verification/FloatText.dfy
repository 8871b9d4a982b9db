/** The number a JSON float text stands for: the decimal it spells, rounded as the platform rounds. */
module FloatText {
  import opened Wrappers
  import opened Decimal
  import opened JsonReader

  datatype FloatValue = Finite(r: real) | PositiveInfinity | NegativeInfinity | NotANumber

  /**
   * How the platform holds floats: the rounding of an exact decimal, and whether the one NaN object the reader hands out
   * is also the NaN it is compared with (Python takes identical objects for equal without asking them).
   */
  datatype Floats = Floats(round: real -> FloatValue, sharedNaN: bool)

  function Power10(e: nat): (p: real)
    ensures p > 0.0
  {
    if e == 0 then 1.0 else 10.0 * Power10(e - 1)
  }

  function Scaled(mantissa: nat, exponent: int): real {
    if exponent >= 0 then mantissa as real * Power10(exponent) else mantissa as real / Power10(-exponent)
  }

  function Exponent(s: string): int {
    if |s| < 2 then 0
    else
      var sign := if s[1] == '-' || s[1] == '+' then 2 else 1;
      var n := NatValue(s[sign..][..Digits(s[sign..])]);
      if s[1] == '-' then 0 - n else n
  }

  /** The exact decimal spelt by digits, a fraction and an exponent. */
  function UnsignedDecimal(s: string): real {
    var whole := Digits(s);
    var tail := s[whole..];
    var places := if tail != "" && tail[0] == '.' then Digits(tail[1..]) else 0;
    var power := if places > 0 then tail[1 + places..] else tail;
    assert places > 0 ==> AllDigits(s[..whole] + tail[1..][..places]);
    var digits := if places > 0 then s[..whole] + tail[1..][..places] else s[..whole];
    Scaled(NatValue(digits), Exponent(power) - places)
  }

  function ValueOf(f: Floats, text: string): FloatValue {
    if text == "NaN" then NotANumber
    else if text == "Infinity" then PositiveInfinity
    else if text == "-Infinity" then NegativeInfinity
    else if text != "" && text[0] == '-' then f.round(0.0 - UnsignedDecimal(text[1..]))
    else f.round(UnsignedDecimal(text))
  }

  lemma OnePointZero()
    ensures UnsignedDecimal("1.0") == 1.0
  {
    assert "1.0"[1..] == ".0" && ".0"[1..] == "0" && "0"[1..] == "";
    assert Digits("0") == 1 && Digits(".0") == 0 && Digits("1.0") == 1;
    assert "1.0"[..1] == "1" && "0"[..1] == "0" && "1" + "0" == "10" && ".0"[2..] == "";
    assert "10"[..1] == "1" && "1"[..0] == "";
    assert NatValue("1") == 1 && NatValue("10") == 10;
    assert Power10(1) == 10.0;
  }
}
