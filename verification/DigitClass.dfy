/**
 * Digits as `str.isdigit` and `int` see them, from the Unicode 15.1 tables of Python 3.13: every script's decimal digits
 * have a value, and a few other digits (superscripts, circled numbers) are digits without one.
 */
module DigitClass {
  import opened Wrappers
  import opened Decimal

  /** The zeros of the scripts beyond ASCII; their nine successors are the other decimal digits. */
  predicate IsZero(c: int) {
    c in {
      0x660, 0x6f0, 0x7c0, 0x966, 0x9e6, 0xa66, 0xae6, 0xb66, 0xbe6, 0xc66, 0xce6, 0xd66, 0xde6, 0xe50, 0xed0, 0xf20,
      0x1040, 0x1090, 0x17e0, 0x1810, 0x1946, 0x19d0, 0x1a80, 0x1a90, 0x1b50, 0x1bb0, 0x1c40, 0x1c50, 0xa620, 0xa8d0,
      0xa900, 0xa9d0, 0xa9f0, 0xaa50, 0xabf0, 0xff10, 0x104a0, 0x10d30, 0x11066, 0x110f0, 0x11136, 0x111d0, 0x112f0,
      0x11450, 0x114d0, 0x11650, 0x116c0, 0x11730, 0x118e0, 0x11950, 0x11c50, 0x11d50, 0x11da0, 0x11f50, 0x16a60, 0x16ac0,
      0x16b50, 0x1d7ce, 0x1d7d8, 0x1d7e2, 0x1d7ec, 0x1d7f6, 0x1e140, 0x1e2f0, 0x1e4f0, 0x1e950, 0x1fbf0
    }
  }

  /** Digits that are not decimal. */
  predicate IsOtherDigit(c: int) {
    || 0xb2 <= c <= 0xb3 || c == 0xb9 || 0x1369 <= c <= 0x1371 || c == 0x19da || c == 0x2070 || 0x2074 <= c <= 0x2079
    || 0x2080 <= c <= 0x2089 || 0x2460 <= c <= 0x2468 || 0x2474 <= c <= 0x247c || 0x2488 <= c <= 0x2490 || c == 0x24ea
    || 0x24f5 <= c <= 0x24fd || c == 0x24ff || 0x2776 <= c <= 0x277e || 0x2780 <= c <= 0x2788 || 0x278a <= c <= 0x2792
    || 0x10a40 <= c <= 0x10a43 || 0x10e60 <= c <= 0x10e68 || 0x11052 <= c <= 0x1105a || 0x1f100 <= c <= 0x1f10a
  }

  /** How far above a zero a character lies, if that is at most `most`. */
  function AboveZero(c: int, most: nat): (r: Option<nat>)
    ensures r.Some? ==> r.value <= most
  {
    if IsZero(c - most) then Some(most) else if most == 0 then None else AboveZero(c, most - 1)
  }

  lemma {:induction false} AboveZeroFinds(c: int, most: nat)
    ensures var r := AboveZero(c, most);
            if r.Some? then IsZero(c - r.value) else forall z :: IsZero(z) ==> !(c - most <= z <= c)
  {
    hide IsZero;
    if !IsZero(c - most) && most > 0 { AboveZeroFinds(c, most - 1); }
  }

  /** The value `int` gives a single digit. */
  function DecimalOf(c: char): (r: Option<nat>)
    ensures r.Some? ==> r.value < 10
  {
    if c as int < 0x80 then if IsDigit(c) then Some(DigitValue(c)) else None else AboveZero(c as int, 9)
  }

  predicate IsAnyDigit(c: char) {
    DecimalOf(c).Some? || (c as int >= 0x80 && IsOtherDigit(c as int))
  }

  /** `part.isdigit()`. */
  predicate IsIndex(part: string) {
    part != "" && forall i :: 0 <= i < |part| ==> IsAnyDigit(part[i])
  }

  function ValueOfAll(part: string): Option<nat> {
    if part == "" then Some(0)
    else
      match (ValueOfAll(part[..|part| - 1]), DecimalOf(part[|part| - 1]))
      case (Some(front), Some(last)) => Some(10 * front + last)
      case _ => None
  }

  /** `int(part)` for an index part; `None` where `int` raises. */
  function IndexOf(part: string): Option<nat> {
    if IsIndex(part) then ValueOfAll(part) else None
  }

  /** A part that starts with an ASCII character other than a digit is no index. */
  lemma NameIsNoIndex(part: string)
    requires part != "" && part[0] as int < 0x80 && !IsDigit(part[0])
    ensures !IsIndex(part)
  {
    assert DecimalOf(part[0]).None?;
  }

  /** Among ASCII parts the index is the decimal number. */
  lemma {:induction false} AsciiIndex(part: string)
    requires part != "" && AllDigits(part)
    ensures IsIndex(part) && IndexOf(part) == Some(NatValue(part))
  {
    AsciiValue(part);
    forall i | 0 <= i < |part| ensures IsAnyDigit(part[i]) { assert IsDigit(part[i]); }
  }

  lemma {:induction false} AsciiValue(part: string)
    requires AllDigits(part)
    ensures ValueOfAll(part) == Some(NatValue(part))
  {
    if part != "" { AsciiValue(part[..|part| - 1]); }
  }

  /** The same index in another script, and a digit `int` refuses. */
  lemma OtherScripts()
    ensures IndexOf("\U{663}") == Some(3) && IndexOf("3") == Some(3)
    ensures IsIndex("\U{b2}") && IndexOf("\U{b2}") == None
  {
    OneDigit('\U{663}');
    OneDigit('\U{b2}');
    OneDigit('3');
    ArabicThree();
    AboveZeroFinds(0xb2, 9);
    hide IndexOf;
    assert DecimalOf('\U{b2}').None?;
  }

  lemma ArabicThree()
    ensures DecimalOf('\U{663}') == Some(3)
  {
    AboveZeroFinds(0x663, 9);
    assert IsZero(0x660);
  }

  lemma OneDigit(c: char)
    ensures IsIndex([c]) == IsAnyDigit(c)
    ensures IndexOf([c]) == if IsAnyDigit(c) then DecimalOf(c) else None
  {
    hide DecimalOf;
    assert [c][..0] == "" && [c][0] == c;
    assert ValueOfAll("") == Some(0);
  }
}
