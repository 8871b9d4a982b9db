/** Decimal text of natural numbers, as `str(int)` writes it and `int(str)` reads it. */
module Decimal {

  predicate IsDigit(c: char) {
    '0' <= c <= '9'
  }

  predicate AllDigits(s: string) {
    forall i :: 0 <= i < |s| ==> IsDigit(s[i])
  }

  function DigitChar(d: nat): (c: char)
    requires d < 10
    ensures IsDigit(c) && c as int - '0' as int == d
  {
    ('0' as int + d) as char
  }

  function DigitValue(c: char): (d: nat)
    requires IsDigit(c)
    ensures d < 10 && DigitChar(d) == c
  {
    c as int - '0' as int
  }

  function NatText(n: nat): (s: string)
    ensures |s| >= 1 && AllDigits(s)
    ensures s[0] == '0' <==> n == 0
    ensures s[0] == '0' ==> |s| == 1
  {
    if n < 10 then [DigitChar(n)] else NatText(n / 10) + [DigitChar(n % 10)]
  }

  function NatValue(s: string): nat
    requires AllDigits(s)
  {
    if s == [] then 0 else 10 * NatValue(s[..|s| - 1]) + DigitValue(s[|s| - 1])
  }

  /** No leading zero, as both JSON integers and Turn sequences require. */
  predicate IsCanonical(s: string) {
    s != [] && AllDigits(s) && (s[0] == '0' ==> |s| == 1)
  }

  lemma {:induction false} ReadWritten(n: nat)
    ensures NatValue(NatText(n)) == n
  {
    if n >= 10 {
      ReadWritten(n / 10);
      var s := NatText(n);
      assert s[..|s| - 1] == NatText(n / 10);
    }
  }

  lemma {:induction false} WriteRead(s: string)
    requires IsCanonical(s)
    ensures NatText(NatValue(s)) == s
  {
    var init := s[..|s| - 1];
    assert s == init + [s[|s| - 1]];
    if init == [] {
      assert NatValue(s) == DigitValue(s[0]);
    } else {
      WriteRead(init);
      assert NatText(NatValue(init))[0] != '0';
      assert NatValue(s) / 10 == NatValue(init) && NatValue(s) % 10 == DigitValue(s[|s| - 1]);
    }
  }

  /** A smaller number never needs more digits. */
  lemma {:induction false} LongerIsLarger(m: nat, n: nat)
    requires m <= n
    ensures |NatText(m)| <= |NatText(n)|
  {
    if m >= 10 { LongerIsLarger(m / 10, n / 10); }
  }
}
