/** Decimal renderings of natural numbers, as Python's `str(n)` and `f"{n:04d}"` print them. */
module Decimal {

  function Digit(d: nat): char
    requires d < 10
  {
    ('0' as int + d) as char
  }

  predicate IsDigit(c: char) { '0' <= c <= '9' }

  function DigitValue(c: char): nat
    requires IsDigit(c)
  {
    c as int - '0' as int
  }

  /** `str(n)` */
  function Dec(n: nat): (s: string)
    ensures s != "" && forall c :: c in s ==> IsDigit(c)
    ensures s[0] == '0' ==> n == 0
  {
    if n < 10 then [Digit(n)] else Dec(n / 10) + [Digit(n % 10)]
  }

  /** `int(s)` on a string of digits. */
  function Value(s: string): nat
    requires forall c :: c in s ==> IsDigit(c)
  {
    if s == "" then 0 else 10 * Value(s[..|s| - 1]) + DigitValue(s[|s| - 1])
  }

  lemma {:induction false} ValueOfDec(n: nat)
    ensures Value(Dec(n)) == n
  {
    if n >= 10 {
      ValueOfDec(n / 10);
      var s := Dec(n);
      assert s[..|s| - 1] == Dec(n / 10);
    } else {
      assert Dec(n)[..0] == "";
    }
  }

  /** A numeral without a leading zero is the rendering of its value. */
  lemma {:induction false} DecOfValue(s: string)
    requires s != "" && s[0] != '0' && forall c :: c in s ==> IsDigit(c)
    ensures Value(s) > 0 && Dec(Value(s)) == s
  {
    var init, last := s[..|s| - 1], s[|s| - 1];
    assert s == init + [last];
    var d := DigitValue(last);
    assert Digit(d) == last;
    if init == "" {
      assert s == [last] && Value(init) == 0;
    } else {
      DecOfValue(init);
      assert Value(s) == 10 * Value(init) + d;
      assert Value(s) / 10 == Value(init) && Value(s) % 10 == d;
    }
  }

  lemma DecInjective(m: nat, n: nat)
    requires Dec(m) == Dec(n)
    ensures m == n
  {
    ValueOfDec(m);
    ValueOfDec(n);
  }

  function Zeros(n: nat): (s: string)
    ensures |s| == n && forall c :: c in s ==> c == '0'
  {
    if n == 0 then "" else "0" + Zeros(n - 1)
  }

  /** `f"{n:04d}"` */
  function Pad4(n: nat): (s: string)
    ensures forall c :: c in s ==> IsDigit(c)
  {
    var s := Dec(n);
    if |s| >= 4 then s else Zeros(4 - |s|) + s
  }

  lemma {:induction false} ValueOfPadded(z: nat, s: string)
    requires forall c :: c in s ==> IsDigit(c)
    ensures Value(Zeros(z) + s) == Value(s)
  {
    var t := Zeros(z) + s;
    if s == "" {
      assert t == Zeros(z);
      if z > 0 {
        assert Zeros(z)[..z - 1] == Zeros(z - 1) + "" by { ZerosTake(z); }
        ValueOfPadded(z - 1, "");
      }
    } else {
      assert t[..|t| - 1] == Zeros(z) + s[..|s| - 1];
      ValueOfPadded(z, s[..|s| - 1]);
    }
  }

  lemma ZerosTake(z: nat)
    requires z > 0
    ensures Zeros(z)[..z - 1] == Zeros(z - 1)
  {
    forall i | 0 <= i < z - 1 ensures Zeros(z)[i] == Zeros(z - 1)[i] {
      assert Zeros(z)[i] in Zeros(z) && Zeros(z - 1)[i] in Zeros(z - 1);
    }
  }

  lemma Pad4Injective(m: nat, n: nat)
    requires Pad4(m) == Pad4(n)
    ensures m == n
  {
    if |Dec(m)| < 4 { ValueOfPadded(4 - |Dec(m)|, Dec(m)); }
    if |Dec(n)| < 4 { ValueOfPadded(4 - |Dec(n)|, Dec(n)); }
    ValueOfDec(m);
    ValueOfDec(n);
  }
}
