/**
 Decimal text for unsigned integers: the digits Rust's `Display` prints for
 a `u16`/`u64` and the value a string of ASCII digits denotes.
 */
module Decimal {

  predicate IsDigit(c: char) {
    '0' <= c <= '9'
  }

  predicate AllDigits(s: string) {
    forall i :: 0 <= i < |s| ==> IsDigit(s[i])
  }

  function DigitValue(c: char): nat
    requires IsDigit(c)
  {
    c as int - '0' as int
  }

  function DigitChar(d: nat): (c: char)
    requires d < 10
    ensures IsDigit(c) && DigitValue(c) == d
  {
    ('0' as int + d) as char
  }

  function Pow10(k: nat): (p: nat)
    ensures p >= 1
  {
    if k == 0 then 1 else 10 * Pow10(k - 1)
  }

  /** The value of a string of digits, most significant digit first. */
  function Value(s: string): nat
    requires AllDigits(s)
  {
    if s == [] then 0 else Value(s[..|s| - 1]) * 10 + DigitValue(s[|s| - 1])
  }

  /** The shortest decimal text of `n`, as `format!("{}", n)` prints it. */
  function Digits(n: nat): (s: string)
    ensures |s| >= 1 && AllDigits(s)
    ensures n < 10 <==> |s| == 1
    ensures s[0] == '0' ==> n == 0
    decreases n
  {
    if n < 10 then [DigitChar(n)] else Digits(n / 10) + [DigitChar(n % 10)]
  }

  lemma {:induction false} ValueOfDigits(n: nat)
    ensures Value(Digits(n)) == n
    decreases n
  {
    if n >= 10 {
      var s := Digits(n);
      assert s[..|s| - 1] == Digits(n / 10);
      ValueOfDigits(n / 10);
    }
  }

  /** A digit string is worth its leading digit times a power of ten plus the rest. */
  lemma {:induction false} ValueOfCons(c: char, t: string)
    requires IsDigit(c) && AllDigits(t)
    ensures AllDigits([c] + t)
    ensures Value([c] + t) == DigitValue(c) * Pow10(|t|) + Value(t)
    decreases |t|
  {
    var s := [c] + t;
    assert AllDigits(s);
    if t != [] {
      var t' := t[..|t| - 1];
      assert s[..|s| - 1] == [c] + t';
      ValueOfCons(c, t');
      assert Value(s) == Value([c] + t') * 10 + DigitValue(t[|t| - 1]);
      assert Value(t) == Value(t') * 10 + DigitValue(t[|t| - 1]);
      assert Pow10(|t|) == Pow10(|t'|) * 10;
      ShiftDigit(DigitValue(c), Pow10(|t'|), Value(t'), DigitValue(t[|t| - 1]));
    }
  }

  lemma ShiftDigit(d: nat, p: nat, v: nat, x: nat)
    ensures (d * p + v) * 10 + x == d * (p * 10) + (v * 10 + x)
  {
  }

  lemma {:induction false} Pow10Monotone(i: nat, j: nat)
    requires i <= j
    ensures Pow10(i) <= Pow10(j)
    decreases j
  {
    if i < j {
      Pow10Monotone(i, j - 1);
    }
  }

  /** A string of `k` digits is worth less than `10^k`. */
  lemma {:induction false} ValueBelow(s: string)
    requires AllDigits(s)
    ensures Value(s) < Pow10(|s|)
    decreases |s|
  {
    if s != [] {
      ValueBelow(s[..|s| - 1]);
    }
  }

  /** A string of digits that does not start with `0` is worth at least `10^(k-1)`. */
  lemma ValueLeading(s: string)
    requires AllDigits(s) && |s| >= 1 && s[0] != '0'
    ensures Value(s) >= Pow10(|s| - 1)
  {
    assert s == [s[0]] + s[1..];
    ValueOfCons(s[0], s[1..]);
  }

  /** Two digit strings of the same length and the same value are the same string. */
  lemma {:induction false} ValueInjective(s: string, u: string)
    requires AllDigits(s) && AllDigits(u) && |s| == |u| && Value(s) == Value(u)
    ensures s == u
    decreases |s|
  {
    if s != [] {
      var n := |s| - 1;
      assert Value(s) % 10 == DigitValue(s[n]) && Value(u) % 10 == DigitValue(u[n]);
      assert Value(s) / 10 == Value(s[..n]) && Value(u) / 10 == Value(u[..n]);
      ValueInjective(s[..n], u[..n]);
      assert s == s[..n] + [s[n]] && u == u[..n] + [u[n]];
    }
  }

  /** Two digits read back as the number they were written from. */
  lemma ValueOfTwo(a: nat, b: nat)
    requires a < 10 && b < 10
    ensures AllDigits([DigitChar(a), DigitChar(b)])
    ensures Value([DigitChar(a), DigitChar(b)]) == 10 * a + b
  {
    var s := [DigitChar(a), DigitChar(b)];
    assert s[..1] == [DigitChar(a)];
    assert [DigitChar(a)][..0] == [];
    assert Value([DigitChar(a)]) == a;
  }
}
