/**
 The elapsed-time stamp that src/printer.rs and src/logger.rs both print:
 whole seconds split into hours, minutes and seconds, each written with
 `{:02}` (at least two digits, zero-padded).
 */
module TimeFormat {
  import opened Decimal

  /** `(s / 3600, (s % 3600) / 60, s % 60)`: the only split with minutes and seconds below 60. */
  function Split(elapsed: nat): (hms: (nat, nat, nat))
    ensures hms.0 * 3600 + hms.1 * 60 + hms.2 == elapsed
    ensures hms.1 < 60 && hms.2 < 60
  {
    (elapsed / 3600, (elapsed % 3600) / 60, elapsed % 60)
  }

  /** Any hours/minutes/seconds triple that recombines to `elapsed` is the one `Split` gives. */
  lemma SplitUnique(elapsed: nat, h: nat, m: nat, s: nat)
    requires m < 60 && s < 60 && h * 3600 + m * 60 + s == elapsed
    ensures Split(elapsed) == (h, m, s)
  {
    var (h', m', s') := Split(elapsed);
    assert m * 60 + s < 3600 && m' * 60 + s' < 3600;
    assert h == h' by {
      assert h * 3600 <= elapsed < h * 3600 + 3600;
    }
    assert m == m' by {
      assert m * 60 <= m * 60 + s < m * 60 + 60;
    }
  }

  /** `format!("{:02}", n)`: the decimal text of `n`, with a leading zero below ten. */
  function Pad2(n: nat): (s: string)
    ensures AllDigits(s) && Value(s) == n
    ensures |s| >= 2 && (n < 100 ==> |s| == 2)
    ensures |s| == if n < 10 then 2 else |Digits(n)|
    ensures s[0] == '0' ==> n < 10
  {
    if n < 10 then
      ValueOfTwo(0, n);
      [DigitChar(0)] + Digits(n)
    else
      ValueOfDigits(n);
      Digits(n)
  }

  /**
   The hours of a stamp: at least two digits, and a leading `0` only in the
   two-digit form, as `{:02}` writes them.
   */
  predicate IsHoursText(t: string) {
    |t| >= 2 && AllDigits(t) && (t[0] == '0' ==> |t| == 2)
  }

  /** The fields of a stamp `H…H:MM:SS`, counted from its end. */
  function HoursPart(t: string): string
    requires |t| >= 8
  {
    t[..|t| - 6]
  }

  function MinutesPart(t: string): string
    requires |t| >= 8
  {
    t[|t| - 5..|t| - 3]
  }

  function SecondsPart(t: string): string
    requires |t| >= 8
  {
    t[|t| - 2..]
  }

  /**
   A stamp `H…H:MM:SS` as `{:02}:{:02}:{:02}` writes one: hours in two or
   more digits, minutes and seconds in two digits each and below 60.
   */
  predicate IsClockText(t: string) {
    && |t| >= 8
    && IsHoursText(HoursPart(t)) && t[|t| - 6] == ':'
    && AllDigits(MinutesPart(t)) && Value(MinutesPart(t)) < 60 && t[|t| - 3] == ':'
    && AllDigits(SecondsPart(t)) && Value(SecondsPart(t)) < 60
  }

  /** The number of seconds a stamp denotes. */
  function ReadClock(t: string): nat
    requires IsClockText(t)
  {
    Value(HoursPart(t)) * 3600 + Value(MinutesPart(t)) * 60 + Value(SecondsPart(t))
  }

  /** A stamp is its fields put back together with the two colons. */
  lemma ClockPieces(t: string)
    requires IsClockText(t)
    ensures t == HoursPart(t) + ":" + MinutesPart(t) + ":" + SecondsPart(t)
  {
    var n := |t|;
    assert t == t[..n - 6] + [t[n - 6]] + t[n - 5..n - 3] + [t[n - 3]] + t[n - 2..];
  }

  /** Two hours texts with the same value are the same text. */
  lemma HoursTextUnique(h: string, h': string)
    requires IsHoursText(h) && IsHoursText(h') && Value(h) == Value(h')
    ensures h == h'
  {
    if |h| < |h'| {
      Pow10Monotone(|h|, |h'| - 1);
      ValueBelow(h);
      ValueLeading(h');
      assert false;
    } else if |h'| < |h| {
      Pow10Monotone(|h'|, |h| - 1);
      ValueBelow(h');
      ValueLeading(h);
      assert false;
    } else {
      ValueInjective(h, h');
    }
  }

  /** At most one stamp denotes a given number of seconds. */
  lemma ClockTextUnique(t: string, u: string)
    requires IsClockText(t) && IsClockText(u) && ReadClock(t) == ReadClock(u)
    ensures t == u
  {
    var elapsed := ReadClock(t);
    SplitUnique(elapsed, Value(HoursPart(t)), Value(MinutesPart(t)), Value(SecondsPart(t)));
    SplitUnique(elapsed, Value(HoursPart(u)), Value(MinutesPart(u)), Value(SecondsPart(u)));
    HoursTextUnique(HoursPart(t), HoursPart(u));
    ValueInjective(MinutesPart(t), MinutesPart(u));
    ValueInjective(SecondsPart(t), SecondsPart(u));
    ClockPieces(t);
    ClockPieces(u);
  }

  /** The stamp of a split time, `{:02}:{:02}:{:02}`. */
  function Stamp(h: nat, m: nat, s: nat): (t: string)
    ensures |t| >= 8
    ensures h < 100 && m < 100 && s < 100 ==> |t| == 8
  {
    Pad2(h) + ":" + Pad2(m) + ":" + Pad2(s)
  }

  /** Right at the start the stamp reads `00:00:00`. */
  lemma ZeroStamp()
    ensures Split(0) == (0, 0, 0) && Stamp(0, 0, 0) == "00:00:00"
  {
    assert Digits(0) == "0";
    assert Pad2(0) == "00";
  }

  /**
   The stamp of the split of `elapsed` is a stamp that reads back as
   `elapsed`; it is eight characters long exactly below 100 hours.
   */
  lemma StampReadsBack(elapsed: nat)
    ensures var (h, m, s) := Split(elapsed);
      && IsClockText(Stamp(h, m, s)) && ReadClock(Stamp(h, m, s)) == elapsed
      && (|Stamp(h, m, s)| == 8 <==> elapsed < 360000)
  {
    var (h, m, s) := Split(elapsed);
    var t := Stamp(h, m, s);
    var n := |t|;
    assert |Pad2(m)| == 2 && |Pad2(s)| == 2;
    assert t == Pad2(h) + ":" + Pad2(m) + ":" + Pad2(s);
    assert HoursPart(t) == Pad2(h);
    assert MinutesPart(t) == Pad2(m);
    assert SecondsPart(t) == Pad2(s);
  }

  /** From 100 hours on, the hours are printed in full and the stamp grows. */
  lemma LongHoursInFull(elapsed: nat)
    requires elapsed >= 360000
    ensures var (h, m, s) := Split(elapsed);
      |Stamp(h, m, s)| == |Digits(h)| + 6 && |Digits(h)| >= 3
      && Stamp(h, m, s)[..|Digits(h)|] == Digits(h)
  {
    var (h, m, s) := Split(elapsed);
    assert h >= 100 && h / 10 >= 10;
    assert Pad2(h) == Digits(h);
    assert |Pad2(m)| == 2 && |Pad2(s)| == 2;
    assert |Digits(h / 10)| >= 2;
    var t := Stamp(h, m, s);
    assert t == Pad2(h) + (":" + Pad2(m) + ":" + Pad2(s));
  }
}
