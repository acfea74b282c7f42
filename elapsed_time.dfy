/** The short elapsed-time text shown after a compare
    (`TimeSpanToShortString`, FileDiff/MainWindow.xaml.cs). */
module ElapsedTime {

  /** A non-negative duration in 100-nanosecond ticks, as `TimeSpan`
      stores it; a stopwatch's elapsed time is never negative. */
  datatype TimeSpan = TimeSpan(ticks: nat)

  const TicksPerMillisecond: nat := 10_000
  const TicksPerSecond: nat := 1000 * TicksPerMillisecond
  const TicksPerMinute: nat := 60 * TicksPerSecond
  const TicksPerHour: nat := 60 * TicksPerMinute

  /** `(int)TotalHours`: whole hours, truncated. */
  function WholeHours(t: TimeSpan): nat { t.ticks / TicksPerHour }
  /** The `Minutes`, `Seconds` and `Milliseconds` components. */
  function Minutes(t: TimeSpan): nat { (t.ticks / TicksPerMinute) % 60 }
  function Seconds(t: TimeSpan): nat { (t.ticks / TicksPerSecond) % 60 }
  function Milliseconds(t: TimeSpan): nat { (t.ticks / TicksPerMillisecond) % 1000 }

  predicate IsDigit(c: char) { '0' <= c <= '9' }

  predicate AllDigits(s: string) { forall i :: 0 <= i < |s| ==> IsDigit(s[i]) }

  function DigitChar(d: nat): (c: char)
    requires d < 10
    ensures IsDigit(c)
  {
    ['0', '1', '2', '3', '4', '5', '6', '7', '8', '9'][d]
  }

  function DigitValue(c: char): (d: nat)
    requires IsDigit(c)
    ensures d < 10
  {
    (c as int) - ('0' as int)
  }

  lemma DigitRoundTrip(d: nat)
    requires d < 10
    ensures DigitValue(DigitChar(d)) == d
  {
  }

  /** `int.ToString()` for a non-negative value: decimal digits, no
      leading zero. */
  function NatToString(n: nat): (s: string)
    ensures |s| >= 1 && AllDigits(s)
    ensures |s| > 1 ==> s[0] != '0'
  {
    if n < 10 then [DigitChar(n)] else NatToString(n / 10) + [DigitChar(n % 10)]
  }

  /** Reading decimal digits back. */
  function ParseNat(s: string): nat
    requires AllDigits(s)
  {
    if s == [] then 0 else 10 * ParseNat(s[..|s| - 1]) + DigitValue(s[|s| - 1])
  }

  /** Decimal rendering is undone by reading the digits back. */
  lemma {:induction false} ParseNatToString(n: nat)
    ensures ParseNat(NatToString(n)) == n
  {
    var s := NatToString(n);
    if n < 10 {
      assert s[..0] == [];
      DigitRoundTrip(n);
    } else {
      assert s[..|s| - 1] == NatToString(n / 10);
      ParseNatToString(n / 10);
      DigitRoundTrip(n % 10);
    }
  }

  /** Values below 1000 take at most three digits. */
  lemma {:induction false} NatToStringShort(n: nat)
    requires n < 1000
    ensures |NatToString(n)| <= 3
  {
    if n >= 10 {
      NatToStringShort(n / 10);
      if n < 100 {
        assert n / 10 < 10;
      }
    }
  }

  /** Leading zeros do not change the value read. */
  lemma {:induction false} ParseNatLeadingZeros(z: string, s: string)
    requires forall i :: 0 <= i < |z| ==> z[i] == '0'
    requires AllDigits(s)
    ensures AllDigits(z + s) && ParseNat(z + s) == ParseNat(s)
  {
    if s == [] {
      assert z + s == z;
      ZerosParseToZero(z);
    } else {
      var t := s[..|s| - 1];
      assert (z + s)[..|z + s| - 1] == z + t;
      ParseNatLeadingZeros(z, t);
    }
  }

  lemma {:induction false} ZerosParseToZero(z: string)
    requires forall i :: 0 <= i < |z| ==> z[i] == '0'
    ensures AllDigits(z) && ParseNat(z) == 0
  {
    if z != [] {
      ZerosParseToZero(z[..|z| - 1]);
    }
  }

  /** `s.PadLeft(width, fill)`. */
  function PadLeft(s: string, width: nat, fill: char): (r: string)
    ensures |r| == if |s| >= width then |s| else width
    ensures |r| >= |s| && r[|r| - |s|..] == s
    ensures forall i :: 0 <= i < |r| - |s| ==> r[i] == fill
  {
    if |s| >= width then s else seq(width - |s|, _ => fill) + s
  }

  /** `TimeSpanToShortString`. The text ends in the unit of its last
      number: minutes in the hours form, seconds otherwise. */
  function TimeSpanToShortString(t: TimeSpan): (r: string)
    ensures |r| >= 5
    ensures r[|r| - 1] == 'm' <==> WholeHours(t) >= 1
    ensures r[|r| - 1] == 's' <==> WholeHours(t) == 0
  {
    if WholeHours(t) >= 1 then
      NatToString(WholeHours(t)) + "h " + NatToString(Minutes(t)) + "m"
    else if Minutes(t) > 0 then
      NatToString(Minutes(t)) + "m " + NatToString(Seconds(t)) + "s"
    else
      NatToString(Seconds(t)) + "." + PadLeft(NatToString(Milliseconds(t)), 3, '0') + "s"
  }

  /** A number as `int.ToString()` writes it: digits, with no leading zero
      unless it is the single digit 0. */
  predicate Canonical(s: string)
  {
    AllDigits(s) && (|s| > 1 ==> s[0] != '0')
  }

  /** In the hours and minutes forms both numbers are canonical decimals
      that read back as the whole hours and minutes, or the minutes and
      seconds, of the duration. */
  lemma ShortStringLongForms(t: TimeSpan)
    ensures WholeHours(t) >= 1 ==>
      exists a, b ::
        && Canonical(a) && Canonical(b)
        && TimeSpanToShortString(t) == a + "h " + b + "m"
        && ParseNat(a) == WholeHours(t) && ParseNat(b) == Minutes(t)
    ensures WholeHours(t) == 0 && Minutes(t) > 0 ==>
      exists a, b ::
        && Canonical(a) && Canonical(b)
        && TimeSpanToShortString(t) == a + "m " + b + "s"
        && ParseNat(a) == Minutes(t) && ParseNat(b) == Seconds(t)
  {
    ParseNatToString(WholeHours(t));
    ParseNatToString(Minutes(t));
    ParseNatToString(Seconds(t));
  }

  /** Below one minute the text is seconds as a canonical decimal, a point,
      exactly three digits of milliseconds and "s"; both numbers read back
      as the seconds and milliseconds of the duration. */
  lemma ShortStringSecondsForm(t: TimeSpan)
    requires WholeHours(t) == 0 && Minutes(t) == 0
    ensures exists a, b ::
      && Canonical(a) && AllDigits(b) && |b| == 3
      && TimeSpanToShortString(t) == a + "." + b + "s"
      && ParseNat(a) == Seconds(t) && ParseNat(b) == Milliseconds(t)
  {
    var a := NatToString(Seconds(t));
    var m := NatToString(Milliseconds(t));
    NatToStringShort(Milliseconds(t));
    var z := seq(3 - |m|, _ => '0');
    var b := PadLeft(m, 3, '0');
    assert b == z + m;
    ParseNatToString(Seconds(t));
    ParseNatToString(Milliseconds(t));
    ParseNatLeadingZeros(z, m);
    assert TimeSpanToShortString(t) == a + "." + b + "s";
  }
}
