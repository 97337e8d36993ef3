/**
 * formatTime of the stopwatch: a number of milliseconds rendered as MM:SS.mmm.
 *
 * Time is an integer number of milliseconds. The arithmetic follows
 * JavaScript: Math.floor(a / b) is floor division, which for a positive
 * divisor is Dafny's `/`; JavaScript's `%` truncates toward zero, which is
 * JsRem below; String(n) writes a minus sign before a negative number; and
 * padStart only ever adds fill characters in front.
 */
module TimeFormat {
  import opened Opt

  predicate IsDigit(c: char) {
    '0' <= c <= '9'
  }

  predicate AllDigits(s: string) {
    forall i :: 0 <= i < |s| ==> IsDigit(s[i])
  }

  function DigitChar(d: nat): (c: char)
    requires d < 10
    ensures IsDigit(c)
  {
    ('0' as int + d) as char
  }

  function DigitValue(c: char): (d: nat)
    requires IsDigit(c)
    ensures d < 10
  {
    c as int - '0' as int
  }

  /** The number a string of decimal digits denotes (most significant first). */
  function DigitsValue(s: string): nat
    requires AllDigits(s)
  {
    if s == [] then 0 else DigitsValue(s[..|s| - 1]) * 10 + DigitValue(s[|s| - 1])
  }

  /** String(n) for a non-negative integer n: its shortest decimal digits. */
  function NatToString(n: nat): (s: string)
    ensures 1 <= |s| && AllDigits(s)
    ensures DigitsValue(s) == n
    ensures n < 100 ==> |s| <= 2
    ensures n < 1000 ==> |s| <= 3
    ensures n >= 10 ==> |s| >= 2
    ensures n >= 100 ==> |s| >= 3
    ensures |s| == 1 || s[0] != '0'
  {
    if n < 10 then [DigitChar(n)]
    else
      var prefix := NatToString(n / 10);
      var s := prefix + [DigitChar(n % 10)];
      assert s[..|s| - 1] == prefix;
      s
  }

  /** String(n) for any integer n: a minus sign before a negative number. */
  function IntToString(n: int): (s: string)
    ensures forall i :: 0 <= i < |s| ==> IsDigit(s[i]) || s[i] == '-'
    ensures n >= 0 ==> s == NatToString(n)
    ensures n < 0 ==> |s| >= 2 && s[0] == '-' && AllDigits(s[1..]) && DigitsValue(s[1..]) == -n
  {
    if n < 0 then
      assert ("-" + NatToString(-n))[1..] == NatToString(-n);
      "-" + NatToString(-n)
    else NatToString(n)
  }

  function Repeat(c: char, k: nat): (r: string)
    ensures |r| == k && forall i :: 0 <= i < k ==> r[i] == c
  {
    seq(k, _ => c)
  }

  function Max(a: int, b: int): int {
    if a < b then b else a
  }

  /** s.padStart(width, fill) with a one-character fill. */
  function PadStart(s: string, width: nat, fill: char): (r: string)
    ensures |r| == Max(|s|, width)
    ensures r == Repeat(fill, |r| - |s|) + s
  {
    if |s| < width then Repeat(fill, width - |s|) + s else Repeat(fill, 0) + s
  }

  /** JavaScript's a % b for a positive divisor: the sign follows the dividend. */
  function JsRem(a: int, b: int): (r: int)
    requires b > 0
    ensures -b < r < b
    ensures a >= 0 ==> r == a % b
    ensures a < 0 ==> -r == (-a) % b
  {
    if a >= 0 then a % b else -((-a) % b)
  }

  datatype TimeParts = TimeParts(minutes: int, seconds: int, millis: int)

  /** The minutes, seconds and milliseconds formatTime computes before printing them. */
  function Components(ms: int): (p: TimeParts)
    ensures ms >= 0 ==> 0 <= p.minutes && 0 <= p.seconds < 60 && 0 <= p.millis < 1000
    ensures ms >= 0 ==> p.minutes * 60000 + p.seconds * 1000 + p.millis == ms
    ensures ms < 0 ==> p.minutes < 0 && -60 < p.seconds <= 0 && -1000 < p.millis <= 0
  {
    var totalSeconds := ms / 1000;
    var minutes := totalSeconds / 60;
    var seconds := JsRem(totalSeconds, 60);
    var millis := JsRem(ms, 1000);
    if ms >= 0 then
      assert ms == totalSeconds * 1000 + millis;
      assert totalSeconds == minutes * 60 + seconds;
      assert minutes * 60000 + seconds * 1000 == (minutes * 60 + seconds) * 1000;
      TimeParts(minutes, seconds, millis)
    else
      TimeParts(minutes, seconds, millis)
  }

  /** No character that the CSV export uses as a delimiter. */
  predicate FreeOfDelimiters(s: string) {
    forall i :: 0 <= i < |s| ==> s[i] != ',' && s[i] != '\n'
  }

  /** The printed form of the three components: each String(...) padded with '0'. */
  function ClockText(p: TimeParts): (s: string)
    ensures FreeOfDelimiters(s)
  {
    var mm := PadStart(IntToString(p.minutes), 2, '0');
    var ss := PadStart(IntToString(p.seconds), 2, '0');
    var mmm := PadStart(IntToString(p.millis), 3, '0');
    PaddedFreeOfDelimiters(IntToString(p.minutes), 2);
    PaddedFreeOfDelimiters(IntToString(p.seconds), 2);
    PaddedFreeOfDelimiters(IntToString(p.millis), 3);
    ConcatFreeOfDelimiters(mm, ":");
    ConcatFreeOfDelimiters(mm + ":", ss);
    ConcatFreeOfDelimiters(mm + ":" + ss, ".");
    ConcatFreeOfDelimiters(mm + ":" + ss + ".", mmm);
    mm + ":" + ss + "." + mmm
  }

  /** formatTime(ms): minutes padded to at least two digits, seconds to two, milliseconds to three. */
  function FormatTime(ms: int): (s: string)
    ensures FreeOfDelimiters(s)
  {
    ClockText(Components(ms))
  }

  lemma ConcatFreeOfDelimiters(a: string, b: string)
    requires FreeOfDelimiters(a) && FreeOfDelimiters(b)
    ensures FreeOfDelimiters(a + b)
  {
    forall i | 0 <= i < |a + b|
      ensures (a + b)[i] != ',' && (a + b)[i] != '\n'
    {
      if i >= |a| {
        assert (a + b)[i] == b[i - |a|];
      }
    }
  }

  lemma PaddedFreeOfDelimiters(s: string, width: nat)
    requires forall i :: 0 <= i < |s| ==> IsDigit(s[i]) || s[i] == '-'
    ensures FreeOfDelimiters(PadStart(s, width, '0'))
  {
    var r := PadStart(s, width, '0');
    forall i | 0 <= i < |r|
      ensures r[i] != ',' && r[i] != '\n'
    {
      if i >= |r| - |s| {
        assert r[i] == s[i - (|r| - |s|)];
      }
    }
  }

  /** The MM:SS.mmm layout, read from the end: digits, ':', two digits, '.', three digits. */
  predicate IsClockText(s: string) {
    |s| >= 9
    && AllDigits(s[..|s| - 7]) && s[|s| - 7] == ':'
    && AllDigits(s[|s| - 6..|s| - 4]) && s[|s| - 4] == '.'
    && AllDigits(s[|s| - 3..])
  }

  /** The number in the minutes field of a MM:SS.mmm text. */
  function MinutesField(s: string): nat
    requires IsClockText(s)
  {
    DigitsValue(s[..|s| - 7])
  }

  /** The number in the seconds field of a MM:SS.mmm text. */
  function SecondsField(s: string): nat
    requires IsClockText(s)
  {
    DigitsValue(s[|s| - 6..|s| - 4])
  }

  /** The number in the milliseconds field of a MM:SS.mmm text. */
  function MillisField(s: string): nat
    requires IsClockText(s)
  {
    DigitsValue(s[|s| - 3..])
  }

  /** Reads a MM:SS.mmm text back into milliseconds; None for any other text. */
  function ParseTime(s: string): Option<nat> {
    if IsClockText(s) then
      Some(MinutesField(s) * 60000 + SecondsField(s) * 1000 + MillisField(s))
    else None
  }

  lemma {:induction false} ZerosValue(k: nat)
    ensures AllDigits(Repeat('0', k)) && DigitsValue(Repeat('0', k)) == 0
  {
    if k > 0 {
      assert Repeat('0', k)[..k - 1] == Repeat('0', k - 1);
      ZerosValue(k - 1);
    }
  }

  /** Leading zeros do not change the number a digit string denotes. */
  lemma {:induction false} LeadingZeros(k: nat, s: string)
    requires AllDigits(s)
    ensures AllDigits(Repeat('0', k) + s)
    ensures DigitsValue(Repeat('0', k) + s) == DigitsValue(s)
    decreases |s|
  {
    if s == [] {
      assert Repeat('0', k) + s == Repeat('0', k);
      ZerosValue(k);
    } else {
      var t := Repeat('0', k) + s;
      assert t[..|t| - 1] == Repeat('0', k) + s[..|s| - 1];
      LeadingZeros(k, s[..|s| - 1]);
    }
  }

  /** A zero-padded String(n) still denotes n. */
  lemma PaddedValue(n: nat, width: nat)
    ensures AllDigits(PadStart(NatToString(n), width, '0'))
    ensures DigitsValue(PadStart(NatToString(n), width, '0')) == n
  {
    var s := NatToString(n);
    LeadingZeros(Max(|s|, width) - |s|, s);
  }

  /**
   * For a non-negative input, formatTime's output has the MM:SS.mmm layout:
   * at least two minute digits, exactly two second digits, exactly three
   * millisecond digits; and each field denotes the matching component.
   */
  lemma FormatTimeFields(ms: int)
    requires ms >= 0
    ensures IsClockText(FormatTime(ms))
    ensures |FormatTime(ms)| - 7 == Max(2, |NatToString(Components(ms).minutes)|)
    ensures MinutesField(FormatTime(ms)) == Components(ms).minutes
    ensures SecondsField(FormatTime(ms)) == Components(ms).seconds
    ensures MillisField(FormatTime(ms)) == Components(ms).millis
  {
    ClockTextFields(Components(ms));
  }

  lemma ClockTextFields(p: TimeParts)
    requires 0 <= p.minutes && 0 <= p.seconds < 60 && 0 <= p.millis < 1000
    ensures IsClockText(ClockText(p))
    ensures |ClockText(p)| - 7 == Max(2, |NatToString(p.minutes)|)
    ensures MinutesField(ClockText(p)) == p.minutes
    ensures SecondsField(ClockText(p)) == p.seconds
    ensures MillisField(ClockText(p)) == p.millis
  {
    var mm := PadStart(NatToString(p.minutes), 2, '0');
    var ss := PadStart(NatToString(p.seconds), 2, '0');
    var mmm := PadStart(NatToString(p.millis), 3, '0');
    PaddedValue(p.minutes, 2);
    PaddedValue(p.seconds, 2);
    PaddedValue(p.millis, 3);
    assert ClockText(p) == mm + ":" + ss + "." + mmm;
    ClockLayout(mm, ss, mmm);
  }

  /** Where the three fields of a MM:SS.mmm text sit, counted from its end. */
  lemma ClockLayout(mm: string, ss: string, mmm: string)
    requires AllDigits(mm) && AllDigits(ss) && AllDigits(mmm)
    requires |mm| >= 2 && |ss| == 2 && |mmm| == 3
    ensures var s := mm + ":" + ss + "." + mmm;
      |s| == |mm| + 7
      && s[..|s| - 7] == mm && s[|s| - 7] == ':'
      && s[|s| - 6..|s| - 4] == ss && s[|s| - 4] == '.'
      && s[|s| - 3..] == mmm
      && IsClockText(s)
  {
    var s := mm + ":" + ss + "." + mmm;
    assert s[..|s| - 7] == mm;
    assert s[|s| - 6..|s| - 4] == ss;
    assert s[|s| - 3..] == mmm;
  }

  /** Round trip: the text formatTime prints reads back as the same number of milliseconds. */
  lemma ParseFormatTime(ms: int)
    requires ms >= 0
    ensures ParseTime(FormatTime(ms)) == Some(ms)
  {
    ParseClockText(Components(ms), ms);
  }

  /** The printed components read back as the duration they make up. */
  lemma ParseClockText(p: TimeParts, total: int)
    requires 0 <= p.minutes && 0 <= p.seconds < 60 && 0 <= p.millis < 1000
    requires p.minutes * 60000 + p.seconds * 1000 + p.millis == total
    ensures ParseTime(ClockText(p)) == Some(total)
  {
    ClockTextFields(p);
    ParseFields(ClockText(p), p.minutes, p.seconds, p.millis, total);
  }

  lemma ParseFields(s: string, minutes: nat, seconds: nat, millis: nat, total: int)
    requires IsClockText(s)
    requires MinutesField(s) == minutes && SecondsField(s) == seconds && MillisField(s) == millis
    requires minutes * 60000 + seconds * 1000 + millis == total
    ensures ParseTime(s) == Some(total)
  {
  }

  /** Two different non-negative durations are never printed alike. */
  lemma FormatTimeInjective(a: int, b: int)
    requires a >= 0 && b >= 0
    requires FormatTime(a) == FormatTime(b)
    ensures a == b
  {
    ParseFormatTime(a);
    ParseFormatTime(b);
  }

  /** What a negative input prints: JavaScript's floor and truncating % disagree in sign. */
  lemma FormatTimeOfNegative()
    ensures FormatTime(-5) == "-1:-1.0-5"
  {
    assert Components(-5) == TimeParts(-1, -1, -5);
    assert NatToString(1) == "1" && NatToString(5) == "5";
    assert PadStart("-1", 2, '0') == "-1";
    assert PadStart("-5", 3, '0') == "0-5";
  }

  /** formatTime of given components, once each padded field is known. */
  lemma ClockTextOf(p: TimeParts, mm: string, ss: string, mmm: string)
    requires PadStart(IntToString(p.minutes), 2, '0') == mm
    requires PadStart(IntToString(p.seconds), 2, '0') == ss
    requires PadStart(IntToString(p.millis), 3, '0') == mmm
    ensures ClockText(p) == mm + ":" + ss + "." + mmm
  {
  }

  /** The three digits of a number from 100 to 999, most significant first. */
  lemma ThreeDigits(n: nat)
    requires 100 <= n < 1000
    ensures NatToString(n) == [DigitChar(n / 100), DigitChar(n / 10 % 10), DigitChar(n % 10)]
  {
    assert n / 10 / 10 == n / 100;
    assert NatToString(n / 100) == [DigitChar(n / 100)];
    assert NatToString(n / 10) == [DigitChar(n / 100), DigitChar(n / 10 % 10)];
  }

  /** A single digit padded to two places gets one leading '0'. */
  lemma PaddedDigit(d: nat)
    requires d < 10
    ensures PadStart(IntToString(d), 2, '0') == ['0', DigitChar(d)]
  {
    assert IntToString(d) == [DigitChar(d)];
  }

  /** A number already as wide as the field is printed unpadded. */
  lemma PaddedFull(n: nat, width: nat)
    requires |NatToString(n)| >= width
    ensures PadStart(IntToString(n), width, '0') == NatToString(n)
  {
  }

  /** Between a tenth of a second and a second, only the millisecond field is non-zero. */
  lemma FormatTimeSubSecond(ms: int)
    requires 100 <= ms < 1000
    ensures FormatTime(ms) == "00:00." + NatToString(ms)
  {
    assert Components(ms) == TimeParts(0, 0, ms);
    SubSecondClockText(ms);
  }

  lemma SubSecondClockText(ms: nat)
    requires 100 <= ms < 1000
    ensures ClockText(TimeParts(0, 0, ms)) == "00:00." + NatToString(ms)
  {
    PaddedDigit(0);
    assert ['0', DigitChar(0)] == "00";
    PaddedFull(ms, 3);
    ClockTextOf(TimeParts(0, 0, ms), "00", "00", NatToString(ms));
    assert "00" + ":" + "00" + "." == "00:00.";
  }

  lemma FormatTimeExample()
    ensures FormatTime(65432) == "01:05.432"
  {
    ExampleComponents();
    ExampleClockText();
  }

  lemma ExampleComponents()
    ensures Components(65432) == TimeParts(1, 5, 432)
  {
  }

  lemma ExampleClockText()
    ensures ClockText(TimeParts(1, 5, 432)) == "01:05.432"
  {
    PaddedDigit(1);
    PaddedDigit(5);
    ThreeDigits(432);
    PaddedFull(432, 3);
    ClockTextOf(TimeParts(1, 5, 432), ['0', DigitChar(1)], ['0', DigitChar(5)], NatToString(432));
  }

  /** Minutes do not wrap at the hour: the minutes field simply grows. */
  lemma FormatTimeOfAnHour()
    ensures FormatTime(3600000) == "60:00.000"
  {
    assert Components(3600000) == TimeParts(60, 0, 0);
    HourClockText();
  }

  lemma HourClockText()
    ensures ClockText(TimeParts(60, 0, 0)) == "60:00.000"
  {
    assert NatToString(60) == [DigitChar(6), DigitChar(0)];
    PaddedFull(60, 2);
    PaddedDigit(0);
    assert PadStart(IntToString(0), 3, '0') == "000";
    ClockTextOf(TimeParts(60, 0, 0), NatToString(60), ['0', DigitChar(0)], "000");
  }
}
