/**
 * `formatTime(seconds)`, identical in all three player components: build a
 * `Date` at `seconds * 1000` milliseconds after the epoch and print its UTC
 * hours, minutes and seconds. Minutes and seconds are padded to two digits;
 * the hours appear, unpadded, only when they are not 0.
 *
 * The date fields of a whole number of seconds `s` are floor divisions with
 * non-negative remainders, which is what Dafny's `/` and `%` compute for a
 * positive divisor, so `FormatTime` is exact for negative `s` too (the
 * hours then wrap to the previous day).
 */
module TimeFormat {
  import opened Wrappers

  /** `date.getUTCHours()` for `seconds` whole seconds. */
  function Hours(seconds: int): (h: nat)
    ensures h < 24
  {
    (seconds / 3600) % 24
  }

  /** `date.getUTCMinutes()`. */
  function Minutes(seconds: int): (m: nat)
    ensures m < 60
  {
    (seconds / 60) % 60
  }

  /** `date.getUTCSeconds()`. */
  function Seconds(seconds: int): (s: nat)
    ensures s < 60
  {
    seconds % 60
  }

  predicate IsDigit(c: char) {
    '0' <= c <= '9'
  }

  predicate AllDigits(t: string) {
    forall i :: 0 <= i < |t| ==> IsDigit(t[i])
  }

  function DigitChar(d: nat): (c: char)
    requires d < 10
    ensures IsDigit(c) && c as int - '0' as int == d
  {
    ('0' as int + d) as char
  }

  /** `n.toString()` for a non-negative integer: decimal digits without leading zeros. */
  function Decimal(n: nat): (t: string)
    ensures 1 <= |t| && AllDigits(t)
    ensures n < 10 ==> |t| == 1
    ensures 10 <= n < 100 ==> |t| == 2
    ensures n > 0 ==> t[0] != '0'
  {
    if n < 10 then [DigitChar(n)] else Decimal(n / 10) + [DigitChar(n % 10)]
  }

  /** The number a string of decimal digits denotes (the reading direction of `Decimal`). */
  function DecimalValue(t: string): nat
    requires AllDigits(t)
  {
    if t == [] then 0
    else DecimalValue(t[..|t| - 1]) * 10 + (t[|t| - 1] as int - '0' as int)
  }

  /** Reading the digits `Decimal` prints gives back the number. */
  lemma {:induction false} DecimalRoundTrip(n: nat)
    ensures DecimalValue(Decimal(n)) == n
  {
    if n >= 10 {
      var t := Decimal(n);
      assert t[..|t| - 1] == Decimal(n / 10);
      DecimalRoundTrip(n / 10);
    }
  }

  /** `t.padStart(2, "0")`. */
  function PadStart2(t: string): (r: string)
    ensures |r| == if |t| < 2 then 2 else |t|
    ensures r[|r| - |t|..] == t
    ensures forall i :: 0 <= i < |r| - |t| ==> r[i] == '0'
  {
    if |t| < 2 then seq(2 - |t|, _ => '0') + t else t
  }

  /** `mm` and `ss`: a value below 60 as exactly two digits. */
  function TwoDigits(n: nat): (t: string)
    requires n < 60
    ensures |t| == 2 && AllDigits(t)
  {
    PadStart2(Decimal(n))
  }

  /** Reading the two digits back gives the value. */
  lemma TwoDigitsRoundTrip(n: nat)
    requires n < 60
    ensures DecimalValue(TwoDigits(n)) == n
  {
    var d := Decimal(n);
    DecimalRoundTrip(n);
    if n < 10 {
      var t := TwoDigits(n);
      assert t == ['0'] + d;
      assert t[..1] == ['0'];
    }
  }

  /**
   * `formatTime` for a whole number of seconds. The digits and separators of
   * the display are pinned down by `FormatParseRoundTrip`.
   */
  function FormatTime(seconds: int): (r: string)
    ensures Hours(seconds) == 0 ==> |r| == 5
    ensures Hours(seconds) != 0 ==> |r| == if Hours(seconds) < 10 then 7 else 8
    ensures Hours(seconds) != 0 ==> r[0] != '0'
  {
    var hh := Hours(seconds);
    var tail := TwoDigits(Minutes(seconds)) + ":" + TwoDigits(Seconds(seconds));
    if hh != 0 then HoursPrefix(hh) + tail else tail
  }

  /** `H:` for the hours of a display that shows them. */
  function HoursPrefix(hh: nat): (t: string)
    requires 0 < hh < 24
    ensures |t| == if hh < 10 then 2 else 3
    ensures t[0] != '0' && t[|t| - 1] == ':'
  {
    Decimal(hh) + ":"
  }

  /** The three fields a clock display shows. */
  datatype Clock = Clock(hours: nat, minutes: nat, seconds: nat)

  /**
   * Reads back an `MM:SS` or `H:MM:SS` display: the partner of `FormatTime`.
   * A five-character display has no hours field.
   */
  function ParseClock(t: string): Option<Clock> {
    if |t| == 5 && t[2] == ':' && AllDigits(t[..2]) && AllDigits(t[3..]) then
      Some(Clock(0, DecimalValue(t[..2]), DecimalValue(t[3..])))
    else if |t| >= 7 && t[|t| - 6] == ':' && t[|t| - 3] == ':'
      && AllDigits(t[..|t| - 6]) && AllDigits(t[|t| - 5..|t| - 3]) && AllDigits(t[|t| - 2..]) then
      Some(Clock(DecimalValue(t[..|t| - 6]), DecimalValue(t[|t| - 5..|t| - 3]), DecimalValue(t[|t| - 2..])))
    else None
  }

  lemma ParseMinutesSeconds(mm: string, ss: string)
    requires |mm| == 2 && |ss| == 2 && AllDigits(mm) && AllDigits(ss)
    ensures ParseClock(mm + ":" + ss) == Some(Clock(0, DecimalValue(mm), DecimalValue(ss)))
  {
    var t := mm + ":" + ss;
    assert t[..2] == mm;
    assert t[3..] == ss;
  }

  lemma ParseHoursMinutesSeconds(hd: string, mm: string, ss: string)
    requires 1 <= |hd| && |mm| == 2 && |ss| == 2 && AllDigits(hd) && AllDigits(mm) && AllDigits(ss)
    ensures ParseClock(hd + ":" + mm + ":" + ss) == Some(Clock(DecimalValue(hd), DecimalValue(mm), DecimalValue(ss)))
  {
    var t := hd + ":" + mm + ":" + ss;
    assert |t| == |hd| + 6 && t[|t| - 6] == ':' && t[|t| - 3] == ':';
    assert t[..|t| - 6] == hd;
    assert t[|t| - 5..|t| - 3] == mm;
    assert t[|t| - 2..] == ss;
  }

  /** Reading a display back gives exactly the hours, minutes and seconds of the date. */
  lemma FormatParseRoundTrip(seconds: int)
    ensures ParseClock(FormatTime(seconds)) == Some(Clock(Hours(seconds), Minutes(seconds), Seconds(seconds)))
  {
    var hh := Hours(seconds);
    var mm := TwoDigits(Minutes(seconds));
    var ss := TwoDigits(Seconds(seconds));
    TwoDigitsRoundTrip(Minutes(seconds));
    TwoDigitsRoundTrip(Seconds(seconds));
    if hh != 0 {
      DecimalRoundTrip(hh);
      assert HoursPrefix(hh) == Decimal(hh) + ":";
      assert FormatTime(seconds) == Decimal(hh) + ":" + mm + ":" + ss;
      ParseHoursMinutesSeconds(Decimal(hh), mm, ss);
    } else {
      ParseMinutesSeconds(mm, ss);
    }
  }

  /**
   * The three fields together are the time of day: the display shows
   * `seconds` modulo one day (24 hours).
   */
  lemma ClockIsTimeOfDay(seconds: int)
    ensures Hours(seconds) * 3600 + Minutes(seconds) * 60 + Seconds(seconds) == seconds % 86400
  {
    var q1, s := seconds / 60, seconds % 60;
    var q2, m := q1 / 60, q1 % 60;
    var q3, h := q2 / 24, q2 % 24;
    assert seconds == 3600 * q2 + (60 * m + s);
    assert seconds / 3600 == q2;
    assert seconds == 86400 * q3 + (3600 * h + 60 * m + s);
    assert seconds % 86400 == 3600 * h + 60 * m + s;
  }

  /**
   * The whole seconds the `Date` built from a position shows:
   * `new Date(seconds * 1000)` truncates the milliseconds toward zero, and
   * the date fields then floor them to seconds. A position that is not
   * negative shows its whole seconds; a negative one shows a number between
   * its floor and 0.
   */
  function WholeSeconds(pos: real): (r: int)
    ensures pos >= 0.0 ==> r == pos.Floor
    ensures pos < 0.0 ==> pos.Floor <= r <= 0
  {
    var ms := pos * 1000.0;
    var truncated := if ms >= 0.0 then ms.Floor else -((-ms).Floor);
    var k := pos.Floor;
    assert (1000 * k) as real <= ms;
    assert 1000 * k <= truncated;
    assert pos >= 0.0 ==> (truncated as real) <= ms < (1000 * k + 1000) as real;
    assert pos < 0.0 ==> truncated <= 0;
    truncated / 1000
  }

  /**
   * `formatTime(currentTime)` for a playhead position in exact arithmetic:
   * a position that is not negative displays its whole seconds.
   */
  function FormatPosition(pos: real): (r: string)
    ensures pos >= 0.0 ==> r == FormatTime(pos.Floor)
  {
    FormatTime(WholeSeconds(pos))
  }
}
