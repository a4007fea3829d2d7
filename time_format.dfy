/**
 * The clock and calendar text that both time clients print
 * (`getFormattedTime`, `getFormattedDate`): each numeric field below 10 gets
 * a leading zero, so hours, minutes, seconds and the day of the month are
 * always two digits.  The numbers and the day and month names come from
 * TimeLib (`hour()`, `minute()`, `second()`, `day()`, `dayShortStr`,
 * `monthShortStr`, `year()`), which is not part of this model; they are
 * parameters here.
 */
module TimeFormat {
  import opened Arduino

  /** A field as printed: `"0"` before values below 10, then `String(n)`. */
  function TwoDigits(n: nat): string
  {
    if n < 10 then "0" + Decimal(n) else Decimal(n)
  }

  /** `HH:MM:SS`. */
  function FormatTime(hour: nat, minute: nat, second: nat): string
  {
    TwoDigits(hour) + ":" + TwoDigits(minute) + ":" + TwoDigits(second)
  }

  /** `Mon, 07 Jan 2019`: short day name, zero-padded day, short month name, year. */
  function FormatDate(dayName: string, day: nat, monthName: string, year: nat): string
  {
    dayName + ", " + TwoDigits(day) + " " + monthName + " " + Decimal(year)
  }

  /** Every value below 100 prints as exactly two digits that read back as the value. */
  lemma TwoDigitsRoundTrip(n: nat)
    requires n < 100
    ensures |TwoDigits(n)| == 2 && AllDigits(TwoDigits(n))
    ensures DigitsValue(TwoDigits(n)) == n
  {
    DigitsValueOfDecimal(n);
    if n >= 10 {
      DecimalLengthTwo(n);
    } else {
      var t := TwoDigits(n);
      assert t[..1] == "0";
    }
  }

  /**
   * For the ranges TimeLib produces, the time is eight characters with colons
   * at 2 and 5, and the three two-digit fields read back as hour, minute and
   * second.
   */
  lemma FormatTimeLayout(hour: nat, minute: nat, second: nat)
    requires hour < 24 && minute < 60 && second < 60
    ensures var t := FormatTime(hour, minute, second);
      && |t| == 8 && t[2] == ':' && t[5] == ':'
      && AllDigits(t[0..2]) && AllDigits(t[3..5]) && AllDigits(t[6..8])
      && DigitsValue(t[0..2]) == hour
      && DigitsValue(t[3..5]) == minute
      && DigitsValue(t[6..8]) == second
  {
    TwoDigitsRoundTrip(hour);
    TwoDigitsRoundTrip(minute);
    TwoDigitsRoundTrip(second);
    var t := FormatTime(hour, minute, second);
    assert t[0..2] == TwoDigits(hour);
    assert t[3..5] == TwoDigits(minute);
    assert t[6..8] == TwoDigits(second);
  }

  /** The day of the month is padded like the clock fields. */
  lemma FormatDateDay(dayName: string, day: nat, monthName: string, year: nat)
    requires 1 <= day <= 31
    ensures var d := FormatDate(dayName, day, monthName, year);
      && d[..|dayName| + 2] == dayName + ", "
      && AllDigits(d[|dayName| + 2..|dayName| + 4])
      && DigitsValue(d[|dayName| + 2..|dayName| + 4]) == day
      && d[|dayName| + 4] == ' '
  {
    TwoDigitsRoundTrip(day);
    var d := FormatDate(dayName, day, monthName, year);
    assert d[|dayName| + 2..|dayName| + 4] == TwoDigits(day);
  }
}
