/** The scrape date and the `dt_showtime` column: `f'{date.today()}'` writes the date as
    `YYYY-MM-DD`, each row's `dt_showtime` text is that date, a space and the showtime, and
    `pd.to_datetime(..., format='%Y-%m-%d %H:%M')` turns the text into a timestamp or,
    when the text does not fit the pattern, aborts the run. */
module Timestamps {
  import opened Wrappers
  import opened Text
  import opened TimeFormat

  datatype Date = Date(year: nat, month: nat, day: nat)

  datatype Timestamp = Timestamp(date: Date, hour: nat, minute: nat)

  predicate IsLeapYear(y: nat)
  {
    y % 4 == 0 && (y % 100 != 0 || y % 400 == 0)
  }

  function DaysInMonth(y: nat, m: nat): nat
    requires 1 <= m <= 12
  {
    if m == 2 then (if IsLeapYear(y) then 29 else 28)
    else if m == 4 || m == 6 || m == 9 || m == 11 then 30
    else 31
  }

  /** A calendar date Python's `datetime.date` can hold. */
  predicate ValidDate(d: Date)
  {
    1 <= d.year <= 9999 && 1 <= d.month <= 12 && 1 <= d.day <= DaysInMonth(d.year, d.month)
  }

  /** `str(d)`, that is `d.isoformat()`. */
  function IsoDate(d: Date): (s: string)
    requires ValidDate(d)
    ensures |s| == 10
  {
    Pad4(d.year) + "-" + Pad2(d.month) + "-" + Pad2(d.day)
  }

  /** Reads a date written `YYYY-MM-DD`; `None` unless the fields are digits and name a real
      calendar day (strptime also rejects the 30th of February). */
  function ParseIsoDate(s: string): (r: Option<Date>)
    ensures r.Some? ==> ValidDate(r.value) && IsoDate(r.value) == s
  {
    if |s| == 10 && s[4] == '-' && s[7] == '-'
       && AllDigits(s[..4]) && AllDigits(s[5..7]) && AllDigits(s[8..])
    then
      var d := Date(DigitsValue(s[..4]), DigitsValue(s[5..7]), DigitsValue(s[8..]));
      if ValidDate(d) then
        Pad4OfDigits(s[..4]);
        Pad2OfDigits(s[5..7]);
        Pad2OfDigits(s[8..]);
        assert s == s[..4] + "-" + s[5..7] + "-" + s[8..];
        Some(d)
      else None
    else None
  }

  lemma IsoDateRoundTrip(d: Date)
    requires ValidDate(d)
    ensures ParseIsoDate(IsoDate(d)) == Some(d)
  {
    var s := IsoDate(d);
    assert s[..4] == Pad4(d.year);
    assert s[5..7] == Pad2(d.month);
    assert s[8..] == Pad2(d.day);
  }

  /** `pd.to_datetime(text, format='%Y-%m-%d %H:%M')` for one text: the date, then the
      format's space, which strptime widens to `\s+` (one or more whitespace characters),
      then a time that `%H:%M` accepts with nothing left over. */
  function ParseDtShowtime(text: string): (r: Option<Timestamp>)
    ensures r.Some? ==> ValidDate(r.value.date) && r.value.hour < 24 && r.value.minute < 60
  {
    if |text| < 10 then None
    else
      match ParseIsoDate(text[..10])
      case None => None
      case Some(d) =>
        var rest := text[10..];
        var time := TrimStart(rest, IsPythonSpace);
        if |time| == |rest| || !IsTimeFormat(time) then None
        else Some(Timestamp(d, ClockHour(time), ClockMinute(time)))
  }

  /** The `dt_showtime` text of a row. */
  function DtShowtimeText(date: string, showtime: string): string
  {
    date + " " + showtime
  }

  /** For the scrape date and a showtime that does not itself begin with whitespace (the
      extracted showtimes never do), parsing the `dt_showtime` text succeeds exactly when
      `is_time_format` accepts the showtime, and gives that date at that hour and minute. */
  lemma DtShowtimeRoundTrip(d: Date, showtime: string)
    requires ValidDate(d)
    requires showtime == [] || !IsPythonSpace(showtime[0])
    ensures ParseDtShowtime(DtShowtimeText(IsoDate(d), showtime))
         == if IsTimeFormat(showtime) then Some(Timestamp(d, ClockHour(showtime), ClockMinute(showtime))) else None
  {
    var text := DtShowtimeText(IsoDate(d), showtime);
    assert text[..10] == IsoDate(d);
    IsoDateRoundTrip(d);
    var rest := text[10..];
    assert rest == " " + showtime;
    var time := TrimStart(rest, IsPythonSpace);
    assert time == TrimStart(showtime, IsPythonSpace) by {
      assert rest[1..] == showtime;
    }
    assert time == showtime;
  }

  lemma IsoDateExample()
    ensures IsoDate(Date(2024, 3, 1)) == "2024-03-01"
  {
    assert Pad4(2024) == Pad2(20) + Pad2(24);
  }

  /** A date and a time join into the timestamp they spell. */
  lemma DtShowtimeExample()
    ensures ParseDtShowtime(DtShowtimeText("2024-03-01", "18:45")) == Some(Timestamp(Date(2024, 3, 1), 18, 45))
  {
    IsoDateExample();
    PaddedTimeRoundTrip(18, 45);
    assert Pad2(18) + ":" + Pad2(45) == "18:45";
    DtShowtimeRoundTrip(Date(2024, 3, 1), "18:45");
  }

  /** A time with the wrong separator gives no timestamp. */
  lemma DtShowtimeRejectExample()
    ensures ParseDtShowtime(DtShowtimeText("2024-03-01", "18-45")) == None
  {
    IsoDateExample();
    TimeFormatRejectsShape();
    DtShowtimeRoundTrip(Date(2024, 3, 1), "18-45");
  }

}
