/** `is_time_format(s)`: whether `time.strptime(s, '%H:%M')` succeeds.

    Python's strptime turns the format into the regular expression
    `(2[0-3]|[0-1]\d|\d):([0-5]\d|\d)`, matches it at the start of `s`, trying the
    alternatives in that order and backtracking over the hour alternatives, and then fails
    with "unconverted data remains" unless the match ended at the end of `s`. The model
    follows that procedure (`IsTimeFormat`) and proves it equal to a direct description of
    the accepted strings (`IsClockTime`). */
module TimeFormat {
  import opened Wrappers
  import opened Text

  /** The end positions, in the order the regex tries them, of the alternatives of the
      hour group `2[0-3]|[0-1]\d|\d` that match at the start of `s`. */
  function HourEnds(s: string): seq<nat>
  {
    (if |s| >= 2 && s[0] == '2' && '0' <= s[1] <= '3' then [2] else [])
    + (if |s| >= 2 && (s[0] == '0' || s[0] == '1') && IsDigit(s[1]) then [2] else [])
    + (if |s| >= 1 && IsDigit(s[0]) then [1] else [])
  }

  /** The end positions, in the order the regex tries them, of the alternatives of the
      minute group `[0-5]\d|\d` that match at position `i` of `s`. */
  function MinuteEnds(s: string, i: nat): seq<nat>
  {
    (if i + 2 <= |s| && '0' <= s[i] <= '5' && IsDigit(s[i + 1]) then [i + 2] else [])
    + (if i + 1 <= |s| && IsDigit(s[i]) then [i + 1] else [])
  }

  /** Where the first successful match of `%H:%M` ends, trying the hour alternatives whose
      ends are `hourEnds` in turn; the minute group is the last item of the pattern, so its
      first matching alternative ends the match. */
  function MatchEnd(s: string, hourEnds: seq<nat>): Option<nat>
  {
    if hourEnds == [] then None
    else
      var h := hourEnds[0];
      if h < |s| && s[h] == ':' && MinuteEnds(s, h + 1) != [] then Some(MinuteEnds(s, h + 1)[0])
      else MatchEnd(s, hourEnds[1..])
  }

  /** A match that starts with a one- or two-character hour ends three to five characters
      in, after a colon. */
  lemma MatchEndWithin(s: string, hourEnds: seq<nat>)
    requires forall k :: 0 <= k < |hourEnds| ==> 1 <= hourEnds[k] <= 2
    ensures MatchEnd(s, hourEnds).Some? ==>
      (3 <= MatchEnd(s, hourEnds).value <= 5 && MatchEnd(s, hourEnds).value <= |s| && ':' in s)
  {
    if hourEnds != [] {
      MatchEndWithin(s, hourEnds[1..]);
    }
  }

  /** `is_time_format(s)`: the pattern matches and leaves nothing over. */
  predicate IsTimeFormat(s: string)
    ensures IsTimeFormat(s) ==> 3 <= |s| <= 5 && ':' in s
  {
    MatchEndWithin(s, HourEnds(s));
    var m := MatchEnd(s, HourEnds(s));
    m.Some? && m.value == |s|
  }

  /** `s` is `k` hour digits, a colon and one or two minute digits, with the hour below
      24 and the minute below 60. */
  predicate ClockSplit(s: string, k: nat)
  {
    && 1 <= k <= 2 && k + 2 <= |s| <= k + 3 && s[k] == ':'
    && AllDigits(s[..k]) && AllDigits(s[k + 1..])
    && DigitsValue(s[..k]) < 24 && DigitsValue(s[k + 1..]) < 60
  }

  /** The strings `H:M`, `H:MM`, `HH:M` and `HH:MM` naming a time of day. */
  predicate IsClockTime(s: string)
  {
    ClockSplit(s, 1) || ClockSplit(s, 2)
  }

  lemma MinuteFieldMatches(s: string, i: nat)
    requires i <= |s|
    ensures (MinuteEnds(s, i) != [] && MinuteEnds(s, i)[0] == |s|)
        <==> (1 <= |s| - i <= 2 && AllDigits(s[i..]) && DigitsValue(s[i..]) < 60)
  {
    if |s| - i == 1 && IsDigit(s[i]) {
      assert s[i..][0] == s[i];
      DigitsValueOfOne(s[i..]);
    } else if |s| - i == 2 && IsDigit(s[i]) && IsDigit(s[i + 1]) {
      assert s[i..][0] == s[i] && s[i..][1] == s[i + 1];
      DigitsValueOfTwo(s[i..]);
    } else if 1 <= |s| - i <= 2 {
      assert s[i..][0] == s[i];
      assert |s| - i == 2 ==> s[i..][1] == s[i + 1];
    }
  }

  lemma NoColonNoMatch(s: string, ends: seq<nat>)
    requires forall k :: 0 <= k < |ends| && ends[k] < |s| ==> s[ends[k]] != ':'
    ensures MatchEnd(s, ends) == None
  {
    if ends != [] {
      NoColonNoMatch(s, ends[1..]);
    }
  }

  /** The regex procedure accepts exactly the clock times. */
  lemma TimeFormatIsClockTime(s: string)
    ensures IsTimeFormat(s) <==> IsClockTime(s)
  {
    var ends := HourEnds(s);
    if |s| >= 2 && s[1] == ':' {
      // Only the one-digit alternative can be followed by the colon.
      assert IsDigit(s[0]) ==> ends == [1];
      if IsDigit(s[0]) {
        assert MatchEnd(s, ends[1..]) == None;
        MinuteFieldMatches(s, 2);
        DigitsValueOfOne(s[..1]);
      } else {
        assert ends == [];
        assert !ClockSplit(s, 1) by { assert s[..1][0] == s[0]; }
      }
      assert !ClockSplit(s, 2);
    } else if |s| >= 3 && s[2] == ':' && IsDigit(s[0]) && IsDigit(s[1]) {
      assert !ClockSplit(s, 1);
      assert s[..2][0] == s[0] && s[..2][1] == s[1];
      DigitsValueOfTwo(s[..2]);
      MinuteFieldMatches(s, 3);
      NoColonNoMatch(s, [1]);
      if (s[0] == '2' && s[1] <= '3') || s[0] == '0' || s[0] == '1' {
        assert ends == [2, 1];
        assert ends[1..] == [1];
        assert DigitsValue(s[..2]) < 24;
      } else {
        assert ends == [1];
        assert DigitsValue(s[..2]) >= 24;
      }
    } else {
      assert !ClockSplit(s, 1);
      assert !ClockSplit(s, 2);
      NoColonNoMatch(s, ends);
    }
  }

  /** Every accepted string is made of digits and one colon, so it holds no `/`, no `.`
      and no letter. */
  lemma TimeFormatCharacters(s: string)
    requires IsTimeFormat(s)
    ensures |s| >= 3
    ensures forall i :: 0 <= i < |s| ==> IsDigit(s[i]) || s[i] == ':'
  {
    TimeFormatIsClockTime(s);
    var k := if ClockSplit(s, 1) then 1 else 2;
    assert s == s[..k] + [':'] + s[k + 1..];
    forall i | 0 <= i < |s| ensures IsDigit(s[i]) || s[i] == ':' {
      if i < k {
        assert s[i] == s[..k][i];
      } else if i > k {
        assert s[i] == s[k + 1..][i - k - 1];
      }
    }
  }

  /** The index of the colon of an accepted time. */
  function ColonIndex(s: string): (k: nat)
    requires IsTimeFormat(s)
    ensures ClockSplit(s, k)
  {
    TimeFormatIsClockTime(s);
    if ClockSplit(s, 1) then 1 else 2
  }

  /** A clock field of `n` written with `width` digits: one digit, or two zero-padded. */
  function Field(n: nat, width: nat): (f: string)
    requires width == 1 || width == 2
    requires n < (if width == 1 then 10 else 100)
    ensures |f| == width && AllDigits(f) && DigitsValue(f) == n
  {
    if width == 1 then
      DigitsValueOfOne([DigitChar(n)]);
      [DigitChar(n)]
    else Pad2(n)
  }

  /** A field of one or two digits is the spelling of its value at its own width. */
  lemma FieldOfDigits(t: string)
    requires 1 <= |t| <= 2 && AllDigits(t)
    ensures DigitsValue(t) < (if |t| == 1 then 10 else 100) && Field(DigitsValue(t), |t|) == t
  {
    if |t| == 1 {
      DigitsValueOfOne(t);
      DigitCharOfValue(t[0]);
    } else {
      Pad2OfDigits(t);
    }
  }

  /** The hour an accepted time names: the number its hour digits spell. */
  function ClockHour(s: string): (h: nat)
    requires IsTimeFormat(s)
    ensures h < 24 && h < (if ColonIndex(s) == 1 then 10 else 100)
    ensures Field(h, ColonIndex(s)) == s[..ColonIndex(s)]
  {
    FieldOfDigits(s[..ColonIndex(s)]);
    DigitsValue(s[..ColonIndex(s)])
  }

  /** The width of the minute field of an accepted time. */
  function MinuteWidth(s: string): (w: nat)
    requires IsTimeFormat(s)
    ensures w == 1 || w == 2
  {
    |s| - ColonIndex(s) - 1
  }

  /** The minute an accepted time names: the number its minute digits spell. */
  function ClockMinute(s: string): (m: nat)
    requires IsTimeFormat(s)
    ensures m < 60 && m < (if MinuteWidth(s) == 1 then 10 else 100)
    ensures Field(m, MinuteWidth(s)) == s[ColonIndex(s) + 1..]
  {
    FieldOfDigits(s[ColonIndex(s) + 1..]);
    DigitsValue(s[ColonIndex(s) + 1..])
  }

  /** Every accepted time is its hour and its minute, each spelt at its own width, around
      the colon: the readers lose nothing. */
  lemma ClockSpelling(s: string)
    requires IsTimeFormat(s)
    ensures s == Field(ClockHour(s), ColonIndex(s)) + ":" + Field(ClockMinute(s), MinuteWidth(s))
  {
    var k := ColonIndex(s);
    assert s == s[..k] + [s[k]] + s[k + 1..];
  }

  /** Every time of day is accepted in each of the four widths `HH:MM`, `H:MM`, `HH:M` and
      `H:M` its fields fit, and reads back as itself. */
  lemma ClockRoundTrip(h: nat, m: nat, hourWidth: nat, minuteWidth: nat)
    requires h < 24 && m < 60
    requires hourWidth == 1 || hourWidth == 2
    requires minuteWidth == 1 || minuteWidth == 2
    requires hourWidth == 1 ==> h < 10
    requires minuteWidth == 1 ==> m < 10
    ensures IsTimeFormat(Field(h, hourWidth) + ":" + Field(m, minuteWidth))
    ensures ClockHour(Field(h, hourWidth) + ":" + Field(m, minuteWidth)) == h
    ensures ClockMinute(Field(h, hourWidth) + ":" + Field(m, minuteWidth)) == m
  {
    var hs, ms := Field(h, hourWidth), Field(m, minuteWidth);
    var s := hs + ":" + ms;
    assert s[..hourWidth] == hs && s[hourWidth + 1..] == ms;
    assert s[hourWidth] == ':';
    assert ClockSplit(s, hourWidth);
    if hourWidth == 2 {
      assert s[1] == hs[1];
      assert !ClockSplit(s, 1);
    }
    TimeFormatIsClockTime(s);
  }

  /** Every time of day is accepted written `HH:MM`, and reads back as itself. */
  lemma PaddedTimeRoundTrip(h: nat, m: nat)
    requires h < 24 && m < 60
    ensures IsTimeFormat(Pad2(h) + ":" + Pad2(m))
    ensures ClockHour(Pad2(h) + ":" + Pad2(m)) == h && ClockMinute(Pad2(h) + ":" + Pad2(m)) == m
  {
    var s := Pad2(h) + ":" + Pad2(m);
    assert s[..2] == Pad2(h) && s[3..] == Pad2(m);
    assert ClockSplit(s, 2);
    TimeFormatIsClockTime(s);
  }

  /** An hour below ten is also accepted as one digit, `H:MM`, and reads back as itself. */
  lemma ShortHourRoundTrip(h: nat, m: nat)
    requires h < 10 && m < 60
    ensures IsTimeFormat([DigitChar(h)] + ":" + Pad2(m))
    ensures ClockHour([DigitChar(h)] + ":" + Pad2(m)) == h && ClockMinute([DigitChar(h)] + ":" + Pad2(m)) == m
  {
    var s := [DigitChar(h)] + ":" + Pad2(m);
    assert s[..1] == [DigitChar(h)] && s[2..] == Pad2(m);
    DigitsValueOfOne(s[..1]);
    assert ClockSplit(s, 1);
    TimeFormatIsClockTime(s);
  }

  /** Two-digit, one-digit and unpadded fields are all accepted. */
  lemma TimeFormatAcceptsExamples()
    ensures IsTimeFormat("20:30") && IsTimeFormat("9:05")
  {
    PaddedTimeRoundTrip(20, 30);
    assert Pad2(20) + ":" + Pad2(30) == "20:30";
    ShortHourRoundTrip(9, 5);
    assert [DigitChar(9)] + ":" + Pad2(5) == "9:05";
  }

  lemma TimeFormatAcceptsShortMinute()
    ensures IsTimeFormat("09:5")
  {
    TimeFormatIsClockTime("09:5");
    assert ClockSplit("09:5", 2) by { DigitsValueOfTwo("09"); DigitsValueOfOne("5"); assert "09:5"[..2] == "09"; assert "09:5"[3..] == "5"; }
  }

  /** A field out of range is rejected. */
  lemma TimeFormatRejectsRange()
    ensures !IsTimeFormat("24:00") && !IsTimeFormat("12:60")
  {
    TimeFormatIsClockTime("24:00");
    assert !ClockSplit("24:00", 2) by { DigitsValueOfTwo("24"); assert "24:00"[..2] == "24"; }
    TimeFormatIsClockTime("12:60");
    assert !ClockSplit("12:60", 2) by { DigitsValueOfTwo("60"); assert "12:60"[3..] == "60"; }
  }

  /** A wrong separator, an empty string, a three-digit hour and trailing text are
      rejected. */
  lemma TimeFormatRejectsShape()
    ensures !IsTimeFormat("18-45") && !IsTimeFormat("") && !IsTimeFormat("009:05") && !IsTimeFormat("20:30 ")
  {
    TimeFormatIsClockTime("18-45");
    TimeFormatIsClockTime("");
    TimeFormatIsClockTime("009:05");
    TimeFormatIsClockTime("20:30 ");
  }
}
