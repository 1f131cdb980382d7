/** The date normaliser `fix_iso_dt` (src/pywaeon3/dt_helper.py).

    It gives a date/time string a four-digit year so that strings compare in
    time order, appends midnight when no time is given, and rejects dates the
    target application cannot show. Python's `int()` raising on a malformed
    year is the `Err(WrongDateFormat)` outcome; the callers catch that
    `ValueError` and report exactly this error. */
module DtHelper {
  import opened Wrappers
  import opened Strings

  const MinYear := 100
  const MaxYear := 9999
  const Midnight := " 00:00:00"

  /** The text before the first '-': what `fix_iso_dt` takes for the year. */
  function YearText(dt: string): string {
    SplitOnce(dt, '-').0
  }

  /** The year is usable: a number from 100 to 9999. */
  predicate InRange(dt: string) {
    var y := ParseNat(YearText(dt));
    y.Some? && MinYear <= y.value <= MaxYear
  }

  function FixIsoDt(dt: string): (r: Result<Option<string>>)
    ensures dt == "" ==> r == Ok(None)
    ensures StartsWith(dt, "BC") ==> r == Ok(None)
    ensures r.Err? <==> dt != "" && !StartsWith(dt, "BC") && ParseNat(YearText(dt)).None?
    ensures r.Err? ==> r.error == WrongDateFormat
    ensures (r.Ok? && r.value.Some?) <==> dt != "" && !StartsWith(dt, "BC") && InRange(dt)
    ensures r.Ok? && r.value.Some? ==>
      r.value.value == ZFill(YearText(dt), 4) + dt[|YearText(dt)|..] + (if ':' in dt then "" else Midnight)
  {
    if dt == "" then Ok(None)
    else if StartsWith(dt, "BC") then Ok(None)
    else
      var (year, rest) := SplitOnce(dt, '-');
      match ParseNat(year)
      case None => Err(WrongDateFormat)
      case Some(y) =>
        if y < MinYear then Ok(None)
        else if y > MaxYear then Ok(None)
        else
          var after := if rest.Some? then "-" + rest.value else "";
          assert dt == year + after;
          YearTextJoin(dt, year, after);
          var joined := ZFill(year, 4) + after;
          if ':' !in joined then Ok(Some(joined + Midnight)) else Ok(Some(joined))
  }

  /** Zero-filling a digit year adds no ':', and the text after the year is kept as it is. */
  lemma YearTextJoin(dt: string, year: string, after: string)
    requires dt == year + after && AllDigits(year)
    ensures dt[|year|..] == after
    ensures ':' in ZFill(year, 4) + after <==> ':' in dt
  {
    DigitsHaveNo(year, ':');
    if |year| < 4 {
      LeadingZeros(4 - |year|, year);
    }
    DigitsHaveNo(ZFill(year, 4), ':');
  }

  /** Zeros in front of a decimal number do not change its value. */
  lemma {:induction false} LeadingZeros(k: nat, s: string)
    requires AllDigits(s)
    ensures AllDigits(Repeat('0', k) + s)
    ensures DigitsValue(Repeat('0', k) + s) == DigitsValue(s)
    decreases |s|
  {
    var z := Repeat('0', k);
    if |s| == 0 {
      assert z + s == z;
      ZerosValue(k);
    } else {
      var t := z + s;
      assert t[..|t| - 1] == z + s[..|s| - 1];
      LeadingZeros(k, s[..|s| - 1]);
    }
  }

  lemma {:induction false} ZerosValue(k: nat)
    ensures AllDigits(Repeat('0', k)) && DigitsValue(Repeat('0', k)) == 0
    decreases k
  {
    if k > 0 {
      var z := Repeat('0', k);
      assert z[..k - 1] == Repeat('0', k - 1);
      ZerosValue(k - 1);
    }
  }

  lemma DigitsHaveNo(s: string, c: char)
    requires AllDigits(s) && !IsDigit(c)
    ensures c !in s
  {
    forall k | 0 <= k < |s| ensures s[k] != c {
      assert IsDigit(s[k]);
    }
  }

  /** A digit string followed by nothing or by a '-' is what the year text picks out. */
  lemma YearTextOf(year: string, tail: string)
    requires AllDigits(year)
    requires tail == "" || tail[0] == '-'
    ensures YearText(year + tail) == year
  {
    DigitsHaveNo(year, '-');
    YearTextOfPlain(year, tail);
  }

  lemma YearTextOfPlain(year: string, tail: string)
    requires '-' !in year
    requires tail == "" || tail[0] == '-'
    ensures YearText(year + tail) == year
  {
    if tail == "" {
      assert year + tail == year;
    } else {
      assert year + tail == year + ['-'] + tail[1..];
      SplitOnceOfJoin(year, '-', tail[1..]);
    }
  }

  /** What the normaliser does to a plain year followed by nothing or by a '-'. */
  lemma FixIsoDtOfYear(year: string, tail: string)
    requires |year| > 0 && AllDigits(year)
    requires tail == "" || tail[0] == '-'
    ensures var y := DigitsValue(year);
      FixIsoDt(year + tail) ==
        if y < MinYear || y > MaxYear then Ok(None)
        else Ok(Some(ZFill(year, 4) + tail + (if ':' in year + tail then "" else Midnight)))
  {
    var dt := year + tail;
    YearTextOf(year, tail);
    assert !StartsWith(dt, "BC") by {
      assert IsDigit(dt[0]);
    }
    assert dt[|year|..] == tail;
  }

  /** A year of four or more digits followed by a '-' and a text holding a ':' is already normal. */
  lemma FixIsoDtOfNormal(z: string, tail: string)
    requires |z| >= 4 && AllDigits(z) && MinYear <= DigitsValue(z) <= MaxYear
    requires |tail| > 0 && tail[0] == '-' && ':' in tail
    ensures FixIsoDt(z + tail) == Ok(Some(z + tail))
  {
    assert ZFill(z, 4) == z;
    ColonAfter(z, tail);
    FixIsoDtOfYear(z, tail);
    assert ZFill(z, 4) + tail + "" == z + tail;
  }

  lemma ColonAfter(z: string, tail: string)
    requires ':' in tail
    ensures ':' in z + tail
  {
    var j :| 0 <= j < |tail| && tail[j] == ':';
    assert (z + tail)[|z| + j] == ':';
  }

  /** Normalising a normalised date gives it back, when the input had a '-' after the year. */
  lemma FixIsoDtIdempotent(dt: string)
    requires '-' in dt
    requires FixIsoDt(dt).Ok? && FixIsoDt(dt).value.Some?
    ensures FixIsoDt(FixIsoDt(dt).value.value) == FixIsoDt(dt)
  {
    var out := FixIsoDt(dt).value.value;
    var year := YearText(dt);
    var z := ZFill(year, 4);
    var (y, rest) := SplitOnce(dt, '-');
    var tail := dt[|year|..] + (if ':' in dt then "" else Midnight);
    assert out == z + tail;
    assert dt == year + "-" + rest.value;
    assert dt[|year|..] == "-" + rest.value;
    assert AllDigits(year) && |year| > 0;
    if z != year {
      LeadingZeros(4 - |year|, year);
    }
    assert ':' in tail by {
      if ':' in dt {
        assert ':' !in year by {
          forall k | 0 <= k < |year| ensures year[k] != ':' {
            assert IsDigit(year[k]);
          }
        }
        var j :| 0 <= j < |dt| && dt[j] == ':';
        assert tail[j - |year|] == ':';
      } else {
        assert tail[|tail| - 3] == ':';
      }
    }
    FixIsoDtOfNormal(z, tail);
  }

  lemma Value33()
    ensures DigitsValue("33") == 33
  {
    assert DigitsValue("3") == 3;
    assert "33"[..1] == "3";
  }

  lemma Value100()
    ensures DigitsValue("100") == 100
  {
    assert DigitsValue("1") == 1;
    assert DigitsValue("10") == 10 by { assert "10"[..1] == "1"; }
    assert "100"[..2] == "10";
  }

  lemma Value1910()
    ensures DigitsValue("1910") == 1910
  {
    assert DigitsValue("1") == 1;
    assert DigitsValue("19") == 19 by { assert "19"[..1] == "1"; }
    assert DigitsValue("191") == 191 by { assert "191"[..2] == "19"; }
    assert "1910"[..3] == "191";
  }

  /** Rows of the original's test table that the code agrees with. */
  lemma FixIsoDtRejectsBc()
    ensures FixIsoDt("BC 333-04-05") == Ok(None)
  {
  }

  lemma FixIsoDtRejectsTwoDigitYear()
    ensures FixIsoDt("33-04-05") == Ok(None)
  {
    Value33();
    FixIsoDtOfYear("33", "-04-05");
    assert "33" + "-04-05" == "33-04-05";
  }

  lemma FixIsoDtPadsYear(dt: string)
    requires dt == "100-04-05 21:23:00"
    ensures FixIsoDt(dt) == Ok(Some("0100-04-05 21:23:00"))
  {
    var tail := "-04-05 21:23:00";
    assert "100" + tail == dt;
    assert dt[12] == ':';
    assert ZFill("100", 4) + tail + "" == "0100-04-05 21:23:00";
    Value100();
    FixIsoDtOfYear("100", tail);
    assert FixIsoDt("100" + tail) == Ok(Some(ZFill("100", 4) + tail + ""));
  }

  lemma FixIsoDtKeepsFullDate(dt: string)
    requires dt == "1910-04-05 21:23:00"
    ensures FixIsoDt(dt) == Ok(Some("1910-04-05 21:23:00"))
  {
    var tail := "-04-05 21:23:00";
    assert "1910" + tail == dt;
    assert tail[9] == ':';
    Value1910();
    FixIsoDtOfNormal("1910", tail);
  }

  lemma FixIsoDtAppendsMidnight(dt: string)
    requires dt == "1910-04-05"
    ensures FixIsoDt(dt) == Ok(Some("1910-04-05 00:00:00"))
  {
    Value1910();
    var tail := "-04-05";
    assert "1910" + tail == dt;
    assert ':' !in dt by {
      forall k | 0 <= k < |dt| ensures dt[k] != ':' {
        assert dt[k] == '-' || IsDigit(dt[k]);
      }
    }
    assert ZFill("1910", 4) == "1910";
    assert dt + Midnight == "1910-04-05 00:00:00";
    FixIsoDtOfYear("1910", tail);
  }

  /** A bare year is normalised to a string that normalising again rejects: the
      appended time lands inside what the second pass takes for the year. */
  lemma FixIsoDtNotIdempotentOnBareYear()
    ensures FixIsoDt("1910") == Ok(Some("1910 00:00:00"))
    ensures FixIsoDt("1910 00:00:00") == Err(WrongDateFormat)
  {
    Value1910();
    FixIsoDtOfYear("1910", "");
    assert "1910" + "" == "1910";
    assert ':' !in "1910";
    assert "1910" + "" + Midnight == "1910 00:00:00";
    var out := "1910 00:00:00";
    assert '-' !in out;
    assert YearText(out) == out;
    assert !IsDigit(out[4]);
  }

  /** A year with a month but no day keeps the missing day missing. */
  lemma FixIsoDtKeepsMissingDay(dt: string)
    requires dt == "1910-04 21:23:00"
    ensures FixIsoDt(dt) == Ok(Some("1910-04 21:23:00"))
  {
    var tail := "-04 21:23:00";
    assert "1910" + tail == dt;
    assert tail[6] == ':';
    Value1910();
    FixIsoDtOfNormal("1910", tail);
  }

  /** The date text after the year with a missing month and day filled in as "01". */
  function FillMonthDay(afterYear: string): (r: string)
    requires afterYear == "" || afterYear[0] == '-'
    ensures |r| > 0 && r[0] == '-' && '-' in r[1..]
    ensures afterYear != "" && '-' in afterYear[1..] ==> r == afterYear
    ensures afterYear != "" ==> |afterYear| <= |r| && r[..|afterYear|] == afterYear
    ensures ' ' !in afterYear ==> ' ' !in r
  {
    if afterYear == "" then "-01-01"
    else if '-' in afterYear[1..] then afterYear
    else
      var r := afterYear + "-01";
      assert r[1..][|afterYear| - 1] == '-';
      assert forall k | |afterYear| <= k < |r| :: r[k] in "-01";
      r
  }

  /** The time text after the date: a space and the time, if there is one. */
  function TimeText(time: Option<string>): (r: string)
    ensures r == "" || r[0] == ' '
  {
    if time.Some? then " " + time.value else ""
  }

  /** The corrected output for a year, the date text after it and the time text. */
  function IntendedText(year: string, afterYear: string, timeText: string): (r: string)
    requires afterYear == "" || afterYear[0] == '-'
    ensures ':' in r
  {
    var out := ZFill(year, 4) + FillMonthDay(afterYear) + timeText;
    if ':' in out then out
    else
      assert (out + Midnight)[|out| + 3] == ':';
      out + Midnight
  }

  /** The normaliser as its test table and its own documentation intend: the
      date part (the text before the first space) gets a four-digit year and a
      month and day ("01" where missing); a time is kept; midnight is appended
      when there is no ':'. */
  function FixIsoDtIntended(dt: string): (r: Result<Option<string>>)
    ensures r.Err? ==> r.error == WrongDateFormat
    ensures dt == "" || StartsWith(dt, "BC") ==> r == Ok(None)
    ensures r.Ok? && r.value.Some? ==> ':' in r.value.value
  {
    if dt == "" then Ok(None)
    else if StartsWith(dt, "BC") then Ok(None)
    else
      var (date, time) := SplitOnce(dt, ' ');
      var year := YearText(date);
      assert date[|year|..] == "" || date[|year|..][0] == '-' by {
        var (y, r) := SplitOnce(date, '-');
        if r.Some? {
          assert date[|year|..] == "-" + r.value;
        }
      }
      match ParseNat(year)
      case None => Err(WrongDateFormat)
      case Some(y) =>
        if y < MinYear || y > MaxYear then Ok(None)
        else Ok(Some(IntendedText(year, date[|year|..], TimeText(time))))
  }

  /** The normaliser a reader calls: the code as written, or as intended. */
  function FixIsoDtBy(code: Code, dt: string): (r: Result<Option<string>>)
    ensures r.Err? ==> r.error == WrongDateFormat
    ensures dt == "" || StartsWith(dt, "BC") ==> r == Ok(None)
    ensures code.Corrected? && r.Ok? && r.value.Some? ==> ':' in r.value.value
  {
    if code.AsWritten? then FixIsoDt(dt) else FixIsoDtIntended(dt)
  }

  /** A digit string zero-filled to four places is still a digit string of the same value. */
  lemma ZFillYear(year: string)
    requires |year| > 0 && AllDigits(year)
    ensures AllDigits(ZFill(year, 4)) && DigitsValue(ZFill(year, 4)) == DigitsValue(year)
    ensures |ZFill(year, 4)| >= 4 && ZFill(ZFill(year, 4), 4) == ZFill(year, 4)
  {
    if |year| < 4 {
      LeadingZeros(4 - |year|, year);
    }
  }

  /** What the corrected normaliser does to a year, a date text after it and a time. */
  lemma FixIsoDtIntendedOfParts(year: string, afterYear: string, time: Option<string>)
    requires |year| > 0 && '-' !in year && ' ' !in year && !StartsWith(year, "BC")
    requires afterYear == "" || afterYear[0] == '-'
    requires ' ' !in afterYear
    ensures var dt := year + afterYear + TimeText(time);
      FixIsoDtIntended(dt) ==
        match ParseNat(year)
        case None => Err(WrongDateFormat)
        case Some(y) =>
          if y < MinYear || y > MaxYear then Ok(None)
          else Ok(Some(IntendedText(year, afterYear, TimeText(time))))
  {
    var date := year + afterYear;
    var dt := date + TimeText(time);
    SplitAtTime(date, time);
    YearTextOfPlain(year, afterYear);
    NotBcAfter(year, afterYear, TimeText(time));
    IntendedUnfold(dt, year, afterYear, TimeText(time));
  }

  /** A date with no space, then the time text: the first space splits them apart again. */
  lemma SplitAtTime(date: string, time: Option<string>)
    requires ' ' !in date
    ensures SplitOnce(date + TimeText(time), ' ') == (date, time)
  {
    if time.Some? {
      assert date + TimeText(time) == date + [' '] + time.value;
      SplitOnceOfJoin(date, ' ', time.value);
    } else {
      assert date + TimeText(time) == date;
    }
  }

  /** Text after a year that does not start with "BC" cannot make it start with "BC". */
  lemma NotBcAfter(year: string, afterYear: string, tt: string)
    requires |year| > 0 && !StartsWith(year, "BC")
    requires afterYear == "" || afterYear[0] == '-'
    requires tt == "" || tt[0] == ' '
    ensures year + afterYear + tt != "" && !StartsWith(year + afterYear + tt, "BC")
  {
    var dt := year + afterYear + tt;
    if |year| >= 2 {
      assert dt[..2] == year[..2];
    } else if |afterYear| > 0 {
      assert dt[1] == afterYear[0];
    } else if |tt| > 0 {
      assert dt[1] == tt[0];
    }
  }

  /** The corrected normaliser, once the split at the first space and the year text are known. */
  lemma IntendedUnfold(dt: string, year: string, afterYear: string, tt: string)
    requires dt != "" && !StartsWith(dt, "BC")
    requires SplitOnce(dt, ' ').0 == year + afterYear && TimeText(SplitOnce(dt, ' ').1) == tt
    requires YearText(year + afterYear) == year
    requires afterYear == "" || afterYear[0] == '-'
    ensures FixIsoDtIntended(dt) ==
      match ParseNat(year)
      case None => Err(WrongDateFormat)
      case Some(y) =>
        if y < MinYear || y > MaxYear then Ok(None)
        else Ok(Some(IntendedText(year, afterYear, tt)))
  {
    assert (year + afterYear)[|year|..] == afterYear;
  }

  /** The corrected normaliser on a year in range. */
  lemma FixIsoDtIntendedOfYear(year: string, afterYear: string, time: Option<string>)
    requires |year| > 0 && AllDigits(year) && MinYear <= DigitsValue(year) <= MaxYear
    requires afterYear == "" || afterYear[0] == '-'
    requires ' ' !in afterYear
    ensures FixIsoDtIntended(year + afterYear + TimeText(time)) == Ok(Some(IntendedText(year, afterYear, TimeText(time))))
  {
    DigitsHaveNo(year, '-');
    DigitsHaveNo(year, ' ');
    assert !StartsWith(year, "BC") by {
      assert IsDigit(year[0]);
    }
    FixIsoDtIntendedOfParts(year, afterYear, time);
  }

  /** The corrected normaliser is idempotent on every date it accepts, the bare year included. */
  lemma FixIsoDtIntendedIdempotent(dt: string)
    requires FixIsoDtIntended(dt).Ok? && FixIsoDtIntended(dt).value.Some?
    ensures FixIsoDtIntended(FixIsoDtIntended(dt).value.value) == FixIsoDtIntended(dt)
  {
    var (date, time) := SplitOnce(dt, ' ');
    var year := YearText(date);
    var a := date[|year|..];
    assert ' ' !in date;
    assert ' ' !in a;
    IntendedTextFixed(year, a, TimeText(time));
  }

  /** A corrected output is normalised to itself. */
  lemma IntendedTextFixed(year: string, a: string, tt: string)
    requires |year| > 0 && AllDigits(year) && MinYear <= DigitsValue(year) <= MaxYear
    requires a == "" || a[0] == '-'
    requires ' ' !in a && (tt == "" || tt[0] == ' ')
    ensures FixIsoDtIntended(IntendedText(year, a, tt)) == Ok(Some(IntendedText(year, a, tt)))
  {
    var z := ZFill(year, 4);
    ZFillYear(year);
    var f := FillMonthDay(a);
    var rest := tt + (if ':' in z + f + tt then "" else Midnight);
    IntendedTextParts(year, a, tt);
    FixedOutput(z, f, rest);
  }

  /** The corrected output is the four-digit year, the full date text and the rest, which holds a ':'. */
  lemma IntendedTextParts(year: string, a: string, tt: string)
    requires a == "" || a[0] == '-'
    requires tt == "" || tt[0] == ' '
    ensures var z := ZFill(year, 4); var f := FillMonthDay(a);
      var rest := tt + (if ':' in z + f + tt then "" else Midnight);
      && IntendedText(year, a, tt) == z + f + rest
      && (rest == "" || rest[0] == ' ')
      && ':' in z + f + rest
  {
  }

  /** A four-digit year in range, a full date text and a time are normalised to themselves. */
  lemma FixedOutput(z: string, f: string, rest: string)
    requires |z| >= 4 && AllDigits(z) && MinYear <= DigitsValue(z) <= MaxYear
    requires |f| > 0 && f[0] == '-' && '-' in f[1..] && ' ' !in f
    requires (rest == "" || rest[0] == ' ') && ':' in z + f + rest
    ensures FixIsoDtIntended(z + f + rest) == Ok(Some(z + f + rest))
  {
    var time2 := if rest == "" then None else Some(rest[1..]);
    assert TimeText(time2) == rest;
    FixIsoDtIntendedOfYear(z, f, time2);
    IntendedTextStable(z, f, rest);
  }

  /** A four-digit year and a full date text are kept as they are. */
  lemma IntendedTextStable(z: string, f: string, rest: string)
    requires |z| >= 4 && |f| > 0 && f[0] == '-' && '-' in f[1..] && ':' in z + f + rest
    ensures IntendedText(z, f, rest) == z + f + rest
  {
    assert ZFill(z, 4) == z;
  }

  /** Where the date already has a month and a day, the corrected normaliser agrees with the code as written. */
  lemma FixIsoDtIntendedAgrees(year: string, afterYear: string, time: Option<string>)
    requires |year| > 0 && AllDigits(year)
    requires |afterYear| > 0 && afterYear[0] == '-' && '-' in afterYear[1..]
    requires ' ' !in afterYear
    ensures var dt := year + afterYear + TimeText(time);
      FixIsoDtIntended(dt) == FixIsoDt(dt)
  {
    var tt := TimeText(time);
    DigitsHaveNo(year, '-');
    DigitsHaveNo(year, ' ');
    assert !StartsWith(year, "BC") by {
      assert IsDigit(year[0]);
    }
    FixIsoDtIntendedOfParts(year, afterYear, time);
    FixIsoDtOfYearJoined(year, afterYear, tt);
    FullDateText(year, afterYear, tt);
  }

  lemma FixIsoDtOfYearJoined(year: string, afterYear: string, tt: string)
    requires |year| > 0 && AllDigits(year)
    requires |afterYear| > 0 && afterYear[0] == '-'
    ensures var y := DigitsValue(year);
      FixIsoDt(year + afterYear + tt) ==
        if y < MinYear || y > MaxYear then Ok(None)
        else Ok(Some(ZFill(year, 4) + (afterYear + tt) + (if ':' in year + (afterYear + tt) then "" else Midnight)))
  {
    assert year + afterYear + tt == year + (afterYear + tt);
    FixIsoDtOfYear(year, afterYear + tt);
  }

  /** On a full date the corrected text is the zero-filled year, the rest unchanged, and midnight when there is no time. */
  lemma FullDateText(year: string, afterYear: string, tt: string)
    requires |year| > 0 && AllDigits(year)
    requires |afterYear| > 0 && afterYear[0] == '-' && '-' in afterYear[1..]
    ensures IntendedText(year, afterYear, tt) ==
      ZFill(year, 4) + (afterYear + tt) + (if ':' in year + (afterYear + tt) then "" else Midnight)
  {
    var z := ZFill(year, 4);
    ZFillYear(year);
    DigitsHaveNo(year, ':');
    DigitsHaveNo(z, ':');
    assert ':' in z + afterYear + tt <==> ':' in year + (afterYear + tt);
    assert z + afterYear + tt == z + (afterYear + tt);
  }

  /** Rows of the original's test table that the code as written misses. Row
      "1910-04 21:23:00", for every time: the missing day becomes "01". */
  lemma FixIsoDtIntendedFillsDay(time: string)
    requires ':' in time
    ensures FixIsoDtIntended("1910-04 " + time) == Ok(Some("1910-04-01 " + time))
  {
    var tt := TimeText(Some(time));
    assert "1910-04 " + time == "1910" + "-04" + tt;
    IntendedDayText(time);
    Value1910();
    FixIsoDtIntendedOfYear("1910", "-04", Some(time));
  }

  /** The corrected output for "1910", "-04" and a time. */
  lemma IntendedDayText(time: string)
    requires ':' in time
    ensures IntendedText("1910", "-04", " " + time) == "1910-04-01 " + time
  {
    FillMonth04();
    assert ZFill("1910", 4) == "1910";
    var out := "1910" + "-04-01" + (" " + time);
    assert ':' in out by {
      var j :| 0 <= j < |time| && time[j] == ':';
      assert out[11 + j] == ':';
    }
    assert IntendedText("1910", "-04", " " + time) == out;
    assert out == "1910-04-01 " + time;
  }

  lemma FillMonth04()
    ensures FillMonthDay("-04") == "-04-01"
  {
    assert '-' !in "-04"[1..];
  }

  /** Row "1910": a bare year gets January 1st at midnight. */
  lemma FixIsoDtIntendedFillsDate(dt: string)
    requires dt == "1910"
    ensures FixIsoDtIntended(dt) == Ok(Some("1910-01-01 00:00:00"))
  {
    IntendedDateText();
    assert dt == "1910" + "" + TimeText(None);
    Value1910();
    FixIsoDtIntendedOfYear("1910", "", None);
  }

  /** The corrected output for a bare "1910". */
  lemma IntendedDateText()
    ensures IntendedText("1910", "", "") == "1910-01-01 00:00:00"
  {
    assert ZFill("1910", 4) == "1910";
    var out := "1910" + "-01-01" + "";
    assert ':' !in out;
    assert out + Midnight == "1910-01-01 00:00:00";
  }
}
