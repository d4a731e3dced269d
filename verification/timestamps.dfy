/** `time_to_int` in disk_image_toolkit/util.py: a "YYYY-MM-DDTHH:MM:SS"
    text read as a UTC time and turned into whole seconds since the Unix
    epoch, with the proleptic Gregorian calendar of Python's `datetime`.
    Also the zero-padded rendering of such a time and the fact that on
    such texts Python's string order is chronological order, which is what
    makes the `min`/`max` over DFXML timestamp strings meaningful. */
module Timestamps {
  import opened Outcomes
  import opened PyStr
  import opened StrOrder

  datatype DateTime = DateTime(year: nat, month: nat, day: nat, hour: nat, minute: nat, second: nat)

  predicate IsLeap(y: nat) {
    y % 4 == 0 && (y % 100 != 0 || y % 400 == 0)
  }

  function DaysInYear(y: nat): nat {
    if IsLeap(y) then 366 else 365
  }

  function DaysInMonth(y: nat, m: nat): (n: nat)
    requires 1 <= m <= 12
    ensures 28 <= n <= 31
  {
    if m == 2 then (if IsLeap(y) then 29 else 28)
    else if m == 4 || m == 6 || m == 9 || m == 11 then 30
    else 31
  }

  /** Days in the months of year `y` before month `m`. */
  function DaysBeforeMonth(y: nat, m: nat): nat
    requires 1 <= m <= 12
  {
    [0, 0, 31, 59, 90, 120, 151, 181, 212, 243, 273, 304, 334][m]
      + (if m > 2 && IsLeap(y) then 1 else 0)
  }

  /** Days in the years before year `y`, counted from 1 January of year 1. */
  function DaysBeforeYear(y: nat): nat
    requires y >= 1
  {
    var k := y - 1;
    k * 365 + k / 4 - k / 100 + k / 400
  }

  /** `date.toordinal()`: 1 January of year 1 is day 1. */
  function Ordinal(dt: DateTime): nat
    requires Valid(dt)
  {
    DaysBeforeYear(dt.year) + DaysBeforeMonth(dt.year, dt.month) + dt.day
  }

  /** The ordinal of 1 January 1970. */
  const EpochOrdinal: nat := 719163

  /** The calendar fields `datetime` accepts. */
  predicate Valid(dt: DateTime) {
    && 1 <= dt.year <= 9999
    && 1 <= dt.month <= 12
    && 1 <= dt.day <= DaysInMonth(dt.year, dt.month)
    && dt.hour < 24 && dt.minute < 60 && dt.second < 60
  }

  function SecondOfDay(dt: DateTime): nat {
    dt.hour * 3600 + dt.minute * 60 + dt.second
  }

  /** `int(datetime.timestamp(dt))` for a UTC datetime: whole seconds since
      1970-01-01T00:00:00, negative before it. */
  function EpochSeconds(dt: DateTime): int
    requires Valid(dt)
  {
    (Ordinal(dt) - EpochOrdinal) * 86400 + SecondOfDay(dt)
  }

  /** The fixed layout "DDDD-DD-DDTDD:DD:DD" `strptime` matches for the
      format "%Y-%m-%dT%H:%M:%S" (the literal `T` matches either case). */
  predicate Layout(s: string) {
    && |s| == 19
    && AllDigits(s[0..4]) && s[4] == '-'
    && AllDigits(s[5..7]) && s[7] == '-'
    && AllDigits(s[8..10]) && (s[10] == 'T' || s[10] == 't')
    && AllDigits(s[11..13]) && s[13] == ':'
    && AllDigits(s[14..16]) && s[16] == ':'
    && AllDigits(s[17..19])
  }

  /** `datetime.strptime(s, "%Y-%m-%dT%H:%M:%S")`: the datetime, or None
      where Python raises ValueError (wrong layout, month 0 or 13, a day
      past the month's end, hour 24, minute or second 60 and above). */
  function ParseIso(s: string): (r: Option<DateTime>)
    ensures r.Some? ==> Valid(r.value) && Layout(s)
    ensures r.Some? ==> r.value.month == DecimalValue(s[5..7]) && r.value.day == DecimalValue(s[8..10])
  {
    if !Layout(s) then None
    else
      var dt := DateTime(DecimalValue(s[0..4]), DecimalValue(s[5..7]), DecimalValue(s[8..10]),
                         DecimalValue(s[11..13]), DecimalValue(s[14..16]), DecimalValue(s[17..19]));
      if Valid(dt) then Some(dt) else None
  }

  /** `time_to_int` as written: a text `strptime` rejects reaches the
      `except ValueError` branch, whose `logger.warning` names a variable
      util.py never defines, so the call raises NameError. */
  function TimeToIntAsWritten(s: string): (r: Result<int>)
    ensures r.Ok? <==> ParseIso(s).Some?
    ensures r.Ok? ==> r.value == EpochSeconds(ParseIso(s).value)
    ensures r.Err? ==> r.error == NameError("logger")
  {
    match ParseIso(s)
    case Some(dt) => Ok(EpochSeconds(dt))
    case None => Err(NameError("logger"))
  }

  /** `time_to_int` as evidently intended: a rejected text is reported and
      the function returns None. */
  function TimeToInt(s: string): (r: Option<int>)
    ensures r.Some? <==> ParseIso(s).Some?
    ensures r.Some? ==> r.value == EpochSeconds(ParseIso(s).value)
  {
    match ParseIso(s)
    case Some(dt) => Some(EpochSeconds(dt))
    case None => None
  }

  /** The intended function never raises and agrees with the written one
      wherever the written one returns. */
  lemma TimeToIntAgrees(s: string)
    ensures TimeToIntAsWritten(s).Ok? ==> TimeToInt(s) == Some(TimeToIntAsWritten(s).value)
    ensures TimeToIntAsWritten(s).Err? <==> TimeToInt(s).None?
  {
  }

  /** The written function raises on the empty text, which `str(x)[:19]`
      of a timestamp Python cannot parse can be. */
  lemma TimeToIntAsWrittenRaises()
    ensures TimeToIntAsWritten("") == Err(NameError("logger"))
    ensures TimeToInt("") == None
  {
  }

  // ---- rendering -------------------------------------------------------

  function Pad2(n: nat): (r: string)
    requires n < 100
    ensures |r| == 2 && AllDigits(r)
  {
    [DigitChar(n / 10), DigitChar(n % 10)]
  }

  function Pad4(n: nat): (r: string)
    requires n < 10000
    ensures |r| == 4 && AllDigits(r)
  {
    [DigitChar(n / 1000), DigitChar(n / 100 % 10), DigitChar(n / 10 % 10), DigitChar(n % 10)]
  }

  function ClockText(dt: DateTime): (r: string)
    requires Valid(dt)
    ensures |r| == 8
  {
    Pad2(dt.hour) + (":" + (Pad2(dt.minute) + (":" + Pad2(dt.second))))
  }

  function DayText(dt: DateTime): (r: string)
    requires Valid(dt)
    ensures |r| == 11
  {
    Pad2(dt.day) + ("T" + ClockText(dt))
  }

  function MonthText(dt: DateTime): (r: string)
    requires Valid(dt)
    ensures |r| == 14
  {
    Pad2(dt.month) + ("-" + DayText(dt))
  }

  /** `dt.isoformat()` for a datetime with no fraction and no zone. */
  function FormatIso(dt: DateTime): (r: string)
    requires Valid(dt)
    ensures |r| == 19
  {
    Pad4(dt.year) + ("-" + MonthText(dt))
  }

  /** The value of a two-character digit string. */
  lemma Value2(x: string)
    requires |x| == 2 && AllDigits(x)
    ensures DecimalValue(x) == DigitValue(x[0]) * 10 + DigitValue(x[1])
  {
    var p := x[..1];
    assert p[..0] == [] && p[0] == x[0];
    assert DecimalValue(p) == DigitValue(x[0]);
    assert DecimalValue(x) == DecimalValue(p) * 10 + DigitValue(x[1]);
  }

  /** The value of a four-character digit string. */
  lemma Value4(x: string)
    requires |x| == 4 && AllDigits(x)
    ensures DecimalValue(x) == DigitValue(x[0]) * 1000 + DigitValue(x[1]) * 100
                               + DigitValue(x[2]) * 10 + DigitValue(x[3])
  {
    var p := x[..3];
    assert p[..2] == x[..2] && p[2] == x[2];
    Value2(x[..2]);
    assert DecimalValue(p) == DecimalValue(x[..2]) * 10 + DigitValue(x[2]);
    assert DecimalValue(x) == DecimalValue(p) * 10 + DigitValue(x[3]);
  }

  lemma Pad2Value(n: nat)
    requires n < 100
    ensures DecimalValue(Pad2(n)) == n
  {
    Value2(Pad2(n));
    DigitRoundTrip(n / 10);
    DigitRoundTrip(n % 10);
  }

  lemma Pad4Value(n: nat)
    requires n < 10000
    ensures DecimalValue(Pad4(n)) == n
  {
    Value4(Pad4(n));
    DigitRoundTrip(n / 1000);
    DigitRoundTrip(n / 100 % 10);
    DigitRoundTrip(n / 10 % 10);
    DigitRoundTrip(n % 10);
    Pad4Digits(n);
  }

  /** The four digits of a number below 10000 add back up to it. */
  lemma Pad4Digits(n: nat)
    requires n < 10000
    ensures n == n / 1000 * 1000 + n / 100 % 10 * 100 + n / 10 % 10 * 10 + n % 10
  {
    var a, b, c := n / 10, n / 100, n / 1000;
    assert n == a * 10 + n % 10;
    assert a / 10 == b;
    assert a == b * 10 + a % 10;
    assert a % 10 == n / 10 % 10;
    assert b / 10 == c;
    assert b == c * 10 + b % 10;
    assert b % 10 == n / 100 % 10;
  }

  lemma DigitOfValue(c: char)
    requires IsDigit(c)
    ensures DigitValue(c) < 10 && DigitChar(DigitValue(c)) == c
  {
  }

  lemma Pad2OfDigits(x: string)
    requires |x| == 2 && AllDigits(x)
    ensures DecimalValue(x) < 100 && Pad2(DecimalValue(x)) == x
  {
    Value2(x);
    DigitOfValue(x[0]);
    DigitOfValue(x[1]);
  }

  lemma Pad4OfDigits(x: string)
    requires |x| == 4 && AllDigits(x)
    ensures DecimalValue(x) < 10000 && Pad4(DecimalValue(x)) == x
  {
    Value4(x);
    DigitOfValue(x[0]);
    DigitOfValue(x[1]);
    DigitOfValue(x[2]);
    DigitOfValue(x[3]);
    var a, b, c, d := DigitValue(x[0]), DigitValue(x[1]), DigitValue(x[2]), DigitValue(x[3]);
    var v := DecimalValue(x);
    assert v / 1000 == a;
    assert v / 100 == a * 10 + b;
    assert v / 10 == a * 100 + b * 10 + c;
    assert (a * 10 + b) % 10 == b;
    assert (a * 100 + b * 10 + c) % 10 == c;
  }

  /** Rendering then parsing gives the datetime back. */
  lemma ParseFormat(dt: DateTime)
    requires Valid(dt)
    ensures ParseIso(FormatIso(dt)) == Some(dt)
  {
    var s := FormatIso(dt);
    assert s[0..4] == Pad4(dt.year);
    assert s[5..7] == Pad2(dt.month);
    assert s[8..10] == Pad2(dt.day);
    assert s[11..13] == Pad2(dt.hour);
    assert s[14..16] == Pad2(dt.minute);
    assert s[17..19] == Pad2(dt.second);
    assert s[4] == '-' && s[7] == '-' && s[10] == 'T' && s[13] == ':' && s[16] == ':';
    assert Layout(s);
    Pad4Value(dt.year);
    Pad2Value(dt.month);
    Pad2Value(dt.day);
    Pad2Value(dt.hour);
    Pad2Value(dt.minute);
    Pad2Value(dt.second);
  }

  /** Parsing a text with an upper-case `T` then rendering gives the text
      back: on such texts parsing is one-to-one. */
  lemma FormatParse(s: string)
    requires ParseIso(s).Some? && s[10] == 'T'
    ensures FormatIso(ParseIso(s).value) == s
  {
    var dt := ParseIso(s).value;
    Pad4OfDigits(s[0..4]);
    Pad2OfDigits(s[5..7]);
    Pad2OfDigits(s[8..10]);
    Pad2OfDigits(s[11..13]);
    Pad2OfDigits(s[14..16]);
    Pad2OfDigits(s[17..19]);
    var r := FormatIso(dt);
    forall i | 0 <= i < 19
      ensures r[i] == s[i]
    {
    }
  }

  // ---- string order is time order ------------------------------------

  /** On equal-length digit strings, string order is numeric order. */
  lemma {:induction false} DigitsOrder(x: string, y: string)
    requires |x| == |y| && AllDigits(x) && AllDigits(y)
    ensures LexLess(x, y) <==> DecimalValue(x) < DecimalValue(y)
    ensures x == y <==> DecimalValue(x) == DecimalValue(y)
    decreases |x|
  {
    var n := |x|;
    if n == 0 {
      LexIrreflexive(x);
    } else {
      var px, py := x[..n - 1], y[..n - 1];
      assert x == px + [x[n - 1]] && y == py + [y[n - 1]];
      LexConcat(px, [x[n - 1]], py, [y[n - 1]]);
      DigitsOrder(px, py);
      assert DecimalValue(x) == DecimalValue(px) * 10 + DigitValue(x[n - 1]);
      assert DecimalValue(y) == DecimalValue(py) * 10 + DigitValue(y[n - 1]);
    }
  }

  lemma SeparatorOrder(c: char, q: string, q2: string)
    ensures LexLess([c] + q, [c] + q2) <==> LexLess(q, q2)
    ensures [c] + q == [c] + q2 <==> q == q2
  {
    LexConcat([c], q, [c], q2);
    LexIrreflexive([c]);
    if [c] + q == [c] + q2 {
      assert q == ([c] + q)[1..];
    }
  }

  /** Two-digit fields compare like their values. */
  lemma FieldOrder2(a: nat, b: nat, q: string, q2: string)
    requires a < 100 && b < 100
    ensures LexLess(Pad2(a) + q, Pad2(b) + q2) <==> a < b || (a == b && LexLess(q, q2))
    ensures Pad2(a) + q == Pad2(b) + q2 <==> a == b && q == q2
  {
    LexConcat(Pad2(a), q, Pad2(b), q2);
    Pad2Value(a);
    Pad2Value(b);
    DigitsOrder(Pad2(a), Pad2(b));
    if Pad2(a) + q == Pad2(b) + q2 {
      assert Pad2(a) == (Pad2(a) + q)[..2] && Pad2(b) == (Pad2(b) + q2)[..2];
      assert q == (Pad2(a) + q)[2..] && q2 == (Pad2(b) + q2)[2..];
    }
  }

  lemma ClockOrder(a: DateTime, b: DateTime)
    requires Valid(a) && Valid(b)
    ensures LexLess(ClockText(a), ClockText(b)) <==> SecondOfDay(a) < SecondOfDay(b)
    ensures ClockText(a) == ClockText(b) <==> SecondOfDay(a) == SecondOfDay(b)
  {
    FieldOrder2(a.second, b.second, "", "");
    SeparatorOrder(':', Pad2(a.second), Pad2(b.second));
    FieldOrder2(a.minute, b.minute, ":" + Pad2(a.second), ":" + Pad2(b.second));
    SeparatorOrder(':', Pad2(a.minute) + (":" + Pad2(a.second)), Pad2(b.minute) + (":" + Pad2(b.second)));
    FieldOrder2(a.hour, b.hour, ":" + (Pad2(a.minute) + (":" + Pad2(a.second))),
                                ":" + (Pad2(b.minute) + (":" + Pad2(b.second))));
    assert Pad2(a.second) + "" == Pad2(a.second) && Pad2(b.second) + "" == Pad2(b.second);
  }

  /** Seconds from the start of the month. */
  function SecondOfMonth(dt: DateTime): nat
    requires Valid(dt)
  {
    (dt.day - 1) * 86400 + SecondOfDay(dt)
  }

  lemma DayOrder(a: DateTime, b: DateTime)
    requires Valid(a) && Valid(b)
    ensures LexLess(DayText(a), DayText(b)) <==> SecondOfMonth(a) < SecondOfMonth(b)
    ensures DayText(a) == DayText(b) <==> SecondOfMonth(a) == SecondOfMonth(b)
  {
    ClockOrder(a, b);
    SeparatorOrder('T', ClockText(a), ClockText(b));
    FieldOrder2(a.day, b.day, "T" + ClockText(a), "T" + ClockText(b));
  }

  /** Seconds from the start of the year. */
  function SecondOfYear(dt: DateTime): nat
    requires Valid(dt)
  {
    DaysBeforeMonth(dt.year, dt.month) * 86400 + SecondOfMonth(dt)
  }

  lemma DaysBeforeMonthGrows(y: nat, m: nat, m2: nat)
    requires 1 <= m < m2 <= 12
    ensures DaysBeforeMonth(y, m) + DaysInMonth(y, m) <= DaysBeforeMonth(y, m2)
  {
  }

  lemma DaysBeforeMonthInYear(y: nat, m: nat)
    requires 1 <= m <= 12
    ensures DaysBeforeMonth(y, m) + DaysInMonth(y, m) <= DaysInYear(y)
  {
  }

  lemma MonthOrder(a: DateTime, b: DateTime)
    requires Valid(a) && Valid(b) && a.year == b.year
    ensures LexLess(MonthText(a), MonthText(b)) <==> SecondOfYear(a) < SecondOfYear(b)
    ensures MonthText(a) == MonthText(b) <==> SecondOfYear(a) == SecondOfYear(b)
  {
    DayOrder(a, b);
    SeparatorOrder('-', DayText(a), DayText(b));
    FieldOrder2(a.month, b.month, "-" + DayText(a), "-" + DayText(b));
    if a.month < b.month {
      DaysBeforeMonthGrows(a.year, a.month, b.month);
    } else if b.month < a.month {
      DaysBeforeMonthGrows(a.year, b.month, a.month);
    }
  }

  lemma NextQuotient4(k: nat)
    ensures (k + 1) / 4 == k / 4 + (if (k + 1) % 4 == 0 then 1 else 0)
  {
  }

  lemma NextQuotient100(k: nat)
    ensures (k + 1) / 100 == k / 100 + (if (k + 1) % 100 == 0 then 1 else 0)
  {
  }

  lemma NextQuotient400(k: nat)
    ensures (k + 1) / 400 == k / 400 + (if (k + 1) % 400 == 0 then 1 else 0)
  {
  }

  lemma DaysBeforeNextYear(y: nat)
    requires y >= 1
    ensures DaysBeforeYear(y + 1) == DaysBeforeYear(y) + DaysInYear(y)
  {
    var k := y - 1;
    NextQuotient4(k);
    NextQuotient100(k);
    NextQuotient400(k);
    assert y % 100 == 0 ==> y % 4 == 0;
    assert y % 400 == 0 ==> y % 100 == 0;
  }

  lemma {:induction false} DaysBeforeYearGrows(y: nat, y2: nat)
    requires 1 <= y < y2
    ensures DaysBeforeYear(y) + DaysInYear(y) <= DaysBeforeYear(y2)
    decreases y2 - y
  {
    DaysBeforeNextYear(y);
    if y + 1 < y2 {
      DaysBeforeYearGrows(y + 1, y2);
    }
  }

  lemma SecondsFromYear(dt: DateTime)
    requires Valid(dt)
    ensures EpochSeconds(dt) == (DaysBeforeYear(dt.year) + 1 - EpochOrdinal) * 86400 + SecondOfYear(dt)
  {
  }

  /** On rendered datetimes, Python's string `<` is chronological order. */
  lemma FormatOrder(a: DateTime, b: DateTime)
    requires Valid(a) && Valid(b)
    ensures LexLess(FormatIso(a), FormatIso(b)) <==> EpochSeconds(a) < EpochSeconds(b)
  {
    Pad4Value(a.year);
    Pad4Value(b.year);
    DigitsOrder(Pad4(a.year), Pad4(b.year));
    LexConcat(Pad4(a.year), "-" + MonthText(a), Pad4(b.year), "-" + MonthText(b));
    SeparatorOrder('-', MonthText(a), MonthText(b));
    SecondsFromYear(a);
    SecondsFromYear(b);
    if a.year == b.year {
      MonthOrder(a, b);
    } else if a.year < b.year {
      DaysBeforeMonthInYear(a.year, a.month);
      DaysBeforeYearGrows(a.year, b.year);
    } else {
      DaysBeforeMonthInYear(b.year, b.month);
      DaysBeforeYearGrows(b.year, a.year);
    }
  }

  /** On texts `time_to_int` accepts with an upper-case `T`, comparing the
      texts as strings and comparing the converted seconds agree. */
  lemma TextOrderIsTimeOrder(s: string, t: string)
    requires ParseIso(s).Some? && s[10] == 'T'
    requires ParseIso(t).Some? && t[10] == 'T'
    ensures LexLess(s, t) <==> TimeToInt(s).value < TimeToInt(t).value
  {
    FormatParse(s);
    FormatParse(t);
    FormatOrder(ParseIso(s).value, ParseIso(t).value);
  }

  lemma TimeToIntOfFormat(dt: DateTime)
    requires Valid(dt)
    ensures TimeToInt(FormatIso(dt)) == Some(EpochSeconds(dt))
  {
    ParseFormat(dt);
  }

  /** 1970-01-01T00:00:00 is second 0. */
  lemma EpochStart()
    ensures var e := DateTime(1970, 1, 1, 0, 0, 0);
            Valid(e) && EpochSeconds(e) == 0
  {
    var e := DateTime(1970, 1, 1, 0, 0, 0);
    assert Valid(e);
    DaysBefore1970();
    assert Ordinal(e) == EpochOrdinal;
    SecondsFromOrdinal(e, 0);
  }

  lemma SecondsFromOrdinal(dt: DateTime, days: int)
    requires Valid(dt) && Ordinal(dt) == EpochOrdinal + days
    ensures EpochSeconds(dt) == days * 86400 + SecondOfDay(dt)
  {
  }

  lemma DaysBefore1970()
    ensures DaysBeforeYear(1970) == 719162
  {
  }

  lemma EpochStartText()
    ensures FormatIso(DateTime(1970, 1, 1, 0, 0, 0)) == "1970-01-01T00:00:00"
  {
    assert Pad4(1970) == "1970" && Pad2(1) == "01" && Pad2(0) == "00";
  }

  /** 2001-09-09T01:46:40 is second 1000000000. */
  lemma BillionSeconds()
    ensures var g := DateTime(2001, 9, 9, 1, 46, 40);
            Valid(g) && FormatIso(g) == "2001-09-09T01:46:40" && EpochSeconds(g) == 1000000000
  {
    var g := DateTime(2001, 9, 9, 1, 46, 40);
    assert FormatIso(g) == "2001-09-09T01:46:40" by {
      assert Pad4(2001) == "2001" && Pad2(9) == "09" && Pad2(1) == "01";
      assert Pad2(46) == "46" && Pad2(40) == "40";
    }
    assert EpochSeconds(g) == 1000000000 by {
      assert Ordinal(g) == 730737 by {
        assert DaysBeforeYear(2001) == 730485;
        assert DaysBeforeMonth(2001, 9) == 243;
      }
      var z := Ordinal(g) - EpochOrdinal;
      assert z == 11574;
      assert z * 86400 == 999993600;
      assert SecondOfDay(g) == 6400;
    }
  }

  /** 2023 is not a leap year, so 29 February 2023 is rejected. */
  lemma NoLeapDay2023()
    ensures TimeToInt("2023-02-29T00:00:00") == None
  {
    var f := "2023-02-29T00:00:00";
    assert f[0..4] == Pad4(2023) && f[5..7] == Pad2(2) && f[8..10] == Pad2(29);
    Pad4Value(2023);
    Pad2Value(2);
    Pad2Value(29);
  }
}
