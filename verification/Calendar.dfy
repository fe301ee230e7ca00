/**
 The two UTC calendar converters of the agent: the year/month subtraction loop of the
 provenance log and the closed-form civil-from-days conversion of the `time.now` tool.

 The reference is neither of them: it is the day number of a Gregorian date, obtained by
 adding up year and month lengths from 1970-01-01 (section 5.7 and appendix C of RFC 3339).
 */
module Calendar {
  import opened Basics
  import opened Text

  const U32: nat := 0x1_0000_0000

  datatype Date = Date(year: nat, month: nat, day: nat)

  datatype DateTime = DateTime(date: Date, hour: nat, minute: nat, second: nat)

  // ----- the Gregorian calendar -----

  predicate IsLeap(y: nat)
  {
    y % 4 == 0 && (y % 100 != 0 || y % 400 == 0)
  }

  function YearLength(y: nat): nat
  {
    if IsLeap(y) then 366 else 365
  }

  function MonthLength(y: nat, m: nat): nat
    requires 1 <= m <= 12
  {
    if m == 2 then (if IsLeap(y) then 29 else 28)
    else if m in {4, 6, 9, 11} then 30 else 31
  }

  predicate ValidDate(d: Date)
  {
    d.year >= 1970 && 1 <= d.month <= 12 && 1 <= d.day <= MonthLength(d.year, d.month)
  }

  predicate ValidDateTime(t: DateTime)
  {
    ValidDate(t.date) && t.hour < 24 && t.minute < 60 && t.second < 60
  }

  function DaysBeforeYear(y: nat): nat
    requires y >= 1970
  {
    if y == 1970 then 0 else DaysBeforeYear(y - 1) + YearLength(y - 1)
  }

  function DaysBeforeMonth(y: nat, m: nat): nat
    requires 1 <= m <= 13
  {
    if m == 1 then 0 else DaysBeforeMonth(y, m - 1) + MonthLength(y, m - 1)
  }

  /** Days elapsed from 1970-01-01 to `d`. */
  function DayNumber(d: Date): nat
    requires ValidDate(d)
  {
    DaysBeforeYear(d.year) + DaysBeforeMonth(d.year, d.month) + d.day - 1
  }

  function SecondNumber(t: DateTime): nat
    requires ValidDateTime(t)
  {
    86400 * DayNumber(t.date) + 3600 * t.hour + 60 * t.minute + t.second
  }

  lemma MonthTable(y: nat)
    ensures DaysBeforeMonth(y, 2) == 31
    ensures DaysBeforeMonth(y, 3) == 31 + MonthLength(y, 2)
    ensures forall m :: 3 <= m <= 13 ==>
      DaysBeforeMonth(y, m) == 31 + MonthLength(y, 2) + [0, 31, 61, 92, 122, 153, 184, 214, 245, 275, 306][m - 3]
  {
    assert DaysBeforeMonth(y, 3) == DaysBeforeMonth(y, 2) + MonthLength(y, 2);
    assert DaysBeforeMonth(y, 4) == DaysBeforeMonth(y, 3) + 31;
    assert DaysBeforeMonth(y, 5) == DaysBeforeMonth(y, 4) + 30;
    assert DaysBeforeMonth(y, 6) == DaysBeforeMonth(y, 5) + 31;
    assert DaysBeforeMonth(y, 7) == DaysBeforeMonth(y, 6) + 30;
    assert DaysBeforeMonth(y, 8) == DaysBeforeMonth(y, 7) + 31;
    assert DaysBeforeMonth(y, 9) == DaysBeforeMonth(y, 8) + 31;
    assert DaysBeforeMonth(y, 10) == DaysBeforeMonth(y, 9) + 30;
    assert DaysBeforeMonth(y, 11) == DaysBeforeMonth(y, 10) + 31;
    assert DaysBeforeMonth(y, 12) == DaysBeforeMonth(y, 11) + 30;
    assert DaysBeforeMonth(y, 13) == DaysBeforeMonth(y, 12) + 31;
  }

  lemma {:induction false} YearStartsIncrease(y: nat, z: nat)
    requires 1970 <= y < z
    ensures DaysBeforeYear(y) + YearLength(y) <= DaysBeforeYear(z)
  {
    if y < z - 1 {
      YearStartsIncrease(y, z - 1);
    }
  }

  lemma {:induction false} MonthStartsIncrease(y: nat, m: nat, n: nat)
    requires 1 <= m < n <= 13
    ensures DaysBeforeMonth(y, m) + MonthLength(y, m) <= DaysBeforeMonth(y, n)
  {
    if m < n - 1 {
      MonthStartsIncrease(y, m, n - 1);
    }
  }

  lemma DayWithinYear(d: Date)
    requires ValidDate(d)
    ensures DaysBeforeMonth(d.year, d.month) + d.day <= YearLength(d.year)
  {
    MonthTable(d.year);
    if d.month < 12 {
      MonthStartsIncrease(d.year, d.month, 12);
    }
  }

  lemma EarlierYearEarlierDay(a: Date, b: Date)
    requires ValidDate(a) && ValidDate(b) && a.year < b.year
    ensures DayNumber(a) < DayNumber(b)
  {
    YearStartsIncrease(a.year, b.year);
    DayWithinYear(a);
  }

  /** A day number belongs to at most one valid date. */
  lemma DateIsUnique(a: Date, b: Date)
    requires ValidDate(a) && ValidDate(b)
    requires DayNumber(a) == DayNumber(b)
    ensures a == b
  {
    if a.year < b.year {
      EarlierYearEarlierDay(a, b);
    } else if b.year < a.year {
      EarlierYearEarlierDay(b, a);
    } else if a.month < b.month {
      MonthStartsIncrease(a.year, a.month, b.month);
    } else if b.month < a.month {
      MonthStartsIncrease(a.year, b.month, a.month);
    }
  }

  // ----- the subtraction loop (provenance log) -----

  /** Subtracts year lengths, then month lengths. `days` is the 32-bit counter of the source,
      so the result is the date of the day count reduced modulo 2^32. */
  method SubtractDays(count: u32) returns (date: Date)
    ensures ValidDate(date)
    ensures DayNumber(date) == count
  {
    var days: u32 := count;
    var year: u32 := 1970;
    while true
      invariant year >= 1970 && 365 * (year - 1970) <= count - days
      invariant DaysBeforeYear(year) + days == count
      decreases days
    {
      var dy: u32 := if IsLeap(year) then 366 else 365;
      if days < dy {
        break;
      }
      days := days - dy;
      year := year + 1;
    }
    var leap := IsLeap(year);
    var monthDays: seq<u32> := [31, 28, 31, 30, 31, 30, 31, 31, 30, 31, 30, 31];
    var month: u32 := 1;
    var i := 0;
    MonthTable(year);
    while i < 12
      invariant 0 <= i <= 12 && month == i + 1
      invariant DaysBeforeYear(year) + DaysBeforeMonth(year, month) + days == count
      invariant DaysBeforeMonth(year, month) + days < YearLength(year)
    {
      var d := if i == 1 && leap then 29 else monthDays[i];
      assert d == MonthLength(year, month);
      if days < d {
        break;
      }
      days := days - d;
      month := month + 1;
      i := i + 1;
    }
    date := Date(year, month, days + 1);
  }

  // ----- civil-from-days (time.now tool) -----

  /** Splits a day of the 400-year era into century, four-year cycle, year and day, with
      years starting on 1 March. */
  lemma SplitEra(doe: nat) returns (c: nat, q: nat, j: nat, doy: nat)
    requires doe < 146097
    ensures c <= 3 && q <= 24 && j <= 3 && doy <= 365
    ensures doe == 36524 * c + 1461 * q + 365 * j + doy
    ensures doy == 365 ==> j == 3 && (q == 24 ==> c == 3)
  {
    c := if doe < 146096 then doe / 36524 else 3;
    var r := doe - 36524 * c;
    q := r / 1461;
    var s := r - 1461 * q;
    j := if s < 1460 then s / 365 else 3;
    doy := s - 365 * j;
  }

  /** The closed form finds the year of the era from any such split. */
  lemma YearOfEra(doe: nat, c: nat, q: nat, j: nat, doy: nat)
    requires c <= 3 && q <= 24 && j <= 3 && doy <= 365
    requires doe == 36524 * c + 1461 * q + 365 * j + doy < 146097
    requires doy == 365 ==> j == 3 && (q == 24 ==> c == 3)
    ensures (doe - doe / 1460 + doe / 36524 - doe / 146096) / 365 == 100 * c + 4 * q + j
  {
    var s := 365 * j + doy;
    var d := if 24 * c + q + s >= 1460 then 1 else 0;
    assert doe == 1460 * (25 * c + q + d) + (24 * c + q + s - 1460 * d);
    assert doe / 1460 == 25 * c + q + d;
    if doe != 146096 {
      assert doe == 36524 * c + (1461 * q + s);
      assert doe / 36524 == c;
      assert doe / 146096 == 0;
    }
    assert doe - doe / 1460 + doe / 36524 - doe / 146096 == 365 * (100 * c + 4 * q + j) + (doy - d);
  }

  /** The day of the (March-based) year is never negative and at most 365, and is 365 only
      when the following February has 29 days. */
  lemma DayOfYearBounds(doe: nat)
    requires doe < 146097
    ensures var yoe := (doe - doe / 1460 + doe / 36524 - doe / 146096) / 365;
            && 0 <= yoe <= 399
            && 0 <= doe - (365 * yoe + yoe / 4 - yoe / 100) <= 365
            && (doe - (365 * yoe + yoe / 4 - yoe / 100) == 365 ==> IsLeap(yoe + 1))
  {
    var c, q, j, doy := SplitEra(doe);
    YearOfEra(doe, c, q, j, doy);
    YearSplit(c, q, j);
    if doy == 365 {
      LeapAfterFourth(c, q);
    }
  }

  lemma YearSplit(c: nat, q: nat, j: nat)
    requires q <= 24 && j <= 3
    ensures (100 * c + 4 * q + j) / 4 == 25 * c + q
    ensures (100 * c + 4 * q + j) / 100 == c
  {
    assert 100 * c + 4 * q + j == 4 * (25 * c + q) + j;
  }

  lemma LeapAfterFourth(c: nat, q: nat)
    requires c <= 3 && q <= 24 && (q == 24 ==> c == 3)
    ensures IsLeap(100 * c + 4 * q + 4)
  {
    assert 100 * c + 4 * q + 4 == 4 * (25 * c + q + 1);
    if q < 24 {
      assert (100 * c + (4 * q + 4)) % 100 == 4 * q + 4;
    }
  }

  /** Month and day from the day of a March-based year, by the 153-days-per-5-months rule. */
  lemma MonthOfDay(doy: nat)
    requires doy <= 365
    ensures var mp := (5 * doy + 2) / 153;
            && 0 <= mp <= 11
            && [0, 31, 61, 92, 122, 153, 184, 214, 245, 275, 306, 337][mp] == (153 * mp + 2) / 5 <= doy
            && (mp < 11 ==> doy < [31, 61, 92, 122, 153, 184, 214, 245, 275, 306, 337][mp])
  {
  }

  /** Year of the era (`yoe`) of the closed form. Every intermediate here and below is typed
      by the source's unsigned 64-bit width, so its well-formedness says that no subtraction
      wraps around. */
  function YearInEra(doe: u64): (yoe: u64)
    requires doe < 146097
    ensures yoe <= 399
    ensures 365 * yoe + yoe / 4 - yoe / 100 <= doe <= 365 * yoe + yoe / 4 - yoe / 100 + 365
    ensures doe == 365 * yoe + yoe / 4 - yoe / 100 + 365 ==> IsLeap(yoe + 1)
  {
    DayOfYearBounds(doe);
    (doe - doe / 1460 + doe / 36524 - doe / 146096) / 365
  }

  /** Date from a March-based year `y` and the day `doy` in it. */
  function FromMarch(y: u64, doy: u64): (r: Date)
    requires y < 0xffff_ffff_ffff_ffff && doy <= 365
  {
    MonthOfDay(doy);
    var mp: u64 := (5 * doy + 2) / 153;
    var d: u64 := doy - (153 * mp + 2) / 5 + 1;
    var mo: u64 := if mp < 10 then mp + 3 else mp - 9;
    var yr: u64 := if mo <= 2 then y + 1 else y;
    Date(yr, mo, d)
  }

  function Leaps(y: nat): nat
  {
    y / 4 - y / 100 + y / 400
  }

  lemma LeapStep(y: nat)
    requires y > 0
    ensures Leaps(y) == Leaps(y - 1) + (if IsLeap(y) then 1 else 0)
  {
    StepBy4(y);
    StepBy100(y);
    StepBy400(y);
    MultiplesNest(y);
  }

  lemma StepBy4(y: nat)
    requires y > 0
    ensures y / 4 == (y - 1) / 4 + (if y % 4 == 0 then 1 else 0)
  {
  }

  lemma StepBy100(y: nat)
    requires y > 0
    ensures y / 100 == (y - 1) / 100 + (if y % 100 == 0 then 1 else 0)
  {
  }

  lemma StepBy400(y: nat)
    requires y > 0
    ensures y / 400 == (y - 1) / 400 + (if y % 400 == 0 then 1 else 0)
  {
  }

  lemma MultiplesNest(y: nat)
    ensures y % 400 == 0 ==> y % 100 == 0
    ensures y % 100 == 0 ==> y % 4 == 0
  {
    ShiftBy100(4 * (y / 400), 0);
    ShiftBy4(25 * (y / 100), 0);
  }

  lemma {:induction false} DaysBeforeYearClosed(y: nat)
    requires y >= 1970
    ensures DaysBeforeYear(y) == 365 * (y - 1970) + Leaps(y - 1) - 477
  {
    if y > 1970 {
      DaysBeforeYearClosed(y - 1);
      LeapStep(y - 1);
    }
  }

  lemma LeapsAcrossEras(era: nat, yoe: nat)
    requires yoe <= 399
    ensures Leaps(400 * era + yoe) == 97 * era + yoe / 4 - yoe / 100
  {
    var y := 400 * era + yoe;
    assert y / 4 == 100 * era + yoe / 4;
    assert y / 100 == 4 * era + yoe / 100;
    assert y / 400 == era;
  }

  lemma LeapAcrossEras(era: nat, y: nat)
    ensures IsLeap(400 * era + y) == IsLeap(y)
  {
    ShiftBy4(100 * era, y);
    ShiftBy100(4 * era, y);
    ShiftBy400(era, y);
  }

  lemma ShiftBy4(k: nat, y: nat)
    ensures (4 * k + y) % 4 == y % 4
  {
    assert 4 * k + y == 4 * (k + y / 4) + y % 4;
  }

  lemma ShiftBy100(k: nat, y: nat)
    ensures (100 * k + y) % 100 == y % 100
  {
    assert 100 * k + y == 100 * (k + y / 100) + y % 100;
  }

  lemma ShiftBy400(k: nat, y: nat)
    ensures (400 * k + y) % 400 == y % 400
  {
    assert 400 * k + y == 400 * (k + y / 400) + y % 400;
  }

  /** Where 1 March of `y` and 1 January of `y + 1` fall on the shifted day axis. */
  lemma MarchFirst(y: nat)
    requires y >= 1969
    ensures DaysBeforeYear(y + 1) == 365 * y + Leaps(y) + 306 - 719468
    ensures y >= 1970 ==> DaysBeforeYear(y) + DaysBeforeMonth(y, 3) == 365 * y + Leaps(y) - 719468
  {
    DaysBeforeYearClosed(y + 1);
    MonthTable(y);
    if y >= 1970 {
      DaysBeforeYearClosed(y);
      LeapStep(y);
    }
  }

  /** The last step of the closed form: from a March-based year and a day in it to the date. */
  lemma FromMarchCorrect(y: nat, doy: nat, days: nat)
    requires days + 719468 == 365 * y + Leaps(y) + doy
    requires y < 0xffff_ffff_ffff_ffff
    requires doy <= 365 && (doy == 365 ==> IsLeap(y + 1))
    ensures ValidDate(FromMarch(y, doy)) && DayNumber(FromMarch(y, doy)) == days
  {
    MonthOfDay(doy);
    var mp := (5 * doy + 2) / 153;
    assert y >= 1969 by {
      if y <= 1968 {
        LeapBound(y, 1968);
      }
    }
    MarchFirst(y);
    if mp < 10 {
      MonthTable(y);
    } else {
      MonthTable(y + 1);
    }
  }

  lemma {:induction false} LeapBound(y: nat, z: nat)
    requires y <= z
    ensures Leaps(y) <= Leaps(z)
  {
    if y < z {
      LeapBound(y, z - 1);
      LeapStep(z);
    }
  }

  /** The closed form's year and day of year are the year and day relative to the shifted
      epoch 0000-03-01. */
  lemma EraArithmetic(z: nat, era: nat, doe: nat, yoe: nat)
    requires z == 146097 * era + doe && yoe <= 399
    requires 0 <= doe - (365 * yoe + yoe / 4 - yoe / 100)
    ensures z == 365 * (yoe + era * 400) + Leaps(yoe + era * 400) + (doe - (365 * yoe + yoe / 4 - yoe / 100))
    ensures IsLeap(yoe + era * 400 + 1) == IsLeap(yoe + 1)
  {
    LeapsAcrossEras(era, yoe);
    LeapAcrossEras(era, yoe + 1);
  }

  /** The closed-form conversion returns the valid Gregorian date of the day number, for
      every day a 64-bit timestamp can name. */
  function CivilFromDays(days: u64): (r: Date)
    requires days <= 0xffff_ffff_ffff_ffff / 86400
    ensures ValidDate(r) && DayNumber(r) == days
  {
    var z: u64 := days + 719468;
    var era: u64 := z / 146097;
    var doe: u64 := z - era * 146097;
    var yoe := YearInEra(doe);
    var y: u64 := yoe + era * 400;
    var doy: u64 := doe - (365 * yoe + yoe / 4 - yoe / 100);
    EraArithmetic(z, era, doe, yoe);
    FromMarchCorrect(y, doy, days);
    FromMarch(y, doy)
  }

  // ----- the converters -----

  function UpToDay(d: Date): string
  {
    Padded(d.year, 4) + "-" + Padded(d.month, 2) + "-" + Padded(d.day, 2) + "T"
  }

  function UpToHour(t: DateTime): string
  {
    UpToDay(t.date) + Padded(t.hour, 2) + ":"
  }

  function UpToMinute(t: DateTime): string
  {
    UpToHour(t) + Padded(t.minute, 2) + ":"
  }

  /** `{:04}-{:02}-{:02}T{:02}:{:02}:{:02}Z` */
  function Format(t: DateTime): string
  {
    UpToMinute(t) + Padded(t.second, 2) + "Z"
  }

  function TimeNow(secs: u64): DateTime
  {
    var days: u64 := secs / 86400;
    var timeOfDay: u64 := secs % 86400;
    DateTime(CivilFromDays(days), timeOfDay / 3600, (timeOfDay % 3600) / 60, timeOfDay % 60)
  }

  function UnixToRfc3339(secs: u64): string
  {
    Format(TimeNow(secs))
  }

  lemma ClockFields(secs: nat)
    ensures (secs / 3600) % 24 == (secs % 86400) / 3600
    ensures (secs / 60) % 60 == ((secs % 86400) % 3600) / 60
    ensures secs % 60 == (secs % 86400) % 60
    ensures secs == 86400 * (secs / 86400) + 3600 * ((secs / 3600) % 24) + 60 * ((secs / 60) % 60) + secs % 60
  {
    var d, r := secs / 86400, secs % 86400;
    var h, q := r / 3600, r % 3600;
    var m, s := q / 60, q % 60;
    HoursIn(r);
    ByHour(24 * d + h, q);
    ByDay(d, h);
    ByMinute(60 * (24 * d + h) + m, s);
    ByMinute(24 * d + h, m);
    ByMinute(60 * h + m, s);
  }

  lemma HoursIn(r: nat)
    requires r < 86400
    ensures r / 3600 < 24 && r % 3600 / 60 < 60
  {
  }

  lemma ByDay(q: nat, r: nat)
    requires r < 24
    ensures (24 * q + r) % 24 == r
  {
  }

  lemma ByHour(q: nat, r: nat)
    requires r < 3600
    ensures (3600 * q + r) / 3600 == q && (3600 * q + r) % 3600 == r
  {
  }

  lemma ByMinute(q: nat, r: nat)
    requires r < 60
    ensures (60 * q + r) / 60 == q && (60 * q + r) % 60 == r
  {
  }

  /** The tool's timestamp denotes exactly the second it was given. */
  lemma TimeNowCorrect(secs: u64)
    ensures ValidDateTime(TimeNow(secs))
    ensures SecondNumber(TimeNow(secs)) == secs
  {
    ClockFields(secs);
  }

  /** The provenance converter, for every 64-bit input. */
  method UnixToUtc(secs: u64) returns (t: DateTime, text: string)
    ensures ValidDateTime(t) && text == Format(t)
    ensures SecondNumber(t) == 86400 * ((secs / 86400) % U32) + secs % 86400
    // The two converters print the same text exactly when the day count fits in 32 bits.
    ensures text == UnixToRfc3339(secs) <==> secs / 86400 < U32
  {
    var s: u64 := secs % 60;
    var m: u64 := (secs / 60) % 60;
    var h: u64 := (secs / 3600) % 24;
    var date := SubtractDays((secs / 86400) % U32);
    t := DateTime(date, h, m, s);
    text := Format(t);
    ClockFields(secs);
    ConvertersAgree(secs, t);
  }

  lemma ConvertersAgree(secs: u64, t: DateTime)
    requires ValidDateTime(t)
    requires SecondNumber(t) == 86400 * ((secs / 86400) % U32) + secs % 86400
    ensures Format(t) == UnixToRfc3339(secs) <==> secs / 86400 < U32
  {
    var n := TimeNow(secs);
    TimeNowCorrect(secs);
    if Format(t) == UnixToRfc3339(secs) {
      FormatInjective(t, n);
    }
    if secs / 86400 < U32 {
      NoWrap(secs);
      TimeIsUnique(t, n);
    }
  }

  lemma NoWrap(secs: nat)
    requires secs / 86400 < U32
    ensures 86400 * ((secs / 86400) % U32) + secs % 86400 == secs
  {
  }

  /** A second number belongs to at most one valid timestamp. */
  lemma TimeIsUnique(a: DateTime, b: DateTime)
    requires ValidDateTime(a) && ValidDateTime(b)
    requires SecondNumber(a) == SecondNumber(b)
    ensures a == b
  {
    var x, y := DayNumber(a.date), DayNumber(b.date);
    assert x == y;
    DateIsUnique(a.date, b.date);
  }

  /** What stands where in a printed timestamp: after the year, of at least four digits, come
      month, day, hour, minute and second, two digits each, behind their separators. */
  lemma FormatPositions(t: DateTime)
    requires ValidDateTime(t)
    ensures var s, k := Format(t), |Padded(t.date.year, 4)|;
            && |s| == k + 16 && k >= 4
            && s[..k] == Padded(t.date.year, 4)
            && s[k] == '-' && s[k + 1..k + 3] == Padded(t.date.month, 2)
            && s[k + 3] == '-' && s[k + 4..k + 6] == Padded(t.date.day, 2)
            && s[k + 6] == 'T' && s[k + 7..k + 9] == Padded(t.hour, 2)
            && s[k + 9] == ':' && s[k + 10..k + 12] == Padded(t.minute, 2)
            && s[k + 12] == ':' && s[k + 13..k + 15] == Padded(t.second, 2)
            && s[k + 15] == 'Z'
  {
    hide Padded, UpToDay;
    var year := Padded(t.date.year, 4) + "-";
    var month, k := year + Padded(t.date.month, 2) + "-", |year| - 1;
    var d, h, m, s := UpToDay(t.date), UpToHour(t), UpToMinute(t), Format(t);
    DayField(t.date);
    Field(year, t.date.month, "-");
    Field(month, t.date.day, "T");
    Field(d, t.hour, ":");
    Field(h, t.minute, ":");
    Field(m, t.second, "Z");
    Inside(m, s, k + 10, k + 13);
    Inside(d, h, k + 4, k + 7);
    Inside(h, s, k + 7, k + 10);
    Inside(h, s, k + 4, k + 7);
    Inside(month, d, k + 1, k + 4);
    Inside(month, s, k + 1, k + 4);
    Inside(year, s, 0, k + 1);
    assert year[..k] == Padded(t.date.year, 4) && year[k] == '-';
  }

  lemma DayField(d: Date)
    requires ValidDate(d)
    ensures UpToDay(d) == Padded(d.year, 4) + "-" + Padded(d.month, 2) + "-" + Padded(d.day, 2) + "T" && d.day < 100
  {
  }

  /** A two-digit field and its separator at the end of a text. */
  lemma Field(x: string, n: nat, sep: string)
    requires n < 100 && |sep| == 1
    ensures var r := x + Padded(n, 2) + sep;
            && |r| == |x| + 3 && r[..|x|] == x && r[|x|..|x| + 2] == Padded(n, 2) && r[|x| + 2] == sep[0]
  {
    TwoDigits(n);
  }

  /** Longer texts agree with the shorter ones they begin with. */
  lemma Inside(x: string, y: string, a: nat, b: nat)
    requires x <= y && a <= b <= |x|
    ensures y[a..b] == x[a..b] && forall i :: a <= i < b ==> y[i] == x[i]
  {
  }

  lemma SplitAt(a: string, b: string, c: string, d: string)
    requires a + b == c + d && |b| == |d|
    ensures a == c && b == d
  {
    assert (a + b)[..|a|] == a && (c + d)[..|c|] == c;
    assert (a + b)[|a|..] == b && (c + d)[|c|..] == d;
  }

  lemma TwoDigits(n: nat)
    requires n < 100
    ensures |Padded(n, 2)| == 2
  {
    assert Pow10(2) == 100 by { assert Pow10(1) == 10 by { assert Pow10(0) == 1; } }
    PaddedLength(n, 2);
  }

  /** One two-digit field can be peeled off the right end of a printed timestamp. */
  lemma PeelField(x: string, m: nat, y: string, n: nat, sep: string)
    requires m < 100 && n < 100
    requires x + Padded(m, 2) + sep == y + Padded(n, 2) + sep
    ensures x == y && m == n
  {
    TwoDigits(m);
    TwoDigits(n);
    ValueOfPadded(m, 2);
    ValueOfPadded(n, 2);
    SplitAt(x + Padded(m, 2), sep, y + Padded(n, 2), sep);
    SplitAt(x, Padded(m, 2), y, Padded(n, 2));
  }

  /** The printed form determines every field. */
  lemma FormatInjective(a: DateTime, b: DateTime)
    requires ValidDateTime(a) && ValidDateTime(b)
    requires Format(a) == Format(b)
    ensures a == b
  {
    PeelField(UpToMinute(a), a.second, UpToMinute(b), b.second, "Z");
    PeelField(UpToHour(a), a.minute, UpToHour(b), b.minute, ":");
    PeelField(UpToDay(a.date), a.hour, UpToDay(b.date), b.hour, ":");
    DateFieldsInjective(a.date, b.date);
  }

  lemma DateFieldsInjective(a: Date, b: Date)
    requires ValidDate(a) && ValidDate(b)
    requires UpToDay(a) == UpToDay(b)
    ensures a == b
  {
    var pa, pb := Padded(a.year, 4) + "-", Padded(b.year, 4) + "-";
    PeelField(pa + Padded(a.month, 2) + "-", a.day, pb + Padded(b.month, 2) + "-", b.day, "T");
    PeelField(pa, a.month, pb, b.month, "-");
    SplitAt(Padded(a.year, 4), "-", Padded(b.year, 4), "-");
    ValueOfPadded(a.year, 4);
    ValueOfPadded(b.year, 4);
  }
}
