/** Bangkok civil days. Instants are UTC seconds since 1970-01-01T00:00:00Z;
    days are numbered from 1970-01-01. Bangkok is UTC+7 all year round. */
module Calendar {
  import opened Text

  const SecondsPerDay: int := 86400
  const BangkokOffset: int := 7 * 3600

  /** The Bangkok calendar day of a UTC instant, as
      `DATE(CONVERT_TZ(created_at, '+00:00', '+07:00'))` computes it. */
  function BangkokDay(t: int): (d: int)
    ensures d * SecondsPerDay <= t + BangkokOffset < (d + 1) * SecondsPerDay
  {
    (t + BangkokOffset) / SecondsPerDay
  }

  /** The UTC calendar day of a UTC instant. */
  function UtcDay(t: int): (d: int)
    ensures d * SecondsPerDay <= t < (d + 1) * SecondsPerDay
  {
    t / SecondsPerDay
  }

  /** From 17:00 UTC on, an instant already belongs to the next Bangkok day;
      before that it belongs to the same day as in UTC. */
  lemma BangkokDayVersusUtcDay(t: int)
    ensures t - UtcDay(t) * SecondsPerDay >= 17 * 3600 ==> BangkokDay(t) == UtcDay(t) + 1
    ensures t - UtcDay(t) * SecondsPerDay < 17 * 3600 ==> BangkokDay(t) == UtcDay(t)
  {
  }

  datatype CivilDate = CivilDate(year: int, month: nat, day: nat)

  /** Day of a 400-year era (counted from 1 March of its first year) of a
      given year of the era and day of that year. */
  function DayOfEra(yoe: int, doy: int): int {
    yoe * 365 + yoe / 4 - yoe / 100 + doy
  }

  /** Year of the era and day of the year of a day of a 400-year era: split
      into centuries, four-year cycles and years, each counted from 1 March so
      that the leap day falls at the end. */
  function YearOfEra(doe: int): (r: (int, int))
    requires 0 <= doe < 146097
    ensures 0 <= r.0 < 400 && 0 <= r.1 < 366
    ensures DayOfEra(r.0, r.1) == doe
  {
    var cent := if doe / 36524 < 3 then doe / 36524 else 3;
    var doc := doe - 36524 * cent;
    var quad := doc / 1461;
    var doq := doc % 1461;
    var yq := if doq / 365 < 3 then doq / 365 else 3;
    var yoe := 100 * cent + 4 * quad + yq;
    assert yoe / 4 == 25 * cent + quad && yoe / 100 == cent;
    (yoe, doq - 365 * yq)
  }

  /** Day of the (March-based) year on which a month (1 = January) starts,
      plus the day of the month. */
  function DayOfYear(month: int, day: int): int {
    var mp := if month > 2 then month - 3 else month + 9;
    (153 * mp + 2) / 5 + day - 1
  }

  /** Month and day of a day of the March-based year. */
  function MonthAndDay(doy: int): (r: (nat, nat))
    requires 0 <= doy < 366
    ensures 1 <= r.0 <= 12 && 1 <= r.1 <= 31
    ensures DayOfYear(r.0, r.1) == doy
  {
    var mp := (5 * doy + 2) / 153;
    var m := if mp < 10 then mp + 3 else mp - 9;
    (m, doy - (153 * mp + 2) / 5 + 1)
  }

  /** Proleptic Gregorian date of a day number. */
  function CivilFromDays(days: int): (c: CivilDate)
    ensures 1 <= c.month <= 12 && 1 <= c.day <= 31
  {
    var z := days + 719468;
    CivilOfEra(z / 146097, z % 146097)
  }

  /** The date on day `doe` of 400-year era `era` (eras start on 1 March of
      years divisible by 400, era 0 in year 0). */
  function CivilOfEra(era: int, doe: int): (c: CivilDate)
    requires 0 <= doe < 146097
    ensures 1 <= c.month <= 12 && 1 <= c.day <= 31
  {
    var yd := YearOfEra(doe);
    var md := MonthAndDay(yd.1);
    CivilDate(if md.0 <= 2 then yd.0 + era * 400 + 1 else yd.0 + era * 400, md.0, md.1)
  }

  /** Day number of a proleptic Gregorian date (the inverse computation). */
  function DaysFromCivil(c: CivilDate): int {
    var y := if c.month <= 2 then c.year - 1 else c.year;
    var era := y / 400;
    var yoe := y - era * 400;
    era * 146097 + DayOfEra(yoe, DayOfYear(c.month, c.day)) - 719468
  }

  /** DaysFromCivil inverts CivilFromDays: different day numbers name
      different calendar dates. */
  lemma CivilRoundTrip(days: int)
    ensures DaysFromCivil(CivilFromDays(days)) == days
  {
    var z := days + 719468;
    var era, doe := z / 146097, z % 146097;
    assert z == era * 146097 + doe;
    assert CivilFromDays(days) == CivilOfEra(era, doe);
    EraRoundTrip(era, doe);
  }

  /** DaysFromCivil reads back the era and the day of the era. */
  lemma EraRoundTrip(era: int, doe: int)
    requires 0 <= doe < 146097
    ensures DaysFromCivil(CivilOfEra(era, doe)) == era * 146097 + doe - 719468
  {
    var yd := YearOfEra(doe);
    var md := MonthAndDay(yd.1);
    var year := if md.0 <= 2 then yd.0 + era * 400 + 1 else yd.0 + era * 400;
    assert CivilOfEra(era, doe) == CivilDate(year, md.0, md.1);
    assert DayOfEra(yd.0, DayOfYear(md.0, md.1)) == doe;
    DaysFromCivilOfEra(era, yd.0, year, md.0, md.1);
  }

  /** DaysFromCivil reads back the era, the year of the era and the day of the
      year of a date built from them. */
  lemma DaysFromCivilOfEra(era: int, yoe: int, year: int, month: nat, day: nat)
    requires 0 <= yoe < 400 && 1 <= month <= 12
    requires year == if month <= 2 then yoe + era * 400 + 1 else yoe + era * 400
    ensures DaysFromCivil(CivilDate(year, month, day)) == era * 146097 + DayOfEra(yoe, DayOfYear(month, day)) - 719468
  {
    var y := if month <= 2 then year - 1 else year;
    assert y == yoe + era * 400;
    YearSplit(era, yoe);
  }

  lemma YearSplit(era: int, yoe: int)
    requires 0 <= yoe < 400
    ensures (yoe + era * 400) / 400 == era
  {
  }

  /** Gregorian leap years: divisible by 4, except centuries not divisible
      by 400. */
  predicate IsLeapYear(y: int) {
    y % 4 == 0 && (y % 100 != 0 || y % 400 == 0)
  }

  function DaysInMonth(year: int, month: int): int {
    if month == 2 then (if IsLeapYear(year) then 29 else 28)
    else if month == 4 || month == 6 || month == 9 || month == 11 then 30
    else 31
  }

  /** A date of the proleptic Gregorian calendar. */
  predicate ValidDate(c: CivilDate) {
    1 <= c.month <= 12 && 1 <= c.day <= DaysInMonth(c.year, c.month)
  }

  /** The calendar date that follows a date. */
  function NextDate(c: CivilDate): (n: CivilDate)
    ensures ValidDate(c) ==> ValidDate(n)
  {
    if c.day < DaysInMonth(c.year, c.month) then CivilDate(c.year, c.month, c.day + 1)
    else if c.month < 12 then CivilDate(c.year, c.month + 1, 1)
    else CivilDate(c.year + 1, 1, 1)
  }

  /** Day 0 is 1 January 1970. */
  lemma EpochDate()
    ensures CivilFromDays(0) == CivilDate(1970, 1, 1)
  {
    assert 719468 / 146097 == 4 && 719468 % 146097 == 135080;
    YearOfEraAt(135080, 3, 17, 1, 306);
    assert MonthAndDay(306) == (1, 1);
    CivilOfEraAt(4, 135080, 369, 306, 1, 1);
  }

  /** Every day number names a valid Gregorian date. */
  lemma CivilFromDaysValid(days: int)
    ensures ValidDate(CivilFromDays(days))
  {
    var z := days + 719468;
    var era, doe := z / 146097, z % 146097;
    assert CivilFromDays(days) == CivilOfEra(era, doe);
    var yd := YearOfEra(doe);
    var md := MonthAndDay(yd.1);
    var y := yd.0 + era * 400;
    assert yd.1 < MarchYearLength(y) by {
      YearOfEraLength(doe);
      LeapPeriodic(yd.0 + 1, era);
    }
    assert md.1 <= DaysInMonth(if md.0 <= 2 then y + 1 else y, md.0) by {
      MonthAndDayValid(yd.1, y);
    }
    CivilOfEraAt(era, doe, yd.0, yd.1, md.0, md.1);
  }

  /** The day after a day number is the next calendar date: with EpochDate,
      this fixes CivilFromDays on every day number. */
  lemma CivilSuccessor(days: int)
    ensures CivilFromDays(days + 1) == NextDate(CivilFromDays(days))
  {
    var c := CivilFromDays(days);
    CivilFromDaysValid(days);
    CivilRoundTrip(days);
    NextDateDays(c);
    DaysFromCivilInverse(NextDate(c));
  }

  /** CivilFromDays inverts DaysFromCivil on valid dates: every Gregorian
      date is the date of exactly one day number. */
  lemma DaysFromCivilInverse(c: CivilDate)
    requires ValidDate(c)
    ensures CivilFromDays(DaysFromCivil(c)) == c
  {
    var y := MarchYear(c);
    var era := y / 400;
    var yoe := y - era * 400;
    var doy := DayOfYear(c.month, c.day);
    assert 0 <= yoe < 400 && doy < MarchYearLength(yoe) && MonthAndDay(doy) == (c.month, c.day) by {
      MonthAndDayInverse(c.month, c.day, y);
      LeapPeriodic(yoe + 1, era);
    }
    InverseInEra(c, era, yoe, doy);
  }

  /** DaysFromCivilInverse once the date is split into its era, year of the
      era and day of the March-based year. */
  lemma InverseInEra(c: CivilDate, era: int, yoe: int, doy: int)
    requires 0 <= yoe < 400 && 0 <= doy < MarchYearLength(yoe) && MonthAndDay(doy) == (c.month, c.day)
    requires MarchYear(c) == era * 400 + yoe && doy == DayOfYear(c.month, c.day)
    ensures CivilFromDays(DaysFromCivil(c)) == c
  {
    assert DaysFromCivil(c) == era * 146097 + DayOfEra(yoe, doy) - 719468 by {
      assert (era * 400 + yoe) / 400 == era;
    }
    assert c == CivilDate(if c.month <= 2 then yoe + era * 400 + 1 else yoe + era * 400, c.month, c.day);
    EraInverse(DaysFromCivil(c), era, yoe, doy, c.month, c.day);
  }

  /** The day number of a year of an era and a day of that year names the
      date they spell. */
  lemma EraInverse(days: int, era: int, yoe: int, doy: int, month: nat, day: nat)
    requires 0 <= yoe < 400 && 0 <= doy < MarchYearLength(yoe) && MonthAndDay(doy) == (month, day)
    requires days == era * 146097 + DayOfEra(yoe, doy) - 719468
    ensures CivilFromDays(days)
            == CivilDate(if month <= 2 then yoe + era * 400 + 1 else yoe + era * 400, month, day)
  {
    var doe := DayOfEra(yoe, doy);
    YearOfEraInverse(yoe, doy);
    CivilFromDaysInEra(days, era, doe);
    CivilOfEraAt(era, doe, yoe, doy, month, day);
  }

  /** CivilOfEra assembles the year of the era, month and day it finds. */
  lemma CivilOfEraAt(era: int, doe: int, yoe: int, doy: int, month: nat, day: nat)
    requires 0 <= doe < 146097 && 0 <= doy < 366
    requires YearOfEra(doe) == (yoe, doy) && MonthAndDay(doy) == (month, day)
    ensures CivilOfEra(era, doe) == CivilDate(if month <= 2 then yoe + era * 400 + 1 else yoe + era * 400, month, day)
  {
  }

  /** A day number given by its era and day of the era. */
  lemma CivilFromDaysInEra(days: int, era: int, doe: int)
    requires 0 <= doe < 146097 && days == era * 146097 + doe - 719468
    ensures CivilFromDays(days) == CivilOfEra(era, doe)
  {
    var z := days + 719468;
    assert z / 146097 == era && z % 146097 == doe by {
      assert z == era * 146097 + doe;
    }
  }

  /** The next date is one day number later. */
  lemma NextDateDays(c: CivilDate)
    requires ValidDate(c)
    ensures DaysFromCivil(NextDate(c)) == DaysFromCivil(c) + 1
  {
    DaysFromCivilByYear(c);
    DaysFromCivilByYear(NextDate(c));
    NextMarchDay(c);
  }

  /** The year a date's March-based year starts in. */
  function MarchYear(c: CivilDate): int {
    if c.month <= 2 then c.year - 1 else c.year
  }

  /** The next date is one day later counted in March-based years. */
  lemma NextMarchDay(c: CivilDate)
    requires ValidDate(c)
    ensures var n := NextDate(c);
            YearStart(MarchYear(n)) + DayOfYear(n.month, n.day) == YearStart(MarchYear(c)) + DayOfYear(c.month, c.day) + 1
  {
    if c.day == DaysInMonth(c.year, c.month) && c.month == 2 {
      YearStartStep(c.year - 1);
    }
  }

  /** The length of the March-based year that starts in year `y`: it ends with
      the February of year y + 1. */
  function MarchYearLength(y: int): int {
    if IsLeapYear(y + 1) then 366 else 365
  }

  /** Day number (shifted by 719468) of 1 March of year `y`. */
  function YearStart(y: int): int {
    365 * y + y / 4 - y / 100 + y / 400
  }

  lemma YearStartStep(y: int)
    ensures YearStart(y + 1) == YearStart(y) + MarchYearLength(y)
  {
    var z := y + 1;
    assert z / 4 + z / 400 - z / 100 == y / 4 + y / 400 - y / 100
           + (if z % 4 == 0 then 1 else 0) + (if z % 400 == 0 then 1 else 0) - (if z % 100 == 0 then 1 else 0) by {
      NextQuotient4(y);
      NextQuotient100(y);
      NextQuotient400(y);
    }
    if z % 400 == 0 {
      CenturyOfQuadricentennial(z);
    }
    if z % 100 == 0 {
      QuadOfCentury(z);
    }
  }

  /** A multiple of 400 is a multiple of 100. */
  lemma CenturyOfQuadricentennial(z: int)
    requires z % 400 == 0
    ensures z % 100 == 0
  {
    var k := z / 400;
    assert z == 100 * (4 * k);
  }

  /** A multiple of 100 is a multiple of 4. */
  lemma QuadOfCentury(z: int)
    requires z % 100 == 0
    ensures z % 4 == 0
  {
    var k := z / 100;
    assert z == 4 * (25 * k);
  }

  lemma NextQuotient4(y: int)
    ensures (y + 1) / 4 == y / 4 + (if (y + 1) % 4 == 0 then 1 else 0)
  {
    assert y == 4 * (y / 4) + y % 4;
  }

  lemma NextQuotient100(y: int)
    ensures (y + 1) / 100 == y / 100 + (if (y + 1) % 100 == 0 then 1 else 0)
  {
    assert y == 100 * (y / 100) + y % 100;
  }

  lemma NextQuotient400(y: int)
    ensures (y + 1) / 400 == y / 400 + (if (y + 1) % 400 == 0 then 1 else 0)
  {
    assert y == 400 * (y / 400) + y % 400;
  }

  /** DaysFromCivil counts whole March-based years and then days of the year. */
  lemma DaysFromCivilByYear(c: CivilDate)
    ensures DaysFromCivil(c) == YearStart(MarchYear(c)) + DayOfYear(c.month, c.day) - 719468
  {
    var y := MarchYear(c);
    var era := y / 400;
    var yoe := y - era * 400;
    assert y / 4 == 100 * era + yoe / 4;
    assert y / 100 == 4 * era + yoe / 100;
  }

  /** Leap years repeat every 400 years. */
  lemma LeapPeriodic(y: int, k: int)
    ensures IsLeapYear(y + k * 400) == IsLeapYear(y)
  {
    ShiftMod4(y, k);
    ShiftMod100(y, k);
    ShiftMod400(y, k);
  }

  lemma ShiftMod4(y: int, k: int)
    ensures (y + k * 400) % 4 == y % 4
  {
    assert y + k * 400 == 4 * (y / 4 + 100 * k) + y % 4;
  }

  lemma ShiftMod100(y: int, k: int)
    ensures (y + k * 400) % 100 == y % 100
  {
    assert y + k * 400 == 100 * (y / 100 + 4 * k) + y % 100;
  }

  lemma ShiftMod400(y: int, k: int)
    ensures (y + k * 400) % 400 == y % 400
  {
    assert y + k * 400 == 400 * (y / 400 + k) + y % 400;
  }

  /** The day of the March-based year never exceeds that year's length. */
  lemma YearOfEraLength(doe: int)
    requires 0 <= doe < 146097
    ensures YearOfEra(doe).1 < MarchYearLength(YearOfEra(doe).0)
  {
    var cent := if doe / 36524 < 3 then doe / 36524 else 3;
    var doc := doe - 36524 * cent;
    var quad := doc / 1461;
    var doq := doc % 1461;
    var yq := if doq / 365 < 3 then doq / 365 else 3;
    assert YearOfEra(doe) == (100 * cent + 4 * quad + yq, doq - 365 * yq);
    assert doc == 1461 * quad + doq && 0 <= doq < 1461;
    LeapDayAt(cent, quad, yq, doc, doq - 365 * yq);
  }

  /** The day 365 of a March-based year, found by YearOfEra's steps, falls in
      a year followed by a leap year. */
  lemma LeapDayAt(c: int, q: int, r: int, doc: int, doy: int)
    requires 0 <= c <= 3 && 0 <= q && 0 <= r <= 3 && 0 <= doy <= 365 && (doy < 365 || r == 3)
    requires doc == 1461 * q + 365 * r + doy && doc <= 36524 && (doc < 36524 || c == 3)
    ensures doy < MarchYearLength(100 * c + 4 * q + r)
  {
    if doy == 365 {
      assert q <= 24 && (q < 24 || c == 3);
      assert IsLeapYear(100 * c + 4 * q + r + 1);
    }
  }

  /** YearOfEra reads back a year of the era and a day of that year. */
  lemma YearOfEraInverse(yoe: int, doy: int)
    requires 0 <= yoe < 400 && 0 <= doy < MarchYearLength(yoe)
    ensures 0 <= DayOfEra(yoe, doy) < 146097
    ensures YearOfEra(DayOfEra(yoe, doy)) == (yoe, doy)
  {
    var doe := DayOfEra(yoe, doy);
    var c, q, r := yoe / 100, (yoe % 100) / 4, yoe % 4;
    assert 0 <= c < 4 && 0 <= q < 25 && 0 <= r < 4 && yoe == 100 * c + 4 * q + r
           && doe == 36524 * c + 1461 * q + 365 * r + doy by {
      EraParts(yoe, doy);
    }
    assert doy == 365 ==> r == 3 && (q < 24 || c == 3) by {
      LeapDayPosition(yoe, doy);
    }
    YearOfEraAt(doe, c, q, r, doy);
  }

  /** YearOfEra on a day given as centuries, four-year cycles, years and
      days: the leap day closes a cycle, and the last cycle of a century
      only in the last century. */
  lemma YearOfEraAt(doe: int, c: int, q: int, r: int, doy: int)
    requires 0 <= c < 4 && 0 <= q < 25 && 0 <= r < 4 && 0 <= doy <= 365
    requires doy == 365 ==> r == 3 && (q < 24 || c == 3)
    requires doe == 36524 * c + 1461 * q + 365 * r + doy
    ensures 0 <= doe < 146097
    ensures YearOfEra(doe) == (100 * c + 4 * q + r, doy)
  {
    var cent := if doe / 36524 < 3 then doe / 36524 else 3;
    CenturyOf(doe, c);
    var doc := doe - 36524 * cent;
    QuadOf(doc, q, 365 * r + doy);
    var doq := doc % 1461;
    var yq := if doq / 365 < 3 then doq / 365 else 3;
    YearOfQuad(doq, r, doy);
    assert YearOfEra(doe) == (100 * cent + 4 * (doc / 1461) + yq, doq - 365 * yq);
  }

  /** A day of the era in centuries, four-year cycles, years and days. */
  lemma EraParts(yoe: int, doy: int)
    requires 0 <= yoe < 400
    ensures var c, q, r := yoe / 100, (yoe % 100) / 4, yoe % 4;
            && 0 <= c < 4 && 0 <= q < 25 && 0 <= r < 4 && yoe == 100 * c + 4 * q + r
            && DayOfEra(yoe, doy) == 36524 * c + 1461 * q + 365 * r + doy
  {
    var c, q, r := yoe / 100, (yoe % 100) / 4, yoe % 4;
    assert yoe == 100 * c + 4 * q + r;
    assert yoe / 4 == 25 * c + q;
  }

  /** A leap day ends the last year of a four-year cycle, and the last cycle
      of a century only in the era's last century. */
  lemma LeapDayPosition(yoe: int, doy: int)
    requires 0 <= yoe < 400 && 0 <= doy < MarchYearLength(yoe)
    ensures doy == 365 ==> yoe % 4 == 3 && ((yoe % 100) / 4 < 24 || yoe / 100 == 3)
  {
  }

  lemma CenturyOf(doe: int, c: int)
    requires 0 <= c <= 3 && 36524 * c <= doe && (doe < 36524 * c + 36524 || (c == 3 && doe < 146097))
    ensures (if doe / 36524 < 3 then doe / 36524 else 3) == c
  {
  }

  lemma QuadOf(doc: int, q: int, doq: int)
    requires 0 <= q && 0 <= doq < 1461 && doc == 1461 * q + doq
    ensures doc / 1461 == q && doc % 1461 == doq
  {
  }

  lemma YearOfQuad(doq: int, r: int, doy: int)
    requires 0 <= r <= 3 && 0 <= doy <= 365 && (doy < 365 || r == 3) && doq == 365 * r + doy
    ensures (if doq / 365 < 3 then doq / 365 else 3) == r
  {
  }

  /** The month and day of a day of a March-based year form a valid date of
      the calendar year they fall in. */
  lemma MonthAndDayValid(doy: int, y: int)
    requires 0 <= doy < MarchYearLength(y)
    ensures var md := MonthAndDay(doy);
            md.1 <= DaysInMonth(if md.0 <= 2 then y + 1 else y, md.0)
  {
  }

  /** MonthAndDay reads back the month and day of a valid date. */
  lemma MonthAndDayInverse(month: nat, day: nat, y: int)
    requires ValidDate(CivilDate(if month <= 2 then y + 1 else y, month, day))
    ensures 0 <= DayOfYear(month, day) < MarchYearLength(y)
    ensures MonthAndDay(DayOfYear(month, day)) == (month, day)
  {
  }

  /** The year as `toISOString` writes it: four digits for years 0 to 9999,
      otherwise a sign and six digits. */
  function YearText(year: int): (t: string)
    ensures |t| >= 4
    ensures 0 <= year <= 9999 <==> |t| == 4
  {
    if 0 <= year <= 9999 then
      assert Pow10(4) == 10000;
      PaddedFits(year, 4);
      PadStart(NatText(year), 4, '0')
    else (if year < 0 then "-" else "+") + PadStart(NatText(if year < 0 then -year else year), 6, '0')
  }

  /** The date part `toISOString` writes for a day, before it is cut. */
  function IsoText(c: CivilDate): string {
    YearText(c.year) + "-" + PadStart(NatText(c.month), 2, '0') + "-" + PadStart(NatText(c.day), 2, '0')
  }

  /** The `YYYY-MM-DD` text of a day: the first ten characters of the
      `toISOString` text (`toISOString().slice(0, 10)`). For years 0 to 9999
      that is the whole date; otherwise the year takes seven characters and
      the cut falls inside the month. */
  function IsoDate(days: int): (s: string)
    ensures |s| == 10
    ensures s == IsoText(CivilFromDays(days))[..10]
    ensures 0 <= CivilFromDays(days).year <= 9999 ==> s == IsoText(CivilFromDays(days))
  {
    var c := CivilFromDays(days);
    PaddedLength(c.month);
    PaddedLength(c.day);
    IsoText(c)[..10]
  }

  /** A month or a day (at most 31) pads to exactly two digits. */
  lemma PaddedLength(n: nat)
    requires n <= 31
    ensures |PadStart(NatText(n), 2, '0')| == 2
  {
    assert Pow10(2) == 100;
    PaddedFits(n, 2);
  }

  /** The date part of a receipt number: the ISO date with its dashes removed. */
  function CompactDate(days: int): (s: string)
    ensures '-' !in s
  {
    Without(IsoDate(days), '-')
  }

  /** For years 0 to 9999 the compact date is the eight digits YYYYMMDD. */
  lemma CompactDateDigits(days: int)
    ensures var c := CivilFromDays(days);
            var s := CompactDate(days);
            0 <= c.year <= 9999 ==>
              |s| == 8 && AllDigits(s) && DigitsValue(s) == c.year * 10000 + c.month * 100 + c.day
  {
    var c := CivilFromDays(days);
    if 0 <= c.year <= 9999 {
      var yy := PadStart(NatText(c.year), 4, '0');
      var mm := PadStart(NatText(c.month), 2, '0');
      var dd := PadStart(NatText(c.day), 2, '0');
      assert IsoDate(days) == yy + "-" + mm + "-" + dd;
      JoinedDigits(c.year, c.month, c.day);
    }
  }

  lemma JoinedDigits(year: nat, month: nat, day: nat)
    requires year <= 9999 && month <= 99 && day <= 99
    ensures var yy := PadStart(NatText(year), 4, '0');
            var mm := PadStart(NatText(month), 2, '0');
            var dd := PadStart(NatText(day), 2, '0');
            var s := Without(yy + "-" + mm + "-" + dd, '-');
            |s| == 8 && AllDigits(s) && DigitsValue(s) == year * 10000 + month * 100 + day
  {
    var yy := PadStart(NatText(year), 4, '0');
    var mm := PadStart(NatText(month), 2, '0');
    var dd := PadStart(NatText(day), 2, '0');
    assert Pow10(2) == 100 && Pow10(4) == 10000;
    PaddedFits(year, 4);
    PaddedFits(month, 2);
    PaddedFits(day, 2);
    DropDashes(yy, mm, dd);
    ThreeFieldValue(yy, mm, dd);
  }

  lemma ThreeFieldValue(a: string, b: string, c: string)
    requires AllDigits(a) && AllDigits(b) && AllDigits(c) && |b| == 2 && |c| == 2
    ensures AllDigits(a + b + c)
    ensures DigitsValue(a + b + c) == DigitsValue(a) * 10000 + DigitsValue(b) * 100 + DigitsValue(c)
  {
    assert Pow10(2) == 100;
    DigitsValueConcat(a, b);
    DigitsValueConcat(a + b, c);
  }

  lemma DropDashes(a: string, b: string, c: string)
    requires AllDigits(a) && AllDigits(b) && AllDigits(c)
    ensures Without(a + "-" + b + "-" + c, '-') == a + b + c
  {
    WithoutAroundSeparator(a + "-" + b, c, '-');
    WithoutAroundSeparator(a, b, '-');
    WithoutAbsent(a, '-');
    WithoutAbsent(b, '-');
    WithoutAbsent(c, '-');
  }
}
