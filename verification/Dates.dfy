/**
 Proleptic Gregorian calendar arithmetic: the day-number conversions and the
 offset arithmetic over them, held against the calendar itself.
 */
module Dates {
  // ----- the conversions

  /** The source's `/`, which truncates toward zero. */
  function Quotient(a: int, b: int): int
    requires b > 0
  {
    if a >= 0 then a / b else -((-a) / b)
  }

  datatype Civil = Civil(year: int, month: int, day: int)

  /** Days since 1970-01-01. */
  function DaysFromCivil(c: Civil): int {
    var y := if c.month <= 2 then c.year - 1 else c.year;
    var era := Quotient(if y >= 0 then y else y - 399, 400);
    var yoe := y - era * 400;
    var mp := (c.month + 9) % 12;
    var doy := (153 * mp + 2) / 5 + c.day - 1;
    var doe := yoe * 365 + yoe / 4 - yoe / 100 + doy;
    era * 146097 + doe - 719468
  }

  function CivilFromDays(days: int): Civil {
    var z := days + 719468;
    var era := Quotient(if z >= 0 then z else z - 146096, 146097);
    CivilInEra(era, z - era * 146097)
  }

  /** The date of day `doe` of a 400-year era. */
  function CivilInEra(era: int, doe: int): Civil {
    var yoe := (doe - doe / 1460 + doe / 36524 - doe / 146096) / 365;
    var doy := doe - (365 * yoe + yoe / 4 - yoe / 100);
    CivilInYear(yoe + era * 400, doy)
  }

  /** The date of day `doy` of the year starting in March of year `y`. */
  function CivilInYear(y: int, doy: int): Civil {
    var mp := (5 * doy + 2) / 153;
    var d := doy - (153 * mp + 2) / 5 + 1;
    var m := if mp < 10 then mp + 3 else mp - 9;
    Civil(if m <= 2 then y + 1 else y, m, d)
  }

  // ----- the calendar

  predicate Leap(year: int) {
    year % 4 == 0 && (year % 100 != 0 || year % 400 == 0)
  }

  function DaysIn(year: int, month: int): int
    requires 1 <= month <= 12
  {
    if month == 2 then (if Leap(year) then 29 else 28)
    else if month in {4, 6, 9, 11} then 30
    else 31
  }

  predicate Valid(c: Civil) {
    1 <= c.month <= 12 && 1 <= c.day <= DaysIn(c.year, c.month)
  }

  function Next(c: Civil): Civil
    requires Valid(c)
  {
    if c.day < DaysIn(c.year, c.month) then c.(day := c.day + 1)
    else if c.month < 12 then Civil(c.year, c.month + 1, 1)
    else Civil(c.year + 1, 1, 1)
  }

  predicate Earlier(a: Civil, b: Civil) {
    || a.year < b.year
    || (a.year == b.year && a.month < b.month)
    || (a.year == b.year && a.month == b.month && a.day < b.day)
  }

  // ----- inside one 400-year era of years starting in March

  /** Days from the start of an era to the start of its year `yoe`. */
  function YearStart(yoe: int): int {
    365 * yoe + yoe / 4 - yoe / 100
  }

  /** Days in year `yoe` of an era; its leap day, if it has one, is its last. */
  function YearLength(yoe: int): int {
    if (yoe + 1) % 4 == 0 && ((yoe + 1) % 100 != 0 || yoe == 399) then 366 else 365
  }

  /** Year `100c + 4q + r` of an era: whole centuries, whole leap cycles, and
      the years of the last cycle before this one. */
  lemma YearParts(c: int, q: int, r: int)
    requires 0 <= c < 4 && 0 <= q < 25 && 0 <= r < 4
    ensures YearStart(100 * c + 4 * q + r) == 36524 * c + 1461 * q + 365 * r
    ensures YearLength(100 * c + 4 * q + r) == (if r == 3 && (q < 24 || c == 3) then 366 else 365)
  {
    var yoe := 100 * c + 4 * q + r;
    assert yoe / 4 == 25 * c + q && yoe / 100 == c;
    assert (yoe + 1) % 4 == (r + 1) % 4;
    assert r == 3 ==> (yoe + 1) % 100 == (4 * q + 4) % 100;
  }

  lemma YearOfParts(c: int, q: int, r: int, doy: int)
    requires 0 <= c < 4 && 0 <= q < 25 && 0 <= r < 4
    requires 0 <= doy < (if r == 3 && (q < 24 || c == 3) then 366 else 365)
    ensures var doe := 36524 * c + 1461 * q + 365 * r + doy;
            && 0 <= doe < 146097
            && (doe - doe / 1460 + doe / 36524 - doe / 146096) / 365 == 100 * c + 4 * q + r
  {
    var doe := 36524 * c + 1461 * q + 365 * r + doy;
    var late := if 24 * c + q + 365 * r + doy >= 1460 then 1 else 0;
    assert doe / 1460 == 25 * c + q + late;
    assert doe - doe / 1460 + doe / 36524 - doe / 146096 == 365 * (100 * c + 4 * q + r) + doy - late;
    assert 0 <= doy - late < 365;
  }

  lemma YearOfDay(yoe: int, doy: int)
    requires 0 <= yoe < 400 && 0 <= doy < YearLength(yoe)
    ensures var doe := YearStart(yoe) + doy;
            && 0 <= doe < 146097
            && (doe - doe / 1460 + doe / 36524 - doe / 146096) / 365 == yoe
  {
    var c, q, r := yoe / 100, yoe % 100 / 4, yoe % 4;
    assert yoe == 100 * c + 4 * q + r;
    YearParts(c, q, r);
    YearOfParts(c, q, r, doy);
  }

  lemma DayHasYear(doe: int)
    requires 0 <= doe < 146097
    ensures var yoe := (doe - doe / 1460 + doe / 36524 - doe / 146096) / 365;
            0 <= yoe < 400 && 0 <= doe - YearStart(yoe) < YearLength(yoe)
  {
    var c := if doe == 146096 then 3 else doe / 36524;
    var inCentury := doe - 36524 * c;
    var q := inCentury / 1461;
    var inCycle := inCentury - 1461 * q;
    var r := if inCycle == 1460 then 3 else inCycle / 365;
    var doy := inCycle - 365 * r;
    YearParts(c, q, r);
    YearOfParts(c, q, r, doy);
  }

  lemma MonthOfDay(doy: int)
    requires 0 <= doy < 366
    ensures var mp := (5 * doy + 2) / 153;
            0 <= mp < 12 && (153 * mp + 2) / 5 <= doy < (153 * (mp + 1) + 2) / 5
  {
  }

  /** The months of a year starting in March, and the days before each. */
  lemma MonthStarts(mp: int, day: int)
    requires 0 <= mp < 12 && day >= 1
    requires day <= (if mp == 11 then 29 else if mp in {1, 3, 6, 8} then 30 else 31)
    ensures var doy := (153 * mp + 2) / 5 + day - 1;
            0 <= doy < 366 && (5 * doy + 2) / 153 == mp
    ensures mp < 11 ==>
              (153 * (mp + 1) + 2) / 5 - (153 * mp + 2) / 5 == (if mp in {1, 3, 6, 8} then 30 else 31)
  {
    MonthOfDay((153 * mp + 2) / 5 + day - 1);
  }

  // ----- mutual inverses

  /** The era, the year in it, the day of that year: the coordinates both
      conversions go through. */
  function Assemble(era: int, yoe: int, doy: int): int {
    era * 146097 + YearStart(yoe) + doy - 719468
  }

  /** A valid date's coordinates are in range, and its day number is theirs. */
  lemma DateParts(c: Civil) returns (era: int, yoe: int, mp: int, doy: int)
    requires Valid(c)
    ensures 0 <= yoe < 400 && 0 <= mp < 12 && 0 <= doy < YearLength(yoe)
    ensures era * 400 + yoe == (if c.month <= 2 then c.year - 1 else c.year)
    ensures mp == (c.month + 9) % 12 && doy == (153 * mp + 2) / 5 + c.day - 1
    ensures (5 * doy + 2) / 153 == mp
    ensures DaysFromCivil(c) == Assemble(era, yoe, doy)
  {
    var y := if c.month <= 2 then c.year - 1 else c.year;
    era := Quotient(if y >= 0 then y else y - 399, 400);
    yoe := y - era * 400;
    mp := (c.month + 9) % 12;
    doy := (153 * mp + 2) / 5 + c.day - 1;
    MonthStarts(mp, c.day);
    if c.month == 2 && c.day == 29 {
      assert Leap(c.year);
      assert yoe + 1 == c.year - era * 400;
      LeapPeriod(c.year, era);
    }
  }

  lemma LeapPeriod(year: int, era: int)
    ensures Leap(year) <==> Leap(year - era * 400)
  {
    var rest := year - era * 400;
    Mod4(rest, 100 * era);
    Mod100(rest, 4 * era);
    Mod400(rest, era);
  }

  lemma Mod4(a: int, k: int)
    ensures (a + 4 * k) % 4 == a % 4
  {
  }

  lemma Mod100(a: int, k: int)
    ensures (a + 100 * k) % 100 == a % 100
  {
  }

  lemma Mod400(a: int, k: int)
    ensures (a + 400 * k) % 400 == a % 400
  {
  }

  /** Taking coordinates apart gives them back. */
  lemma Disassemble(era: int, yoe: int, doy: int)
    requires 0 <= yoe < 400 && 0 <= doy < YearLength(yoe)
    ensures CivilFromDays(Assemble(era, yoe, doy)) == CivilInYear(yoe + era * 400, doy)
  {
    hide CivilInEra, CivilInYear;
    YearOfDay(yoe, doy);
    EraOf(era, YearStart(yoe) + doy);
    InEra(era, yoe, doy);
  }

  lemma InEra(era: int, yoe: int, doy: int)
    requires 0 <= yoe < 400 && 0 <= doy < YearLength(yoe)
    ensures CivilInEra(era, YearStart(yoe) + doy) == CivilInYear(yoe + era * 400, doy)
  {
    YearOfDay(yoe, doy);
  }

  lemma EraOf(era: int, doe: int)
    requires 0 <= doe < 146097
    ensures var z := era * 146097 + doe;
            Quotient(if z >= 0 then z else z - 146096, 146097) == era
  {
  }

  /** A date's number leads back to the date, for every date there is. */
  lemma DateRoundTrip(c: Civil)
    requires Valid(c)
    ensures CivilFromDays(DaysFromCivil(c)) == c
  {
    var era, yoe, mp, doy := DateParts(c);
    Disassemble(era, yoe, doy);
    SameDate(c, yoe + era * 400, mp, doy);
  }

  lemma SameDate(c: Civil, y: int, mp: int, doy: int)
    requires 1 <= c.month <= 12 && y == (if c.month <= 2 then c.year - 1 else c.year)
    requires mp == (c.month + 9) % 12 && doy == (153 * mp + 2) / 5 + c.day - 1 && (5 * doy + 2) / 153 == mp
    ensures CivilInYear(y, doy) == c
  {
  }

  /** The coordinates of a day number. */
  lemma DayParts(days: int) returns (era: int, yoe: int, doy: int)
    ensures 0 <= yoe < 400 && 0 <= doy < YearLength(yoe)
    ensures days == Assemble(era, yoe, doy)
  {
    var z := days + 719468;
    era := z / 146097;
    var doe := z - era * 146097;
    DayHasYear(doe);
    yoe := (doe - doe / 1460 + doe / 36524 - doe / 146096) / 365;
    doy := doe - YearStart(yoe);
  }

  /** Coordinates in range name a date on the calendar, in that March year. */
  lemma PartsAreValid(era: int, yoe: int, doy: int)
    requires 0 <= yoe < 400 && 0 <= doy < YearLength(yoe)
    ensures var c := CivilInYear(yoe + era * 400, doy);
            && Valid(c)
            && (c.month + 9) % 12 == (5 * doy + 2) / 153
            && (if c.month <= 2 then c.year - 1 else c.year) == yoe + era * 400
            && c.day == doy - (153 * ((5 * doy + 2) / 153) + 2) / 5 + 1
  {
    MonthOfDay(doy);
    var mp := (5 * doy + 2) / 153;
    var c := CivilInYear(yoe + era * 400, doy);
    if mp == 11 {
      LeapPeriod(c.year, era);
      LeapLength(yoe);
      assert c.year - era * 400 == yoe + 1;
    } else {
      MonthLengths(mp);
    }
  }

  lemma LeapLength(yoe: int)
    requires 0 <= yoe < 400
    ensures YearLength(yoe) == (if Leap(yoe + 1) then 366 else 365)
  {
  }

  /** Coordinates are unique. */
  lemma SameParts(e: int, y: int, e': int, y': int)
    requires 0 <= y < 400 && 0 <= y' < 400 && e * 400 + y == e' * 400 + y'
    ensures e == e' && y == y'
  {
  }

  /** Every day number, before the epoch as after it, is a date on the calendar
      and leads back to itself. */
  lemma DayRoundTrip(days: int)
    ensures Valid(CivilFromDays(days)) && DaysFromCivil(CivilFromDays(days)) == days
  {
    var era, yoe, doy := DayParts(days);
    Disassemble(era, yoe, doy);
    var c := CivilFromDays(days);
    PartsAreValid(era, yoe, doy);
    var era', yoe', mp', doy' := DateParts(c);
    SameParts(era, yoe, era', yoe');
  }

  lemma MonthLengths(mp: int)
    requires 0 <= mp < 11
    ensures (153 * (mp + 1) + 2) / 5 - (153 * mp + 2) / 5 == (if mp in {1, 3, 6, 8} then 30 else 31)
  {
  }

  // ----- one day on the calendar is one day number

  lemma YearStep(yoe: int)
    requires 0 <= yoe < 400
    ensures YearStart(yoe) + YearLength(yoe) == (if yoe == 399 then 146097 else YearStart(yoe + 1))
  {
    var c, q, r := yoe / 100, yoe % 100 / 4, yoe % 4;
    assert yoe == 100 * c + 4 * q + r;
    YearParts(c, q, r);
    if r < 3 {
      YearParts(c, q, r + 1);
    } else if q < 24 {
      YearParts(c, q + 1, 0);
    } else if c < 3 {
      YearParts(c + 1, 0, 0);
    }
  }

  /** Where the next day's coordinates lie. */
  lemma NextParts(c: Civil, era: int, yoe: int, mp: int, doy: int, era': int, yoe': int, mp': int, doy': int)
    requires Valid(c) && Valid(Next(c))
    requires 0 <= yoe < 400 && 0 <= yoe' < 400 && 0 <= doy < YearLength(yoe)
    requires era * 400 + yoe == (if c.month <= 2 then c.year - 1 else c.year)
    requires era' * 400 + yoe' == (if Next(c).month <= 2 then Next(c).year - 1 else Next(c).year)
    requires mp == (c.month + 9) % 12 && doy == (153 * mp + 2) / 5 + c.day - 1
    requires mp' == (Next(c).month + 9) % 12 && doy' == (153 * mp' + 2) / 5 + Next(c).day - 1
    ensures Assemble(era', yoe', doy') == Assemble(era, yoe, doy) + 1
  {
    if c.day < DaysIn(c.year, c.month) {
      SameParts(era, yoe, era', yoe');
    } else if c.month == 2 {
      YearStep(yoe);
      LeapPeriod(c.year, era);
      LeapLength(yoe);
      assert c.year - era * 400 == yoe + 1;
      if yoe == 399 {
        SameParts(era + 1, 0, era', yoe');
      } else {
        SameParts(era, yoe + 1, era', yoe');
      }
    } else {
      SameParts(era, yoe, era', yoe');
      MonthSteps(c, mp, mp');
      MonthLengths(mp);
    }
  }

  lemma NextIsOneMore(c: Civil)
    requires Valid(c)
    ensures Valid(Next(c)) && DaysFromCivil(Next(c)) == DaysFromCivil(c) + 1
  {
    assert Valid(Next(c));
    var era, yoe, mp, doy := DateParts(c);
    var era', yoe', mp', doy' := DateParts(Next(c));
    NextParts(c, era, yoe, mp, doy, era', yoe', mp', doy');
  }

  lemma MonthSteps(c: Civil, mp: int, mp': int)
    requires Valid(c) && c.month != 2 && c.day == DaysIn(c.year, c.month)
    requires mp == (c.month + 9) % 12 && mp' == (Next(c).month + 9) % 12
    ensures mp' == mp + 1 && c.day == (if mp in {1, 3, 6, 8} then 30 else 31)
  {
  }

  lemma EpochIsZero()
    ensures CivilFromDays(0) == Civil(1970, 1, 1)
  {
  }

  /** The number after a date's number is the next date's: with 0 for
      1970-01-01, this is the whole calendar in both directions. */
  lemma CivilFromDaysSteps(days: int)
    ensures Valid(CivilFromDays(days))
    ensures CivilFromDays(days + 1) == Next(CivilFromDays(days))
  {
    DayRoundTrip(days);
    var c := CivilFromDays(days);
    Successor(c, days);
  }

  lemma Successor(c: Civil, days: int)
    requires Valid(c) && DaysFromCivil(c) == days
    ensures CivilFromDays(days + 1) == Next(c)
  {
    NextIsOneMore(c);
    DateOfNumber(Next(c), days + 1);
  }

  lemma DateOfNumber(c: Civil, n: int)
    requires Valid(c) && DaysFromCivil(c) == n
    ensures CivilFromDays(n) == c
  {
    DateRoundTrip(c);
    var m := DaysFromCivil(c);
    assert m == n;
    assert CivilFromDays(m) == c;
  }

  lemma {:induction false} LaterNumbersAreLaterDates(a: int, b: int)
    requires a < b
    ensures Earlier(CivilFromDays(a), CivilFromDays(b))
    decreases b - a
  {
    CivilFromDaysSteps(b - 1);
    NextIsLater(CivilFromDays(b - 1));
    if a < b - 1 {
      LaterNumbersAreLaterDates(a, b - 1);
      EarlierIsTransitive(CivilFromDays(a), CivilFromDays(b - 1), CivilFromDays(b));
    }
  }

  lemma NextIsLater(c: Civil)
    requires Valid(c)
    ensures Earlier(c, Next(c))
  {
  }

  lemma EarlierIsTransitive(a: Civil, b: Civil, c: Civil)
    requires Earlier(a, b) && Earlier(b, c)
    ensures Earlier(a, c)
  {
  }

  // ----- minutes from the base

  datatype Moment = Moment(date: Civil, hour: int, minute: int)

  /** 2024-01-01T00:00 plus `offset` minutes; the day offset is Euclidean. */
  function FromBasePlusMinutes(offset: int): Moment {
    MomentOf(DaysFromCivil(Civil(2024, 1, 1)) + offset / 1440, offset % 1440)
  }

  function MomentOf(day: int, minuteOfDay: int): Moment {
    Moment(CivilFromDays(day), minuteOfDay / 60, minuteOfDay % 60)
  }

  predicate Sooner(a: Moment, b: Moment) {
    || Earlier(a.date, b.date)
    || (a.date == b.date && a.hour < b.hour)
    || (a.date == b.date && a.hour == b.hour && a.minute < b.minute)
  }

  /** Every offset, negative ones included, names a moment of a day on the
      calendar, and the offset is recovered from it. */
  lemma MomentsAreOnTheClock(offset: int)
    ensures var m := FromBasePlusMinutes(offset);
            && Valid(m.date) && 0 <= m.hour < 24 && 0 <= m.minute < 60
            && offset == (DaysFromCivil(m.date) - DaysFromCivil(Civil(2024, 1, 1))) * 1440 + m.hour * 60 + m.minute
  {
    DayRoundTrip(DaysFromCivil(Civil(2024, 1, 1)) + offset / 1440);
  }

  lemma MomentsInOrder(d: int, m: int, e: int, n: int)
    requires d < e || (d == e && 0 <= m < n)
    ensures Sooner(MomentOf(d, m), MomentOf(e, n))
  {
    if d < e {
      LaterNumbersAreLaterDates(d, e);
    }
  }

  lemma OffsetsInOrder(base: int, a: int, b: int)
    requires a < b
    ensures Sooner(MomentOf(base + a / 1440, a % 1440), MomentOf(base + b / 1440, b % 1440))
  {
    hide CivilFromDays;
    assert a / 1440 < b / 1440 || (a / 1440 == b / 1440 && a % 1440 < b % 1440);
    MomentsInOrder(base + a / 1440, a % 1440, base + b / 1440, b % 1440);
  }

  /** A later offset is a later moment. */
  lemma LaterOffsetsAreLaterMoments(a: int, b: int)
    requires a < b
    ensures Sooner(FromBasePlusMinutes(a), FromBasePlusMinutes(b))
  {
    hide CivilFromDays, DaysFromCivil;
    OffsetsInOrder(DaysFromCivil(Civil(2024, 1, 1)), a, b);
  }
}
