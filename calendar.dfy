/**
 * Local wall-clock time as the scheduler sees it through JavaScript `Date` and date-fns.
 *
 * A time is an integer number of milliseconds since 1970-01-01 00:00 local time; there is
 * no daylight-saving shift, so every day has exactly 86 400 000 ms. Days are numbered from
 * 1970-01-01 (a Thursday) and converted to proleptic Gregorian (year, month, day) by a
 * closed-form decomposition into 400-year eras, centuries, 4-year cycles and March-based
 * years, whose two round trips are proved below.
 */
module Calendar {

  const MsPerSecond: int := 1000
  const MsPerMinute: int := 60000
  const MsPerHour: int := 3600000
  const MsPerDay: int := 86400000

  type Time = int

  // ---------------------------------------------------------------------------------------
  // Time of day

  function DayNumber(t: Time): int { t / MsPerDay }

  function TimeInDay(t: Time): (r: int)
    ensures 0 <= r < MsPerDay
  {
    t % MsPerDay
  }

  /** `getHours()`. */
  function Hours(t: Time): (h: int)
    ensures 0 <= h < 24
  {
    TimeInDay(t) / MsPerHour
  }

  /** `getMinutes()`. */
  function Minutes(t: Time): (m: int)
    ensures 0 <= m < 60
  {
    TimeInDay(t) % MsPerHour / MsPerMinute
  }

  /** `getSeconds()`. */
  function Seconds(t: Time): (s: int)
    ensures 0 <= s < 60
  {
    TimeInDay(t) % MsPerMinute / MsPerSecond
  }

  /** `getMilliseconds()`. */
  function Milliseconds(t: Time): (ms: int)
    ensures 0 <= ms < 1000
  {
    TimeInDay(t) % MsPerSecond
  }

  /**
   * JavaScript's MakeTime on a day number: out-of-range fields carry into the next unit,
   * exactly as `setHours(25, 0)` moves to 01:00 of the following day.
   */
  function MakeTime(day: int, h: int, m: int, s: int, ms: int): Time
  {
    day * MsPerDay + h * MsPerHour + m * MsPerMinute + s * MsPerSecond + ms
  }

  /** In-range fields are read back unchanged. */
  lemma MakeTimeFields(day: int, h: int, m: int, s: int, ms: int)
    requires 0 <= h < 24 && 0 <= m < 60 && 0 <= s < 60 && 0 <= ms < 1000
    ensures var t := MakeTime(day, h, m, s, ms);
      DayNumber(t) == day && Hours(t) == h && Minutes(t) == m &&
      Seconds(t) == s && Milliseconds(t) == ms
  {
    var r2 := s * MsPerSecond + ms;
    var r1 := m * MsPerMinute + r2;
    var r := h * MsPerHour + r1;
    var t := MakeTime(day, h, m, s, ms);
    assert 0 <= r2 < MsPerMinute && 0 <= r1 < MsPerHour && 0 <= r < MsPerDay;
    DivMod(t, MsPerDay, day, r);
    DivMod(r, MsPerHour, h, r1);
    DivMod(r1, MsPerMinute, m, r2);
    DivMod(r2, MsPerSecond, s, ms);
    DivMod(r, MsPerMinute, 60 * h + m, r2);
    DivMod(r, MsPerSecond, 3600 * h + 60 * m + s, ms);
  }

  /** A time is its day start plus its hour, minute, second and millisecond fields. */
  lemma TimeFields(t: Time)
    ensures t == MakeTime(DayNumber(t), Hours(t), Minutes(t), Seconds(t), Milliseconds(t))
  {
    var r := TimeInDay(t);
    assert t == DayNumber(t) * MsPerDay + r;
    assert r == Hours(t) * MsPerHour + r % MsPerHour;
    assert r % MsPerHour == Minutes(t) * MsPerMinute + r % MsPerHour % MsPerMinute;
    assert r % MsPerHour % MsPerMinute == r % MsPerMinute;
    assert r % MsPerMinute == Seconds(t) * MsPerSecond + r % MsPerMinute % MsPerSecond;
    assert r % MsPerMinute % MsPerSecond == Milliseconds(t);
  }

  function StartOfDay(t: Time): Time { DayNumber(t) * MsPerDay }

  /** `date-fns addDays`: the same wall-clock time `n` days later. */
  function AddDays(t: Time, n: int): Time { t + n * MsPerDay }

  lemma AddDaysFields(t: Time, n: int)
    ensures DayNumber(AddDays(t, n)) == DayNumber(t) + n
    ensures TimeInDay(AddDays(t, n)) == TimeInDay(t)
  {
    assert t == MsPerDay * DayNumber(t) + TimeInDay(t);
    DivMod(t + n * MsPerDay, MsPerDay, DayNumber(t) + n, TimeInDay(t));
  }

  /** `setHours(h, m, s, ms)`: keeps the day, replaces the time of day. */
  function SetHours(t: Time, h: int, m: int, s: int, ms: int): Time
  {
    MakeTime(DayNumber(t), h, m, s, ms)
  }

  /** `getDay()`: 0 is Sunday, 1 Monday, ..., 6 Saturday (1970-01-01 was a Thursday). */
  function Weekday(t: Time): (w: int)
    ensures 0 <= w < 7
  {
    (DayNumber(t) + 4) % 7
  }

  /** `date-fns isSameDay`. */
  predicate SameDay(a: Time, b: Time) { DayNumber(a) == DayNumber(b) }

  // ---------------------------------------------------------------------------------------
  // Gregorian calendar

  datatype Civil = Civil(year: int, month: int, day: int)

  predicate IsLeapYear(y: int) { y % 4 == 0 && (y % 100 != 0 || y % 400 == 0) }

  function MonthLength(y: int, m: int): (n: int)
    requires 1 <= m <= 12
    ensures 28 <= n <= 31
  {
    if m == 2 then (if IsLeapYear(y) then 29 else 28)
    else if m == 4 || m == 6 || m == 9 || m == 11 then 30
    else 31
  }

  predicate ValidCivil(c: Civil)
  {
    1 <= c.month <= 12 && 1 <= c.day <= MonthLength(c.year, c.month)
  }

  // Inside a 400-year era, years run from March to February, so that the leap day is the
  // last day of its year. `yoe` is the year of era, `doe` the day of era, `doy` the day of
  // that year and `mp` the month counted from March.

  function YoeStart(yoe: int): int { 365 * yoe + yoe / 4 - yoe / 100 }

  predicate LongYoe(yoe: int) { yoe % 4 == 3 && (yoe % 100 != 99 || yoe == 399) }

  function YoeLength(yoe: int): int { if LongYoe(yoe) then 366 else 365 }

  function Min(a: int, b: int): int { if a < b then a else b }

  /** Euclidean division is unique: a quotient/remainder witness is the quotient/remainder. */
  lemma DivMod(a: int, n: int, q: int, r: int)
    requires n > 0 && a == n * q + r && 0 <= r < n
    ensures a / n == q && a % n == r
  {
    var q', r' := a / n, a % n;
    assert n * (q - q') == r' - r;
    if q > q' {
      MulAtLeast(n, q - q');
    } else if q < q' {
      MulAtLeast(n, q' - q);
    }
  }

  lemma MulAtLeast(n: int, k: int)
    requires n > 0 && k >= 1
    ensures n * k >= n
  {
    assert n * k == n + n * (k - 1);
  }

  function YoeOf(doe: int): int
    requires 0 <= doe < 146097
  {
    var c := Min(doe / 36524, 3);
    var rc := doe - 36524 * c;
    var q := rc / 1461;
    var rq := rc - 1461 * q;
    100 * c + 4 * q + Min(rq / 365, 3)
  }

  /** Year-of-era start in terms of its century, 4-year cycle and year within the cycle. */
  lemma YoeStartParts(yoe: int, c: int, q: int, r: int)
    requires 0 <= c && 0 <= q < 25 && 0 <= r < 4 && yoe == 100 * c + 4 * q + r
    ensures YoeStart(yoe) == 36524 * c + 1461 * q + 365 * r
    ensures yoe % 4 == r && (yoe % 100 == 99 <==> q == 24 && r == 3)
  {
    DivMod(yoe, 4, 25 * c + q, r);
    DivMod(yoe, 100, c, 4 * q + r);
  }

  /** The three steps of `YoeOf`, each pinned down by a quotient/remainder witness. */
  lemma CenturyOf(doe: int, c: int, rest: int)
    requires doe == 36524 * c + rest && 0 <= c < 4 && 0 <= rest
    requires rest < 36524 || (c == 3 && rest == 36524)
    ensures Min(doe / 36524, 3) == c
  {
    if rest < 36524 {
      DivMod(doe, 36524, c, rest);
    } else {
      DivMod(doe, 36524, 4, 0);
    }
  }

  lemma YearOfCycle(rq: int, r: int, d: int)
    requires rq == 365 * r + d && 0 <= r < 4 && 0 <= d
    requires d < 365 || (r == 3 && d == 365)
    ensures Min(rq / 365, 3) == r
  {
    if d < 365 {
      DivMod(rq, 365, r, d);
    } else {
      DivMod(rq, 365, 4, 0);
    }
  }

  lemma YoeOfWitness(doe: int, c: int, q: int, r: int)
    requires 0 <= doe < 146097
    requires Min(doe / 36524, 3) == c
    requires (doe - 36524 * c) / 1461 == q
    requires Min((doe - 36524 * c - 1461 * q) / 365, 3) == r
    ensures YoeOf(doe) == 100 * c + 4 * q + r
  {
  }

  lemma YoeOfBounds(doe: int)
    requires 0 <= doe < 146097
    ensures var yoe := YoeOf(doe);
      0 <= yoe < 400 && YoeStart(yoe) <= doe < YoeStart(yoe) + YoeLength(yoe)
  {
    var c := Min(doe / 36524, 3);
    var rc := doe - 36524 * c;
    var q := rc / 1461;
    var rq := rc - 1461 * q;
    var r := Min(rq / 365, 3);
    YoeOfWitness(doe, c, q, r);
    YoeOfBoundsParts(doe, c, q, r);
  }

  lemma YoeOfBoundsParts(doe: int, c: int, q: int, r: int)
    requires 0 <= doe < 146097
    requires c == Min(doe / 36524, 3)
    requires q == (doe - 36524 * c) / 1461
    requires r == Min((doe - 36524 * c - 1461 * q) / 365, 3)
    ensures var yoe := 100 * c + 4 * q + r;
      0 <= yoe < 400 && YoeStart(yoe) <= doe < YoeStart(yoe) + YoeLength(yoe)
  {
    var rc := doe - 36524 * c;
    assert 0 <= rc < 36525;
    var rq := rc - 1461 * q;
    assert 0 <= q < 25 && 0 <= rq < 1461;
    assert 0 <= r < 4 && 0 <= rq - 365 * r < 366;
    YoeStartParts(100 * c + 4 * q + r, c, q, r);
  }

  lemma YoeDigits(yoe: int) returns (c: int, q: int, r: int)
    requires 0 <= yoe < 400
    ensures 0 <= c < 4 && 0 <= q < 25 && 0 <= r < 4 && yoe == 100 * c + 4 * q + r
  {
    c, q, r := yoe / 100, (yoe % 100) / 4, yoe % 4;
  }

  lemma YoeOfStart(yoe: int, doy: int)
    requires 0 <= yoe < 400 && 0 <= doy < YoeLength(yoe)
    ensures YoeOf(YoeStart(yoe) + doy) == yoe
  {
    var c, q, r := YoeDigits(yoe);
    YoeStartParts(yoe, c, q, r);
    YoeOfParts(c, q, r, doy);
  }

  lemma YoeOfParts(c: int, q: int, r: int, doy: int)
    requires 0 <= c < 4 && 0 <= q < 25 && 0 <= r < 4 && 0 <= doy
    requires doy < 365 || (r == 3 && doy == 365 && (q != 24 || c == 3))
    ensures YoeOf(36524 * c + 1461 * q + 365 * r + doy) == 100 * c + 4 * q + r
  {
    var doe := 36524 * c + 1461 * q + 365 * r + doy;
    CenturyOf(doe, c, 1461 * q + 365 * r + doy);
    DivMod(doe - 36524 * c, 1461, q, 365 * r + doy);
    YearOfCycle(doe - 36524 * c - 1461 * q, r, doy);
    YoeOfWitness(doe, c, q, r);
  }




  lemma YoeStartLast()
    ensures YoeStart(399) + YoeLength(399) == 146097
  {
  }

  lemma YoeStartMonotone(yoe: int)
    requires 0 <= yoe < 400
    ensures 0 <= YoeStart(yoe) && YoeStart(yoe) + YoeLength(yoe) <= 146097
  {
    var c, q, r := yoe / 100, (yoe % 100) / 4, yoe % 4;
    assert yoe == 100 * c + 4 * q + r;
    assert yoe / 4 == 25 * c + q;
    assert YoeStart(yoe) == 36524 * c + 1461 * q + 365 * r;
  }

  /** Days from 1 March to the first day of month `mp` (0 = March, ..., 11 = February). */
  function MonthStart(mp: int): int { (153 * mp + 2) / 5 }

  function MpOf(doy: int): int { (5 * doy + 2) / 153 }

  lemma MpOfBounds(doy: int)
    requires 0 <= doy < 366
    ensures var mp := MpOf(doy); 0 <= mp < 12 && MonthStart(mp) <= doy < MonthStart(mp + 1)
  {
  }

  lemma MpOfStart(mp: int, d: int)
    requires 0 <= mp < 12 && 0 <= d < MonthStart(mp + 1) - MonthStart(mp)
    ensures MpOf(MonthStart(mp) + d) == mp
  {
  }

  function MonthFromMp(mp: int): int { if mp < 10 then mp + 3 else mp - 9 }

  function MpFromMonth(m: int): int { if m > 2 then m - 3 else m + 9 }

  /** Leap years follow the era's long years: a long March-based year ends in a 29 February. */
  lemma LeapOfYoe(era: int, yoe: int)
    requires 0 <= yoe < 400
    ensures IsLeapYear(yoe + 400 * era + 1) <==> LongYoe(yoe)
  {
    var a := yoe + 1;
    DivMod(a + 400 * era, 4, a / 4 + 100 * era, a % 4);
    DivMod(a + 400 * era, 100, a / 100 + 4 * era, a % 100);
    DivMod(a + 400 * era, 400, a / 400 + era, a % 400);
  }

  /** The length of March-based month `mp` of year of era `yoe`, as a calendar month. */
  lemma MonthLengthOfMp(era: int, yoe: int, mp: int)
    requires 0 <= yoe < 400 && 0 <= mp < 12
    ensures var m := MonthFromMp(mp);
      var y := yoe + 400 * era + (if m <= 2 then 1 else 0);
      MonthLength(y, m) == (if mp == 11 then YoeLength(yoe) - 337 else MonthStart(mp + 1) - MonthStart(mp))
  {
    if mp == 11 {
      LeapOfYoe(era, yoe);
    } else {
      MonthStartTable(mp);
    }
  }

  lemma MonthStartTable(mp: int)
    requires 0 <= mp < 11
    ensures MonthStart(mp + 1) - MonthStart(mp) == MonthLength(0, MonthFromMp(mp))
  {
    if mp == 0 {} else if mp == 1 {} else if mp == 2 {} else if mp == 3 {} else if mp == 4 {}
    else if mp == 5 {} else if mp == 6 {} else if mp == 7 {} else if mp == 8 {} else if mp == 9 {}
    else {}
  }

  /** Day number of a calendar date; `d` may run past the month, as in JavaScript. */
  function DaysFromCivil(y: int, m: int, d: int): int
    requires 1 <= m <= 12
  {
    var y' := if m <= 2 then y - 1 else y;
    var era := y' / 400;
    var yoe := y' - era * 400;
    var doy := MonthStart(MpFromMonth(m)) + d - 1;
    era * 146097 + YoeStart(yoe) + doy - 719468
  }

  function CivilFromDays(z: int): Civil
  {
    CivilOfDoe((z + 719468) / 146097, (z + 719468) % 146097)
  }

  /** The date of day `doe` of era `era`. */
  function CivilOfDoe(era: int, doe: int): Civil
    requires 0 <= doe < 146097
  {
    var yoe := YoeOf(doe);
    var doy := doe - YoeStart(yoe);
    var mp := MpOf(doy);
    var m := MonthFromMp(mp);
    Civil(yoe + era * 400 + (if m <= 2 then 1 else 0), m, doy - MonthStart(mp) + 1)
  }

  /** `CivilFromDays` once its era and day of era are known. */
  lemma CivilFromDaysEra(z: int, era: int, doe: int)
    requires (z + 719468) / 146097 == era && (z + 719468) % 146097 == doe
    ensures CivilFromDays(z) == CivilOfDoe(era, doe)
  {
  }

  /** Each day of an era is a valid date, whose day number is that day. */
  lemma DoeValid(era: int, doe: int)
    requires 0 <= doe < 146097
    ensures var c := CivilOfDoe(era, doe);
      ValidCivil(c) && DaysFromCivil(c.year, c.month, c.day) == era * 146097 + doe - 719468
  {
    var yoe := YoeOf(doe);
    YoeOfBounds(doe);
    var doy := doe - YoeStart(yoe);
    MpOfBounds(doy);
    var mp := MpOf(doy);
    DoeOfYoe(era, doe, yoe, doy, mp);
    PartsValid(era, yoe, doy, mp);
  }

  /** In-range parts make a valid date, whose day number is the one the parts describe. */
  lemma PartsValid(era: int, yoe: int, doy: int, mp: int)
    requires 0 <= yoe < 400 && 0 <= doy < YoeLength(yoe)
    requires 0 <= mp < 12 && MonthStart(mp) <= doy < MonthStart(mp + 1)
    ensures var m := MonthFromMp(mp);
      var y := yoe + era * 400 + (if m <= 2 then 1 else 0);
      ValidCivil(Civil(y, m, doy - MonthStart(mp) + 1)) &&
      DaysFromCivil(y, m, doy - MonthStart(mp) + 1) == era * 146097 + YoeStart(yoe) + doy - 719468
  {
    var m := MonthFromMp(mp);
    var y := yoe + era * 400 + (if m <= 2 then 1 else 0);
    MonthLengthOfMp(era, yoe, mp);
    assert MpFromMonth(m) == mp;
    DaysFromCivilParts(y, m, doy - MonthStart(mp) + 1, era, yoe);
  }

  /** Every day number names a valid date, and that date names it back. */
  lemma CivilRoundTrip(z: int)
    ensures ValidCivil(CivilFromDays(z))
    ensures var c := CivilFromDays(z); DaysFromCivil(c.year, c.month, c.day) == z
  {
    var era, doe := (z + 719468) / 146097, (z + 719468) % 146097;
    CivilFromDaysEra(z, era, doe);
    DoeValid(era, doe);
  }

  /** A valid date's era, year of era, day of year and March-based month. */
  lemma CivilSplit(c: Civil) returns (era: int, yoe: int, doy: int, mp: int)
    requires ValidCivil(c)
    ensures 0 <= yoe < 400 && 0 <= doy < YoeLength(yoe)
    ensures 0 <= mp < 12 && MonthStart(mp) <= doy < MonthStart(mp + 1)
    ensures DaysFromCivil(c.year, c.month, c.day) + 719468 == era * 146097 + YoeStart(yoe) + doy
    ensures var m := MonthFromMp(mp);
      c == Civil(yoe + era * 400 + (if m <= 2 then 1 else 0), m, doy - MonthStart(mp) + 1)
  {
    var m := c.month;
    var y' := if m <= 2 then c.year - 1 else c.year;
    era := y' / 400;
    yoe := y' - era * 400;
    mp := MpFromMonth(m);
    assert MonthFromMp(mp) == m;
    MonthLengthOfMp(era, yoe, mp);
    doy := MonthStart(mp) + c.day - 1;
    DaysFromCivilParts(c.year, m, c.day, era, yoe);
  }

  /** Day `doe` of an era, split as day `doy` of year `yoe`, as a date. */
  lemma DoeOfYoe(era: int, doe: int, yoe: int, doy: int, mp: int)
    requires 0 <= yoe < 400 && 0 <= doy < YoeLength(yoe) && doe == YoeStart(yoe) + doy
    requires 0 <= mp < 12 && MonthStart(mp) <= doy < MonthStart(mp + 1)
    ensures 0 <= doe < 146097
    ensures var m := MonthFromMp(mp);
      CivilOfDoe(era, doe) == Civil(yoe + era * 400 + (if m <= 2 then 1 else 0), m, doy - MonthStart(mp) + 1)
  {
    YoeStartMonotone(yoe);
    YoeOfStart(yoe, doy);
    assert doe - YoeStart(YoeOf(doe)) == doy;
    MpOfStart(mp, doy - MonthStart(mp));
  }

  /** The era and day of era of a valid date's day number, which name that date back. */
  lemma CivilDoe(c: Civil) returns (era: int, doe: int)
    requires ValidCivil(c)
    ensures var z := DaysFromCivil(c.year, c.month, c.day);
      (z + 719468) / 146097 == era && (z + 719468) % 146097 == doe
    ensures 0 <= doe < 146097 && CivilOfDoe(era, doe) == c
  {
    var yoe, doy, mp;
    era, yoe, doy, mp := CivilSplit(c);
    doe := YoeStart(yoe) + doy;
    DoeOfYoe(era, doe, yoe, doy, mp);
    DivMod(DaysFromCivil(c.year, c.month, c.day) + 719468, 146097, era, doe);
  }

  /** Every valid date is named back by its day number. */
  lemma DaysRoundTrip(c: Civil)
    requires ValidCivil(c)
    ensures CivilFromDays(DaysFromCivil(c.year, c.month, c.day)) == c
  {
    var era, doe := CivilDoe(c);
    CivilFromDaysEra(DaysFromCivil(c.year, c.month, c.day), era, doe);
  }

  /** `DaysFromCivil` through any era/year-of-era split of its March-based year. */
  lemma DaysFromCivilParts(y: int, m: int, d: int, era: int, yoe: int)
    requires 1 <= m <= 12 && 0 <= yoe < 400
    requires (if m <= 2 then y - 1 else y) == 400 * era + yoe
    ensures DaysFromCivil(y, m, d) == era * 146097 + YoeStart(yoe) + MonthStart(MpFromMonth(m)) + d - 1 - 719468
  {
    DivMod(if m <= 2 then y - 1 else y, 400, era, yoe);
  }

  lemma YoeStartNext(yoe: int)
    requires 0 <= yoe < 399
    ensures YoeStart(yoe + 1) == YoeStart(yoe) + YoeLength(yoe)
  {
    var c, q, r := yoe / 100, (yoe % 100) / 4, yoe % 4;
    assert yoe == 100 * c + 4 * q + r;
    assert yoe / 4 == 25 * c + q;
    assert yoe / 100 == c;
    if r == 3 {
      if q == 24 {
        assert c < 3;
        assert yoe + 1 == 100 * (c + 1);
        assert (yoe + 1) / 4 == 25 * (c + 1) && (yoe + 1) / 100 == c + 1;
      } else {
        assert yoe + 1 == 100 * c + 4 * (q + 1);
        assert (yoe + 1) / 4 == 25 * c + q + 1 && (yoe + 1) / 100 == c;
      }
    } else {
      assert yoe + 1 == 100 * c + 4 * q + r + 1;
      assert (yoe + 1) / 4 == 25 * c + q && (yoe + 1) / 100 == c;
    }
  }

  /** Consecutive months are adjacent: the day after a month's last is the next month's 1st. */
  lemma NextMonthStart(y: int, m: int)
    requires 1 <= m <= 12
    ensures var (ny, nm) := if m == 12 then (y + 1, 1) else (y, m + 1);
      DaysFromCivil(y, m, 1) + MonthLength(y, m) == DaysFromCivil(ny, nm, 1)
  {
    var y' := if m <= 2 then y - 1 else y;
    var era := y' / 400;
    var yoe := y' - era * 400;
    var mp := MpFromMonth(m);
    MonthLengthOfMp(era, yoe, mp);
    DaysFromCivilParts(y, m, 1, era, yoe);
    if m == 2 {
      // 1 March starts the next March-based year, possibly of the next era.
      if yoe == 399 {
        DaysFromCivilParts(y, 3, 1, era + 1, 0);
      } else {
        YoeStartNext(yoe);
        DaysFromCivilParts(y, 3, 1, era, yoe + 1);
      }
    } else if m == 12 {
      DaysFromCivilParts(y + 1, 1, 1, era, yoe);
    } else {
      DaysFromCivilParts(y, m + 1, 1, era, yoe);
    }
  }

  /**
   * JavaScript's MakeDay(year, month, date) with a 0-based month: the month carries into
   * the year (`month` 12 is January of the next year, -1 December of the previous one) and
   * the date counts on from the 1st.
   */
  function MakeDay(year: int, month0: int, date: int): int
  {
    DaysFromCivil(year + month0 / 12, month0 % 12 + 1, 1) + date - 1
  }

  function CivilOf(t: Time): Civil { CivilFromDays(DayNumber(t)) }

  /** Two times fall on the same day exactly when their year, month and date agree. */
  lemma SameDayFields(s: Time, t: Time)
    ensures SameDay(s, t) <==> FullYear(s) == FullYear(t) && Month0(s) == Month0(t) && Date(s) == Date(t)
  {
    var a, b := CivilOf(s), CivilOf(t);
    if a.year == b.year && a.month == b.month && a.day == b.day {
      CivilRoundTrip(DayNumber(s));
      CivilRoundTrip(DayNumber(t));
    }
  }

  /** `getFullYear()`. */
  function FullYear(t: Time): int { CivilOf(t).year }

  /** `getMonth()`: 0 for January. */
  function Month0(t: Time): int { CivilOf(t).month - 1 }

  /** `getDate()`: day of the month from 1. */
  function Date(t: Time): int { CivilOf(t).day }

  /** A time's own year, month and date rebuild its day number. */
  lemma MakeDayOfTime(t: Time)
    ensures MakeDay(FullYear(t), Month0(t), Date(t)) == DayNumber(t)
  {
    var c := CivilOf(t);
    CivilRoundTrip(DayNumber(t));
    MakeDayInRange(c.year, c.month, c.day);
    DaysFromCivilDay(c.year, c.month, c.day);
  }

  /**
   * The year the `Date` constructor uses: a year from 0 to 99 is read as 1900 + year, before
   * the month is normalised (MakeFullYear in ECMAScript's `Date` constructor).
   */
  function ConstructorYear(year: int): int
  {
    if 0 <= year <= 99 then 1900 + year else year
  }

  /** `new Date(year, month0, date)`: midnight of that (normalised) date. */
  function NewDate(year: int, month0: int, date: int): Time
  {
    MakeDay(ConstructorYear(year), month0, date) * MsPerDay
  }

  /** `setFullYear(year, month0, date)`: keeps the time of day. */
  function SetFullYear(t: Time, year: int, month0: int, date: int): Time
  {
    MakeDay(year, month0, date) * MsPerDay + TimeInDay(t)
  }

  /** `setDate(date)`: keeps the year, month and time of day. */
  function SetDate(t: Time, date: int): Time
  {
    SetFullYear(t, FullYear(t), Month0(t), date)
  }

  /** `setDate(getDate() + n)` is the same as adding `n` whole days. */
  lemma SetDateShift(t: Time, n: int)
    ensures SetDate(t, Date(t) + n) == AddDays(t, n)
  {
    MakeDayOfTime(t);
    var z := DayNumber(t);
    assert MakeDay(FullYear(t), Month0(t), Date(t) + n) == z + n;
    assert SetDate(t, Date(t) + n) == (z + n) * MsPerDay + TimeInDay(t);
    assert t == z * MsPerDay + TimeInDay(t);
  }

  /** `date-fns isSameMonth`. */
  predicate SameMonth(a: Time, b: Time)
  {
    FullYear(a) == FullYear(b) && Month0(a) == Month0(b)
  }

  // ---------------------------------------------------------------------------------------
  // date-fns window boundaries (weeks start on Monday)

  /** Days back from `t` to the Monday of its week: date-fns' `diff` for `weekStartsOn` 1. */
  function MondayOffset(t: Time): (k: int)
    ensures 0 <= k < 7
  {
    var day := Weekday(t);
    (if day < 1 then 7 else 0) + day - 1
  }

  /** `startOfWeek(t, { weekStartsOn: 1 })`: midnight of the Monday on or before `t`. */
  function StartOfWeek(t: Time): Time
  {
    StartOfDay(AddDays(t, -MondayOffset(t)))
  }

  /** `endOfWeek(t, { weekStartsOn: 1 })`: 23:59:59.999 of the Sunday on or after `t`. */
  function EndOfWeek(t: Time): Time
  {
    var day := Weekday(t);
    var diff := (if day < 1 then -7 else 0) + 6 - (day - 1);
    SetHours(AddDays(t, diff), 23, 59, 59, 999)
  }

  /** `startOfMonth(t)`: midnight of the 1st. */
  function StartOfMonth(t: Time): Time
  {
    SetHours(SetDate(t, 1), 0, 0, 0, 0)
  }

  /** `endOfMonth(t)`: 23:59:59.999 of the last day (day 0 of the following month). */
  function EndOfMonth(t: Time): Time
  {
    SetHours(SetFullYear(t, FullYear(t), Month0(t) + 1, 0), 23, 59, 59, 999)
  }

  /** Setting 23:59:59.999 gives the millisecond before the next day starts. */
  lemma EndOfDay(x: Time)
    ensures SetHours(x, 23, 59, 59, 999) == (DayNumber(x) + 1) * MsPerDay - 1
  {
  }

  /** Going back `MondayOffset` days from day `z` lands on a Monday. */
  lemma MondayOfDay(z: int)
    ensures var w := (z + 4) % 7; ((z - ((if w < 1 then 7 else 0) + w - 1)) + 4) % 7 == 1
  {
    var w := (z + 4) % 7;
    var q := (z + 4) / 7;
    if w < 1 {
      DivMod(z - 6 + 4, 7, q - 1, 1);
    } else {
      DivMod(z - (w - 1) + 4, 7, q, 1);
    }
  }

  lemma WeekStartDay(t: Time)
    ensures StartOfWeek(t) == (DayNumber(t) - MondayOffset(t)) * MsPerDay
  {
    AddDaysFields(t, -MondayOffset(t));
  }

  lemma WeekEndDay(t: Time)
    ensures EndOfWeek(t) == (DayNumber(t) - MondayOffset(t) + 7) * MsPerDay - 1
  {
    var day := Weekday(t);
    var diff := (if day < 1 then -7 else 0) + 6 - (day - 1);
    assert diff == 6 - MondayOffset(t);
    AddDaysFields(t, diff);
    EndOfDay(AddDays(t, diff));
  }

  /** The week window is the seven days from a Monday, both ends inclusive. */
  lemma WeekWindow(t: Time)
    ensures Weekday(StartOfWeek(t)) == 1
    ensures TimeInDay(StartOfWeek(t)) == 0
    ensures StartOfWeek(t) <= t < StartOfWeek(t) + 7 * MsPerDay
    ensures EndOfWeek(t) == StartOfWeek(t) + 7 * MsPerDay - 1
  {
    var monday := DayNumber(t) - MondayOffset(t);
    WeekStartDay(t);
    WeekEndDay(t);
    DayNumberOf(monday, 0);
    MondayOfDay(DayNumber(t));
    DayRange(t, monday, monday + 7);
  }

  /** Two Mondays less than a week apart are the same day. */
  lemma MondayUnique(a: int, b: int, z: int)
    requires (a + 4) % 7 == 1 && (b + 4) % 7 == 1
    requires a <= z < a + 7 && b <= z < b + 7
    ensures a == b
  {
    DivMod(a + 4, 7, (a + 4) / 7, 1);
    DivMod(b + 4, 7, (b + 4) / 7, 1);
  }

  /** Two times share a week window exactly when their Mondays coincide. */
  lemma InWeekWindow(t: Time, u: Time)
    ensures StartOfWeek(t) <= u <= EndOfWeek(t) <==> StartOfWeek(u) == StartOfWeek(t)
  {
    var mt := DayNumber(t) - MondayOffset(t);
    var mu := DayNumber(u) - MondayOffset(u);
    WeekStartDay(t);
    WeekEndDay(t);
    WeekStartDay(u);
    MondayOfDay(DayNumber(t));
    MondayOfDay(DayNumber(u));
    DayRange(u, mt, mt + 7);
    DayNumberOf(mt, 0);
    DayNumberOf(mu, 0);
    if mt <= DayNumber(u) < mt + 7 {
      MondayUnique(mt, mu, DayNumber(u));
    }
  }

  /** MakeDay on an in-range 0-based month is the calendar date. */
  lemma MakeDayInRange(y: int, m: int, d: int)
    requires 1 <= m <= 12
    ensures MakeDay(y, m - 1, d) == DaysFromCivil(y, m, 1) + d - 1
  {
    DivMod(m - 1, 12, 0, m - 1);
  }

  /** Day 0 of the month after `m` is the last day of `m`. */
  lemma MakeDayEndOfMonth(y: int, m: int)
    requires 1 <= m <= 12
    ensures MakeDay(y, m, 0) == DaysFromCivil(y, m, 1) + MonthLength(y, m) - 1
  {
    NextMonthStart(y, m);
    MakeDayNextMonth(y, m);
  }

  /** Month index `m` (0-based) is the month after 1-based month `m`, rolling December over. */
  lemma MakeDayNextMonth(y: int, m: int)
    requires 1 <= m <= 12
    ensures var (ny, nm) := if m == 12 then (y + 1, 1) else (y, m + 1);
      MakeDay(y, m, 0) == DaysFromCivil(ny, nm, 1) - 1
  {
    if m == 12 {
      DivMod(12, 12, 1, 0);
    } else {
      DivMod(m, 12, 0, m);
    }
  }

  lemma DayNumberOf(z: int, r: int)
    requires 0 <= r < MsPerDay
    ensures DayNumber(z * MsPerDay + r) == z && TimeInDay(z * MsPerDay + r) == r
  {
    DivMod(z * MsPerDay + r, MsPerDay, z, r);
  }

  /** Midnight of the 1st of 0-based month `m0` of year `y`, whatever the time `t` was. */
  lemma StartOfMonthParts(t: Time, y: int, m0: int)
    requires 0 <= m0 < 12
    ensures SetHours(SetFullYear(t, y, m0, 1), 0, 0, 0, 0) == DaysFromCivil(y, m0 + 1, 1) * MsPerDay
  {
    var first := DaysFromCivil(y, m0 + 1, 1);
    MakeDayInRange(y, m0 + 1, 1);
    assert SetFullYear(t, y, m0, 1) == first * MsPerDay + TimeInDay(t);
    DayNumberOf(first, TimeInDay(t));
  }

  /** Day 0 of the following month at 23:59:59.999 is the last millisecond of month `m0`. */
  lemma EndOfMonthParts(t: Time, y: int, m0: int)
    requires 0 <= m0 < 12
    ensures SetHours(SetFullYear(t, y, m0 + 1, 0), 23, 59, 59, 999) ==
      (DaysFromCivil(y, m0 + 1, 1) + MonthLength(y, m0 + 1)) * MsPerDay - 1
  {
    MakeDayEndOfMonth(y, m0 + 1);
    EndOfDayBefore(t, y, m0 + 1, 0, DaysFromCivil(y, m0 + 1, 1) + MonthLength(y, m0 + 1));
  }

  /** 23:59:59.999 of the day `MakeDay` names is the millisecond before the following day. */
  lemma EndOfDayBefore(t: Time, y: int, m0: int, d: int, z: int)
    requires MakeDay(y, m0, d) == z - 1
    ensures SetHours(SetFullYear(t, y, m0, d), 23, 59, 59, 999) == z * MsPerDay - 1
  {
    SetFullYearDay(t, y, m0, d, z - 1);
    LastMillisecond(z, TimeInDay(t));
  }

  /** `setFullYear` lands on the day `MakeDay` names, at the same time of day. */
  lemma SetFullYearDay(t: Time, y: int, m0: int, d: int, z: int)
    requires MakeDay(y, m0, d) == z
    ensures SetFullYear(t, y, m0, d) == z * MsPerDay + TimeInDay(t)
  {
  }

  /** Setting 23:59:59.999 on the day before day `z` gives the millisecond before day `z`. */
  lemma LastMillisecond(z: int, r: int)
    requires 0 <= r < MsPerDay
    ensures SetHours((z - 1) * MsPerDay + r, 23, 59, 59, 999) == z * MsPerDay - 1
  {
    DayNumberOf(z - 1, r);
  }

  lemma Month0Range(t: Time)
    ensures 0 <= Month0(t) < 12
  {
    CivilRoundTrip(DayNumber(t));
  }

  /** Every time's year, month and date form a valid calendar date. */
  lemma CivilOfValid(t: Time)
    ensures ValidCivil(CivilOf(t))
    ensures 0 <= Month0(t) < 12 && 1 <= Date(t) <= 31
  {
    CivilRoundTrip(DayNumber(t));
  }

  /** `startOfMonth` is midnight of the 1st of the calendar month. */
  lemma StartOfMonthDay(t: Time)
    ensures 0 <= Month0(t) < 12
    ensures StartOfMonth(t) == DaysFromCivil(FullYear(t), Month0(t) + 1, 1) * MsPerDay
  {
    Month0Range(t);
    StartOfMonthParts(t, FullYear(t), Month0(t));
  }

  /** `endOfMonth` is the final millisecond of the last day of the calendar month. */
  lemma EndOfMonthDay(t: Time)
    ensures 0 <= Month0(t) < 12
    ensures EndOfMonth(t) ==
      (DaysFromCivil(FullYear(t), Month0(t) + 1, 1) + MonthLength(FullYear(t), Month0(t) + 1)) * MsPerDay - 1
  {
    Month0Range(t);
    var y, m0 := FullYear(t), Month0(t);
    EndOfMonthParts(t, y, m0);
    assert EndOfMonth(t) == SetHours(SetFullYear(t, y, m0 + 1, 0), 23, 59, 59, 999);
  }

  /** A time lies in the days `[a, b)` exactly when its day number does. */
  lemma DayRange(u: Time, a: int, b: int)
    ensures a * MsPerDay <= u <= b * MsPerDay - 1 <==> a <= DayNumber(u) < b
  {
    var z := DayNumber(u);
    assert u == z * MsPerDay + TimeInDay(u);
  }

  /** Shifting the day of a calendar date shifts its day number by the same amount. */
  lemma DaysFromCivilDay(y: int, m: int, d: int)
    requires 1 <= m <= 12
    ensures DaysFromCivil(y, m, d) == DaysFromCivil(y, m, 1) + d - 1
  {
  }

  /** The days of a calendar month are those from its 1st to its last. */
  lemma InMonthDays(y: int, m: int, z: int)
    requires 1 <= m <= 12
    ensures CivilFromDays(z).year == y && CivilFromDays(z).month == m <==>
      DaysFromCivil(y, m, 1) <= z < DaysFromCivil(y, m, 1) + MonthLength(y, m)
  {
    DaysOfMonthInMonth(y, m, z);
    InMonthDaysOfMonth(y, m, z);
  }

  lemma DaysOfMonthInMonth(y: int, m: int, z: int)
    requires 1 <= m <= 12
    ensures DaysFromCivil(y, m, 1) <= z < DaysFromCivil(y, m, 1) + MonthLength(y, m) ==>
      CivilFromDays(z).year == y && CivilFromDays(z).month == m
  {
    var first := DaysFromCivil(y, m, 1);
    if first <= z < first + MonthLength(y, m) {
      var day := z - first + 1;
      DaysFromCivilDay(y, m, day);
      DaysRoundTrip(Civil(y, m, day));
    }
  }

  lemma InMonthDaysOfMonth(y: int, m: int, z: int)
    requires 1 <= m <= 12
    ensures CivilFromDays(z).year == y && CivilFromDays(z).month == m ==>
      DaysFromCivil(y, m, 1) <= z < DaysFromCivil(y, m, 1) + MonthLength(y, m)
  {
    var c := CivilFromDays(z);
    if c.year == y && c.month == m {
      CivilRoundTrip(z);
      DaysFromCivilDay(y, m, c.day);
    }
  }

  /** A time lies between the first and the last millisecond of a month exactly when it falls in that month. */
  lemma InMonthRange(y: int, m0: int, u: Time)
    requires 0 <= m0 < 12
    ensures var first := DaysFromCivil(y, m0 + 1, 1);
      first * MsPerDay <= u <= (first + MonthLength(y, m0 + 1)) * MsPerDay - 1 <==>
      FullYear(u) == y && Month0(u) == m0
  {
    var first := DaysFromCivil(y, m0 + 1, 1);
    DayRange(u, first, first + MonthLength(y, m0 + 1));
    InMonthDays(y, m0 + 1, DayNumber(u));
  }

  /** Being in `t`'s month window is the same as being in `t`'s calendar month. */
  lemma InMonthWindow(t: Time, u: Time)
    ensures StartOfMonth(t) <= u <= EndOfMonth(t) <==> SameMonth(u, t)
  {
    StartOfMonthDay(t);
    EndOfMonthDay(t);
    var first := DaysFromCivil(FullYear(t), Month0(t) + 1, 1);
    InMonthRange(FullYear(t), Month0(t), u);
    WindowIff(StartOfMonth(t), EndOfMonth(t), u, first * MsPerDay,
      (first + MonthLength(FullYear(t), Month0(t) + 1)) * MsPerDay - 1,
      FullYear(u) == FullYear(t) && Month0(u) == Month0(t));
  }

  /** Midnight of the 1st of month `m` of year `y` reads back as that date. */
  lemma FirstOfMonth(y: int, m: int)
    requires 1 <= m <= 12
    ensures var t := DaysFromCivil(y, m, 1) * MsPerDay;
      FullYear(t) == y && Month0(t) == m - 1 && Date(t) == 1 && TimeInDay(t) == 0
  {
    DaysRoundTrip(Civil(y, m, 1));
    CivilAtMidnight(DaysFromCivil(y, m, 1), Civil(y, m, 1));
  }

  lemma CivilAtMidnight(z: int, c: Civil)
    requires CivilFromDays(z) == c
    ensures var t := z * MsPerDay;
      FullYear(t) == c.year && Month0(t) == c.month - 1 && Date(t) == c.day && TimeInDay(t) == 0
  {
    DayNumberOf(z, 0);
  }

  /** `setFullYear(y, m - 1, d)` on a valid date reads back as that date, at the same time of day. */
  lemma SetFullYearFields(t: Time, y: int, m: int, d: int)
    requires ValidCivil(Civil(y, m, d))
    ensures var u := SetFullYear(t, y, m - 1, d);
      FullYear(u) == y && Month0(u) == m - 1 && Date(u) == d && TimeInDay(u) == TimeInDay(t)
  {
    var z := SetFullYearOnDay(t, y, m, d);
    var u := SetFullYear(t, y, m - 1, d);
    DayNumberOf(z, TimeInDay(t));
    DaysRoundTrip(Civil(y, m, d));
    CivilOfDay(u, z, Civil(y, m, d));
  }

  lemma CivilOfDay(u: Time, z: int, c: Civil)
    requires DayNumber(u) == z && CivilFromDays(z) == c
    ensures FullYear(u) == c.year && Month0(u) == c.month - 1 && Date(u) == c.day
  {
  }

  lemma SetFullYearOnDay(t: Time, y: int, m: int, d: int) returns (z: int)
    requires 1 <= m <= 12
    ensures z == DaysFromCivil(y, m, d) && SetFullYear(t, y, m - 1, d) == z * MsPerDay + TimeInDay(t)
  {
    MakeDayInRange(y, m, d);
    DaysFromCivilDay(y, m, d);
    z := DaysFromCivil(y, m, d);
  }

  /** `setFullYear` onto the day `MakeDay` names keeps the time of day. */
  lemma SetFullYearOn(u: Time, y: int, m0: int, d: int, z: int)
    requires MakeDay(y, m0, d) == z
    ensures DayNumber(SetFullYear(u, y, m0, d)) == z && TimeInDay(SetFullYear(u, y, m0, d)) == TimeInDay(u)
  {
    DayNumberOf(z, TimeInDay(u));
  }

  /** Setting a time's own year, month and date changes nothing. */
  lemma SetFullYearSame(t: Time)
    ensures SetFullYear(t, FullYear(t), Month0(t), Date(t)) == t
  {
    MakeDayOfTime(t);
    assert t == DayNumber(t) * MsPerDay + TimeInDay(t);
  }

  /** `new Date(y, m0 + 1, 1)` is midnight of the 1st of the month after `m0`. */
  lemma NewDateNextMonth(y: int, m0: int)
    requires 0 <= m0 < 12
    ensures var year := ConstructorYear(y);
      NewDate(y, m0 + 1, 1) ==
      (if m0 == 11 then DaysFromCivil(year + 1, 1, 1) else DaysFromCivil(year, m0 + 2, 1)) * MsPerDay
  {
    MakeDayNextMonth(ConstructorYear(y), m0 + 1);
  }

  /** `new Date(y, m0 - 1, 1)` is midnight of the 1st of the month before `m0`. */
  lemma NewDatePreviousMonth(y: int, m0: int)
    requires 0 <= m0 < 12
    ensures var year := ConstructorYear(y);
      NewDate(y, m0 - 1, 1) ==
      (if m0 == 0 then DaysFromCivil(year - 1, 12, 1) else DaysFromCivil(year, m0, 1)) * MsPerDay
  {
    if m0 == 0 {
      DivMod(-1, 12, -1, 11);
    } else {
      MakeDayInRange(ConstructorYear(y), m0, 1);
    }
  }

  /** `startOfMonth` is a midnight. */
  lemma StartOfMonthMidnight(t: Time)
    ensures TimeInDay(StartOfMonth(t)) == 0
  {
    StartOfMonthDay(t);
    DayNumberOf(DaysFromCivil(FullYear(t), Month0(t) + 1, 1), 0);
  }

  /** The days of `t`'s month are the month-length days from the day of `startOfMonth(t)`. */
  lemma MonthDays(t: Time, u: Time)
    ensures 0 <= Month0(t) < 12
    ensures SameMonth(u, t) <==>
      DayNumber(StartOfMonth(t)) <= DayNumber(u) < DayNumber(StartOfMonth(t)) + MonthLength(FullYear(t), Month0(t) + 1)
  {
    StartOfMonthDay(t);
    var first := DaysFromCivil(FullYear(t), Month0(t) + 1, 1);
    DayNumberOf(first, 0);
    assert DayNumber(StartOfMonth(t)) == first;
    InMonthDays(FullYear(t), Month0(t) + 1, DayNumber(u));
  }

  /** Rewriting both ends of a window by equal values keeps what membership means. */
  lemma WindowIff(lo: int, hi: int, u: int, lo': int, hi': int, p: bool)
    requires lo == lo' && hi == hi'
    requires lo' <= u <= hi' <==> p
    ensures lo <= u <= hi <==> p
  {
  }
}
