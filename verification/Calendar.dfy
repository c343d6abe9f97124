/**
 * Calendar arithmetic of `Date.UTC`: MakeDay and the year, month and date of a day number as in
 * section 21.4.1 of ECMA-262, the date check built on it, and the month bounds built on it.
 */
module Calendar {
  import opened Wrappers
  import opened Text
  import opened Numerals

  predicate IsLeap(y: int) {
    y % 4 == 0 && (y % 100 != 0 || y % 400 == 0)
  }

  function YearLength(y: int): int {
    if IsLeap(y) then 366 else 365
  }

  /** Months count from 0, as in `getUTCMonth`. */
  function MonthLength(y: int, m: int): int
    requires 0 <= m < 12
  {
    if m == 1 then (if IsLeap(y) then 29 else 28)
    else if m == 3 || m == 5 || m == 8 || m == 10 then 30
    else 31
  }

  /** Day number of 1 January, with day 0 on 1 January 1970: the years in between, added up. */
  function DayFromYear(y: int): int
    decreases if y >= 1970 then y - 1970 else 1970 - y
  {
    if y == 1970 then 0
    else if y > 1970 then DayFromYear(y - 1) + YearLength(y - 1)
    else DayFromYear(y + 1) - YearLength(y)
  }

  function DayInYear(y: int, m: int): (d: int)
    requires 0 <= m <= 12
    ensures 0 <= d <= 366
  {
    var leap := if IsLeap(y) && m >= 2 then 1 else 0;
    leap + (if m == 0 then 0 else if m == 1 then 31 else if m == 2 then 59 else if m == 3 then 90
            else if m == 4 then 120 else if m == 5 then 151 else if m == 6 then 181 else if m == 7 then 212
            else if m == 8 then 243 else if m == 9 then 273 else if m == 10 then 304 else if m == 11 then 334 else 365)
  }

  /** MakeDay: months out of range carry into the year, days out of range into the months. */
  function MakeDay(y: int, m: int, d: int): int {
    DayFromYear(y + m / 12) + DayInYear(y + m / 12, m % 12) + d - 1
  }

  /** Twelve months are a year, wherever they start and whatever the day. */
  lemma MonthsCarry(y: int, m: int, d: int)
    ensures MakeDay(y, m + 12, d) == MakeDay(y + 1, m, d)
  {
    assert (m + 12) / 12 == m / 12 + 1 && (m + 12) % 12 == m % 12;
  }

  /** Years 0 to 99 given to `Date.UTC` mean 1900 to 1999. */
  function FullYear(y: int): int {
    if 0 <= y <= 99 then 1900 + y else y
  }

  /** Day numbers whose time value is representable: 8.64e15 ms on either side of the epoch. */
  predicate InRange(day: int) {
    -100_000_000 <= day <= 100_000_000
  }

  /** `Date.UTC(y, m, d)`; None is NaN. */
  function DateUtc(y: int, m: int, d: int): Option<int> {
    var day := MakeDay(FullYear(y), m, d);
    if InRange(day) then Some(day) else None
  }

  // ----- Reading a day number back -----

  lemma FloorStep(n: int, k: int)
    requires k > 0
    ensures (n + 1) / k == n / k + (if (n + 1) % k == 0 then 1 else 0)
  {
    var q, r := n / k, n % k;
    assert n + 1 == k * q + (r + 1);
    if r + 1 == k {
      assert n + 1 == k * (q + 1);
      QuotientIs(n + 1, k, q + 1, 0);
    } else {
      QuotientIs(n + 1, k, q, r + 1);
    }
  }

  lemma QuotientIs(n: int, k: int, q: int, r: int)
    requires k > 0 && n == k * q + r && 0 <= r < k
    ensures n / k == q && n % k == r
  {
    var d := n / k - q;
    assert k * d == r - n % k;
    assert d > 0 ==> k * d >= k;
    assert d < 0 ==> k * d <= -k;
  }

  lemma ModShift(y: int, k: int, c: int)
    requires k > 0
    ensures (y - k * c) % k == y % k
  {
    assert y == k * (y / k) + y % k;
    assert k * (y / k) - k * c == k * (y / k - c);
    QuotientIs(y - k * c, k, y / k - c, y % k);
  }

  lemma ShiftedMultiple(y: int)
    ensures (y - 1968) % 4 == y % 4
    ensures (y - 1900) % 100 == y % 100
    ensures (y - 1600) % 400 == y % 400
    ensures y % 100 == 0 ==> y % 4 == 0
    ensures y % 400 == 0 ==> y % 100 == 0
  {
    ModShift(y, 4, 492);
    ModShift(y, 100, 19);
    ModShift(y, 400, 4);
    if y % 100 == 0 {
      QuotientIs(y, 4, 25 * (y / 100), 0);
    }
    if y % 400 == 0 {
      QuotientIs(y, 100, 4 * (y / 400), 0);
    }
  }

  lemma YearsAbut(y: int)
    ensures DayFromYear(y + 1) == DayFromYear(y) + YearLength(y)
  {
  }

  /** ECMA-262's closed form. Dafny's `/` floors here. */
  function DayFromYearClosed(y: int): int {
    365 * (y - 1970) + (y - 1969) / 4 - (y - 1901) / 100 + (y - 1601) / 400
  }

  lemma ClosedFormsAbut(y: int)
    ensures DayFromYearClosed(y + 1) == DayFromYearClosed(y) + YearLength(y)
  {
    FloorStep(y - 1969, 4);
    FloorStep(y - 1901, 100);
    FloorStep(y - 1601, 400);
    ShiftedMultiple(y);
  }

  lemma {:induction false} ClosedFormAgrees(y: int)
    ensures DayFromYear(y) == DayFromYearClosed(y)
    decreases if y >= 1970 then y - 1970 else 1970 - y
  {
    if y > 1970 {
      ClosedFormAgrees(y - 1);
      ClosedFormsAbut(y - 1);
    } else if y < 1970 {
      ClosedFormAgrees(y + 1);
      ClosedFormsAbut(y);
    }
  }

  lemma {:induction false} YearsGrow(a: int, b: int)
    requires a <= b
    ensures DayFromYear(a) + 365 * (b - a) <= DayFromYear(b) <= DayFromYear(a) + 366 * (b - a)
    decreases b - a
  {
    if a < b {
      YearsGrow(a, b - 1);
      YearsAbut(b - 1);
    }
  }

  predicate InYear(y: int, day: int) {
    DayFromYear(y) <= day < DayFromYear(y + 1)
  }

  /** Walks to the year of `day` from the estimate `y`. */
  function YearUp(day: int, y: int): (r: int)
    requires DayFromYear(y) <= day
    ensures InYear(r, day)
    decreases day - DayFromYear(y)
  {
    YearsAbut(y);
    if day < DayFromYear(y + 1) then y else YearUp(day, y + 1)
  }

  function YearDown(day: int, y: int): (r: int)
    requires day < DayFromYear(y + 1)
    ensures InYear(r, day)
    decreases DayFromYear(y + 1) - day
  {
    YearsAbut(y);
    if DayFromYear(y) <= day then y else YearDown(day, y - 1)
  }

  /** `getUTCFullYear` of a day number. */
  function YearOf(day: int): (y: int)
    ensures InYear(y, day)
  {
    if day >= 0 then YearUp(day, 1970) else YearDown(day, 1969)
  }

  lemma YearIsUnique(y: int, day: int)
    requires InYear(y, day)
    ensures YearOf(day) == y
  {
    var r := YearOf(day);
    if r < y {
      YearsGrow(r + 1, y);
    } else if y < r {
      YearsGrow(y + 1, r);
    }
  }

  predicate InMonth(y: int, m: int, offset: int) {
    0 <= m < 12 && DayInYear(y, m) <= offset < DayInYear(y, m + 1)
  }

  function MonthAtOffset(y: int, offset: int, m: int): (r: int)
    requires 0 <= m < 12 && DayInYear(y, m) <= offset < DayInYear(y, 12)
    ensures InMonth(y, r, offset)
    decreases 12 - m
  {
    if offset < DayInYear(y, m + 1) then m else MonthAtOffset(y, offset, m + 1)
  }

  function MonthOf(day: int): (m: int)
    ensures InMonth(YearOf(day), m, day - DayFromYear(YearOf(day)))
  {
    YearsAbut(YearOf(day));
    MonthAtOffset(YearOf(day), day - DayFromYear(YearOf(day)), 0)
  }

  function DateOf(day: int): (d: int) {
    day - DayFromYear(YearOf(day)) - DayInYear(YearOf(day), MonthOf(day)) + 1
  }

  lemma MonthsAbut(y: int, m: int)
    requires 0 <= m < 12
    ensures DayInYear(y, m + 1) == DayInYear(y, m) + MonthLength(y, m)
    ensures DayInYear(y, 12) == YearLength(y)
  {
  }

  predicate IsGregorian(y: int, m: int, d: int) {
    0 <= m < 12 && 1 <= d <= MonthLength(y, m)
  }

  /** The parts of any day number name a real day, and that day has this number. */
  lemma PartsAreGregorian(day: int)
    ensures IsGregorian(YearOf(day), MonthOf(day), DateOf(day))
    ensures MakeDay(YearOf(day), MonthOf(day), DateOf(day)) == day
  {
    MonthsAbut(YearOf(day), MonthOf(day));
  }

  /** The parts of a real day are itself: the two lemmas make a bijection. */
  lemma PartsOfGregorian(y: int, m: int, d: int)
    requires IsGregorian(y, m, d)
    ensures var day := MakeDay(y, m, d); YearOf(day) == y && MonthOf(day) == m && DateOf(day) == d
  {
    var day := MakeDay(y, m, d);
    var offset := DayInYear(y, m) + d - 1;
    MonthsAbut(y, m);
    MonthStartsGrow(y, m + 1, 12);
    YearsAbut(y);
    assert InYear(y, day);
    YearIsUnique(y, day);
    MonthIsUnique(y, m, MonthOf(day), offset);
  }

  lemma {:induction false} MonthStartsGrow(y: int, a: int, b: int)
    requires 0 <= a <= b <= 12
    ensures DayInYear(y, a) <= DayInYear(y, b)
    decreases b
  {
    if a < b {
      MonthStartsGrow(y, a, b - 1);
      MonthsAbut(y, b - 1);
    }
  }

  lemma MonthIsUnique(y: int, m: int, m': int, offset: int)
    requires InMonth(y, m, offset) && InMonth(y, m', offset)
    ensures m == m'
  {
    if m < m' {
      MonthStartsGrow(y, m + 1, m');
    } else if m' < m {
      MonthStartsGrow(y, m' + 1, m);
    }
  }

  // ----- The date check of custom fields -----

  /** `^\d{4}-\d{2}-\d{2}$` */
  predicate DatePattern(s: string) {
    |s| == 10 && AllDigits(s[..4]) && s[4] == '-' && AllDigits(s[5..7]) && s[7] == '-' && AllDigits(s[8..10])
  }

  function YearIn(s: string): int
    requires DatePattern(s)
  {
    Decimal(s[..4])
  }

  function MonthIn(s: string): int
    requires DatePattern(s)
  {
    Decimal(s[5..7])
  }

  function DayIn(s: string): int
    requires DatePattern(s)
  {
    Decimal(s[8..10])
  }

  predicate IsValidCalendarDate(s: string) {
    && DatePattern(s)
    && var (y, m, d) := (YearIn(s), MonthIn(s), DayIn(s));
       var date := DateUtc(y, m - 1, d);
       && date.Some?
       && YearOf(date.value) == y && MonthOf(date.value) == m - 1 && DateOf(date.value) == d
  }

  lemma SmallDatesAreInRange(y: int, m: int, d: int)
    requires 0 <= y <= 9999 && -1 <= m <= 98 && 0 <= d <= 99
    ensures InRange(MakeDay(FullYear(y), m, d))
  {
    var year := FullYear(y) + m / 12;
    YearsGrow(99, year);
    YearsGrow(99, 1970);
  }

  lemma MakeDayWithinYear(y: int, m: int, d: int)
    requires 0 <= m < 12
    ensures MakeDay(y, m, d) == DayFromYear(y) + DayInYear(y, m) + d - 1
  {
    assert m / 12 == 0 && m % 12 == m;
  }

  /** The two centuries that `Date.UTC` confuses are too far apart to be mistaken for each other. */
  lemma ShiftedCenturyIsLater(y: int, m: int, d: int, d': int)
    requires 0 <= m < 12 && d <= 31 && d' >= 0
    ensures MakeDay(1900 + y, m, d') > MakeDay(y, m, d)
  {
    MakeDayWithinYear(y, m, d);
    MakeDayWithinYear(1900 + y, m, d');
    YearsGrow(y, 1900 + y);
  }

  /** The comparison the check makes, on numbers. */
  lemma PartsMatchIffGregorian(y: int, m: int, d: int)
    requires 0 <= y && 0 <= d
    ensures var day := MakeDay(FullYear(y), m, d);
            (YearOf(day) == y && MonthOf(day) == m && DateOf(day) == d) <==> y >= 100 && IsGregorian(y, m, d)
  {
    var day := MakeDay(FullYear(y), m, d);
    PartsAreGregorian(day);
    if IsGregorian(y, m, d) {
      PartsOfGregorian(y, m, d);
      if y < 100 {
        ShiftedCenturyIsLater(y, m, d, d);
      }
    }
  }

  /** The check accepts exactly the real days of the years 0100 to 9999. */
  lemma AcceptsExactlyRealDays(s: string)
    ensures IsValidCalendarDate(s) <==>
            DatePattern(s) && YearIn(s) >= 100 && IsGregorian(YearIn(s), MonthIn(s) - 1, DayIn(s))
  {
    if DatePattern(s) {
      var y, m, d := YearIn(s), MonthIn(s) - 1, DayIn(s);
      DecimalBound(s[..4]);
      DecimalBound(s[5..7]);
      DecimalBound(s[8..10]);
      assert Pow10(4) == 10000 && Pow10(2) == 100;
      SmallDatesAreInRange(y, m, d);
      PartsMatchIffGregorian(y, m, d);
    }
  }

  // ----- Month bounds -----

  function MonthStart(today: int): Option<int> {
    DateUtc(YearOf(today), MonthOf(today), 1)
  }

  function MonthLastDay(today: int): Option<int> {
    DateUtc(YearOf(today), MonthOf(today) + 1, 0)
  }

  /** Day 1 of the next month follows the last day of this one, December included. */
  lemma NextMonthFollows(y: int, m: int, d: int)
    requires 0 <= m < 12
    ensures MakeDay(y, m + 1, d) == MakeDay(y, m, d) + MonthLength(y, m)
  {
    MonthsAbut(y, m);
    MakeDayWithinYear(y, m, d);
    if m == 11 {
      YearsAbut(y);
      MakeDayWithinYear(y + 1, 0, d);
    } else {
      MakeDayWithinYear(y, m + 1, d);
    }
  }

  lemma DaysAreConsecutive(y: int, m: int, d: int, n: int)
    ensures MakeDay(y, m, d + n) == MakeDay(y, m, d) + n
  {
  }

  /** Whenever both bounds exist, they enclose today unless the year is below 100, and span the month. */
  lemma BoundsEncloseToday(today: int)
    ensures MonthStart(today).Some? && MonthLastDay(today).Some? ==>
              var (y, m) := (YearOf(today), MonthOf(today));
              var (first, last) := (MonthStart(today).value, MonthLastDay(today).value);
              && last == first + MonthLength(FullYear(y), m) - 1
              && (first <= today <= last <==> !(0 <= y <= 99))
  {
    var y, m := YearOf(today), MonthOf(today);
    PartsAreGregorian(today);
    NextMonthFollows(FullYear(y), m, 0);
    DaysAreConsecutive(FullYear(y), m, 0, 1);
    if 0 <= y <= 99 {
      ShiftedCenturyIsLater(y, m, DateOf(today), 1);
    } else {
      DaysAreConsecutive(y, m, 1, DateOf(today) - 1);
    }
  }

  lemma FirstAndLastOf(y: int, m: int)
    requires 0 <= m < 12
    ensures var (first, last) := (MakeDay(y, m, 1), MakeDay(y, m + 1, 0));
            && YearOf(first) == YearOf(last) == y && MonthOf(first) == MonthOf(last) == m
            && DateOf(first) == 1 && DateOf(last) == MonthLength(y, m)
  {
    NextMonthFollows(y, m, 0);
    DaysAreConsecutive(y, m, 0, MonthLength(y, m));
    PartsOfGregorian(y, m, 1);
    PartsOfGregorian(y, m, MonthLength(y, m));
  }

  /** As calendar days they are the first and the last of the month that `Date.UTC` was asked for. */
  lemma BoundsAreFirstAndLast(today: int)
    ensures MonthStart(today).Some? && MonthLastDay(today).Some? ==>
              var (y, m) := (FullYear(YearOf(today)), MonthOf(today));
              var (first, last) := (MonthStart(today).value, MonthLastDay(today).value);
              && YearOf(first) == YearOf(last) == y && MonthOf(first) == MonthOf(last) == m
              && DateOf(first) == 1 && DateOf(last) == MonthLength(y, m)
  {
    hide MakeDay, YearOf, MonthOf, DateOf, MonthLength, FullYear, MonthStart, MonthLastDay;
    BoundsAre(today);
    MonthIsInRange(today);
    FirstAndLastOf(FullYear(YearOf(today)), MonthOf(today));
  }

  lemma BoundsAre(today: int)
    ensures var (y, m) := (FullYear(YearOf(today)), MonthOf(today));
            && (MonthStart(today).Some? ==> MonthStart(today).value == MakeDay(y, m, 1))
            && (MonthLastDay(today).Some? ==> MonthLastDay(today).value == MakeDay(y, m + 1, 0))
  {
    hide MakeDay, YearOf, MonthOf, FullYear;
  }

  lemma MonthIsInRange(today: int)
    ensures 0 <= MonthOf(today) < 12
  {
    PartsAreGregorian(today);
  }

  /** A bound exists exactly if time reaches it, so both do but within a month of the ends of time. */
  lemma BoundsExist(today: int)
    ensures MonthStart(today).Some? <==> -100_000_000 <= MakeDay(FullYear(YearOf(today)), MonthOf(today), 1) <= 100_000_000
    ensures MonthLastDay(today).Some?
            <==> -100_000_000 <= MakeDay(FullYear(YearOf(today)), MonthOf(today) + 1, 0) <= 100_000_000
    ensures -100_000_000 + 30 <= today <= 100_000_000 - 30 ==> MonthStart(today).Some? && MonthLastDay(today).Some?
  {
    hide YearOf, MonthOf, DateOf, MakeDay;
    var y, m := YearOf(today), MonthOf(today);
    PartsAreGregorian(today);
    NextMonthFollows(FullYear(y), m, 0);
    DaysAreConsecutive(FullYear(y), m, 0, 1);
    if 0 <= y <= 99 {
      SmallDatesAreInRange(y, m, 1);
      SmallDatesAreInRange(y, m + 1, 0);
    } else {
      DaysAreConsecutive(y, m, 1, DateOf(today) - 1);
      assert MakeDay(y, m, 1) <= today <= MakeDay(y, m + 1, 0) <= MakeDay(y, m, 1) + 30;
    }
  }

  lemma NextMonthIs(y: int, m: int, y': int, m': int)
    requires 0 <= m < 12 && 0 <= m' < 12 && y' * 12 + m' == y * 12 + m + 1
    ensures if m == 11 then y' == y + 1 && m' == 0 else y' == y && m' == m + 1
  {
  }

  /** Consecutive months tile, except where the two-digit years begin and end. */
  lemma MonthsTile(today: int, later: int)
    ensures YearOf(later) * 12 + MonthOf(later) == YearOf(today) * 12 + MonthOf(today) + 1
            && MonthLastDay(today).Some? && MonthStart(later).Some? ==>
              (MonthLastDay(today).value + 1 == MonthStart(later).value
               <==> !(MonthOf(today) == 11 && (YearOf(today) == -1 || YearOf(today) == 99)))
  {
    hide MakeDay, YearOf, MonthOf, MonthStart, MonthLastDay;
    var y, m := YearOf(today), MonthOf(today);
    BoundsAre(today);
    BoundsAre(later);
    MonthIsInRange(today);
    MonthIsInRange(later);
    TileBoundary(FullYear(y), m);
    if YearOf(later) * 12 + MonthOf(later) == y * 12 + m + 1 {
      NextMonthIs(y, m, YearOf(later), MonthOf(later));
      if m == 11 {
        YearStartsDiffer(FullYear(y) + 1, FullYear(y + 1));
        assert FullYear(y) + 1 == FullYear(y + 1) <==> y != -1 && y != 99;
      }
    }
  }

  lemma TileBoundary(y: int, m: int)
    ensures MakeDay(y, m + 1, 0) + 1 == MakeDay(y, m + 1, 1)
    ensures m == 11 ==> MakeDay(y, m + 1, 1) == MakeDay(y + 1, 0, 1)
  {
    DaysAreConsecutive(y, m + 1, 0, 1);
    CarryIntoNextYear(y);
  }

  lemma CarryIntoNextYear(y: int)
    ensures MakeDay(y, 12, 1) == MakeDay(y + 1, 0, 1)
  {
  }

  lemma YearStartsDiffer(a: int, b: int)
    ensures MakeDay(a, 0, 1) == MakeDay(b, 0, 1) <==> a == b
  {
    MakeDayWithinYear(a, 0, 1);
    MakeDayWithinYear(b, 0, 1);
    if a < b {
      YearsGrow(a, b);
    } else {
      YearsGrow(b, a);
    }
  }

  // ----- Printing -----

  /** `YYYY-MM-DD` */
  function Iso(y: nat, m: nat, d: nat): string {
    Padded(y, 4) + ("-" + Padded(m, 2) + "-" + Padded(d, 2))
  }

  /** `toISOString().slice(0, 10)`: years outside 0 to 9999 print a sign and six digits. */
  function IsoDay(day: int): (s: string)
    ensures |s| == 10
  {
    var (y, m, d) := (YearOf(day), MonthOf(day), DateOf(day));
    PartsAreGregorian(day);
    if 0 <= y <= 9999 then Iso(y, m + 1, d)
    else ([if y < 0 then '-' else '+'] + Padded(if y < 0 then -y else y, 6)
          + ("-" + Padded(m + 1, 2) + "-" + Padded(d, 2)))[..10]
  }

  lemma PatternStartsWithDigit(s: string)
    requires DatePattern(s)
    ensures IsDigit(s[0])
  {
    assert s[..4][0] == s[0];
  }

  lemma PrintedParts(y: int, m: int, d: int)
    requires 0 <= y <= 9999 && 0 <= m < 99 && 0 <= d <= 99
    ensures var s := Iso(y, m + 1, d);
            DatePattern(s) && YearIn(s) == y && MonthIn(s) == m + 1 && DayIn(s) == d
  {
    hide Padded, Decimal;
    var s := Iso(y, m + 1, d);
    assert s[..4] == Padded(y, 4) && s[5..7] == Padded(m + 1, 2) && s[8..10] == Padded(d, 2);
    assert Pow10(4) == 10000 && Pow10(2) == 100;
    DecimalOfPadded(y, 4);
    DecimalOfPadded(m + 1, 2);
    DecimalOfPadded(d, 2);
  }

  lemma IsoDayParts(day: int)
    requires 0 <= YearOf(day) <= 9999
    ensures var s := IsoDay(day);
            DatePattern(s) && YearIn(s) == YearOf(day) && MonthIn(s) == MonthOf(day) + 1 && DayIn(s) == DateOf(day)
  {
    PartsAreGregorian(day);
    hide YearOf, MonthOf, DateOf, DatePattern, YearIn, MonthIn, DayIn;
    PrintedParts(YearOf(day), MonthOf(day), DateOf(day));
  }

  lemma PatternIsPrinted(s: string)
    requires DatePattern(s)
    ensures s == Iso(YearIn(s), MonthIn(s), DayIn(s)) && YearIn(s) <= 9999
  {
    PaddedOfDecimal(s[..4]);
    PaddedOfDecimal(s[5..7]);
    PaddedOfDecimal(s[8..10]);
    YearBound(s[..4]);
    DateParts(s);
    hide Decimal, Padded, DatePattern;
  }

  lemma YearBound(s: string)
    requires |s| == 4 && AllDigits(s)
    ensures Decimal(s) <= 9999
  {
    DecimalBound(s);
    assert Pow10(4) == 10000;
  }

  lemma DateParts(s: string)
    requires |s| == 10 && s[4] == '-' && s[7] == '-'
    ensures s == s[..4] + ("-" + s[5..7] + "-" + s[8..10])
  {
  }

  /** The valid dates are the printed real days of the years 0100 to 9999. */
  lemma ValidIffPrinted(s: string)
    ensures IsValidCalendarDate(s)
            <==> exists y: nat, m: nat, d: nat | 100 <= y <= 9999 && IsGregorian(y, m, d) :: s == Iso(y, m + 1, d)
  {
    AcceptsExactlyRealDays(s);
    hide IsValidCalendarDate, MonthLength;
    if IsValidCalendarDate(s) {
      PatternIsPrinted(s);
      hide DatePattern, YearIn, MonthIn, DayIn, Iso;
      var y, m, d := YearIn(s), MonthIn(s) - 1, DayIn(s);
      assert s == Iso(y, m + 1, d);
    }
    forall y: nat, m: nat, d: nat | 100 <= y <= 9999 && IsGregorian(y, m, d) && s == Iso(y, m + 1, d)
      ensures IsValidCalendarDate(s)
    {
      LengthAtMost31(y, m);
      PrintedParts(y, m, d);
    }
  }

  lemma LengthAtMost31(y: int, m: int)
    requires 0 <= m < 12
    ensures 28 <= MonthLength(y, m) <= 31
  {
  }

  /** Years outside 0 to 9999 print a sign and six digits, which leaves no room for the date. */
  lemma OtherYearsArePrintedLong(day: int)
    requires YearOf(day) < 0 || 9999 < YearOf(day)
    ensures var (y, s) := (YearOf(day), IsoDay(day));
            s == [if y < 0 then '-' else '+'] + Padded(if y < 0 then -y else y, 6) + "-" + Padded(MonthOf(day) + 1, 2)
  {
    PartsAreGregorian(day);
    hide YearOf, MonthOf, DateOf, Padded, MonthLength;
  }

  lemma OtherYearsDiffer(day: int)
    requires !(0 <= YearOf(day) <= 9999)
    ensures !DatePattern(IsoDay(day))
  {
    var s := IsoDay(day);
    assert !IsDigit(s[0]);
    if DatePattern(s) {
      PatternStartsWithDigit(s);
    }
  }

  /** What is printed for the year 0100 to 9999 reads back as the same day; nothing else is valid. */
  lemma IsoDayReadsBack(day: int)
    ensures IsValidCalendarDate(IsoDay(day)) <==> 100 <= YearOf(day) <= 9999
    ensures 100 <= YearOf(day) <= 9999 ==>
            var s := IsoDay(day); DatePattern(s) && MakeDay(YearIn(s), MonthIn(s) - 1, DayIn(s)) == day
  {
    hide YearOf, MonthOf, DateOf, IsoDay, DatePattern;
    PartsAreGregorian(day);
    AcceptsExactlyRealDays(IsoDay(day));
    if 0 <= YearOf(day) <= 9999 {
      IsoDayParts(day);
    } else {
      OtherYearsDiffer(day);
    }
  }
}
