/** Instants and their proleptic Gregorian calendar date in UTC (the calendar date
    of ISO 8601, section 4.1.2.2), and the `%Y-%m-%d` text of that date.

    An instant is a whole number of seconds since 1970-01-01T00:00:00Z, so that
    `Duration::days(n)` is `n * SecondsPerDay`. The date is computed through a
    year that starts on 1 March: the leap day, when a year has one, is then the
    last day of that year and month lengths do not depend on the year. */
module Calendar {

  import opened Optional
  import opened Decimal

  type Instant = int

  const SecondsPerDay: int := 86400

  datatype Date = Date(year: int, month: int, day: int)

  predicate IsLeapYear(y: int) {
    y % 4 == 0 && (y % 100 != 0 || y % 400 == 0)
  }

  function DaysInMonth(y: int, m: int): int
    requires 1 <= m <= 12
  {
    if m == 2 then (if IsLeapYear(y) then 29 else 28)
    else if m == 4 || m == 6 || m == 9 || m == 11 then 30
    else 31
  }

  predicate ValidDate(d: Date) {
    1 <= d.month <= 12 && 1 <= d.day <= DaysInMonth(d.year, d.month)
  }

  // ---------------------------------------------------------------------------
  // Years starting on 1 March. Shifted year `sy` runs from sy-03-01 to the last
  // day of February of year sy + 1.

  function ShiftedYearLength(sy: int): int {
    if IsLeapYear(sy + 1) then 366 else 365
  }

  /** Days from 0000-03-01 to sy-03-01 (negative before it). */
  function DaysBeforeShiftedYear(sy: int): int {
    365 * sy + sy / 4 - sy / 100 + sy / 400
  }

  /** Month index counted from March (0) to February (11). */
  function ShiftedMonth(m: int): (mp: int)
    requires 1 <= m <= 12
    ensures 0 <= mp < 12
  {
    if m > 2 then m - 3 else m + 9
  }

  function MonthOfShifted(mp: int): (m: int)
    requires 0 <= mp < 12
    ensures 1 <= m <= 12 && ShiftedMonth(m) == mp
  {
    if mp < 10 then mp + 3 else mp - 9
  }

  /** Days from 1 March to the first day of shifted month `mp`. */
  function ShiftedMonthStart(mp: int): int
    requires 0 <= mp < 12
  {
    [0, 31, 61, 92, 122, 153, 184, 214, 245, 275, 306, 337][mp]
  }

  /** The shifted month that day `doy` (0 = 1 March) of a shifted year falls in. */
  function ShiftedMonthOf(doy: int): (mp: int)
    requires 0 <= doy < 366
    ensures 0 <= mp < 12
    ensures ShiftedMonthStart(mp) <= doy
    ensures mp < 11 ==> doy < ShiftedMonthStart(mp + 1)
  {
    if doy < 31 then 0 else if doy < 61 then 1 else if doy < 92 then 2
    else if doy < 122 then 3 else if doy < 153 then 4 else if doy < 184 then 5
    else if doy < 214 then 6 else if doy < 245 then 7 else if doy < 275 then 8
    else if doy < 306 then 9 else if doy < 337 then 10 else 11
  }

  /** Days from 0000-03-01 to 1970-01-01. */
  const EpochShift: int := 719468

  /** Day number of a date: days since 1970-01-01 (negative before it). */
  function DaysFromCivil(d: Date): int
    requires 1 <= d.month <= 12
  {
    var sy := if d.month <= 2 then d.year - 1 else d.year;
    DaysBeforeShiftedYear(sy) + ShiftedMonthStart(ShiftedMonth(d.month)) + d.day - 1 - EpochShift
  }

  /** Whole centuries before a day of a 400-year era; the last century of an era is one day longer. */
  function EraCentury(doe: int): (c: int)
    requires 0 <= doe < 146097
    ensures 0 <= c <= 3 && 0 <= doe - 36524 * c <= 36524
    ensures doe - 36524 * c < 36524 || c == 3
  {
    if doe / 36524 < 3 then doe / 36524 else 3
  }

  /** Whole years before a day of a four-year cycle; the last year of a cycle may be a day longer. */
  function CycleYear(r: int): (yy: int)
    requires 0 <= r < 1461
    ensures 0 <= yy <= 3 && 0 <= r - 365 * yy <= 365
    ensures r - 365 * yy < 365 || yy == 3
  {
    if r / 365 < 3 then r / 365 else 3
  }

  /** Splits a day of a 400-year era (0 = 1 March of its first year) into a
      year of the era and a day of that year: centuries, four-year cycles, years. */
  function SplitEraDays(doe: int): (r: (int, int))
    requires 0 <= doe < 146097
  {
    var c := EraCentury(doe);
    var r1 := doe - 36524 * c;
    var q := r1 / 1461;
    var r2 := r1 % 1461;
    var yy := CycleYear(r2);
    (100 * c + 4 * q + yy, r2 - 365 * yy)
  }

  /** Splits a count of days since 0000-03-01 into a shifted year and a day of that year. */
  function SplitShiftedDays(n: int): (r: (int, int))
  {
    var (k, doy) := SplitEraDays(n % 146097);
    (400 * (n / 146097) + k, doy)
  }

  /** The date of day `doy` (0 = 1 March) of shifted year `sy`. */
  function ShiftedDate(sy: int, doy: int): (d: Date)
    requires 0 <= doy < ShiftedYearLength(sy)
    ensures ValidDate(d)
    ensures DaysFromCivil(d) + EpochShift == DaysBeforeShiftedYear(sy) + doy
  {
    var mp := ShiftedMonthOf(doy);
    var m := MonthOfShifted(mp);
    var d := Date(if m <= 2 then sy + 1 else sy, m, doy - ShiftedMonthStart(mp) + 1);
    assert ValidDate(d) by {
      if mp == 11 {
        assert m == 2 && d.year == sy + 1;
      }
    }
    d
  }

  /** The date of day number `z` (days since 1970-01-01). */
  function CivilFromDays(z: int): (d: Date)
    ensures ValidDate(d)
    ensures DaysFromCivil(d) == z
  {
    var n := z + EpochShift;
    SplitShiftedDaysCorrect(n);
    var (sy, doy) := SplitShiftedDays(n);
    ShiftedDate(sy, doy)
  }

  // ---------------------------------------------------------------------------
  // Proofs about shifted years

  /** Counting multiples of 4, 100 and 400 up to `y + 1` rather than `y` adds
      one exactly when `y + 1` is such a multiple. */
  lemma QuotientSteps(y: int)
    ensures (y + 1) / 4 - y / 4 == if (y + 1) % 4 == 0 then 1 else 0
    ensures (y + 1) / 100 - y / 100 == if (y + 1) % 100 == 0 then 1 else 0
    ensures (y + 1) / 400 - y / 400 == if (y + 1) % 400 == 0 then 1 else 0
  {
  }

  /** Every multiple of 400 is one of 100, and every multiple of 100 one of 4. */
  lemma MultiplesNest(x: int)
    ensures x % 400 == 0 ==> x % 100 == 0
    ensures x % 100 == 0 ==> x % 4 == 0
  {
    if x % 400 == 0 {
      RemainderOf100(x, 4 * (x / 400), 0);
    }
    if x % 100 == 0 {
      RemainderOf4(x, 25 * (x / 100), 0);
    }
  }

  /** Consecutive shifted years are as far apart as the first one is long. */
  lemma ShiftedYearStep(sy: int)
    ensures DaysBeforeShiftedYear(sy + 1) == DaysBeforeShiftedYear(sy) + ShiftedYearLength(sy)
  {
    QuotientSteps(sy);
    MultiplesNest(sy + 1);
  }

  lemma {:induction false} ShiftedYearMonotone(a: int, b: int)
    requires a < b
    ensures DaysBeforeShiftedYear(a + 1) <= DaysBeforeShiftedYear(b)
    decreases b - a
  {
    if b > a + 1 {
      ShiftedYearMonotone(a, b - 1);
      ShiftedYearStep(b - 1);
    }
  }

  /** The calendar repeats every 400 years, which are 146097 days. */
  lemma EraPeriod(era: int, k: int)
    requires 0 <= k < 400
    ensures DaysBeforeShiftedYear(400 * era + k) == 146097 * era + DaysBeforeShiftedYear(k)
    ensures ShiftedYearLength(400 * era + k) == ShiftedYearLength(k)
  {
    EraQuotients(era, k);
    EraLeapYears(era, k);
  }

  lemma EraQuotients(era: int, k: int)
    requires 0 <= k < 400
    ensures (400 * era + k) / 4 == 100 * era + k / 4
    ensures (400 * era + k) / 100 == 4 * era + k / 100
    ensures (400 * era + k) / 400 == era
  {
  }

  /** Adding whole multiples of 400 leaves the remainders modulo 4, 100 and 400 unchanged. */
  lemma ModShift(a: int, t: int)
    ensures (a + 400 * t) % 4 == a % 4
    ensures (a + 400 * t) % 100 == a % 100
    ensures (a + 400 * t) % 400 == a % 400
  {
    RemainderOf4(a + 400 * t, a / 4 + 100 * t, a % 4);
    RemainderOf100(a + 400 * t, a / 100 + 4 * t, a % 100);
    RemainderOf400(a + 400 * t, a / 400 + t, a % 400);
  }

  /** The remainder of `4 * q + r` by 4 is `r` when `0 <= r < 4`; likewise for 100 and 400. */
  lemma RemainderOf4(x: int, q: int, r: int)
    requires x == 4 * q + r && 0 <= r < 4
    ensures x % 4 == r
  {
  }

  lemma RemainderOf100(x: int, q: int, r: int)
    requires x == 100 * q + r && 0 <= r < 100
    ensures x % 100 == r
  {
  }

  lemma RemainderOf400(x: int, q: int, r: int)
    requires x == 400 * q + r && 0 <= r < 400
    ensures x % 400 == r
  {
  }

  lemma EraLeapYears(era: int, k: int)
    requires 0 <= k < 400
    ensures IsLeapYear(400 * era + k + 1) == IsLeapYear(k + 1)
  {
    ModShift(k + 1, era);
    assert 400 * era + k + 1 == (k + 1) + 400 * era;
  }

  /** Days before year `100 * c + 4 * q + yy` of an era, counted by centuries and four-year groups. */
  lemma EraYearDays(c: int, q: int, yy: int)
    requires 0 <= c <= 3 && 0 <= q <= 24 && 0 <= yy <= 3
    ensures DaysBeforeShiftedYear(100 * c + 4 * q + yy) == 36524 * c + 1461 * q + 365 * yy
  {
    var k := 100 * c + 4 * q + yy;
    assert k / 4 == 25 * c + q;
    assert k / 100 == c;
    assert k / 400 == 0;
  }

  /** The fourth year of a four-year group is a leap year, except at the end of a century that is not the era's last. */
  lemma EraYearLeap(c: int, q: int)
    requires 0 <= c <= 3 && 0 <= q <= 24
    requires q < 24 || c == 3
    ensures ShiftedYearLength(100 * c + 4 * q + 3) == 366
  {
    var y := 100 * c + 4 * q + 4;
    if q == 24 {
      assert y == 400;
    } else {
      assert y % 4 == 0 && y % 100 != 0;
    }
  }

  /** The arithmetic of SplitEraDays, stated with the quotients and remainders already taken. */
  lemma EraSplitParts(doe: int, r: (int, int), c: int, q: int, yy: int, doy: int)
    requires 0 <= c <= 3 && 0 <= q <= 24 && 0 <= yy <= 3 && 0 <= doy <= 365
    requires doe == 36524 * c + 1461 * q + 365 * yy + doy
    requires doy == 365 ==> yy == 3 && (q < 24 || c == 3)
    requires r == (100 * c + 4 * q + yy, doy)
    ensures var (k, doy) := r;
      0 <= k < 400 && DaysBeforeShiftedYear(k) + doy == doe && 0 <= doy < ShiftedYearLength(k)
  {
    EraYearDays(c, q, yy);
    if doy == 365 {
      EraYearLeap(c, q);
    }
  }

  lemma SplitEraDaysCorrect(doe: int)
    requires 0 <= doe < 146097
    ensures var (k, doy) := SplitEraDays(doe);
      0 <= k < 400 && DaysBeforeShiftedYear(k) + doy == doe && 0 <= doy < ShiftedYearLength(k)
  {
    var c := EraCentury(doe);
    var r1 := doe - 36524 * c;
    var q := r1 / 1461;
    var r2 := r1 % 1461;
    assert r1 == 1461 * q + r2 && 0 <= q <= 24;
    var yy := CycleYear(r2);
    EraSplitParts(doe, SplitEraDays(doe), c, q, yy, r2 - 365 * yy);
  }

  /** A year `k` of era `era` and a day of it, placed on the whole count of days. */
  lemma EraShiftParts(n: int, era: int, r: (int, int), s: (int, int))
    requires 0 <= r.0 < 400 && 0 <= r.1 < ShiftedYearLength(r.0)
    requires n == 146097 * era + DaysBeforeShiftedYear(r.0) + r.1
    requires s == (400 * era + r.0, r.1)
    ensures var (sy, doy) := s;
      DaysBeforeShiftedYear(sy) + doy == n && 0 <= doy < ShiftedYearLength(sy)
  {
    EraPeriod(era, r.0);
  }

  lemma SplitShiftedDaysCorrect(n: int)
    ensures var (sy, doy) := SplitShiftedDays(n);
      DaysBeforeShiftedYear(sy) + doy == n && 0 <= doy < ShiftedYearLength(sy)
  {
    var era, doe := n / 146097, n % 146097;
    assert n == 146097 * era + doe;
    var r := SplitEraDays(doe);
    SplitEraDaysCorrect(doe);
    assert SplitShiftedDays(n) == (400 * era + r.0, r.1);
    EraShiftParts(n, era, r, SplitShiftedDays(n));
  }

  lemma SplitShiftedDaysUnique(sy: int, doy: int)
    requires 0 <= doy < ShiftedYearLength(sy)
    ensures SplitShiftedDays(DaysBeforeShiftedYear(sy) + doy) == (sy, doy)
  {
    var n := DaysBeforeShiftedYear(sy) + doy;
    SplitShiftedDaysCorrect(n);
    var (sy2, doy2) := SplitShiftedDays(n);
    if sy < sy2 {
      ShiftedYearMonotone(sy, sy2);
      ShiftedYearStep(sy);
      assert false;
    } else if sy2 < sy {
      ShiftedYearMonotone(sy2, sy);
      ShiftedYearStep(sy2);
      assert false;
    }
  }

  /** The date of day `doy` of shifted year `sy`, whose day number is `z`. */
  lemma CivilOfShifted(sy: int, doy: int, z: int)
    requires 0 <= doy < ShiftedYearLength(sy)
    requires z + EpochShift == DaysBeforeShiftedYear(sy) + doy
    ensures CivilFromDays(z) == ShiftedDate(sy, doy)
  {
    SplitShiftedDaysUnique(sy, doy);
    assert SplitShiftedDays(z + EpochShift) == (sy, doy);
  }

  /** Day numbers and valid dates correspond one to one. */
  lemma CivilRoundTrip(d: Date)
    requires ValidDate(d)
    ensures CivilFromDays(DaysFromCivil(d)) == d
  {
    var sy := if d.month <= 2 then d.year - 1 else d.year;
    var doy := ShiftedMonthStart(ShiftedMonth(d.month)) + d.day - 1;
    DayOfShiftedYear(d);
    CivilOfShifted(sy, doy, DaysFromCivil(d));
  }

  /** Where a valid date falls in its shifted year. */
  lemma DayOfShiftedYear(d: Date)
    requires ValidDate(d)
    ensures var sy := if d.month <= 2 then d.year - 1 else d.year;
      var doy := ShiftedMonthStart(ShiftedMonth(d.month)) + d.day - 1;
      0 <= doy < ShiftedYearLength(sy) && ShiftedDate(sy, doy) == d
  {
    var mp := ShiftedMonth(d.month);
    var doy := ShiftedMonthStart(mp) + d.day - 1;
    if mp == 11 {
      assert d.month == 2;
    } else {
      assert d.day <= ShiftedMonthStart(mp + 1) - ShiftedMonthStart(mp);
    }
    assert ShiftedMonthOf(doy) == mp;
    assert MonthOfShifted(mp) == d.month;
  }

  // ---------------------------------------------------------------------------
  // Instants

  /** The UTC calendar date of an instant; the time of day is dropped. */
  function DateOf(t: Instant): (d: Date)
    ensures ValidDate(d)
  {
    CivilFromDays(t / SecondsPerDay)
  }

  /** Moving an instant by `n` whole days moves its date by exactly `n` days. */
  lemma DateAfterDays(t: Instant, n: int)
    ensures DaysFromCivil(DateOf(t + n * SecondsPerDay)) == DaysFromCivil(DateOf(t)) + n
  {
    assert (t + n * SecondsPerDay) / SecondsPerDay == t / SecondsPerDay + n;
  }

  /** Two instants have the same date exactly when they fall in the same UTC day. */
  lemma SameDate(t1: Instant, t2: Instant)
    ensures DateOf(t1) == DateOf(t2) <==> t1 / SecondsPerDay == t2 / SecondsPerDay
  {
  }

  // ---------------------------------------------------------------------------
  // `%Y-%m-%d`

  /** `%Y`: four digits, zero-padded, for years 0 to 9999; any other year is
      written with its sign and at least four digits. */
  function FormatYear(y: int): (s: string)
    ensures 4 <= |s|
    ensures s[0] == '-' <==> y < 0
  {
    if 0 <= y <= 9999 then PadZeros(NatToString(y), 4)
    else if y < 0 then "-" + PadZeros(NatToString(-y), 4)
    else "+" + PadZeros(NatToString(y), 4)
  }

  function FormatDate(d: Date): (s: string)
    requires ValidDate(d)
    ensures 10 <= |s| && s[|s| - 6] == '-' && s[|s| - 3] == '-'
  {
    FormatYear(d.year) + "-" + TwoDigits(d.month) + "-" + TwoDigits(d.day)
  }

  /** `day.format("%Y-%m-%d")` */
  function FormatInstant(t: Instant): string {
    FormatDate(DateOf(t))
  }

  function ParseYear(s: string): Option<int> {
    if 1 <= |s| && (s[0] == '-' || s[0] == '+') then
      match ParseNat(s[1..])
      case None => None
      case Some(v) =>
        var y: int := if s[0] == '-' then 0 - v else v;
        Some(y)
    else
      match ParseNat(s)
      case None => None
      case Some(v) => Some(v)
  }

  /** Reads a `%Y-%m-%d` date back; rejects anything that is not a valid date. */
  function ParseDate(s: string): (r: Option<Date>)
    ensures r.Some? ==> ValidDate(r.value)
  {
    if |s| < 6 || s[|s| - 6] != '-' || s[|s| - 3] != '-' then None
    else
      match (ParseYear(s[..|s| - 6]), ParseNat(s[|s| - 5..|s| - 3]), ParseNat(s[|s| - 2..]))
      case (Some(y), Some(m), Some(dd)) =>
        if ValidDate(Date(y, m, dd)) then Some(Date(y, m, dd)) else None
      case _ => None
  }

  /** A numeral without a sign reads back as its value. */
  lemma UnsignedYear(digits: string, v: nat)
    requires ParseNat(digits) == Some(v)
    ensures ParseYear(digits) == Some(v)
  {
    assert IsDigit(digits[0]);
  }

  /** A sign followed by a numeral reads back as the signed value. */
  lemma SignedYear(sign: char, digits: string, v: nat)
    requires sign == '-' || sign == '+'
    requires ParseNat(digits) == Some(v)
    ensures ParseYear([sign] + digits) == Some(if sign == '-' then 0 - v else v)
  {
    assert ([sign] + digits)[1..] == digits;
  }

  lemma FormatYearRoundTrip(y: int)
    ensures ParseYear(FormatYear(y)) == Some(y)
  {
    var n: nat := if y < 0 then 0 - y else y;
    var digits := PadZeros(NatToString(n), 4);
    PaddedNatRoundTrip(n, 4);
    if 0 <= y <= 9999 {
      assert FormatYear(y) == digits;
      UnsignedYear(digits, n);
    } else if y < 0 {
      assert FormatYear(y) == ['-'] + digits;
      SignedYear('-', digits, n);
    } else {
      assert FormatYear(y) == ['+'] + digits;
      SignedYear('+', digits, n);
    }
  }

  /** The text of a date names that date and no other. */
  lemma FormatDateRoundTrip(d: Date)
    requires ValidDate(d)
    ensures ParseDate(FormatDate(d)) == Some(d)
  {
    ParseDateParts(FormatYear(d.year), TwoDigits(d.month), TwoDigits(d.day));
    FormatYearRoundTrip(d.year);
    TwoDigitsRoundTrip(d.month);
    TwoDigitsRoundTrip(d.day);
  }

  lemma ParseDateParts(ys: string, ms: string, ds: string)
    requires |ms| == 2 && |ds| == 2
    ensures ParseDate(ys + "-" + ms + "-" + ds)
      == match (ParseYear(ys), ParseNat(ms), ParseNat(ds))
         case (Some(y), Some(m), Some(dd)) =>
           if ValidDate(Date(y, m, dd)) then Some(Date(y, m, dd)) else None
         case _ => None
  {
    var s := ys + "-" + ms + "-" + ds;
    var n := |s|;
    assert s[n - 6] == '-' && s[n - 3] == '-';
    assert s[..n - 6] == ys;
    assert s[n - 5..n - 3] == ms;
    assert s[n - 2..] == ds;
  }

  /** The text of an instant names its UTC calendar date. */
  lemma FormatInstantRoundTrip(t: Instant)
    ensures ParseDate(FormatInstant(t)) == Some(DateOf(t))
  {
    FormatDateRoundTrip(DateOf(t));
  }

  /** For the years 0 to 9999 the text is the ten-character `YYYY-MM-DD`. */
  lemma FormatDateLength(d: Date)
    requires ValidDate(d) && 0 <= d.year <= 9999
    ensures |FormatDate(d)| == 10
  {
    FourDigitNumeral(d.year);
  }

  lemma FourDigitNumeral(n: nat)
    requires n < 10000
    ensures |NatToString(n)| <= 4
  {
    if n >= 10 {
      FourDigitNumeral(n / 10);
      assert NatToString(n) == NatToString(n / 10) + [DigitChar(n % 10)];
    }
  }

}
