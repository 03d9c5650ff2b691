/** Seconds since 1970 and broken-down GMT time, both ways, in the code's calendar: a leap day
    in every fourth year from 1972 on, with no exception for centuries. */
module Calendar {
  import opened Multiples

  datatype Tm = Tm(sec: int, min: int, hour: int, mday: int, mon: int, year: int, wday: int, yday: int)

  // C's integer division and remainder, which truncate toward zero.
  function Div(a: int, b: int): int
    requires b > 0
  {
    if a >= 0 then a / b else -(-a / b)
  }

  function Mod(a: int, b: int): int
    requires b > 0
  {
    a - Div(a, b) * b
  }

  const DAYS: seq<seq<int>> := [
    [0, 31, 59, 90, 120, 151, 181, 212, 243, 273, 304, 334],
    [0, 31, 60, 91, 121, 152, 182, 213, 244, 274, 305, 335]]

  /** DAYS[(YEARS & 3) == 2], where YEARS counts from 1970. */
  predicate Leap(years: int) { years % 4 == 2 }

  function DaysBefore(leap: bool, mon: nat): int
    requires mon < 12
  {
    DAYS[if leap then 1 else 0][mon]
  }

  function YearLength(leap: bool): int { if leap then 366 else 365 }

  function MonthEnd(leap: bool, mon: nat): int
    requires mon < 12
  {
    if mon == 11 then YearLength(leap) else DaysBefore(leap, mon + 1)
  }

  function GmToTime(et: Tm): int
    requires 0 <= et.mon < 12
  {
    var years := et.year - 70;
    (years * 365 + Div(years + 1, 4) + DaysBefore(Leap(years), et.mon) + et.mday - 1) * 86400 +
      et.hour * 3600 + et.min * 60 + et.sec
  }

  lemma DaysIncrease(leap: bool, m: nat, k: nat)
    requires m <= k < 12
    ensures DaysBefore(leap, m) <= DaysBefore(leap, k)
    ensures m < k ==> DaysBefore(leap, m) < DaysBefore(leap, k)
  {
  }

  /** std::lower_bound over CDAYS[1..12): the first month whose offset is not below the value. */
  method LowerBound(leap: bool, value: int) returns (m: nat)
    ensures 1 <= m <= 12
    ensures forall k :: 1 <= k < m ==> DaysBefore(leap, k) < value
    ensures m < 12 ==> value <= DaysBefore(leap, m)
  {
    m := 1;
    var length := 11;
    while length > 0
      invariant 1 <= m && 0 <= length && m + length <= 12
      invariant forall k :: 1 <= k < m ==> DaysBefore(leap, k) < value
      invariant m + length < 12 ==> value <= DaysBefore(leap, m + length)
    {
      var half := length / 2;
      if DaysBefore(leap, m + half) < value {
        forall k | 1 <= k <= m + half
          ensures DaysBefore(leap, k) < value
        {
          DaysIncrease(leap, k, m + half);
        }
        m, length := m + half + 1, length - half - 1;
      } else {
        length := half;
      }
    }
  }

  // ----- canonical broken-down times -----

  predicate ValidDate(leap: bool, mon: int, mday: int) {
    0 <= mon < 12 && 1 <= mday && DaysBefore(leap, mon) + mday <= MonthEnd(leap, mon)
  }

  predicate ValidClock(et: Tm) {
    0 <= et.hour < 24 && 0 <= et.min < 60 && 0 <= et.sec < 60
  }

  /** Whole days from 1970-01-01 to the start of a year. */
  function YearStart(years: int): int { years * 365 + Div(years + 1, 4) }

  /** A time from 1970 on as time_to_gm fills it: every field in range, tm_yday counted from the
      first of January, tm_wday from a Thursday. */
  predicate Canonical(et: Tm) {
    var leap := Leap(et.year - 70);
    && et.year >= 70 && ValidDate(leap, et.mon, et.mday) && ValidClock(et)
    && et.yday == DaysBefore(leap, et.mon) + et.mday - 1
    && et.wday == (YearStart(et.year - 70) + et.yday + 4) % 7
  }

  /** Divided by 60, 60 and 24 in turn, a time is its day and its clock. */
  lemma ClockSplit(time: nat)
    ensures time == time / 60 / 60 / 24 * 86400 + time / 60 / 60 % 24 * 3600 + time / 60 % 60 * 60 + time % 60
  {
  }

  /** The first days of the four years of a 1461-day cycle. */
  lemma CycleYears(q: nat)
    ensures YearStart(4 * q) == 1461 * q
    ensures YearStart(4 * q + 1) == 1461 * q + 365
    ensures YearStart(4 * q + 2) == 1461 * q + 730
    ensures YearStart(4 * q + 3) == 1461 * q + 1096
    ensures !Leap(4 * q) && !Leap(4 * q + 1) && Leap(4 * q + 2) && !Leap(4 * q + 3)
  {
  }

  /** A day before 1970, by C's division, in cycles and a rest that are not positive. */
  lemma DaySplit(days: int)
    requires days <= 0
    ensures -1461 < Mod(days, 1461) <= 0 && Div(days, 1461) <= 0
    ensures Div(days, 1461) < 0 <==> days <= -1461
  {
  }

  /** The year search inside the cycle. */
  method SplitYears(days: int) returns (years: int, leap: bool, yday: int)
    ensures days >= 0 ==>
      && years >= 0 && days == YearStart(years) + yday && leap == Leap(years)
      && 0 <= yday < YearLength(leap)
    ensures days <= 0 ==> years == Div(days, 1461) * 4 && yday == Mod(days, 1461) && !leap
  {
    years := Div(days, 4 * 365 + 1) * 4;
    if days >= 0 {
      CycleYears(days / (4 * 365 + 1));
    } else {
      DaySplit(days);
    }
    yday := Mod(days, 4 * 365 + 1);
    leap := false;
    if yday >= 365 {
      if yday >= 365 * 2 {
        if yday >= 365 * 3 + 1 {
          years := years + 3;
          yday := yday - (365 * 3 + 1);
        } else {
          years := years + 2;
          yday := yday - 365 * 2;
          leap := true;
        }
      } else {
        years := years + 1;
        yday := yday - 365;
      }
    }
  }

  /** The year, and the month found by LowerBound. */
  method SplitDays(days: int) returns (years: int, leap: bool, yday: int, mon: nat)
    ensures mon < 12
    ensures days >= 0 ==>
      && years >= 0 && days == YearStart(years) + yday && leap == Leap(years)
      && DaysBefore(leap, mon) <= yday < MonthEnd(leap, mon)
    ensures days <= 0 ==>
      years == Div(days, 1461) * 4 && yday == Mod(days, 1461) && !leap && mon == 0
  {
    years, leap, yday := SplitYears(days);
    var m := LowerBound(leap, yday + 1);
    mon := m - 1;
    assert mon > 0 ==> DaysBefore(leap, mon) < yday + 1;
    if days <= 0 {
      DaySplit(days);
    }
  }

  /** The day of a second, by C's division. */
  function DayOf(time: int): int { Div(Div(Div(time, 60), 60), 24) }

  /** One four-year cycle before 1970: after this second C's truncating division still adds up. */
  const TRUNCATION_BOUND := -1461 * 86400

  lemma TruncatedClock(time: int)
    requires time < 0
    ensures var days := DayOf(time);
      && (days <= -1461 <==> time <= TRUNCATION_BOUND) && days <= 0
      && time == days * 86400 + Mod(Div(Div(time, 60), 60), 24) * 3600 + Mod(Div(time, 60), 60) * 60
                   + Mod(time, 60)
    ensures -60 < Mod(time, 60) <= 0 && -60 < Mod(Div(time, 60), 60) <= 0
    ensures -24 < Mod(Div(Div(time, 60), 60), 24) <= 0
  {
  }

  /** A whole cycle or more before 1970, gm_to_time is a day late. */
  lemma CyclesBefore(days: int)
    requires days <= 0
    ensures YearStart(Div(days, 1461) * 4) + Mod(days, 1461) == if days <= -1461 then days + 1 else days
  {
    var q := Div(days, 1461);
    assert days <= -1461 <==> q <= -1;
    if q <= -1 {
      assert Div(4 * q + 1, 4) == q + 1;
    }
  }

  /** A time before 1970 as time_to_gm fills it: counted down from January of the year 1970 or of a
      multiple of four years before it, in fields that are not positive. */
  predicate CountedDown(et: Tm) {
    && et.mon == 0 && et.year <= 70 && (et.year - 70) % 4 == 0
    && -1461 < et.yday <= 0 && et.mday == et.yday + 1
    && -24 < et.hour <= 0 && -60 < et.min <= 0 && -60 < et.sec <= 0
  }

  /** What time_to_gm makes of a second.  gm_to_time gives the second back exactly when it is after
      TRUNCATION_BOUND, and is a day late from there down. */
  predicate IsSplit(et: Tm, time: int) {
    && 0 <= et.mon < 12
    && GmToTime(et) == (if time > TRUNCATION_BOUND then time else time + 86400)
    && (time >= 0 ==> Canonical(et))
    && (time < 0 ==> CountedDown(et))
    && (time < 0 ==> (et.year < 70 <==> time <= TRUNCATION_BOUND))
    && (time < 0 ==> et.wday == Mod(DayOf(time) + 4, 7))
  }

  /** The divisions by 60, 60 and 24. */
  method SplitClock(time: int) returns (days: int, hour: int, min: int, sec: int)
    ensures days == DayOf(time) && time == days * 86400 + hour * 3600 + min * 60 + sec
    ensures time >= 0 ==> days >= 0 && 0 <= hour < 24 && 0 <= min < 60 && 0 <= sec < 60
    ensures time < 0 ==> days <= 0 && -24 < hour <= 0 && -60 < min <= 0 && -60 < sec <= 0
    ensures time < 0 ==> (days <= -1461 <==> time <= TRUNCATION_BOUND)
  {
    var t := time;
    sec := Mod(t, 60);
    t := Div(t, 60);
    min := Mod(t, 60);
    t := Div(t, 60);
    hour := Mod(t, 24);
    days := Div(t, 24);
    if time >= 0 {
      ClockSplit(time);
    } else {
      TruncatedClock(time);
    }
  }

  lemma DownFromEpoch(time: int, days: int, et: Tm)
    requires time < 0 && days <= 0 && (days <= -1461 <==> time <= TRUNCATION_BOUND)
    requires time == days * 86400 + et.hour * 3600 + et.min * 60 + et.sec
    requires -24 < et.hour <= 0 && -60 < et.min <= 0 && -60 < et.sec <= 0
    requires et.year == Div(days, 1461) * 4 + 70 && et.yday == Mod(days, 1461)
    requires et.mon == 0 && et.mday == et.yday + 1
    ensures CountedDown(et) && (et.year < 70 <==> time <= TRUNCATION_BOUND)
    ensures GmToTime(et) == if time > TRUNCATION_BOUND then time else time + 86400
  {
    DaySplit(days);
    CyclesBefore(days);
  }

  lemma UpFromEpoch(time: int, days: int, et: Tm)
    requires time == days * 86400 + et.hour * 3600 + et.min * 60 + et.sec && ValidClock(et)
    requires et.year >= 70 && days == YearStart(et.year - 70) + et.yday && et.wday == (days + 4) % 7
    requires ValidDate(Leap(et.year - 70), et.mon, et.mday)
    requires et.yday == DaysBefore(Leap(et.year - 70), et.mon) + et.mday - 1
    ensures Canonical(et) && GmToTime(et) == time
  {
  }

  /** time_to_gm: from 1970 on, the unique canonical time of the given second.  Earlier times are
      split with C's truncating division, as the code does. */
  method TimeToGm(time: int) returns (et: Tm)
    ensures IsSplit(et, time)
  {
    var days, hour, min, sec := SplitClock(time);
    var wday := Mod(days + 4, 7);
    var years, leap, yday, mon := SplitDays(days);
    et := Tm(sec, min, hour, yday + 1 - DaysBefore(leap, mon), mon, years + 70, wday, yday);
    if time < 0 {
      DownFromEpoch(time, days, et);
    } else {
      UpFromEpoch(time, days, et);
    }
  }

  // ----- order and uniqueness -----

  /** Time::compare: field by field, most significant first. */
  function Compare(a: Tm, b: Tm): int {
    if a.year != b.year then a.year - b.year
    else if a.mon != b.mon then a.mon - b.mon
    else if a.mday != b.mday then a.mday - b.mday
    else if a.hour != b.hour then a.hour - b.hour
    else if a.min != b.min then a.min - b.min
    else a.sec - b.sec
  }

  /** A year ends no later than any following year starts. */
  lemma YearsIncrease(y: int, z: int)
    requires 0 <= y < z
    ensures YearStart(y) + YearLength(Leap(y)) <= YearStart(z)
  {
  }

  /** The day of a date, counted from 1970-01-01. */
  function DayNumber(et: Tm): int
    requires 0 <= et.mon < 12
  {
    YearStart(et.year - 70) + DaysBefore(Leap(et.year - 70), et.mon) + et.mday - 1
  }

  predicate DateBefore(a: Tm, b: Tm) {
    a.year < b.year || (a.year == b.year && (a.mon < b.mon || (a.mon == b.mon && a.mday < b.mday)))
  }

  lemma MonthOrders(leap: bool, mon: int, mday: int, next: int)
    requires ValidDate(leap, mon, mday) && mon < next < 12
    ensures DaysBefore(leap, mon) + mday <= DaysBefore(leap, next)
  {
    DaysIncrease(leap, mon + 1, next);
  }

  lemma WithinYear(leap: bool, mon: int, mday: int)
    requires ValidDate(leap, mon, mday)
    ensures 1 <= DaysBefore(leap, mon) + mday <= YearLength(leap)
  {
    DaysIncrease(leap, 0, mon);
    if mon < 11 {
      DaysIncrease(leap, mon + 1, 11);
    }
  }

  lemma DateOrdersDays(y: int, m: int, d: int, y': int, m': int, d': int)
    requires 0 <= y && ValidDate(Leap(y), m, d) && 0 <= y' && ValidDate(Leap(y'), m', d')
    requires y < y' || (y == y' && (m < m' || (m == m' && d < d')))
    ensures YearStart(y) + DaysBefore(Leap(y), m) + d < YearStart(y') + DaysBefore(Leap(y'), m') + d'
  {
    if y < y' {
      YearsIncrease(y, y');
      WithinYear(Leap(y), m, d);
      WithinYear(Leap(y'), m', d');
    } else if m < m' {
      MonthOrders(Leap(y), m, d, m');
    }
  }

  lemma DateOrders(a: Tm, b: Tm)
    requires Canonical(a) && Canonical(b) && DateBefore(a, b)
    ensures DayNumber(a) < DayNumber(b)
  {
    DateOrdersDays(a.year - 70, a.mon, a.mday, b.year - 70, b.mon, b.mday);
  }

  function Clock(et: Tm): int { et.hour * 3600 + et.min * 60 + et.sec }

  lemma CompareLess(a: Tm, b: Tm)
    requires Canonical(a) && Canonical(b) && Compare(a, b) < 0
    ensures GmToTime(a) < GmToTime(b)
  {
    assert GmToTime(a) == DayNumber(a) * 86400 + Clock(a);
    assert GmToTime(b) == DayNumber(b) * 86400 + Clock(b);
    if DateBefore(a, b) {
      DateOrders(a, b);
    }
  }

  /** Time::compare orders canonical times exactly as their seconds. */
  lemma CompareIsTimeOrder(a: Tm, b: Tm)
    requires Canonical(a) && Canonical(b)
    ensures Compare(a, b) < 0 <==> GmToTime(a) < GmToTime(b)
    ensures Compare(a, b) == 0 <==> GmToTime(a) == GmToTime(b)
  {
    if Compare(a, b) < 0 {
      CompareLess(a, b);
    } else if Compare(a, b) > 0 {
      CompareLess(b, a);
    }
  }

  /** gm_to_time is injective on canonical times, and not negative: with TimeToGm's contract the
      two conversions are mutually inverse, tm_yday and tm_wday included. */
  lemma CanonicalIsUnique(a: Tm, b: Tm)
    requires Canonical(a) && Canonical(b)
    ensures GmToTime(a) == GmToTime(b) <==> a == b
  {
    CompareIsTimeOrder(a, b);
  }

  /** Parts counted down from zero are determined by their sum. */
  lemma PartsDown(q: int, r: int, q': int, r': int, size: int)
    requires size > 0 && -size < r <= 0 && -size < r' <= 0 && q * size + r == q' * size + r'
    ensures q == q' && r == r'
  {
    assert size * (q - q') == q * size - q' * size;
    FarFromZero(size, q - q');
  }

  lemma ClockDown(h: int, m: int, s: int, h': int, m': int, s': int)
    requires -24 < h <= 0 && -60 < m <= 0 && -60 < s <= 0
    requires -24 < h' <= 0 && -60 < m' <= 0 && -60 < s' <= 0
    requires h * 3600 + m * 60 + s == h' * 3600 + m' * 60 + s'
    ensures h == h' && m == m' && s == s'
  {
    PartsDown(h * 60 + m, s, h' * 60 + m', s', 60);
    PartsDown(h, m, h', m', 60);
  }

  lemma CountedDownIsUnique(a: Tm, b: Tm)
    requires CountedDown(a) && CountedDown(b) && (a.year < 70 <==> b.year < 70)
    ensures GmToTime(a) == GmToTime(b) && a.wday == b.wday <==> a == b
  {
    if GmToTime(a) == GmToTime(b) && a.wday == b.wday {
      SameParts(a, b);
    }
  }

  lemma SameParts(a: Tm, b: Tm)
    requires CountedDown(a) && CountedDown(b) && (a.year < 70 <==> b.year < 70)
    requires DayNumber(a) * 86400 + Clock(a) == DayNumber(b) * 86400 + Clock(b) && a.wday == b.wday
    ensures a == b
  {
    var q, q' := (a.year - 70) / 4, (b.year - 70) / 4;
    CycleOf(q, a.yday);
    CycleOf(q', b.yday);
    PartsDown(DayNumber(a), Clock(a), DayNumber(b), Clock(b), 86400);
    PartsDown(q, a.yday, q', b.yday, 1461);
    ClockDown(a.hour, a.min, a.sec, b.hour, b.min, b.sec);
  }

  /** Where a day counted down stands: cycles before 1970 start a day late. */
  lemma CycleOf(q: int, yday: int)
    requires q <= 0 && -1461 < yday <= 0
    ensures YearStart(4 * q) + yday == 1461 * q + yday + (if q < 0 then 1 else 0)
  {
    if q < 0 {
      assert Div(4 * q + 1, 4) == q + 1;
    }
  }

  /** The conversion is determined on every second: no other fields satisfy the contract of
      time_to_gm. */
  lemma SplitIsUnique(a: Tm, b: Tm, time: int)
    ensures IsSplit(a, time) && IsSplit(b, time) ==> a == b
  {
    if IsSplit(a, time) && IsSplit(b, time) {
      if time >= 0 {
        CanonicalIsUnique(a, b);
      } else {
        CountedDownIsUnique(a, b);
      }
    }
  }

  /** ExtendedTime::normalize on a canonical time changes nothing. */
  method Normalize(et: Tm) returns (r: Tm)
    requires 0 <= et.mon < 12
    ensures 0 <= r.mon < 12 && (GmToTime(et) >= 0 ==> Canonical(r))
    ensures GmToTime(r) == GmToTime(et) <==> GmToTime(et) > TRUNCATION_BOUND
    ensures Canonical(et) ==> r == et
  {
    r := TimeToGm(GmToTime(et));
    if Canonical(et) {
      CanonicalNotNegative(et);
      CanonicalIsUnique(r, et);
    }
  }

  lemma CanonicalNotNegative(et: Tm)
    requires Canonical(et)
    ensures GmToTime(et) >= 0
  {
    DaysIncrease(Leap(et.year - 70), 0, et.mon);
    assert DayNumber(et) >= 0 && Clock(et) >= 0;
  }

  // ----- the real calendar -----

  /** Thirty days hath September. */
  function MonthLength(leap: bool, mon: nat): nat
    requires mon < 12
  {
    if mon == 1 then (if leap then 29 else 28)
    else if mon == 3 || mon == 5 || mon == 8 || mon == 10 then 30
    else 31
  }

  function MonthsBefore(leap: bool, mon: nat): nat
    requires mon <= 12
  {
    if mon == 0 then 0 else MonthsBefore(leap, mon - 1) + MonthLength(leap, mon - 1)
  }

  /** The table gives the months their lengths, and the years theirs. */
  lemma {:induction false} TableIsSum(leap: bool, mon: nat)
    requires mon < 12
    ensures DaysBefore(leap, mon) == MonthsBefore(leap, mon)
    ensures MonthEnd(leap, mon) == DaysBefore(leap, mon) + MonthLength(leap, mon)
  {
    if mon > 0 {
      TableIsSum(leap, mon - 1);
    }
  }

  predicate GregorianLeap(year: int) { year % 4 == 0 && (year % 100 != 0 || year % 400 == 0) }

  /** A Gregorian date from 1970-01-01 on, with a clock time. */
  predicate GregorianTime(et: Tm) {
    && et.year >= 70 && 0 <= et.mon < 12
    && 1 <= et.mday <= MonthLength(GregorianLeap(et.year + 1900), et.mon) && ValidClock(et)
  }

  /** Section 4.16 (Seconds Since the Epoch), Base Definitions of IEEE Std 1003.1-2017, with
      tm_yday the Gregorian day of the year. */
  function PosixSeconds(et: Tm): int
    requires GregorianTime(et)
  {
    var yday := MonthsBefore(GregorianLeap(et.year + 1900), et.mon) + et.mday - 1;
    et.sec + et.min * 60 + et.hour * 3600 + yday * 86400 + (et.year - 70) * 31536000 +
      (et.year - 69) / 4 * 86400 - (et.year - 1) / 100 * 86400 + (et.year + 299) / 400 * 86400
  }

  predicate BeforeMarch2100(et: Tm) { et.year < 200 || (et.year == 200 && et.mon < 2) }

  /** The centuries after 2000 that are not Gregorian leap years and whose February has passed. */
  function SkippedLeapDays(et: Tm): int {
    var full := (et.year - 1) / 100 - (et.year + 299) / 400;
    if et.mon >= 2 && Leap(et.year - 70) && !GregorianLeap(et.year + 1900) then full + 1 else full
  }

  lemma GregorianLeapIsLeap(year: int)
    requires year >= 70
    ensures GregorianLeap(year + 1900) ==> Leap(year - 70)
    ensures Div(year - 69, 4) == (year - 69) / 4
  {
  }

  lemma ExtraDay(mon: nat)
    requires mon < 12
    ensures DaysBefore(true, mon) == DaysBefore(false, mon) + if mon >= 2 then 1 else 0
  {
  }

  /** gm_to_time runs ahead of the real calendar by exactly the leap days it should have skipped. */
  lemma AheadBySkippedDays(et: Tm)
    requires GregorianTime(et)
    ensures GmToTime(et) == PosixSeconds(et) + 86400 * SkippedLeapDays(et)
  {
    TableIsSum(GregorianLeap(et.year + 1900), et.mon);
    GregorianLeapIsLeap(et.year);
    ExtraDay(et.mon);
    var leap, gregorian := Leap(et.year - 70), GregorianLeap(et.year + 1900);
    assert DaysBefore(leap, et.mon) == DaysBefore(gregorian, et.mon) +
      if et.mon >= 2 && leap && !gregorian then 1 else 0;
  }

  lemma SkippedFrom2100(et: Tm)
    requires GregorianTime(et)
    ensures SkippedLeapDays(et) == 0 <==> BeforeMarch2100(et)
  {
  }

  /** gm_to_time equals the POSIX formula on Gregorian dates up to 2100-02-28 and on no later one. */
  lemma RealCalendarUntil2100(et: Tm)
    requires GregorianTime(et)
    ensures GmToTime(et) == PosixSeconds(et) <==> BeforeMarch2100(et)
  {
    AheadBySkippedDays(et);
    SkippedFrom2100(et);
  }
}
