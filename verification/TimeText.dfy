/** Time::gm_ft and Time::set_ft: printing a second of GMT and reading it back. */
module TimeText {
  import opened Options
  import opened Calendar
  import opened TimeFormat
  import opened TimeParse
  import opened ExtendedTimes
  import opened DateTimeText
  import IntText
  import TimeArithmetic

  type Time = TimeArithmetic.Time

  /** The first second of a year from 1970 on, and of those that need five digits or leave int. */
  function FirstSecond(year: int): int { YearStart(year - 1970) * 86400 }

  const YEAR_10000 := FirstSecond(1_0000)
  const TM_YEAR_LIMIT := FirstSecond(0x8000_0000 + 1900)

  /** Cycles and seconds before 1970 after which tm_year would be below int. */
  const CYCLES_OF_INT := 536870930
  const TM_YEAR_BELOW := -(CYCLES_OF_INT * 1461 * 86400)

  lemma WithinDays(start: int, day: int, length: int, clock: int)
    requires start <= day < start + length && 0 <= clock < 86400
    ensures start * 86400 <= day * 86400 + clock < (start + length) * 86400
  {
  }

  lemma SecondInYear(tm: Tm)
    requires Canonical(tm)
    ensures var y := tm.year - 70;
      YearStart(y) * 86400 <= GmToTime(tm) < (YearStart(y) + YearLength(Leap(y))) * 86400
  {
    var y := tm.year - 70;
    WithinYear(Leap(y), tm.mon, tm.mday);
    WithinDays(YearStart(y), DayNumber(tm), YearLength(Leap(y)), Clock(tm));
  }

  lemma YearOfSecond(tm: Tm, year: int)
    requires Canonical(tm) && year >= 1970
    ensures GmToTime(tm) < FirstSecond(year) <==> tm.year + 1900 < year
  {
    var y := tm.year - 70;
    SecondInYear(tm);
    if y < year - 1970 {
      YearsIncrease(y, year - 1970);
    } else if year - 1970 < y {
      YearsIncrease(year - 1970, y);
    }
  }

  lemma TenAndRest(q: int, r: int)
    requires 0 <= r < 10
    ensures (q * 10 + r) / 10 == q && (q * 10 + r) % 10 == r
  {
  }

  lemma {:induction false} DigitsForgetTheRest(width: nat, x: nat)
    ensures Digits(width, x % IntText.Pow10(width)) == Digits(width, x)
    decreases width
  {
    if width > 0 {
      PowStep(width, x);
      TenAndRest(x / 10 % IntText.Pow10(width - 1), x % 10);
      DigitsForgetTheRest(width - 1, x / 10);
    }
  }

  /** The year as four digits show it. */
  function ShownYear(et: Extended): Extended {
    et.(tm := et.tm.(year := (et.tm.year + 1900) % 1_0000 - 1900))
  }

  lemma SameYear(et: Extended)
    requires et.tm.year >= 0
    ensures Printed(ShownYear(et), 'Y') == Printed(et, 'Y')
  {
    assert IntText.Pow10(4) == 1_0000;
    DigitsForgetTheRest(4, et.tm.year + 1900);
  }

  lemma SameText(et: Extended)
    requires et.tm.year >= 0
    ensures Date(ShownYear(et)) == Date(et) && ClockText(ShownYear(et)) == ClockText(et)
  {
    SameYear(et);
  }

  // ----- the format of set_ft -----

  lemma DirPrints(c: char, rest: string)
    requires IsNumeric(c) && RoundTripFormat(rest)
    ensures RoundTripFormat(Dir(c, rest))
    ensures forall d :: Prints(Dir(c, rest), d) <==> d == c || Prints(rest, d)
  {
  }

  lemma LitPrints(c: char, rest: string)
    requires c != '%' && RoundTripFormat(rest)
    ensures RoundTripFormat(Lit(c, rest))
    ensures forall d :: Prints(Lit(c, rest), d) <==> Prints(rest, d)
  {
  }

  lemma ThreePrint(a: char, b: char, c: char, sep: char, rest: string)
    requires IsNumeric(a) && IsNumeric(b) && IsNumeric(c) && sep != '%' && RoundTripFormat(rest)
    ensures var f := Dir(a, Lit(sep, Dir(b, Lit(sep, Dir(c, rest)))));
      && RoundTripFormat(f)
      && forall d :: Prints(f, d) <==> d == a || d == b || d == c || Prints(rest, d)
  {
    var last := Dir(c, rest);
    var middle := Dir(b, Lit(sep, last));
    DirPrints(c, rest);
    LitPrints(sep, last);
    DirPrints(b, Lit(sep, last));
    LitPrints(sep, middle);
    DirPrints(a, Lit(sep, middle));
  }

  predicate PrintsWholeTime(format: string) {
    && RoundTripFormat(format)
    && Prints(format, 'Y') && Prints(format, 'm') && Prints(format, 'd')
    && Prints(format, 'H') && Prints(format, 'M') && Prints(format, 'S')
  }

  lemma SpelledPrintsAll()
    ensures PrintsWholeTime(SpelledFormat()) && !Prints(SpelledFormat(), 'q')
  {
    ThreePrint('H', 'M', 'S', ':', "");
    LitPrints(' ', ClockFormat(""));
    ThreePrint('Y', 'm', 'd', '-', Lit(' ', ClockFormat("")));
  }

  lemma CopiesWholeTime(base: Extended, et: Extended, format: string)
    requires 0 <= et.tm.mon < 12 && PrintsWholeTime(format)
    ensures var r := Copied(base, et, format);
      && 0 <= r.tm.mon < 12 && GmToTime(r.tm) == GmToTime(et.tm)
      && r.usec == if Prints(format, 'q') then et.usec else base.usec
  {
    CopiedFields(base, et, format, 'q');
    CopiedFields(base, et, format, 'Y');
    CopiedFields(base, et, format, 'm');
    CopiedFields(base, et, format, 'd');
    CopiedFields(base, et, format, 'H');
    CopiedFields(base, et, format, 'M');
    CopiedFields(base, et, format, 'S');
  }

  /** Any format that prints date and clock gives back the second, whatever was in the fields, and the
      microseconds exactly when it prints them too. */
  lemma ReadsWholeTime(base: Extended, et: Extended, format: string, strict: bool)
    requires Printable(et) && ValidFields(et) && PrintsWholeTime(format)
    ensures Text(et, format).Some?
    ensures var r := Parse(base, Text(et, format).value, format, strict);
      && r.Read? && 0 <= r.et.tm.mon < 12 && GmToTime(r.et.tm) == GmToTime(et.tm)
      && r.et.usec == if Prints(format, 'q') then et.usec else base.usec
  {
    TextDefined(et, format);
    var text := Text(et, format).value;
    assert text + "" == text;
    RoundTrip(base, et, format, "", strict, text);
    CopiesWholeTime(base, et, format);
  }

  /** What set_ft makes of the text of gm_ft; base holds the fields it starts from. */
  function ReadBack(base: Extended, et: Extended, strict: bool): Parsed {
    Parse(base, FtOf(et), SpelledFormat(), strict)
  }

  function FtOf(et: Extended): string { Date(et) + (" " + ClockText(et)) }

  lemma FtOfText(et: Extended)
    requires Printable(et)
    ensures Text(et, SpelledFormat()) == Some(FtOf(et))
  {
    Spelled();
    FtText(et);
  }

  predicate Recovers(base: Extended, et: Extended, strict: bool)
    requires 0 <= et.tm.mon < 12
  {
    var r := ReadBack(base, et, strict);
    r.Read? && 0 <= r.et.tm.mon < 12 && GmToTime(r.et.tm) == GmToTime(et.tm)
  }

  lemma ReadsFt(base: Extended, et: Extended, strict: bool)
    requires Printable(et) && ValidFields(et)
    ensures Recovers(base, et, strict)
  {
    FtOfText(et);
    SpelledPrintsAll();
    ReadsWholeTime(base, et, SpelledFormat(), strict);
  }

  lemma ParseDir(et: Extended, v: string, c: char, rest: string, strict: bool)
    requires ReadDirective(et, v, c, strict).Failed?
    ensures Parse(et, v, Dir(c, rest), strict).Failed?
  {
  }

  lemma ShownYearDigits(base: Extended, et: Extended, tail: string, strict: bool)
    requires et.tm.year >= 0 && (et.tm.year + 1900) % 1_0000 < 1970
    ensures ReadField(base, Printed(et, 'Y') + tail, 'Y', strict).Failed?
  {
    assert IntText.Pow10(4) == 1_0000;
    ReadsBack(4, et.tm.year + 1900, tail, base.tm.year, strict);
  }

  /** A year shown as less than 1970 is refused. */
  lemma RefusesYear(base: Extended, et: Extended, strict: bool)
    requires et.tm.year >= 0 && (et.tm.year + 1900) % 1_0000 < 1970
    ensures ReadBack(base, et, strict).Failed?
  {
    var tail := "-" + Printed(et, 'm') + "-" + Printed(et, 'd') + (" " + ClockText(et));
    YearFirst(Printed(et, 'Y'), "-", Printed(et, 'm'), "-", Printed(et, 'd'), " " + ClockText(et));
    ShownYearDigits(base, et, tail, strict);
    ReadsNumeric(base, FtOf(et), 'Y', strict);
    ParseDir(base, FtOf(et), 'Y', Lit('-', Dir('m', Lit('-', Dir('d', Lit(' ', ClockFormat("")))))), strict);
  }

  lemma YearFirst(a: string, b: string, c: string, d: string, e: string, f: string)
    ensures a + b + c + d + e + f == a + (b + c + d + e + f)
  {
  }

  lemma ShownYearIsEarlier(et: Extended)
    requires Canonical(et.tm) && et.tm.year > 8099 && (et.tm.year + 1900) % 1_0000 >= 1970
    ensures GmToTime(ShownYear(et).tm) < GmToTime(et.tm)
  {
  }

  lemma RecoversShown(base: Extended, et: Extended, strict: bool)
    requires 0 <= et.tm.mon < 12 && et.tm.year >= 0
    ensures Recovers(base, ShownYear(et), strict) ==>
      (Recovers(base, et, strict) <==> GmToTime(ShownYear(et).tm) == GmToTime(et.tm))
  {
    SameText(et);
  }

  lemma ShownIsValid(et: Extended)
    requires Canonical(et.tm) && Printable(et) && 0 <= et.usec < 1_000_000
    requires (et.tm.year + 1900) % 1_0000 >= 1970
    ensures Printable(ShownYear(et)) && ValidFields(ShownYear(et))
  {
  }

  lemma RecoversIfShown(base: Extended, et: Extended, strict: bool)
    requires Canonical(et.tm) && Printable(et) && 0 <= et.usec < 1_000_000
    requires (et.tm.year + 1900) % 1_0000 >= 1970
    ensures Recovers(base, et, strict) <==> GmToTime(ShownYear(et).tm) == GmToTime(et.tm)
  {
    ShownIsValid(et);
    ReadsFt(base, ShownYear(et), strict);
    RecoversShown(base, et, strict);
  }

  lemma RefusalLoses(base: Extended, et: Extended, strict: bool)
    requires 0 <= et.tm.mon < 12 && et.tm.year >= 0 && (et.tm.year + 1900) % 1_0000 < 1970
    ensures !Recovers(base, et, strict)
  {
    RefusesYear(base, et, strict);
  }

  lemma FtRecovers(base: Extended, et: Extended, strict: bool)
    requires Printable(et) && Canonical(et.tm) && 0 <= et.usec < 1_000_000 && et.tm.year <= 8099
    ensures Recovers(base, et, strict)
  {
    DayFits(Leap(et.tm.year - 70), et.tm.mon, et.tm.mday);
    ReadsFt(base, et, strict);
  }

  lemma FtLoses(base: Extended, et: Extended, strict: bool)
    requires Printable(et) && Canonical(et.tm) && 0 <= et.usec < 1_000_000
    ensures et.tm.year > 8099 ==> !Recovers(base, et, strict)
  {
    if et.tm.year > 8099 {
      if (et.tm.year + 1900) % 1_0000 < 1970 {
        RefusalLoses(base, et, strict);
      } else {
        ShownYearIsEarlier(et);
        RecoversIfShown(base, et, strict);
      }
    }
  }

  /** set_ft gives back the second that gm_ft printed exactly up to the year 9999. */
  lemma FtRoundTripsUntil9999(base: Extended, et: Extended, strict: bool)
    requires Printable(et) && Canonical(et.tm) && 0 <= et.usec < 1_000_000
    ensures Recovers(base, et, strict) <==> et.tm.year <= 8099
  {
    if et.tm.year <= 8099 {
      FtRecovers(base, et, strict);
    } else {
      FtLoses(base, et, strict);
    }
  }

  lemma DayFits(leap: bool, mon: int, mday: int)
    requires ValidDate(leap, mon, mday)
    ensures mday <= 31
  {
  }

  // ----- what a successful parse leaves -----

  predicate FieldInRange(et: Extended, c: char) {
    0 <= Field(et, c) && InRange(c, Field(et, c) + Offset(c))
  }

  lemma NumberNotNegative(width: nat, v: string, was: int, strict: bool)
    ensures var n := ReadNumber(width, v, was, strict); n.ok ==> n.value >= 0
  {
    var k := DigitRun(v, width);
    if k > 0 {
      RunIsDigits(v, width);
      NotNegative(v[..k]);
    }
  }

  lemma FieldRead(et: Extended, v: string, d: char, strict: bool, c: char)
    requires IsNumeric(c) && FieldInRange(et, c) && Width(d) > 0
    ensures var r := ReadField(et, v, d, strict); r.Read? ==> FieldInRange(r.et, c)
  {
    NumberNotNegative(Width(d), v, Field(et, d), strict);
  }

  lemma DirectiveKeepsRange(et: Extended, v: string, d: char, strict: bool, c: char)
    requires IsNumeric(c) && FieldInRange(et, c)
    ensures var r := ReadDirective(et, v, d, strict); r.Read? ==> FieldInRange(r.et, c)
  {
    if Width(d) > 0 {
      FieldRead(et, v, d, strict, c);
    }
  }

  /** A successful parse, by any format, leaves every numeric field in its range if it was before:
      the month an index of the month table, and no field negative. */
  lemma {:induction false} FieldStaysInRange(et: Extended, v: string, format: string, strict: bool, c: char)
    requires IsNumeric(c) && FieldInRange(et, c)
    ensures var r := Parse(et, v, format, strict); r.Read? ==> FieldInRange(r.et, c)
    decreases |format|
  {
    if format == "" {
    } else if format[0] != '%' {
      var r := ReadLiteral(et, v, format[0], strict);
      if r.Read? {
        FieldStaysInRange(r.et, r.rest, format[1..], strict, c);
      }
    } else if |format| > 1 {
      var r := ReadDirective(et, v, format[1], strict);
      DirectiveKeepsRange(et, v, format[1], strict, c);
      if r.Read? {
        FieldStaysInRange(r.et, r.rest, format[2..], strict, c);
      }
    }
  }

  /** A field that the format does not print is not written when its text is parsed. */
  lemma {:induction false} UnreadFieldStays(et: Extended, v: string, format: string, strict: bool, c: char)
    requires RoundTripFormat(format) && IsNumeric(c) && !Prints(format, c)
    ensures var r := Parse(et, v, format, strict); r.Read? ==> Field(r.et, c) == Field(et, c)
    decreases |format|
  {
    if format == "" {
    } else if format[0] != '%' {
      var r := ReadLiteral(et, v, format[0], strict);
      if r.Read? {
        UnreadFieldStays(r.et, r.rest, format[1..], strict, c);
      }
    } else {
      var r := ReadDirective(et, v, format[1], strict);
      if r.Read? {
        UnreadFieldStays(r.et, r.rest, format[2..], strict, c);
      }
    }
  }

  predicate FieldsInRange(et: Extended) {
    && FieldInRange(et, 'Y') && FieldInRange(et, 'm') && FieldInRange(et, 'd')
    && FieldInRange(et, 'H') && FieldInRange(et, 'M') && FieldInRange(et, 'S') && FieldInRange(et, 'q')
  }

  /** The limits of a clock, a month, its days and microseconds; no year before 1970. */
  predicate Legal(et: Extended) {
    && ValidClock(et.tm) && 1 <= et.tm.mday <= 31 && 0 <= et.tm.mon <= 11 && et.tm.year >= 70
    && 0 <= et.usec < 1_000_000
  }

  lemma LegalExactly(et: Extended)
    ensures Legal(et) <==> FieldsInRange(et)
  {
  }

  /** Whatever the format and the text, a successful parse leaves legal fields. */
  lemma StaysLegal(et: Extended, v: string, format: string, strict: bool)
    requires Legal(et)
    ensures var r := Parse(et, v, format, strict); r.Read? ==> Legal(r.et)
  {
    LegalExactly(et);
    FieldsStayInRange(et, v, format, strict);
    var r := Parse(et, v, format, strict);
    LegalExactly(r.et);
  }

  lemma FieldsStayInRange(et: Extended, v: string, format: string, strict: bool)
    requires FieldsInRange(et)
    ensures var r := Parse(et, v, format, strict); r.Read? ==> FieldsInRange(r.et)
  {
    FieldStaysInRange(et, v, format, strict, 'Y');
    FieldStaysInRange(et, v, format, strict, 'm');
    FieldStaysInRange(et, v, format, strict, 'd');
    FieldStaysInRange(et, v, format, strict, 'H');
    FieldStaysInRange(et, v, format, strict, 'M');
    FieldStaysInRange(et, v, format, strict, 'S');
    FieldStaysInRange(et, v, format, strict, 'q');
  }

  lemma LegalNotNegative(et: Extended)
    requires Legal(et)
    ensures GmToTime(et.tm) >= 0
  {
  }

  // ----- what the printed text denotes -----

  function PartsOf(et: Extended): Parts {
    Parts(Printed(et, 'Y'), Printed(et, 'm'), Printed(et, 'd'), " ",
          Printed(et, 'H'), Printed(et, 'M'), Printed(et, 'S'), "")
  }

  /** Nineteen characters: six numbers of fixed width and one space. */
  predicate IsStamp(p: Parts) {
    && IsNumber(p.year, 4, true) && IsNumber(p.month, 2, true) && IsNumber(p.day, 2, true)
    && IsNumber(p.hour, 2, true) && IsNumber(p.minute, 2, true) && IsNumber(p.second, 2, true)
    && p.gap == " " && p.rest == ""
  }

  /** The numbers are the date and the clock time of a second; of the year the last four digits. */
  predicate StampOf(p: Parts, year: int, sec: int) {
    && IsStamp(p) && IntText.Natural(p.year) == year % 1_0000
    && 1 <= IntText.Natural(p.month) <= 12
    && 1 <= IntText.Natural(p.day) <= MonthLength(Leap(year - 1970), IntText.Natural(p.month) - 1)
    && DayOfDate(year, IntText.Natural(p.month), IntText.Natural(p.day)) == sec / 86400
    && IntText.Natural(p.hour) <= 23 && IntText.Natural(p.minute) <= 59 && IntText.Natural(p.second) <= 59
    && SecondOfDay(p) == sec % 86400
  }

  lemma FtSpells(et: Extended)
    ensures FtOf(et) == TextOf(PartsOf(et)) && |FtOf(et)| == 19
  {
    FiveJoined(Printed(et, 'H'), ":", Printed(et, 'M'), ":", Printed(et, 'S'));
    FiveJoined(Printed(et, 'Y'), "-", Printed(et, 'm'), "-", Printed(et, 'd'));
    assert Printed(et, 'S') + "" == Printed(et, 'S');
    DateBefore(Printed(et, 'Y'), "-", Printed(et, 'm'), "-", Printed(et, 'd'), " " + ClockText(et));
  }

  lemma FiveJoined(a: string, b: string, c: string, d: string, e: string)
    ensures a + b + c + d + e == a + (b + (c + (d + e)))
  {
  }

  lemma DateBefore(a: string, b: string, c: string, d: string, e: string, f: string)
    ensures a + b + c + d + e + f == a + (b + (c + (d + (e + f))))
  {
  }

  lemma TwoDigits(x: nat)
    requires x < 100
    ensures IsNumber(Digits(2, x), 2, true) && IntText.Natural(Digits(2, x)) == x
  {
    assert IntText.Pow10(2) == 100;
    DigitsAreDigits(2, x);
    DigitsDenote(2, x);
  }

  lemma FourDigits(x: nat)
    ensures IsNumber(Digits(4, x), 4, true) && IntText.Natural(Digits(4, x)) == x % 1_0000
  {
    assert IntText.Pow10(4) == 1_0000;
    DigitsAreDigits(4, x);
    DigitsDenote(4, x);
  }

  lemma PartsAre(et: Extended)
    ensures var p := PartsOf(et);
      && p.year == Digits(4, et.tm.year + 1900) && p.month == Digits(2, et.tm.mon + 1)
      && p.day == Digits(2, et.tm.mday)
      && p.hour == Digits(2, et.tm.hour) && p.minute == Digits(2, et.tm.min) && p.second == Digits(2, et.tm.sec)
  {
  }

  lemma PartsDenote(et: Extended)
    requires Legal(et)
    ensures var p := PartsOf(et);
      && IsStamp(p) && IntText.Natural(p.year) == (et.tm.year + 1900) % 1_0000
      && IntText.Natural(p.month) == et.tm.mon + 1 && IntText.Natural(p.day) == et.tm.mday
      && IntText.Natural(p.hour) == et.tm.hour && IntText.Natural(p.minute) == et.tm.min
      && IntText.Natural(p.second) == et.tm.sec
  {
    DateShown(et);
    ClockShown(et);
  }

  lemma DateShown(et: Extended)
    requires Legal(et)
    ensures var p := PartsOf(et);
      && IsNumber(p.year, 4, true) && IsNumber(p.month, 2, true) && IsNumber(p.day, 2, true)
      && IntText.Natural(p.year) == (et.tm.year + 1900) % 1_0000
      && IntText.Natural(p.month) == et.tm.mon + 1 && IntText.Natural(p.day) == et.tm.mday
  {
    YearShown(et);
    PartsAre(et);
    TwoDigits(et.tm.mon + 1);
    TwoDigits(et.tm.mday);
  }

  lemma YearShown(et: Extended)
    requires et.tm.year >= 0
    ensures var s := PartsOf(et).year; IsNumber(s, 4, true) && IntText.Natural(s) == (et.tm.year + 1900) % 1_0000
  {
    var year := et.tm.year + 1900;
    assert PartsOf(et).year == Digits(4, year);
    FourDigits(year);
  }

  lemma ClockShown(et: Extended)
    requires Legal(et)
    ensures var p := PartsOf(et);
      && IsNumber(p.hour, 2, true) && IsNumber(p.minute, 2, true) && IsNumber(p.second, 2, true)
      && IntText.Natural(p.hour) == et.tm.hour && IntText.Natural(p.minute) == et.tm.min
      && IntText.Natural(p.second) == et.tm.sec
  {
    PartsAre(et);
    TwoDigits(et.tm.hour);
    TwoDigits(et.tm.min);
    TwoDigits(et.tm.sec);
  }

  lemma DayAndClock(tm: Tm)
    requires Canonical(tm)
    ensures DayNumber(tm) == GmToTime(tm) / 86400 && Clock(tm) == GmToTime(tm) % 86400
  {
    assert GmToTime(tm) == DayNumber(tm) * 86400 + Clock(tm);
  }

  lemma StampDenotes(p: Parts, tm: Tm)
    requires Canonical(tm) && IsStamp(p) && IntText.Natural(p.year) == (tm.year + 1900) % 1_0000
    requires IntText.Natural(p.month) == tm.mon + 1 && IntText.Natural(p.day) == tm.mday
    requires IntText.Natural(p.hour) == tm.hour && IntText.Natural(p.minute) == tm.min
    requires IntText.Natural(p.second) == tm.sec
    ensures StampOf(p, tm.year + 1900, GmToTime(tm))
  {
    DayAndClock(tm);
    TableIsSum(Leap(tm.year - 70), tm.mon);
  }

  /** From 1970 on the text of gm_ft denotes the second. */
  lemma FtDenotes(et: Extended)
    requires Canonical(et.tm) && 0 <= et.usec < 1_000_000
    ensures StampOf(PartsOf(et), et.tm.year + 1900, GmToTime(et.tm)) && FtOf(et) == TextOf(PartsOf(et))
  {
    CanonicalIsLegal(et);
    PartsDenote(et);
    FtSpells(et);
    StampDenotes(PartsOf(et), et.tm);
  }

  // ----- the members of Time -----

  /** The broken-down time of a second. */
  predicate Splits(et: Extended, sec: int, usec: int) {
    IsSplit(et.tm, sec) && et.usec == usec && Printable(et)
  }

  method GmFt(sec: int, usec: int) returns (text: Option<string>)
    requires TM_YEAR_BELOW < sec < TM_YEAR_LIMIT && 0 <= usec < 1_000_000
    ensures exists et :: Splits(et, sec, usec) && text == Some(FtOf(et))
    ensures sec >= 0 ==> exists p, year :: StampOf(p, year, sec) && text == Some(TextOf(p))
  {
    var time := new ExtendedTime(sec, usec);
    ghost var et := time.Value();
    YearFits(et.tm, sec);
    FieldsAreInts(et, sec);
    FtText(et);
    FtNamesNoDay();
    text := time.Format(FT);
    assert Splits(et, sec, usec);
    if sec >= 0 {
      FtDenotes(et);
    }
  }

  lemma CyclesFit(tm: Tm, q: int)
    requires CountedDown(tm) && tm.year - 70 == 4 * q && q < 0
    ensures q > -CYCLES_OF_INT <==> GmToTime(tm) > TM_YEAR_BELOW + 86400
  {
    CycleOf(q, tm.yday);
  }

  /** The two bounds are exact. */
  lemma YearFits(tm: Tm, sec: int)
    requires IsSplit(tm, sec)
    ensures IsInt(tm.year) <==> TM_YEAR_BELOW < sec < TM_YEAR_LIMIT
  {
    if sec >= 0 {
      YearOfSecond(tm, 0x8000_0000 + 1900);
    } else if tm.year < 70 {
      CyclesFit(tm, (tm.year - 70) / 4);
    }
  }

  lemma FieldsAreInts(et: Extended, sec: int)
    requires IsSplit(et.tm, sec) && IsInt(et.tm.year) && 0 <= et.usec < 1_000_000
    ensures Printable(et)
  {
    if sec >= 0 {
      DayFits(Leap(et.tm.year - 70), et.tm.mon, et.tm.mday);
    }
  }

  /** What Time::set makes of a parse; None stands for the exception. */
  predicate SetTo(time: Option<Time>, r: Parsed) {
    if r.Failed? then time == None
    else 0 <= r.et.tm.mon < 12 && time == Some(TimeArithmetic.Time(GmToTime(r.et.tm), r.et.usec))
  }

  predicate IsEpoch(base: Extended) {
    Canonical(base.tm) && GmToTime(base.tm) == 0 && base.usec == 0
  }

  lemma CanonicalIsLegal(et: Extended)
    requires Canonical(et.tm) && 0 <= et.usec < 1_000_000
    ensures Legal(et)
  {
    DayFits(Leap(et.tm.year - 70), et.tm.mon, et.tm.mday);
  }

  lemma SpelledOut()
    ensures YMD_HMS == SpelledFormat()
  {
    Spelled();
  }

  lemma NoMicroseconds(base: Extended, value: string, strict: bool)
    ensures var r := Parse(base, value, SpelledFormat(), strict); r.Read? ==> r.et.usec == base.usec
  {
    SpelledPrintsAll();
    UnreadFieldStays(base, value, SpelledFormat(), strict, 'q');
  }

  /** Fields that are not read stay those of second 0, and no text is set to a time before it. */
  method Set(value: string, format: string, strict: bool) returns (time: Option<Time>)
    ensures exists base :: IsEpoch(base) && SetTo(time, Parse(base, value, format, strict))
    ensures time.Some? ==> time.value.sec >= 0 && time.value.Valid()
  {
    var et := new ExtendedTime(0, 0);
    ghost var base := et.Value();
    CanonicalIsLegal(base);
    StaysLegal(base, value, format, strict);
    var error := et.FromStr(value, format, strict);
    if error.Some? {
      time := None;
    } else {
      LegalNotNegative(et.Value());
      time := Some(TimeArithmetic.Time(GmToTime(et.tm), et.usec));
    }
    assert IsEpoch(base);
  }

  /** What a parse with the format of set_ft gives: the second that the text spells, if it spells one. */
  lemma SetsExactly(base: Extended, value: string, strict: bool, time: Option<Time>)
    requires base.usec == 0 && SetTo(time, Parse(base, value, SpelledFormat(), strict))
    ensures time.Some? <==> exists p :: Spells(p, strict) && value == TextOf(p)
    ensures forall p :: Spells(p, strict) && value == TextOf(p) ==> time == Some(TimeArithmetic.Time(SecondOf(p), 0))
  {
    ReadExactlySpelled(base, value, strict);
    forall p | Spells(p, strict) && value == TextOf(p)
      ensures time == Some(TimeArithmetic.Time(SecondOf(p), 0))
    {
      SpelledIsRead(base, p, strict);
      FieldsDenote(base, p);
    }
  }

  /** set_ft accepts exactly the texts that spell a date and a clock time, and gives their second. */
  method SetFt(value: string, strict: bool) returns (time: Option<Time>)
    ensures exists base :: IsEpoch(base) && SetTo(time, Parse(base, value, SpelledFormat(), strict))
    ensures time.Some? ==> time.value.sec >= 0 && time.value.usec == 0
    ensures time.Some? <==> exists p :: Spells(p, strict) && value == TextOf(p)
    ensures forall p :: Spells(p, strict) && value == TextOf(p) ==> time == Some(TimeArithmetic.Time(SecondOf(p), 0))
  {
    SpelledOut();
    time := Set(value, YMD_HMS, strict);
    ghost var base :| IsEpoch(base) && SetTo(time, Parse(base, value, SpelledFormat(), strict));
    NoMicroseconds(base, value, strict);
    SetsExactly(base, value, strict, time);
  }

  lemma GivesBack(base: Extended, et: Extended, sec: int, usec: int, strict: bool, back: Option<Time>)
    requires IsEpoch(base) && Splits(et, sec, usec) && sec >= 0 && 0 <= usec < 1_000_000
    requires SetTo(back, ReadBack(base, et, strict)) && (back.Some? ==> back.value.usec == 0)
    ensures back == Some(TimeArithmetic.Time(sec, 0)) <==> sec < YEAR_10000
  {
    YearOfSecond(et.tm, 1_0000);
    FtRoundTripsUntil9999(base, et, strict);
  }

  /** For every second whose year is an int, reading what was printed gives that second exactly when it
      lies between 1970 and the year 10000. */
  method PrintThenRead(sec: int, usec: int, strict: bool) returns (back: Option<Time>)
    requires TM_YEAR_BELOW < sec < TM_YEAR_LIMIT && 0 <= usec < 1_000_000
    ensures back == Some(TimeArithmetic.Time(sec, 0)) <==> 0 <= sec < YEAR_10000
  {
    var text := GmFt(sec, usec);
    ghost var et :| Splits(et, sec, usec) && text == Some(FtOf(et));
    back := SetFt(text.value, strict);
    if sec >= 0 {
      ghost var base :| IsEpoch(base) && SetTo(back, ReadBack(base, et, strict));
      GivesBack(base, et, sec, usec, strict, back);
    }
  }
}
