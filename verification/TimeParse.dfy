/** What ExtendedTime::from_str_ reads, and why it undoes to_str_. */
module TimeParse {
  import opened Options
  import opened Multiples
  import opened Calendar
  import opened TimeFormat
  import IntText

  /** The fields are changed even when parsing fails; `rest` is what was not read. */
  datatype Parsed =
    | Failed(error: string, et: Extended)
    | Read(et: Extended, rest: string)

  /** isspace in the C locale. */
  predicate IsSpace(c: char) { c == ' ' || '\t' <= c <= '\r' }

  function SkipSpaces(v: string): (r: string)
    ensures |r| <= |v| && (r != "" ==> !IsSpace(r[0]))
  {
    if v != "" && IsSpace(v[0]) then SkipSpaces(v[1..]) else v
  }

  // ----- numbers -----

  /** How many digits v starts with, up to a limit. */
  function DigitRun(v: string, limit: nat): (k: nat)
    ensures k <= limit && k <= |v|
  {
    if limit == 0 || v == "" || !IntText.IsDigit(v[0]) then 0 else 1 + DigitRun(v[1..], limit - 1)
  }

  datatype Number = Number(ok: bool, value: int, rest: string)

  /** read_number<SIZE>: up to `width` digits, all of them when strict; `value` is kept when there is
      no digit to read. */
  function ReadNumber(width: nat, v: string, value: int, strict: bool): Number {
    var k := DigitRun(v, width);
    if k == 0 || (strict && |v| < width) then Number(false, value, v)
    else Number(!strict || k == width, IntText.Natural(v[..k]), v[k..])
  }

  // ----- directives -----

  /** The numeric directives, with their width. */
  function Width(c: char): nat {
    match c
    case 'd' => 2
    case 'e' => 2
    case 'H' => 2
    case 'm' => 2
    case 'M' => 2
    case 'q' => 6
    case 'S' => 2
    case 'Y' => 4
    case _ => 0
  }

  predicate InRange(c: char, x: int) {
    match c
    case 'd' => 1 <= x <= 31
    case 'e' => 1 <= x <= 31
    case 'H' => x <= 23
    case 'm' => 1 <= x <= 12
    case 'M' => x <= 59
    case 'q' => x < 1_000_000
    case 'S' => x <= 59
    case 'Y' => x >= 1970
    case _ => false
  }

  /** tm_mon counts from 0 and tm_year from 1900. */
  function Offset(c: char): int {
    match c
    case 'm' => 1
    case 'Y' => 1900
    case _ => 0
  }

  function Field(et: Extended, c: char): int {
    match c
    case 'd' => et.tm.mday
    case 'e' => et.tm.mday
    case 'H' => et.tm.hour
    case 'm' => et.tm.mon
    case 'M' => et.tm.min
    case 'q' => et.usec
    case 'S' => et.tm.sec
    case 'Y' => et.tm.year
    case _ => 0
  }

  function WithField(et: Extended, c: char, x: int): Extended {
    match c
    case 'd' => et.(tm := et.tm.(mday := x))
    case 'e' => et.(tm := et.tm.(mday := x))
    case 'H' => et.(tm := et.tm.(hour := x))
    case 'm' => et.(tm := et.tm.(mon := x))
    case 'M' => et.(tm := et.tm.(min := x))
    case 'q' => et.(usec := x)
    case 'S' => et.(tm := et.tm.(sec := x))
    case 'Y' => et.(tm := et.tm.(year := x))
    case _ => et
  }

  function Expected(c: char): string {
    match c
    case 'd' => "day of month expected but not found"
    case 'e' => "day of month expected but not found"
    case 'H' => "hours expected but not found"
    case 'm' => "month number expected but not found"
    case 'M' => "minutes expected but not found"
    case 'q' => "microseconds expected but not found"
    case 'S' => "seconds expected but not found"
    case 'Y' => "year expected but not found"
    case _ => "unknown format specifier"
  }

  /** The number goes into the field as it is read, and is checked and adjusted there. */
  function ReadField(et: Extended, v: string, c: char, strict: bool): Parsed {
    var n := ReadNumber(Width(c), v, Field(et, c), strict);
    if n.ok && InRange(c, n.value) then Read(WithField(et, c, n.value - Offset(c)), n.rest)
    else Failed(Expected(c), WithField(et, c, n.value))
  }

  function Lower(c: char): char { if 'A' <= c <= 'Z' then c - 'A' + 'a' else c }

  /** Caseless::start. */
  predicate StartsWith(v: string, name: string) {
    |name| <= |v| && forall k :: 0 <= k < |name| ==> Lower(v[k]) == Lower(name[k])
  }

  /** The first name, from `from` on, in its full or else its short form, that v starts with: its
      index, and what follows; the number of names and v itself when there is none. */
  function ReadName(v: string, full: seq<string>, short: seq<string>, from: nat): (r: (nat, string))
    requires |full| == |short| && from <= |full|
    ensures from <= r.0 <= |full|
    decreases |full| - from
  {
    if from == |full| then (from, v)
    else if StartsWith(v, full[from]) then (from, v[|full[from]|..])
    else if StartsWith(v, short[from]) then (from, v[|short[from]|..])
    else ReadName(v, full, short, from + 1)
  }

  function ReadDirective(et: Extended, v: string, c: char, strict: bool): Parsed {
    match c
    case '%' =>
      if v == "" || v[0] != '%' then Failed("% sign is expected but not found", et)
      else Read(et, v[1..])
    case 'a' => ReadDay(et, v)
    case 'A' => ReadDay(et, v)
    case 'b' => ReadMonth(et, v)
    case 'B' => ReadMonth(et, v)
    case 'h' => ReadMonth(et, v)
    case _ => if Width(c) > 0 then ReadField(et, v, c, strict) else Failed("unknown format specifier", et)
  }

  /** A weekday name is read and dropped. */
  function ReadDay(et: Extended, v: string): Parsed {
    var r := ReadName(v, DAYS_FULL, DAYS_SHORT, 0);
    if r.0 == 7 then Failed("weekday name is expected but not found", et) else Read(et, r.1)
  }

  function ReadMonth(et: Extended, v: string): Parsed {
    var r := ReadName(v, MONTHS_FULL, MONTHS_SHORT, 0);
    if r.0 == 12 then Failed("month name is expected but not found", et)
    else Read(et.(tm := et.tm.(mon := r.0)), r.1)
  }

  function ReadLiteral(et: Extended, v: string, c: char, strict: bool): Parsed {
    if !strict && IsSpace(c) then Read(et, SkipSpaces(v))
    else if v == "" || v[0] != c then Failed("character is expected but not found", et)
    else Read(et, v[1..])
  }

  /** from_str_: a format is followed to its end; what is left of the value is not looked at. */
  function Parse(et: Extended, v: string, format: string, strict: bool): Parsed
    decreases |format|
  {
    if format == "" then Read(et, v)
    else if format[0] == '%' then
      if |format| == 1 then Failed("unknown format specifier", et)
      else
        var r := ReadDirective(et, v, format[1], strict);
        if r.Failed? then r else Parse(r.et, r.rest, format[2..], strict)
    else
      var r := ReadLiteral(et, v, format[0], strict);
      if r.Failed? then r else Parse(r.et, r.rest, format[1..], strict)
  }

  // ----- reading back digits -----

  lemma {:induction false} DigitsAreDigits(width: nat, x: nat)
    ensures forall k :: 0 <= k < width ==> IntText.IsDigit(Digits(width, x)[k])
    decreases width
  {
    if width > 0 {
      DigitsAreDigits(width - 1, x / 10);
    }
  }

  lemma PowStep(width: nat, x: nat)
    requires width > 0
    ensures x % IntText.Pow10(width) == x / 10 % IntText.Pow10(width - 1) * 10 + x % 10
  {
    var p := IntText.Pow10(width - 1);
    var q := x / 10;
    assert q == q / p * p + q % p;
    assert x == (10 * p) * (q / p) + (q % p * 10 + x % 10);
    RemainderIs(x, 10 * p, q / p, q % p * 10 + x % 10);
  }

  lemma RemainderIs(x: int, p: int, q: int, r: int)
    requires p > 0 && 0 <= r < p && x == p * q + r
    ensures x % p == r
  {
    var d := x / p - q;
    assert x == p * (x / p) + x % p;
    assert p * d == p * (x / p) - p * q;
    FarFromZero(p, d);
  }

  /** The digits printed denote the number modulo the power of ten of the width. */
  lemma {:induction false} DigitsDenote(width: nat, x: nat)
    ensures IntText.Natural(Digits(width, x)) == x % IntText.Pow10(width)
    decreases width
  {
    if width > 0 {
      var s := Digits(width, x);
      assert s[..width - 1] == Digits(width - 1, x / 10);
      DigitsDenote(width - 1, x / 10);
      PowStep(width, x);
    }
  }

  lemma {:induction false} FullRun(s: string, tail: string)
    requires forall k :: 0 <= k < |s| ==> IntText.IsDigit(s[k])
    ensures DigitRun(s + tail, |s|) == |s|
    decreases |s|
  {
    if s != "" {
      assert (s + tail)[1..] == s[1..] + tail;
      FullRun(s[1..], tail);
    }
  }

  /** Reading back a printed number, strictly or not, takes exactly its digits. */
  lemma ReadsBack(width: nat, x: nat, tail: string, value: int, strict: bool)
    requires width > 0
    ensures ReadNumber(width, Digits(width, x) + tail, value, strict)
         == Number(true, x % IntText.Pow10(width), tail)
  {
    var s := Digits(width, x);
    DigitsAreDigits(width, x);
    FullRun(s, tail);
    DigitsDenote(width, x);
    assert (s + tail)[..width] == s && (s + tail)[width..] == tail;
  }

  // ----- the parser undoes the printer -----

  /** %Y %m %d %H %M %S %q. */
  predicate IsNumeric(c: char) { Width(c) > 0 && c != 'e' }

  /** Numeric directives, %% and literal characters. */
  predicate RoundTripFormat(format: string)
    decreases |format|
  {
    format == "" ||
    (if format[0] != '%' then RoundTripFormat(format[1..])
     else |format| > 1 && (IsNumeric(format[1]) || format[1] == '%') && RoundTripFormat(format[2..]))
  }

  /** Fields in range, in years 1970 to 9999. */
  predicate ValidFields(et: Extended) {
    && 1 <= et.tm.mday <= 31 && 0 <= et.tm.mon < 12 && 70 <= et.tm.year <= 8099
    && ValidClock(et.tm) && 0 <= et.usec < 1_000_000
  }

  /** base with the fields that the format prints taken from et. */
  function Copied(base: Extended, et: Extended, format: string): Extended
    requires RoundTripFormat(format)
    decreases |format|
  {
    if format == "" then base
    else if format[0] != '%' then Copied(base, et, format[1..])
    else Copied(WithField(base, format[1], Field(et, format[1])), et, format[2..])
  }

  predicate Prints(format: string, c: char)
    requires RoundTripFormat(format)
    decreases |format|
  {
    format != "" &&
    (if format[0] != '%' then Prints(format[1..], c) else format[1] == c || Prints(format[2..], c))
  }

  lemma FieldOfWith(et: Extended, c: char, d: char, x: int)
    requires IsNumeric(c) && (IsNumeric(d) || d == '%')
    ensures Field(WithField(et, d, x), c) == if c == d then x else Field(et, c)
  {
  }

  /** Every printed field is that of et, every other one is that of base. */
  lemma {:induction false} CopiedFields(base: Extended, et: Extended, format: string, c: char)
    requires RoundTripFormat(format) && IsNumeric(c)
    ensures Field(Copied(base, et, format), c) == Field(if Prints(format, c) then et else base, c)
    decreases |format|
  {
    if format == "" {
    } else if format[0] != '%' {
      CopiedFields(base, et, format[1..], c);
    } else {
      var d := format[1];
      CopiedFields(WithField(base, d, Field(et, d)), et, format[2..], c);
      FieldOfWith(base, c, d, Field(et, d));
    }
  }

  predicate StartsDark(s: string) { s != "" && !IsSpace(s[0]) }

  function Printed(et: Extended, c: char): string { Digits(Width(c), Field(et, c) + Offset(c)) }

  lemma PieceOfNumeric(et: Extended, c: char)
    requires Printable(et) && IsNumeric(c)
    ensures Piece(et, c) == Some(Printed(et, c))
  {
  }

  lemma FieldFits(et: Extended, c: char)
    requires ValidFields(et) && IsNumeric(c)
    ensures var x := Field(et, c) + Offset(c);
      InRange(c, x) && 0 <= x < IntText.Pow10(Width(c))
  {
    assert IntText.Pow10(2) == 100;
    assert IntText.Pow10(4) == 1_0000;
    assert IntText.Pow10(6) == 1_000_000;
  }

  lemma DigitsStartDark(width: nat, x: nat)
    requires width > 0
    ensures StartsDark(Digits(width, x))
  {
  }

  lemma ReadsField(base: Extended, c: char, x: nat, tail: string, strict: bool)
    requires IsNumeric(c) && InRange(c, x) && x < IntText.Pow10(Width(c))
    ensures ReadField(base, Digits(Width(c), x) + tail, c, strict)
         == Read(WithField(base, c, x - Offset(c)), tail)
  {
    ReadsBack(Width(c), x, tail, Field(base, c), strict);
    RemainderIs(x, IntText.Pow10(Width(c)), 0, x);
  }

  lemma ReadsPrinted(base: Extended, et: Extended, c: char, x: nat, tail: string, strict: bool)
    requires IsNumeric(c) && InRange(c, x) && x < IntText.Pow10(Width(c)) && x == Field(et, c) + Offset(c)
    ensures StartsDark(Printed(et, c))
    ensures ReadField(base, Printed(et, c) + tail, c, strict)
         == Read(WithField(base, c, Field(et, c)), tail)
  {
    DigitsStartDark(Width(c), x);
    ReadsField(base, c, x, tail, strict);
  }

  lemma NumericReadsBack(base: Extended, et: Extended, c: char, tail: string, strict: bool)
    requires ValidFields(et) && IsNumeric(c)
    ensures StartsDark(Printed(et, c))
    ensures ReadField(base, Printed(et, c) + tail, c, strict)
         == Read(WithField(base, c, Field(et, c)), tail)
  {
    FieldFits(et, c);
    ReadsPrinted(base, et, c, Field(et, c) + Offset(c), tail, strict);
  }

  lemma DirectiveReadsBack(base: Extended, et: Extended, c: char, tail: string, strict: bool)
    requires Printable(et) && ValidFields(et) && (IsNumeric(c) || c == '%')
    ensures Piece(et, c).Some? && StartsDark(Piece(et, c).value)
    ensures ReadDirective(base, Piece(et, c).value + tail, c, strict)
         == Read(WithField(base, c, Field(et, c)), tail)
  {
    if c == '%' {
      assert ("%" + tail)[1..] == tail;
    } else {
      PieceOfNumeric(et, c);
      NumericReadsBack(base, et, c, tail, strict);
      ReadsNumeric(base, Printed(et, c) + tail, c, strict);
    }
  }

  lemma ReadsNumeric(base: Extended, v: string, c: char, strict: bool)
    requires IsNumeric(c)
    ensures ReadDirective(base, v, c, strict) == ReadField(base, v, c, strict)
  {
  }

  lemma {:induction false} TextDefined(et: Extended, format: string)
    requires Printable(et) && ValidFields(et) && RoundTripFormat(format)
    ensures Text(et, format).Some?
    decreases |format|
  {
    if format == "" {
    } else if format[0] != '%' {
      TextDefined(et, format[1..]);
    } else {
      DirectiveReadsBack(et, et, format[1], "", true);
      TextDefined(et, format[2..]);
    }
  }

  /** v is the text, or what skipping spaces leaves of it. */
  predicate Ahead(v: string, text: string, strict: bool) {
    v == text || (!strict && v == SkipSpaces(text))
  }

  lemma Front(piece: string, text: string, tail: string, v: string, strict: bool)
    requires StartsDark(piece) && Ahead(v, piece + text + tail, strict)
    ensures v == piece + (text + tail)
  {
  }

  lemma SkipOne(c: char, text: string, v: string)
    requires IsSpace(c) && Ahead(v, [c] + text, false)
    ensures SkipSpaces(v) == SkipSpaces(text)
  {
  }

  /** For every format of numeric directives, %% and literals, reading what was printed succeeds and
      recovers every printed field, also when leading spaces are skipped (not strict), and whatever
      follows the text. */
  lemma {:induction false} RoundTrip(base: Extended, et: Extended, format: string, tail: string,
                                     strict: bool, v: string)
    requires Printable(et) && ValidFields(et) && RoundTripFormat(format)
    requires strict || tail == "" || !IsSpace(tail[0])
    requires Text(et, format).Some? && Ahead(v, Text(et, format).value + tail, strict)
    ensures Parse(base, v, format, strict) == Read(Copied(base, et, format), tail)
    decreases |format|
  {
    if format == "" {
      assert "" + tail == tail;
    } else if format[0] == '%' {
      var c, more := format[1], format[2..];
      var text := Text(et, more).value;
      DirectiveReadsBack(base, et, c, text + tail, strict);
      Front(Piece(et, c).value, text, tail, v, strict);
      RoundTrip(WithField(base, c, Field(et, c)), et, more, tail, strict, text + tail);
    } else {
      var c, more := format[0], format[1..];
      var text := Text(et, more).value;
      assert [c] + text + tail == [c] + (text + tail);
      if !strict && IsSpace(c) {
        SkipOne(c, text + tail, v);
        RoundTrip(base, et, more, tail, strict, SkipSpaces(v));
      } else {
        LiteralAhead(c, text + tail, v, strict);
        RoundTrip(base, et, more, tail, strict, v[1..]);
      }
    }
  }

  lemma LiteralAhead(c: char, text: string, v: string, strict: bool)
    requires strict || !IsSpace(c)
    requires Ahead(v, [c] + text, strict)
    ensures v != "" && v[0] == c && v[1..] == text
  {
  }
}
