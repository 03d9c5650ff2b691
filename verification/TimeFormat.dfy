/** What ExtendedTime::to_str_ prints for a GMT time: one piece of text for each directive. */
module TimeFormat {
  import opened Options
  import opened Calendar
  import IntText

  /** struct tm with microseconds; the time zone is GMT. */
  datatype Extended = Extended(tm: Tm, usec: int)

  const DAYS_SHORT := ["Sun", "Mon", "Tue", "Wed", "Thu", "Fri", "Sat"]
  const DAYS_FULL := ["Sunday", "Monday", "Tuesday", "Wednesday", "Thursday", "Friday", "Saturday"]
  const MONTHS_SHORT := ["Jan", "Feb", "Mar", "Apr", "May", "Jun", "Jul", "Aug", "Sep", "Oct", "Nov", "Dec"]
  const MONTHS_FULL := ["January", "February", "March", "April", "May", "June", "July", "August",
                        "September", "October", "November", "December"]

  predicate IsInt(x: int) { -0x8000_0000 <= x <= 0x7fff_ffff }

  /** What to_str_ needs of the fields, whatever the format: they are ints, and the month is an index
      of the month tables. */
  predicate Printable(et: Extended) {
    && IsInt(et.tm.sec) && IsInt(et.tm.min) && IsInt(et.tm.hour) && IsInt(et.tm.mday)
    && 0 <= et.tm.mon < 12 && IsInt(et.tm.year) && IsInt(et.usec)
  }

  lemma SecondsFit(et: Extended)
    requires Printable(et)
    ensures IntText.IntType.Int64.Holds(GmToTime(et.tm)) && GmToTime(et.tm) > -IntText.IntType.Int64.Max()
  {
  }

  /** A remainder by ten as a character; C's remainder of a negative number is not positive. */
  function DigitOf(x: int): char {
    ('0' as int + Mod(x, 10)) as char
  }

  /** add_num<SIZE>: the last `width` decimal digits, zeros in front. */
  function Digits(width: nat, x: int): (s: string)
    ensures |s| == width
  {
    if width == 0 then "" else Digits(width - 1, Div(x, 10)) + [DigitOf(x)]
  }

  /** Width and number of the zero-padded directives. */
  function Padded(et: Extended, c: char): Option<(nat, int)> {
    match c
    case 'd' => Some((2, et.tm.mday))
    case 'H' => Some((2, et.tm.hour))
    case 'm' => Some((2, et.tm.mon + 1))
    case 'M' => Some((2, et.tm.min))
    case 'q' => Some((6, et.usec))
    case 'S' => Some((2, et.tm.sec))
    case 'Y' => Some((4, et.tm.year + 1900))
    case _ => None
  }

  /** Type and number of the unpadded directives. */
  function Plain(et: Extended, c: char): Option<(IntText.IntType, int)>
    requires Printable(et)
  {
    match c
    case 'k' => Some((IntText.IntType.Int32, et.tm.hour))
    case 's' => Some((IntText.IntType.Int64, GmToTime(et.tm)))
    case _ => None
  }

  /** %e: day of the month, padded with a space. */
  function SpacePadded(mday: int): string {
    var t := Div(mday, 10);
    [if t != 0 then (('0' as int + t) % 256) as char else ' ', DigitOf(mday)]
  }

  predicate KnownDay(et: Extended) { 0 <= et.tm.wday < 7 }

  /** The directives that print a fixed piece of text.  A weekday outside the tables has no name;
      the methods that print ask that none is looked up. */
  function Word(et: Extended, c: char): Option<string>
    requires Printable(et)
  {
    match c
    case '%' => Some("%")
    case 'a' => if KnownDay(et) then Some(DAYS_SHORT[et.tm.wday]) else None
    case 'A' => if KnownDay(et) then Some(DAYS_FULL[et.tm.wday]) else None
    case 'b' => Some(MONTHS_SHORT[et.tm.mon])
    case 'h' => Some(MONTHS_SHORT[et.tm.mon])
    case 'B' => Some(MONTHS_FULL[et.tm.mon])
    case 'e' => Some(SpacePadded(et.tm.mday))
    case 'z' => Some("+0000")
    case _ => None
  }

  /** The directives that stand for a format of their own. */
  function Nested(c: char): Option<string> {
    match c
    case 'F' => Some("%Y-%m-%d")
    case 'T' => Some("%H:%M:%S")
    case _ => None
  }

  /** Text in front of a possible failure. */
  function Glue(a: string, b: Option<string>): Option<string> {
    if b.Some? then Some(a + b.value) else None
  }

  function Join(a: Option<string>, b: Option<string>): Option<string> {
    if a.Some? then Glue(a.value, b) else None
  }

  /** The text of one directive that is not nested; int_to_str refuses the smallest value. */
  function SimplePiece(et: Extended, c: char): Option<string>
    requires Printable(et)
  {
    var padded, plain := Padded(et, c), Plain(et, c);
    if padded.Some? then Some(Digits(padded.value.0, padded.value.1))
    else if plain.Some? then
      if plain.value.1 >= -plain.value.0.Max() then Some(IntText.Text(plain.value.1)) else None
    else Word(et, c)
  }

  predicate IsDayName(c: char) { c == 'a' || c == 'A' }

  /** The format has a directive that looks up the weekday. */
  predicate NamesDay(format: string)
    decreases |format|
  {
    format != "" &&
    (if format[0] != '%' then NamesDay(format[1..])
     else |format| > 1 && (IsDayName(format[1]) || NamesDay(format[2..])))
  }

  predicate DaysKnown(et: Extended, format: string) { KnownDay(et) || !NamesDay(format) }

  function Depth(format: string): nat { if 'F' in format || 'T' in format then 1 else 0 }

  /** What a format prints, if every directive is known; a C string, without its terminator. */
  function Text(et: Extended, format: string): Option<string>
    requires Printable(et)
    decreases Depth(format), |format|
  {
    if format == "" then Some("")
    else if format[0] != '%' then Glue([format[0]], Text(et, format[1..]))
    else if |format| == 1 then None
    else
      var nested := Nested(format[1]);
      Join(if nested.Some? then Text(et, nested.value) else SimplePiece(et, format[1]),
           Text(et, format[2..]))
  }

  function Piece(et: Extended, c: char): Option<string>
    requires Printable(et)
  {
    if Nested(c).Some? then Text(et, Nested(c).value) else SimplePiece(et, c)
  }

  // A format built from its end.
  function Dir(c: char, rest: string): string { ['%', c] + rest }
  function Lit(c: char, rest: string): string { [c] + rest }

  lemma TextOfDir(et: Extended, c: char, rest: string)
    requires Printable(et)
    ensures Text(et, Dir(c, rest)) == Join(Piece(et, c), Text(et, rest))
  {
  }

  lemma TextOfLit(et: Extended, c: char, rest: string)
    requires Printable(et) && c != '%'
    ensures Text(et, Lit(c, rest)) == Glue([c], Text(et, rest))
  {
  }

  /** The format does not end inside a directive. */
  predicate Whole(format: string)
    decreases |format|
  {
    format == "" ||
    (if format[0] != '%' then Whole(format[1..]) else |format| > 1 && Whole(format[2..]))
  }

  /** Printing is compositional: a format put in front of another prints its own text in front of the
      other's, and fails if either fails; a format cut inside a directive prints nothing at all. */
  lemma {:induction false} TextOfConcat(et: Extended, f: string, g: string)
    requires Printable(et)
    ensures Whole(f) ==> Text(et, f + g) == Join(Text(et, f), Text(et, g))
    ensures !Whole(f) ==> Text(et, f) == None
    decreases |f|
  {
    if f == "" {
      assert f + g == g;
      JoinNothing(Text(et, g));
    } else if f[0] != '%' {
      var more := f[1..];
      assert f + g == Lit(f[0], more + g);
      TextOfLit(et, f[0], more + g);
      TextOfConcat(et, more, g);
      GlueJoin([f[0]], Text(et, more), Text(et, g));
    } else if |f| > 1 {
      var more := f[2..];
      assert f + g == Dir(f[1], more + g);
      TextOfDir(et, f[1], more + g);
      TextOfConcat(et, more, g);
      JoinJoin(Piece(et, f[1]), Text(et, more), Text(et, g));
    }
  }

  lemma JoinNothing(t: Option<string>)
    ensures Join(Some(""), t) == t
  {
    if t.Some? {
      assert "" + t.value == t.value;
    }
  }

  lemma GlueJoin(a: string, b: Option<string>, c: Option<string>)
    ensures Glue(a, Join(b, c)) == Join(Glue(a, b), c)
  {
    if b.Some? {
      GlueGlue(a, b.value, c);
    }
  }

  lemma JoinJoin(a: Option<string>, b: Option<string>, c: Option<string>)
    ensures Join(a, Join(b, c)) == Join(Join(a, b), c)
  {
    if a.Some? {
      GlueJoin(a.value, b, c);
    }
  }

  lemma GlueGlue(a: string, b: string, c: Option<string>)
    ensures Glue(a, Glue(b, c)) == Glue(a + b, c)
  {
    if c.Some? {
      assert a + (b + c.value) == a + b + c.value;
    }
  }
}
