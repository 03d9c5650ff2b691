/** ExtendedTime as an object: printing into a bounded buffer and parsing into its own fields. */
module ExtendedTimes {
  import opened Options
  import opened Calendar
  import opened TimeFormat
  import opened TimeParse
  import IntText

  const YMD := "%Y-%m-%d"
  const HMS := "%H:%M:%S"
  const FT := "%F %T"
  const YMD_HMS := "%Y-%m-%d %H:%M:%S"

  function DateFormat(rest: string): string { Dir('Y', Lit('-', Dir('m', Lit('-', Dir('d', rest))))) }

  function ClockFormat(rest: string): string { Dir('H', Lit(':', Dir('M', Lit(':', Dir('S', rest))))) }

  lemma Spelled()
    ensures YMD == DateFormat("") && HMS == ClockFormat("")
    ensures YMD_HMS == DateFormat(Lit(' ', ClockFormat(""))) && FT == Dir('F', Lit(' ', Dir('T', "")))
  {
  }

  function Date(et: Extended): (s: string)
    ensures |s| == 10
  {
    Printed(et, 'Y') + "-" + Printed(et, 'm') + "-" + Printed(et, 'd')
  }

  function ClockText(et: Extended): (s: string)
    ensures |s| == 8
  {
    Printed(et, 'H') + ":" + Printed(et, 'M') + ":" + Printed(et, 'S')
  }

  /** Three directives with a separator between them, in front of the rest of a format. */
  lemma ThreeFields(et: Extended, a: char, b: char, c: char, sep: char, rest: string)
    requires Printable(et) && IsNumeric(a) && IsNumeric(b) && IsNumeric(c) && sep != '%'
    ensures Text(et, Dir(a, Lit(sep, Dir(b, Lit(sep, Dir(c, rest))))))
         == Glue(Printed(et, a) + [sep] + Printed(et, b) + [sep] + Printed(et, c), Text(et, rest))
  {
    TextOfField(et, a, Lit(sep, Dir(b, Lit(sep, Dir(c, rest)))));
    TextOfLit(et, sep, Dir(b, Lit(sep, Dir(c, rest))));
    TextOfField(et, b, Lit(sep, Dir(c, rest)));
    TextOfLit(et, sep, Dir(c, rest));
    TextOfField(et, c, rest);
    FiveGlued(Printed(et, a), [sep], Printed(et, b), [sep], Printed(et, c), Text(et, rest));
  }

  lemma TextOfField(et: Extended, c: char, rest: string)
    requires Printable(et) && IsNumeric(c)
    ensures Text(et, Dir(c, rest)) == Glue(Printed(et, c), Text(et, rest))
  {
    TextOfDir(et, c, rest);
    PieceOfNumeric(et, c);
  }

  lemma FiveGlued(a: string, b: string, c: string, d: string, e: string, f: Option<string>)
    ensures Glue(a, Glue(b, Glue(c, Glue(d, Glue(e, f))))) == Glue(a + b + c + d + e, f)
  {
    GlueGlue(d, e, f);
    GlueGlue(c, d + e, f);
    GlueGlue(b, c + (d + e), f);
    GlueGlue(a, b + (c + (d + e)), f);
    assert a + (b + (c + (d + e))) == a + b + c + d + e;
  }

  /** What %F and %T stand for. */
  lemma NestedTexts(et: Extended)
    requires Printable(et)
    ensures Text(et, YMD) == Some(Date(et)) && Text(et, HMS) == Some(ClockText(et))
  {
    Spelled();
    ThreeFields(et, 'Y', 'm', 'd', '-', "");
    ThreeFields(et, 'H', 'M', 'S', ':', "");
    assert Date(et) + "" == Date(et) && ClockText(et) + "" == ClockText(et);
  }

  lemma NestedPrints(et: Extended, format: string)
    requires Printable(et) && (format == YMD || format == HMS)
    ensures Text(et, format).Some? && |Text(et, format).value| > 0
    ensures Depth(format) == 0 && !NamesDay(format)
  {
    NestedTexts(et);
    NestedDepth();
    NestedNameNoDay();
  }

  lemma NestedDepth()
    ensures Depth(YMD) == 0 && Depth(HMS) == 0
  {
  }

  lemma NestedNameNoDay()
    ensures !NamesDay(YMD) && !NamesDay(HMS)
  {
    Spelled();
    ThreeNameNoDay('Y', 'm', 'd', '-');
    ThreeNameNoDay('H', 'M', 'S', ':');
  }

  lemma FtNamesNoDay()
    ensures !NamesDay(FT)
  {
    Spelled();
    DayInDir('T', "");
    DayInLit(' ', Dir('T', ""));
    DayInDir('F', Lit(' ', Dir('T', "")));
  }

  lemma DayInDir(c: char, rest: string)
    ensures NamesDay(Dir(c, rest)) <==> IsDayName(c) || NamesDay(rest)
  {
    assert Dir(c, rest)[2..] == rest;
  }

  lemma DayInLit(c: char, rest: string)
    requires c != '%'
    ensures NamesDay(Lit(c, rest)) <==> NamesDay(rest)
  {
    assert Lit(c, rest)[1..] == rest;
  }

  lemma ThreeNameNoDay(a: char, b: char, c: char, sep: char)
    requires IsNumeric(a) && IsNumeric(b) && IsNumeric(c) && sep != '%'
    ensures !NamesDay(Dir(a, Lit(sep, Dir(b, Lit(sep, Dir(c, ""))))))
  {
    var last := Dir(c, "");
    var middle := Dir(b, Lit(sep, last));
    DayInDir(c, "");
    DayInLit(sep, last);
    DayInDir(b, Lit(sep, last));
    DayInLit(sep, middle);
    DayInDir(a, Lit(sep, middle));
  }

  /** gm_ft prints with %F %T what set_ft reads with the format spelled out. */
  lemma FtText(et: Extended)
    requires Printable(et)
    ensures Text(et, FT) == Some(Date(et) + (" " + ClockText(et)))
    ensures Text(et, YMD_HMS) == Text(et, FT)
  {
    NestedFt(et);
    SpelledFt(et);
  }

  lemma NestedFt(et: Extended)
    requires Printable(et)
    ensures Text(et, FT) == Some(Date(et) + (" " + ClockText(et)))
  {
    Spelled();
    NestedTexts(et);
    TextOfDir(et, 'T', "");
    assert ClockText(et) + "" == ClockText(et);
    TextOfLit(et, ' ', Dir('T', ""));
    TextOfDir(et, 'F', Lit(' ', Dir('T', "")));
  }

  lemma SpelledFt(et: Extended)
    requires Printable(et)
    ensures Text(et, YMD_HMS) == Some(Date(et) + (" " + ClockText(et)))
  {
    Spelled();
    NestedTexts(et);
    TextOfLit(et, ' ', ClockFormat(""));
    ThreeFields(et, 'Y', 'm', 'd', '-', Lit(' ', ClockFormat("")));
  }

  // ----- printing -----

  class ExtendedTime {
    var tm: Tm
    var usec: int

    function Value(): Extended
      reads this
    {
      Extended(tm, usec)
    }

    /** ExtendedTime(sec, usec, TZ_GMT). */
    constructor (sec: int, usec: int)
      ensures IsSplit(tm, sec) && Value().usec == usec
    {
      var split := TimeToGm(sec);
      tm := split;
      this.usec := usec;
    }

    /** add_str: append behind the `size` characters already printed at `base`, if there is room. */
    static method AddStr(str: array<char>, base: nat, size: nat, length: nat, src: string)
      returns (ok: bool, newSize: nat)
      requires size <= length && base + length <= str.Length
      modifies str
      ensures ok <==> size + |src| <= length
      ensures ok ==> newSize == size + |src|
      ensures ok ==> str[base..base + newSize] == old(str[base..base + size]) + src
      ensures IntText.Only(str, base, base + length)
    {
      if size + |src| > length {
        return false, size;
      }
      forall k | 0 <= k < |src| {
        str[base + size + k] := src[k];
      }
      ok, newSize := true, size + |src|;
    }

    /** add_num<SIZE>: digits from the last to the first in a buffer of its own. */
    static method AddDigits(width: nat, number: int, str: array<char>, base: nat, size: nat, length: nat)
      returns (ok: bool, newSize: nat)
      requires width > 0 && size <= length && base + length <= str.Length
      modifies str
      ensures ok <==> size + width <= length
      ensures ok ==> newSize == size + width
      ensures ok ==> str[base..base + newSize] == old(str[base..base + size]) + Digits(width, number)
      ensures IntText.Only(str, base, base + length)
    {
      var buf := new char[width](_ => '0');
      FillDigits(buf, number);
      ok, newSize := AddStr(str, base, size, length, buf[..]);
    }

    static method FillDigits(buf: array<char>, number: int)
      modifies buf
      ensures buf[..] == Digits(buf.Length, number)
    {
      var i, left := buf.Length, number;
      while i > 0
        invariant 0 <= i <= buf.Length
        invariant Digits(buf.Length, number) == Digits(i, left) + buf[i..]
      {
        i := i - 1;
        buf[i] := DigitOf(left);
        left := Div(left, 10);
      }
    }

    /** add_num through int_to_str and a buffer of 64. */
    static method AddNum(ty: IntText.IntType, number: int, str: array<char>, base: nat, size: nat, length: nat)
      returns (ok: bool, newSize: nat)
      requires ty.Holds(number) && size <= length && base + length <= str.Length
      modifies str
      ensures ok <==> number >= -ty.Max() && size + |IntText.Text(number)| <= length
      ensures ok ==> newSize == size + |IntText.Text(number)|
      ensures ok ==> str[base..base + newSize] == old(str[base..base + size]) + IntText.Text(number)
      ensures IntText.Only(str, base, base + length)
    {
      var buf := new char[64](_ => '0');
      var n := IntText.IntToStr(ty, number, buf);
      if n == 0 {
        return false, size;
      }
      ok, newSize := AddStr(str, base, size, length, buf[..n]);
    }

    /** The switch of to_str_. */
    method PrintDirective(str: array<char>, base: nat, size: nat, length: nat, c: char)
      returns (ok: bool, newSize: nat)
      requires Printable(Value()) && (IsDayName(c) ==> KnownDay(Value()))
      requires size <= length && base + length <= str.Length
      modifies str
      ensures var piece := Piece(Value(), c);
        && (ok <==> piece.Some? && size + |piece.value| <= length)
        && (ok ==> newSize == size + |piece.value|)
        && (ok ==> str[base..base + newSize] == old(str[base..base + size]) + piece.value)
      ensures IntText.Only(str, base, base + length)
      decreases if Nested(c).Some? then 2 else 0
    {
      if Nested(c).Some? {
        NestedPrints(Value(), Nested(c).value);
        ok, newSize := PrintNested(str, base, size, length, Nested(c).value);
      } else {
        ok, newSize := PrintSimple(str, base, size, length, c);
      }
    }

    method PrintSimple(str: array<char>, base: nat, size: nat, length: nat, c: char)
      returns (ok: bool, newSize: nat)
      requires Printable(Value()) && (IsDayName(c) ==> KnownDay(Value()))
      requires size <= length && base + length <= str.Length
      modifies str
      ensures var piece := SimplePiece(Value(), c);
        && (ok <==> piece.Some? && size + |piece.value| <= length)
        && (ok ==> newSize == size + |piece.value|)
        && (ok ==> str[base..base + newSize] == old(str[base..base + size]) + piece.value)
      ensures IntText.Only(str, base, base + length)
    {
      var padded, plain, word := Padded(Value(), c), Plain(Value(), c), Word(Value(), c);
      if padded.Some? {
        ok, newSize := AddDigits(padded.value.0, padded.value.1, str, base, size, length);
      } else if plain.Some? {
        SecondsFit(Value());
        ok, newSize := AddNum(plain.value.0, plain.value.1, str, base, size, length);
      } else if word.Some? {
        ok, newSize := AddStr(str, base, size, length, word.value);
      } else {
        ok, newSize := false, size;
      }
    }

    /** %F and %T: to_str_ on the room that is left. */
    method PrintNested(str: array<char>, base: nat, size: nat, length: nat, format: string)
      returns (ok: bool, newSize: nat)
      requires Printable(Value()) && DaysKnown(Value(), format)
      requires size <= length && base + length <= str.Length
      requires Depth(format) == 0 && Text(Value(), format).Some? && |Text(Value(), format).value| > 0
      modifies str
      ensures var piece := Text(Value(), format);
        && (ok <==> piece.Some? && size + |piece.value| <= length)
        && (ok ==> newSize == size + |piece.value|)
        && (ok ==> str[base..base + newSize] == old(str[base..base + size]) + piece.value)
      ensures IntText.Only(str, base, base + length)
      decreases 1, 2
    {
      ghost var before, piece := str[base..base + size], Text(Value(), format);
      var printed := ToStr(str, base + size, length - size, format);
      ok, newSize := printed > 0, size + printed;
      assert str[base..base + size] == before;
      SlicesJoin(str[..], base, base + size, base + newSize);
      assert ok ==> str[base + size..base + newSize] == piece.value;
    }

    /** One turn of the loop of to_str_, at a directive or a literal. */
    method PrintStep(str: array<char>, base: nat, size: nat, length: nat, format: string, i: nat)
      returns (ok: bool, newSize: nat, next: nat)
      requires size <= length && base + length <= str.Length && i < |format|
      requires Printable(Value()) && DaysKnown(Value(), format[i..])
      modifies str
      ensures ok ==> i < next <= |format| && newSize <= length
      ensures ok ==> DaysKnown(Value(), format[next..])
      ensures var all := Glue(old(str[base..base + size]), Text(Value(), format[i..]));
        if ok then all == Glue(str[base..base + newSize], Text(Value(), format[next..]))
        else all == None || |all.value| > length
      ensures IntText.Only(str, base, base + length)
      decreases if Depth(format) == 1 then 3 else 1, 0
    {
      ghost var done := str[base..base + size];
      if format[i] != '%' {
        LiteralStep(Value(), format, i, done);
        next := i + 1;
        ok, newSize := AddStr(str, base, size, length, [format[i]]);
      } else if i + 1 == |format| {
        ok, newSize, next := false, size, i;
      } else {
        DirectiveStep(Value(), format, i, done);
        next := i + 2;
        ok, newSize := PrintDirective(str, base, size, length, format[i + 1]);
      }
    }

    /** to_str_: the text of the format if it fits in `length` characters at `base`; 0 if it does not
        fit, is empty, or the format has an unknown directive. */
    method ToStr(str: array<char>, base: nat, length: nat, format: string) returns (size: nat)
      requires Printable(Value()) && DaysKnown(Value(), format) && base + length <= str.Length
      modifies str
      ensures var text := Text(Value(), format);
        && size == (if text.Some? && |text.value| <= length then |text.value| else 0)
        && (size > 0 ==> str[base..base + size] == text.value)
      ensures IntText.Only(str, base, base + length)
      decreases if Depth(format) == 1 then 3 else 1, 1
    {
      ghost var text := Text(Value(), format);
      size := 0;
      var i := 0;
      GlueNothing(text);
      assert str[base..base] == "" && format[0..] == format;
      while i < |format|
        invariant i <= |format| && size <= length
        invariant DaysKnown(Value(), format[i..])
        invariant text == Glue(str[base..base + size], Text(Value(), format[i..]))
        invariant IntText.Only(str, base, base + length)
        decreases |format| - i
      {
        var ok;
        ok, size, i := PrintStep(str, base, size, length, format, i);
        if !ok {
          return 0;
        }
      }
      assert format[|format|..] == "";
    }

    /** ExtendedTime::format, with its buffer of 256; None stands for the exception. */
    method Format(format: string) returns (r: Option<string>)
      requires Printable(Value()) && DaysKnown(Value(), format)
      ensures var text := Text(Value(), format);
        r == if text.Some? && 0 < |text.value| <= 256 then text else None
    {
      var str := new char[256](_ => '0');
      var size := ToStr(str, 0, 256, format);
      r := if size > 0 then Some(str[..size]) else None;
    }

    // ----- parsing -----

    /** The digit loop of read_number. */
    static method TakeDigits(v: string, at: nat, limit: nat) returns (end: nat, number: int)
      requires 0 < limit && at + limit <= |v| && IntText.IsDigit(v[at])
      ensures at < end <= at + limit && number == IntText.Natural(v[at..end])
      ensures forall k :: at <= k < end ==> IntText.IsDigit(v[k])
      ensures end == at + limit || !IntText.IsDigit(v[end])
    {
      end, number := at, 0;
      var left, more := limit, true;
      while more
        invariant 0 <= left && at <= end && end - at + left == limit
        invariant more ==> left > 0 && IntText.IsDigit(v[end])
        invariant !more ==> end > at && (left == 0 || !IntText.IsDigit(v[end]))
        invariant number == IntText.Natural(v[at..end])
        invariant forall k :: at <= k < end ==> IntText.IsDigit(v[k])
        decreases left, more
      {
        assert v[at..end + 1][..end - at] == v[at..end];
        number := number * 10 + (v[end] as int - '0' as int);
        end := end + 1;
        left := left - 1;
        more := left > 0 && IntText.IsDigit(v[end]);
      }
    }

    /** read_number<SIZE>; `was` is the field before, kept when there is nothing to read. */
    static method ReadNumberAt(width: nat, v: string, at: nat, was: int, strict: bool)
      returns (ok: bool, end: nat, number: int)
      requires width > 0 && at <= |v|
      ensures at <= end <= |v|
      ensures Number(ok, number, v[end..]) == ReadNumber(width, v[at..], was, strict)
    {
      end, number := at, was;
      if at == |v| || !IntText.IsDigit(v[at]) || (strict && |v| - at < width) {
        return false, end, number;
      }
      var limit := if width < |v| - at then width else |v| - at;
      end, number := TakeDigits(v, at, limit);
      RunIs(v[at..], width, end - at);
      assert v[at..][..end - at] == v[at..end] && v[at..][end - at..] == v[end..];
      ok := !strict || end - at == limit;
    }

    /** The loops over the weekday and month names. */
    static method ReadNameAt(v: string, at: nat, full: seq<string>, short: seq<string>)
      returns (index: nat, end: nat)
      requires at <= |v| && |full| == |short|
      ensures at <= end <= |v| && index <= |full|
      ensures (index, v[end..]) == ReadName(v[at..], full, short, 0)
    {
      index := 0;
      while index < |full|
        invariant index <= |full|
        invariant ReadName(v[at..], full, short, 0) == ReadName(v[at..], full, short, index)
      {
        if StartsWith(v[at..], full[index]) {
          end := at + |full[index]|;
          assert v[end..] == v[at..][|full[index]|..];
          return;
        }
        if StartsWith(v[at..], short[index]) {
          end := at + |short[index]|;
          assert v[end..] == v[at..][|short[index]|..];
          return;
        }
        index := index + 1;
      }
      end := at;
    }

    static method SkipSpacesAt(v: string, at: nat) returns (end: nat)
      requires at <= |v|
      ensures at <= end <= |v| && v[end..] == SkipSpaces(v[at..])
    {
      end := at;
      while end < |v| && IsSpace(v[end])
        invariant at <= end <= |v| && SkipSpaces(v[at..]) == SkipSpaces(v[end..])
      {
        assert v[end..][1..] == v[end + 1..];
        end := end + 1;
      }
    }

    method ReadFieldAt(v: string, at: nat, c: char, strict: bool) returns (error: Option<string>, end: nat)
      requires at <= |v| && Width(c) > 0
      modifies this
      ensures at <= end <= |v|
      ensures Outcome(error, Value(), v[end..]) == ReadField(old(Value()), v[at..], c, strict)
    {
      var ok, number;
      ok, end, number := ReadNumberAt(Width(c), v, at, Field(Value(), c), strict);
      var inRange := ok && InRange(c, number);
      var et := WithField(Value(), c, if inRange then number - Offset(c) else number);
      tm, usec := et.tm, et.usec;
      error := if inRange then None else Some(Expected(c));
    }

    method ReadDayAt(v: string, at: nat) returns (error: Option<string>, end: nat)
      requires at <= |v|
      ensures at <= end <= |v|
      ensures Outcome(error, Value(), v[end..]) == ReadDay(Value(), v[at..])
    {
      var day;
      day, end := ReadNameAt(v, at, DAYS_FULL, DAYS_SHORT);
      error := if day == 7 then Some("weekday name is expected but not found") else None;
    }

    method ReadMonthAt(v: string, at: nat) returns (error: Option<string>, end: nat)
      requires at <= |v|
      modifies this
      ensures at <= end <= |v|
      ensures Outcome(error, Value(), v[end..]) == ReadMonth(old(Value()), v[at..])
    {
      var month;
      month, end := ReadNameAt(v, at, MONTHS_FULL, MONTHS_SHORT);
      if month == 12 {
        return Some("month name is expected but not found"), end;
      }
      tm := tm.(mon := month);
      error := None;
    }

    /** The switch of from_str_. */
    method ReadDirectiveAt(v: string, at: nat, c: char, strict: bool) returns (error: Option<string>, end: nat)
      requires at <= |v|
      modifies this
      ensures at <= end <= |v|
      ensures Outcome(error, Value(), v[end..]) == ReadDirective(old(Value()), v[at..], c, strict)
    {
      error, end := None, at;
      if c == '%' {
        if at == |v| || v[at] != '%' {
          error := Some("% sign is expected but not found");
        } else {
          end := at + 1;
        }
      } else if c == 'a' || c == 'A' {
        error, end := ReadDayAt(v, at);
      } else if c == 'b' || c == 'B' || c == 'h' {
        error, end := ReadMonthAt(v, at);
      } else if Width(c) > 0 {
        error, end := ReadFieldAt(v, at, c, strict);
      } else {
        error := Some("unknown format specifier");
      }
    }

    static method ReadLiteralAt(v: string, at: nat, c: char, strict: bool, ghost et: Extended)
      returns (error: Option<string>, end: nat)
      requires at <= |v|
      ensures at <= end <= |v|
      ensures Outcome(error, et, v[end..]) == ReadLiteral(et, v[at..], c, strict)
    {
      error, end := None, at;
      if !strict && IsSpace(c) {
        end := SkipSpacesAt(v, at);
      } else if at == |v| || v[at] != c {
        error := Some("character is expected but not found");
      } else {
        end := at + 1;
      }
    }

    /** from_str_: the error text, or none, and the fields as Parse leaves them. */
    method FromStr(v: string, format: string, strict: bool) returns (error: Option<string>)
      modifies this
      ensures var r := Parse(old(Value()), v, format, strict);
        error == (if r.Failed? then Some(r.error) else None) && Value() == r.et
    {
      var i, at := 0, 0;
      while i < |format|
        invariant i <= |format| && at <= |v|
        invariant Parse(old(Value()), v, format, strict) == Parse(Value(), v[at..], format[i..], strict)
      {
        if format[i] == '%' {
          if i + 1 == |format| {
            return Some("unknown format specifier");
          }
          assert format[i..][2..] == format[i + 2..];
          error, at := ReadDirectiveAt(v, at, format[i + 1], strict);
          i := i + 2;
        } else {
          assert format[i..][1..] == format[i + 1..];
          error, at := ReadLiteralAt(v, at, format[i], strict, Value());
          i := i + 1;
        }
        if error.Some? {
          return;
        }
      }
      error := None;
    }
  }

  /** How a reading step ends, from its error text. */
  function Outcome(error: Option<string>, et: Extended, rest: string): Parsed {
    if error.Some? then Failed(error.value, et) else Read(et, rest)
  }

  lemma {:induction false} RunIs(v: string, limit: nat, k: nat)
    requires k <= limit && k <= |v|
    requires forall j :: 0 <= j < k ==> IntText.IsDigit(v[j])
    requires k == limit || k == |v| || !IntText.IsDigit(v[k])
    ensures DigitRun(v, limit) == k
    decreases k
  {
    if k > 0 {
      RunIs(v[1..], limit - 1, k - 1);
    }
  }

  lemma SlicesJoin(s: string, a: nat, b: nat, c: nat)
    requires a <= b <= c <= |s|
    ensures s[a..c] == s[a..b] + s[b..c]
  {
  }

  lemma GlueNothing(t: Option<string>)
    ensures Glue("", t) == t
  {
    if t.Some? {
      assert "" + t.value == t.value;
    }
  }

  lemma DirectiveStep(et: Extended, format: string, i: nat, done: string)
    requires Printable(et) && i + 1 < |format| && format[i] == '%'
    ensures var piece, rest := Piece(et, format[i + 1]), Text(et, format[i + 2..]);
      Glue(done, Text(et, format[i..])) == if piece.Some? then Glue(done + piece.value, rest) else None
    ensures NamesDay(format[i..]) <==> IsDayName(format[i + 1]) || NamesDay(format[i + 2..])
  {
    var rest := format[i + 2..];
    assert format[i..] == Dir(format[i + 1], rest);
    TextOfDir(et, format[i + 1], rest);
    DayInDir(format[i + 1], rest);
    if Piece(et, format[i + 1]).Some? {
      GlueGlue(done, Piece(et, format[i + 1]).value, Text(et, rest));
    }
  }

  lemma LiteralStep(et: Extended, format: string, i: nat, done: string)
    requires Printable(et) && i < |format| && format[i] != '%'
    ensures Glue(done, Text(et, format[i..])) == Glue(done + [format[i]], Text(et, format[i + 1..]))
    ensures NamesDay(format[i..]) <==> NamesDay(format[i + 1..])
  {
    assert format[i..] == Lit(format[i], format[i + 1..]);
    TextOfLit(et, format[i], format[i + 1..]);
    DayInLit(format[i], format[i + 1..]);
    GlueGlue(done, [format[i]], Text(et, format[i + 1..]));
  }
}
