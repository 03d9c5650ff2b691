/** The texts that %Y-%m-%d %H:%M:%S reads, and the second that each of them stands for, without
    reference to how they are read. */
module DateTimeText {
  import opened Calendar
  import opened TimeFormat
  import opened TimeParse
  import opened ExtendedTimes
  import IntText

  /** A date and a clock time in digits; whatever follows them is `rest`. */
  datatype Parts = Parts(year: string, month: string, day: string, gap: string,
                         hour: string, minute: string, second: string, rest: string)

  function TextOf(p: Parts): string {
    p.year + ("-" + (p.month + ("-" + (p.day + (p.gap + ClockOf(p))))))
  }

  function ClockOf(p: Parts): string { p.hour + (":" + (p.minute + (":" + (p.second + p.rest)))) }

  predicate OnlyDigits(s: string) { forall k :: 0 <= k < |s| ==> IntText.IsDigit(s[k]) }

  /** One to `width` digits, all of them when strict. */
  predicate IsNumber(s: string, width: nat, strict: bool) {
    OnlyDigits(s) && 1 <= |s| <= width && (strict ==> |s| == width)
  }

  /** A digit that follows is not part of the number. */
  predicate IsWhole(s: string, width: nat, next: string) {
    |s| == width || next == "" || !IntText.IsDigit(next[0])
  }

  /** ASCII white space, by code. */
  predicate IsWhite(c: char) { c as int == 32 || 9 <= c as int <= 13 }

  predicate IsGap(s: string, strict: bool) {
    if strict then s == " " else forall k :: 0 <= k < |s| ==> IsWhite(s[k])
  }

  /** Numbers of at most the usual width, in range; when strict, of exactly that width and with one
      space between date and clock, otherwise with any white space there, or none. */
  predicate Spells(p: Parts, strict: bool) {
    && IsNumber(p.year, 4, strict) && IntText.Natural(p.year) >= 1970
    && IsNumber(p.month, 2, strict) && 1 <= IntText.Natural(p.month) <= 12
    && IsNumber(p.day, 2, strict) && 1 <= IntText.Natural(p.day) <= 31
    && IsGap(p.gap, strict) && (p.gap == "" ==> |p.day| == 2)
    && IsNumber(p.hour, 2, strict) && 0 <= IntText.Natural(p.hour) <= 23
    && IsNumber(p.minute, 2, strict) && 0 <= IntText.Natural(p.minute) <= 59
    && IsNumber(p.second, 2, strict) && 0 <= IntText.Natural(p.second) <= 59
    && IsWhole(p.second, 2, p.rest)
  }

  /** Days from 1970-01-01 to a date. */
  function DayOfDate(year: int, month: int, day: int): int
    requires 1 <= month <= 12
  {
    YearStart(year - 1970) + DaysBefore(Leap(year - 1970), month - 1) + day - 1
  }

  function SecondOfDay(p: Parts): int {
    IntText.Natural(p.hour) * 3600 + IntText.Natural(p.minute) * 60 + IntText.Natural(p.second)
  }

  function SecondOf(p: Parts): int
    requires 1 <= IntText.Natural(p.month) <= 12
  {
    DayOfDate(IntText.Natural(p.year), IntText.Natural(p.month), IntText.Natural(p.day)) * 86400 + SecondOfDay(p)
  }

  /** What reading such a text puts into the fields. */
  function FieldsOf(base: Extended, p: Parts): Extended {
    base.(tm := base.tm.(
      year := IntText.Natural(p.year) - 1900, mon := IntText.Natural(p.month) - 1,
      mday := IntText.Natural(p.day), hour := IntText.Natural(p.hour),
      min := IntText.Natural(p.minute), sec := IntText.Natural(p.second)))
  }

  lemma FieldsDenote(base: Extended, p: Parts)
    requires 1 <= IntText.Natural(p.month) <= 12
    ensures GmToTime(FieldsOf(base, p).tm) == SecondOf(p)
  {
  }

  // ----- one number -----

  /** A whole run of digits is read exactly when it is not empty and, if strict, as long as the field is
      wide; and then as the number it denotes. */
  lemma NumberExactly(width: nat, s: string, next: string, was: int, strict: bool)
    requires OnlyDigits(s) && |s| <= width && IsWhole(s, width, next) && width > 0
    ensures var n := ReadNumber(width, s + next, was, strict);
      && (n.ok <==> IsNumber(s, width, strict))
      && (n.ok ==> n.value == IntText.Natural(s) && n.rest == next)
  {
    var v := s + next;
    assert forall k :: 0 <= k < |s| ==> v[k] == s[k];
    assert |s| < |v| ==> v[|s|] == next[0];
    RunIs(v, width, |s|);
    assert v[..|s|] == s && v[|s|..] == next;
  }

  lemma {:induction false} RunIsDigits(v: string, limit: nat)
    ensures OnlyDigits(v[..DigitRun(v, limit)])
    ensures IsWhole(v[..DigitRun(v, limit)], limit, v[DigitRun(v, limit)..])
    decreases limit
  {
    var k := DigitRun(v, limit);
    if k > 0 {
      RunIsDigits(v[1..], limit - 1);
      assert v[1..][..k - 1] == v[1..k] && v[1..][k - 1..] == v[k..];
      assert forall j :: 0 < j < k ==> v[..k][j] == v[1..k][j - 1];
    }
  }

  /** The field after a number has been read into it. */
  function Put(et: Extended, c: char, s: string): Extended { WithField(et, c, IntText.Natural(s) - Offset(c)) }

  predicate Fits(c: char, s: string, strict: bool) {
    IsNumber(s, Width(c), strict) && InRange(c, IntText.Natural(s))
  }

  lemma ReadFieldIs(et: Extended, v: string, c: char, strict: bool)
    requires IsNumeric(c)
    ensures var n, r := ReadNumber(Width(c), v, Field(et, c), strict), ReadDirective(et, v, c, strict);
      if n.ok && InRange(c, n.value) then r == Read(WithField(et, c, n.value - Offset(c)), n.rest) else r.Failed?
  {
    ReadsNumeric(et, v, c, strict);
  }

  lemma FieldExactly(et: Extended, c: char, s: string, next: string, strict: bool)
    requires IsNumeric(c) && OnlyDigits(s) && |s| <= Width(c) && IsWhole(s, Width(c), next)
    ensures var r := ReadDirective(et, s + next, c, strict);
      if Fits(c, s, strict) then r == Read(Put(et, c, s), next) else r.Failed?
  {
    var width := Width(c);
    ReadFieldIs(et, s + next, c, strict);
    NumberExactly(width, s, next, Field(et, c), strict);
  }

  // ----- taking a text apart -----

  lemma ParseStep(et: Extended, v: string, c: char, more: string, strict: bool)
    ensures var r, all := ReadDirective(et, v, c, strict), Parse(et, v, Dir(c, more), strict);
      if r.Read? then all == Parse(r.et, r.rest, more, strict) else all.Failed?
  {
    assert Dir(c, more)[2..] == more;
  }

  /** A format that starts with a number reads the text exactly when the text starts with one in range
      and the rest of the format reads what follows it. */
  lemma NumberFirst(et: Extended, c: char, s: string, next: string, more: string, strict: bool)
    requires IsNumeric(c) && Fits(c, s, strict) && IsWhole(s, Width(c), next)
    ensures Parse(et, s + next, Dir(c, more), strict) == Parse(Put(et, c, s), next, more, strict)
  {
    FieldExactly(et, c, s, next, strict);
    ParseStep(et, s + next, c, more, strict);
  }

  lemma TakeNumber(et: Extended, v: string, c: char, more: string, strict: bool)
      returns (s: string, next: string)
    requires IsNumeric(c) && Parse(et, v, Dir(c, more), strict).Read?
    ensures v == s + next && Fits(c, s, strict) && IsWhole(s, Width(c), next)
    ensures Parse(Put(et, c, s), next, more, strict).Read?
  {
    var k := DigitRun(v, Width(c));
    s, next := v[..k], v[k..];
    RunIsDigits(v, Width(c));
    assert v == s + next;
    FieldExactly(et, c, s, next, strict);
    ParseStep(et, v, c, more, strict);
  }

  lemma LiteralFirst(et: Extended, c: char, next: string, more: string, strict: bool)
    requires c != '%' && !IsSpace(c)
    ensures Parse(et, [c] + next, Lit(c, more), strict) == Parse(et, next, more, strict)
  {
    assert ([c] + next)[1..] == next && Lit(c, more)[1..] == more;
  }

  lemma TakeLiteral(et: Extended, v: string, c: char, more: string, strict: bool) returns (next: string)
    requires c != '%' && !IsSpace(c) && Parse(et, v, Lit(c, more), strict).Read?
    ensures v == [c] + next && Parse(et, next, more, strict).Read?
  {
    assert v != "" && v[0] == c;
    next := v[1..];
    LiteralFirst(et, c, next, more, strict);
  }

  lemma {:induction false} SkipsGap(gap: string, next: string)
    requires (forall k :: 0 <= k < |gap| ==> IsWhite(gap[k])) && (next == "" || !IsSpace(next[0]))
    ensures SkipSpaces(gap + next) == next
    decreases |gap|
  {
    if gap == "" {
      assert gap + next == next;
    } else {
      assert (gap + next)[1..] == gap[1..] + next;
      SkipsGap(gap[1..], next);
    }
  }

  lemma {:induction false} TakeGap(v: string) returns (gap: string)
    ensures v == gap + SkipSpaces(v) && forall k :: 0 <= k < |gap| ==> IsWhite(gap[k])
    decreases |v|
  {
    gap := "";
    if v != "" && IsSpace(v[0]) {
      var rest := TakeGap(v[1..]);
      gap := [v[0]] + rest;
    }
  }

  lemma GapFirst(et: Extended, gap: string, next: string, more: string, strict: bool)
    requires IsGap(gap, strict) && (next == "" || !IsSpace(next[0]))
    ensures Parse(et, gap + next, Lit(' ', more), strict) == Parse(et, next, more, strict)
  {
    assert Lit(' ', more)[1..] == more;
    if strict {
      assert (gap + next)[1..] == next;
    } else {
      SkipsGap(gap, next);
    }
  }

  lemma TakeSpace(et: Extended, v: string, more: string, strict: bool) returns (gap: string, next: string)
    requires Parse(et, v, Lit(' ', more), strict).Read?
    ensures v == gap + next && IsGap(gap, strict) && Parse(et, next, more, strict).Read?
  {
    assert Lit(' ', more)[1..] == more;
    if strict {
      gap, next := " ", v[1..];
    } else {
      gap := TakeGap(v);
      next := SkipSpaces(v);
    }
  }

  // ----- the format of set_ft -----

  function ThreeFormat(a: char, b: char, c: char, sep: char, more: string): string {
    Dir(a, Lit(sep, Dir(b, Lit(sep, Dir(c, more)))))
  }

  function ThreeText(x: string, y: string, z: string, sep: char, next: string): string {
    x + ([sep] + (y + ([sep] + (z + next))))
  }

  function PutThree(et: Extended, a: char, x: string, b: char, y: string, c: char, z: string): Extended {
    Put(Put(Put(et, a, x), b, y), c, z)
  }

  predicate Separates(sep: char) { sep != '%' && !IsSpace(sep) && !IntText.IsDigit(sep) }

  lemma ThreeRead(et: Extended, a: char, x: string, b: char, y: string, c: char, z: string, sep: char,
                  next: string, more: string, strict: bool)
    requires IsNumeric(a) && IsNumeric(b) && IsNumeric(c) && Separates(sep)
    requires Fits(a, x, strict) && Fits(b, y, strict) && Fits(c, z, strict) && IsWhole(z, Width(c), next)
    ensures Parse(et, ThreeText(x, y, z, sep, next), ThreeFormat(a, b, c, sep, more), strict)
         == Parse(PutThree(et, a, x, b, y, c, z), next, more, strict)
  {
    var last, middle := z + next, y + ([sep] + (z + next));
    var e := Put(et, a, x);
    NumberFirst(et, a, x, [sep] + middle, Lit(sep, Dir(b, Lit(sep, Dir(c, more)))), strict);
    LiteralFirst(e, sep, middle, Dir(b, Lit(sep, Dir(c, more))), strict);
    NumberFirst(e, b, y, [sep] + last, Lit(sep, Dir(c, more)), strict);
    LiteralFirst(Put(e, b, y), sep, last, Dir(c, more), strict);
    NumberFirst(Put(e, b, y), c, z, next, more, strict);
  }

  lemma TakeThree(et: Extended, v: string, a: char, b: char, c: char, sep: char, more: string, strict: bool)
      returns (x: string, y: string, z: string, next: string)
    requires IsNumeric(a) && IsNumeric(b) && IsNumeric(c) && Separates(sep)
    requires Parse(et, v, ThreeFormat(a, b, c, sep, more), strict).Read?
    ensures v == ThreeText(x, y, z, sep, next)
    ensures Fits(a, x, strict) && Fits(b, y, strict) && Fits(c, z, strict) && IsWhole(z, Width(c), next)
    ensures Parse(PutThree(et, a, x, b, y, c, z), next, more, strict).Read?
  {
    var v1, v2, v3, v4;
    x, v1 := TakeNumber(et, v, a, Lit(sep, Dir(b, Lit(sep, Dir(c, more)))), strict);
    var e := Put(et, a, x);
    v2 := TakeLiteral(e, v1, sep, Dir(b, Lit(sep, Dir(c, more))), strict);
    y, v3 := TakeNumber(e, v2, b, Lit(sep, Dir(c, more)), strict);
    v4 := TakeLiteral(Put(e, b, y), v3, sep, Dir(c, more), strict);
    z, next := TakeNumber(Put(e, b, y), v4, c, more, strict);
  }

  lemma NotNegative(s: string)
    requires OnlyDigits(s)
    ensures IntText.Natural(s) >= 0
  {
    IntText.NaturalGrows(s, 0);
  }

  function SpelledFormat(): string { DateFormat(Lit(' ', ClockFormat(""))) }

  predicate FitsDate(p: Parts, strict: bool) {
    Fits('Y', p.year, strict) && Fits('m', p.month, strict) && Fits('d', p.day, strict)
  }

  predicate FitsClock(p: Parts, strict: bool) {
    Fits('H', p.hour, strict) && Fits('M', p.minute, strict) && Fits('S', p.second, strict)
  }

  /** The six ranges. */
  lemma SpellsExactly(p: Parts, strict: bool)
    ensures Spells(p, strict) <==>
      && FitsDate(p, strict) && FitsClock(p, strict)
      && IsGap(p.gap, strict) && (p.gap == "" ==> |p.day| == 2) && IsWhole(p.second, 2, p.rest)
  {
    if OnlyDigits(p.hour) && OnlyDigits(p.minute) && OnlyDigits(p.second) {
      NotNegative(p.hour);
      NotNegative(p.minute);
      NotNegative(p.second);
    }
  }

  function Dated(et: Extended, p: Parts): Extended { PutThree(et, 'Y', p.year, 'm', p.month, 'd', p.day) }

  function Clocked(et: Extended, p: Parts): Extended { PutThree(et, 'H', p.hour, 'M', p.minute, 'S', p.second) }

  lemma FieldsAre(et: Extended, p: Parts)
    ensures Clocked(Dated(et, p), p) == FieldsOf(et, p)
  {
  }

  lemma ReadNothing(et: Extended, v: string, strict: bool)
    ensures Parse(et, v, "", strict) == Read(et, v)
  {
  }

  /** Every such text is read, as the fields it spells. */
  lemma SpelledIsRead(base: Extended, p: Parts, strict: bool)
    requires Spells(p, strict)
    ensures Parse(base, TextOf(p), SpelledFormat(), strict) == Read(FieldsOf(base, p), p.rest)
  {
    var clock, et := ClockOf(p), Dated(base, p);
    SpellsExactly(p, strict);
    GapEnds(p, strict);
    ThreeRead(base, 'Y', p.year, 'm', p.month, 'd', p.day, '-', p.gap + clock, Lit(' ', ClockFormat("")), strict);
    GapFirst(et, p.gap, clock, ClockFormat(""), strict);
    ThreeRead(et, 'H', p.hour, 'M', p.minute, 'S', p.second, ':', p.rest, "", strict);
    ReadNothing(Clocked(et, p), p.rest, strict);
    FieldsAre(base, p);
  }

  lemma GapEnds(p: Parts, strict: bool)
    requires Spells(p, strict)
    ensures IsWhole(p.day, 2, p.gap + ClockOf(p)) && ClockOf(p) != "" && !IsSpace(ClockOf(p)[0])
  {
    assert ClockOf(p)[0] == p.hour[0] && IntText.IsDigit(p.hour[0]);
    if p.gap != "" {
      assert (p.gap + ClockOf(p))[0] == p.gap[0] && IsWhite(p.gap[0]);
    }
  }

  /** And nothing else is. */
  lemma ReadIsSpelled(base: Extended, v: string, strict: bool) returns (p: Parts)
    requires Parse(base, v, SpelledFormat(), strict).Read?
    ensures Spells(p, strict) && v == TextOf(p)
  {
    var year, month, day, next := TakeThree(base, v, 'Y', 'm', 'd', '-', Lit(' ', ClockFormat("")), strict);
    var et := PutThree(base, 'Y', year, 'm', month, 'd', day);
    var gap, clock := TakeSpace(et, next, ClockFormat(""), strict);
    var hour, minute, second, rest := TakeThree(et, clock, 'H', 'M', 'S', ':', "", strict);
    p := Parts(year, month, day, gap, hour, minute, second, rest);
    GapNeeded(p);
    SpellsExactly(p, strict);
  }

  lemma GapNeeded(p: Parts)
    requires p.hour != "" && OnlyDigits(p.hour) && IsWhole(p.day, 2, p.gap + ClockOf(p))
    ensures p.gap == "" ==> |p.day| == 2
  {
    assert ClockOf(p)[0] == p.hour[0];
    if p.gap == "" {
      assert p.gap + ClockOf(p) == ClockOf(p);
    }
  }

  /** set_ft's format reads exactly the texts that spell a date and a clock time in range. */
  lemma ReadExactlySpelled(base: Extended, v: string, strict: bool)
    ensures Parse(base, v, SpelledFormat(), strict).Read? <==> exists p :: Spells(p, strict) && v == TextOf(p)
  {
    if Parse(base, v, SpelledFormat(), strict).Read? {
      var p := ReadIsSpelled(base, v, strict);
    }
    if p :| Spells(p, strict) && v == TextOf(p) {
      SpelledIsRead(base, p, strict);
    }
  }
}
