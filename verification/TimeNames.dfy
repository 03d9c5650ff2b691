/** What is outside the numeric round trip: names, the space-padded day, numbers of variable width and
    fixed text, what of it is printed and what is read back; and which formats print or read at all. */
module TimeNames {
  import opened Options
  import opened Calendar
  import opened TimeFormat
  import opened TimeParse
  import opened ExtendedTimes
  import IntText

  function Initials(s: string): string
    requires |s| >= 3
  {
    [Lower(s[0]), Lower(s[1]), Lower(s[2])]
  }

  lemma StartsLike(v: string, name: string)
    requires |name| >= 3
    ensures StartsWith(v, name) ==> |v| >= 3 && Initials(v) == Initials(name)
  {
  }

  /** The same character but for the case of a letter. */
  predicate SameLetter(a: char, b: char) {
    || a == b
    || ('A' <= a <= 'Z' && b as int == a as int + 32)
    || ('A' <= b <= 'Z' && a as int == b as int + 32)
  }

  predicate SameWord(w: string, name: string) {
    |w| == |name| && forall k :: 0 <= k < |w| ==> SameLetter(w[k], name[k])
  }

  lemma StartsWithWord(w: string, name: string, tail: string)
    requires SameWord(w, name)
    ensures StartsWith(w + tail, name) && (w + tail)[|name|..] == tail
  {
    forall k | 0 <= k < |name|
      ensures Lower((w + tail)[k]) == Lower(name[k])
    {
      assert SameLetter(w[k], name[k]);
    }
  }

  /** The first name that fits is found. */
  lemma {:induction false} FindsName(v: string, full: seq<string>, short: seq<string>, from: nat, m: nat)
    requires |full| == |short| && from <= m < |full|
    requires forall k :: from <= k < m ==> !StartsWith(v, full[k]) && !StartsWith(v, short[k])
    requires StartsWith(v, full[m]) || StartsWith(v, short[m])
    ensures ReadName(v, full, short, from).0 == m
    ensures StartsWith(v, full[m]) ==> ReadName(v, full, short, from).1 == v[|full[m]|..]
    decreases m - from
  {
    if from < m {
      FindsName(v, full, short, from + 1, m);
    }
  }

  /** A table of names in which three letters tell one name from another. */
  predicate Telling(full: seq<string>, short: seq<string>) {
    && |full| == |short|
    && (forall k :: 0 <= k < |full| ==> |full[k]| >= 3 && |short[k]| == 3 && short[k] == full[k][..3])
    && forall j, k :: 0 <= j < k < |full| ==> Initials(full[j]) != Initials(full[k])
  }

  const MONTH_INITIALS: seq<string> := [
    "jan", "feb", "mar", "apr", "may", "jun", "jul", "aug", "sep", "oct", "nov", "dec"]
  const DAY_INITIALS: seq<string> := ["sun", "mon", "tue", "wed", "thu", "fri", "sat"]

  lemma MonthShape(k: nat)
    requires k < 12
    ensures |MONTHS_FULL[k]| >= 3 && |MONTHS_SHORT[k]| == 3 && MONTHS_SHORT[k] == MONTHS_FULL[k][..3]
    ensures Initials(MONTHS_FULL[k]) == MONTH_INITIALS[k]
  {
  }

  lemma DayShape(k: nat)
    requires k < 7
    ensures |DAYS_FULL[k]| >= 3 && |DAYS_SHORT[k]| == 3 && DAYS_SHORT[k] == DAYS_FULL[k][..3]
    ensures Initials(DAYS_FULL[k]) == DAY_INITIALS[k]
  {
  }

  lemma MonthInitialsDiffer(j: nat, k: nat)
    requires j < k < 12
    ensures MONTH_INITIALS[j] != MONTH_INITIALS[k]
  {
  }

  lemma DayInitialsDiffer(j: nat, k: nat)
    requires j < k < 7
    ensures DAY_INITIALS[j] != DAY_INITIALS[k]
  {
  }

  lemma MonthsTell()
    ensures Telling(MONTHS_FULL, MONTHS_SHORT)
  {
    forall k | 0 <= k < 12
      ensures |MONTHS_FULL[k]| >= 3 && |MONTHS_SHORT[k]| == 3 && MONTHS_SHORT[k] == MONTHS_FULL[k][..3]
    {
      MonthShape(k);
    }
    forall j, k | 0 <= j < k < 12
      ensures Initials(MONTHS_FULL[j]) != Initials(MONTHS_FULL[k])
    {
      MonthShape(j);
      MonthShape(k);
      MonthInitialsDiffer(j, k);
    }
  }

  lemma DaysTell()
    ensures Telling(DAYS_FULL, DAYS_SHORT)
  {
    forall k | 0 <= k < 7
      ensures |DAYS_FULL[k]| >= 3 && |DAYS_SHORT[k]| == 3 && DAYS_SHORT[k] == DAYS_FULL[k][..3]
    {
      DayShape(k);
    }
    forall j, k | 0 <= j < k < 7
      ensures Initials(DAYS_FULL[j]) != Initials(DAYS_FULL[k])
    {
      DayShape(j);
      DayShape(k);
      DayInitialsDiffer(j, k);
    }
  }

  /** A name, full or short, is found in any mixture of cases and whatever follows it; after a full one
      reading goes on where the name ends. */
  lemma NameReadsBack(full: seq<string>, short: seq<string>, m: nat, w: string, tail: string)
    requires Telling(full, short) && m < |full| && (SameWord(w, full[m]) || SameWord(w, short[m]))
    ensures ReadName(w + tail, full, short, 0).0 == m
    ensures SameWord(w, full[m]) ==> ReadName(w + tail, full, short, 0).1 == tail
  {
    var name := if SameWord(w, full[m]) then full[m] else short[m];
    StartsWithWord(w, name, tail);
    StartsLike(w + tail, name);
    NoneBefore(w + tail, full, short, m);
    FindsName(w + tail, full, short, 0, m);
  }

  lemma NoneBefore(v: string, full: seq<string>, short: seq<string>, m: nat)
    requires Telling(full, short) && m < |full| && |v| >= 3 && Initials(v) == Initials(full[m])
    ensures forall k :: 0 <= k < m ==> !StartsWith(v, full[k]) && !StartsWith(v, short[k])
  {
    forall k | 0 <= k < m
      ensures !StartsWith(v, full[k]) && !StartsWith(v, short[k])
    {
      StartsLike(v, full[k]);
      StartsLike(v, short[k]);
      assert Initials(short[k]) == Initials(full[k]);
    }
  }

  predicate IsMonthName(c: char) { c == 'b' || c == 'B' || c == 'h' }

  lemma MonthPiece(et: Extended, c: char)
    requires Printable(et) && IsMonthName(c)
    ensures Piece(et, c) == Some(if c == 'B' then MONTHS_FULL[et.tm.mon] else MONTHS_SHORT[et.tm.mon])
  {
  }

  lemma MonthRead(base: Extended, v: string, d: char, strict: bool, m: nat)
    requires IsMonthName(d) && m < 12 && ReadName(v, MONTHS_FULL, MONTHS_SHORT, 0).0 == m
    ensures ReadDirective(base, v, d, strict)
         == Read(base.(tm := base.tm.(mon := m)), ReadName(v, MONTHS_FULL, MONTHS_SHORT, 0).1)
  {
  }

  /** A month name in any mixture of cases is read as its month. */
  lemma AnyCaseReads(base: Extended, m: nat, w: string, d: char, tail: string, strict: bool)
    requires IsMonthName(d) && m < 12 && (SameWord(w, MONTHS_FULL[m]) || SameWord(w, MONTHS_SHORT[m]))
    ensures var r := ReadDirective(base, w + tail, d, strict);
      && r.Read? && r.et == base.(tm := base.tm.(mon := m))
      && (SameWord(w, MONTHS_FULL[m]) ==> r.rest == tail)
  {
    MonthsTell();
    NameReadsBack(MONTHS_FULL, MONTHS_SHORT, m, w, tail);
    MonthRead(base, w + tail, d, strict, m);
  }

  /** A printed month name is read back as its month by any of %b, %B and %h. */
  lemma MonthReadsBack(base: Extended, et: Extended, c: char, d: char, tail: string, strict: bool)
    requires Printable(et) && IsMonthName(c) && IsMonthName(d)
    ensures Piece(et, c).Some?
    ensures var r := ReadDirective(base, Piece(et, c).value + tail, d, strict);
      && r.Read? && r.et == base.(tm := base.tm.(mon := et.tm.mon))
      && (c == 'B' ==> r.rest == tail)
  {
    MonthPiece(et, c);
    AnyCaseReads(base, et.tm.mon, Piece(et, c).value, d, tail, strict);
  }

  lemma DayPiece(et: Extended, c: char)
    requires Printable(et) && KnownDay(et) && IsDayName(c)
    ensures Piece(et, c) == Some(if c == 'A' then DAYS_FULL[et.tm.wday] else DAYS_SHORT[et.tm.wday])
  {
  }

  lemma DayRead(base: Extended, v: string, d: char, strict: bool, w: nat)
    requires IsDayName(d) && w < 7 && ReadName(v, DAYS_FULL, DAYS_SHORT, 0).0 == w
    ensures ReadDirective(base, v, d, strict) == Read(base, ReadName(v, DAYS_FULL, DAYS_SHORT, 0).1)
  {
  }

  /** The name printed for a weekday is the one of that weekday; it is read, and dropped. */
  lemma DayReadsBack(base: Extended, et: Extended, c: char, d: char, tail: string, strict: bool)
    requires Printable(et) && KnownDay(et) && IsDayName(c) && IsDayName(d)
    ensures Piece(et, c).Some?
    ensures ReadName(Piece(et, c).value + tail, DAYS_FULL, DAYS_SHORT, 0).0 == et.tm.wday
    ensures var r := ReadDirective(base, Piece(et, c).value + tail, d, strict);
      r.Read? && r.et == base && (c == 'A' ==> r.rest == tail)
  {
    var w := et.tm.wday;
    DaysTell();
    DayPiece(et, c);
    NameReadsBack(DAYS_FULL, DAYS_SHORT, w, Piece(et, c).value, tail);
    DayRead(base, Piece(et, c).value + tail, d, strict, w);
  }

  lemma SpacedPiece(et: Extended)
    requires Printable(et)
    ensures Piece(et, 'e') == Some(SpacePadded(et.tm.mday))
  {
  }

  lemma DayOfMonthRead(base: Extended, v: string, strict: bool)
    ensures var n, r := ReadNumber(2, v, base.tm.mday, strict), ReadDirective(base, v, 'e', strict);
      if n.ok && 1 <= n.value <= 31 then r == Read(base.(tm := base.tm.(mday := n.value)), n.rest) else r.Failed?
  {
    assert ReadDirective(base, v, 'e', strict) == ReadField(base, v, 'e', strict);
  }

  lemma BelowHundred(x: nat)
    requires x < 100
    ensures x % IntText.Pow10(2) == x
  {
    assert IntText.Pow10(2) == 100;
  }

  lemma TwoDigitsRead(x: nat, tail: string, was: int, strict: bool)
    requires 10 <= x < 100
    ensures ReadNumber(2, SpacePadded(x) + tail, was, strict) == Number(true, x, tail)
  {
    PaddedLikeDigits(x);
    BelowHundred(x);
    ReadsBack(2, x, tail, was, strict);
  }

  lemma SpaceNotRead(x: nat, tail: string, was: int, strict: bool)
    requires x < 10
    ensures !ReadNumber(2, SpacePadded(x) + tail, was, strict).ok
  {
    assert (SpacePadded(x) + tail)[0] == ' ';
  }

  lemma PaddedLikeDigits(x: nat)
    requires 10 <= x < 100
    ensures SpacePadded(x) == Digits(2, x)
  {
    var t := Div(x, 10);
    TensDigit(t);
    OneDigit(t);
    assert SpacePadded(x) == [DigitOf(t)] + [DigitOf(x)];
  }

  lemma TensDigit(t: nat)
    requires 1 <= t < 10
    ensures (('0' as int + t) % 256) as char == DigitOf(t)
  {
  }

  lemma OneDigit(t: nat)
    requires t < 10
    ensures Digits(1, t) == [DigitOf(t)]
  {
    assert Digits(0, Div(t, 10)) == "";
  }

  /** %e pads with a space that it does not read: the day comes back exactly from the tenth on. */
  lemma SpacedDayReadsBack(base: Extended, et: Extended, tail: string, strict: bool)
    requires Printable(et) && 1 <= et.tm.mday <= 31
    ensures Piece(et, 'e').Some?
    ensures var r := ReadDirective(base, Piece(et, 'e').value + tail, 'e', strict);
      if et.tm.mday >= 10 then r == Read(base.(tm := base.tm.(mday := et.tm.mday)), tail) else r.Failed?
  {
    var day := et.tm.mday;
    SpacedPiece(et);
    DayOfMonthRead(base, SpacePadded(day) + tail, strict);
    if day >= 10 {
      TwoDigitsRead(day, tail, base.tm.mday, strict);
    } else {
      SpaceNotRead(day, tail, base.tm.mday, strict);
    }
  }

  lemma PlainPieces(et: Extended)
    requires Printable(et)
    ensures GmToTime(et.tm) > -IntText.IntType.Int64.Max() ==> Piece(et, 's') == Some(IntText.Text(GmToTime(et.tm)))
    ensures et.tm.hour > -0x8000_0000 ==> Piece(et, 'k') == Some(IntText.Text(et.tm.hour))
    ensures Piece(et, 'z') == Some("+0000")
  {
  }

  /** %k prints the hour and %s the second, as decimals. */
  lemma PlainDenotes(et: Extended)
    requires Printable(et)
    ensures Piece(et, 's').Some? && IntText.Denoted(Piece(et, 's').value) == GmToTime(et.tm)
    ensures et.tm.hour > -0x8000_0000 ==> Piece(et, 'k').Some? && IntText.Denoted(Piece(et, 'k').value) == et.tm.hour
  {
    SecondsFit(et);
    PlainPieces(et);
    IntText.TextDenotes(IntText.IntType.Int64, GmToTime(et.tm));
    IntText.TextDenotes(IntText.IntType.Int32, et.tm.hour);
  }

  /** These are printed only: no text at all is read with them. */
  lemma NeverRead(base: Extended, c: char, v: string, strict: bool)
    requires c == 'k' || c == 's' || c == 'z' || c == 'F' || c == 'T'
    ensures ReadDirective(base, v, c, strict).Failed?
  {
  }

  // ----- fixed text -----

  /** The format that stands for a fixed text. */
  function Escaped(s: string): string {
    if s == "" then "" else (if s[0] == '%' then "%%" else [s[0]]) + Escaped(s[1..])
  }

  lemma EscapedFirst(s: string)
    requires s != ""
    ensures Escaped(s) == if s[0] == '%' then Dir('%', Escaped(s[1..])) else Lit(s[0], Escaped(s[1..]))
  {
    assert "%%" + Escaped(s[1..]) == Dir('%', Escaped(s[1..]));
  }

  /** It prints the text. */
  lemma {:induction false} EscapedPrints(et: Extended, s: string)
    requires Printable(et)
    ensures Text(et, Escaped(s)) == Some(s)
    decreases |s|
  {
    if s != "" {
      EscapedFirst(s);
      EscapedPrints(et, s[1..]);
      if s[0] == '%' {
        PercentPiece(et);
        TextOfDir(et, '%', Escaped(s[1..]));
      } else {
        TextOfLit(et, s[0], Escaped(s[1..]));
      }
      assert [s[0]] + s[1..] == s;
    }
  }

  lemma PercentPiece(et: Extended)
    requires Printable(et)
    ensures Piece(et, '%') == Some("%")
  {
  }

  /** And it reads exactly the texts that start with it; so does the lenient mode if the text has no white
      space. */
  lemma {:induction false} EscapedReads(et: Extended, s: string, v: string, strict: bool)
    requires strict || forall k :: 0 <= k < |s| ==> !IsSpace(s[k])
    ensures var r := Parse(et, v, Escaped(s), strict);
      if s <= v then r == Read(et, v[|s|..]) else r.Failed?
    decreases |s|
  {
    if s != "" {
      EscapedFirst(s);
      CharacterRead(et, s[0], v, Escaped(s[1..]), strict);
      if v != "" && v[0] == s[0] {
        EscapedReads(et, s[1..], v[1..], strict);
        assert s <= v <==> s[1..] <= v[1..];
      }
    }
  }

  lemma CharacterRead(et: Extended, c: char, v: string, more: string, strict: bool)
    requires strict || !IsSpace(c)
    ensures var r := Parse(et, v, if c == '%' then Dir('%', more) else Lit(c, more), strict);
      if v != "" && v[0] == c then r == Parse(et, v[1..], more, strict) else r.Failed?
  {
    assert Dir('%', more)[2..] == more && Lit(c, more)[1..] == more;
  }

  predicate Readable(c: char) {
    c in {'%', 'a', 'A', 'b', 'B', 'h', 'd', 'e', 'H', 'm', 'M', 'q', 'S', 'Y'}
  }

  predicate AllReadable(format: string)
    decreases |format|
  {
    format == "" ||
    (if format[0] != '%' then AllReadable(format[1..])
     else |format| > 1 && Readable(format[1]) && AllReadable(format[2..]))
  }

  /** A format with an unknown directive, or cut inside one, reads no text at all. */
  lemma {:induction false} OnlyReadable(et: Extended, v: string, format: string, strict: bool)
    ensures Parse(et, v, format, strict).Read? ==> AllReadable(format)
    decreases |format|
  {
    if format == "" {
    } else if format[0] != '%' {
      var r := ReadLiteral(et, v, format[0], strict);
      if r.Read? {
        OnlyReadable(r.et, r.rest, format[1..], strict);
      }
    } else if |format| > 1 {
      var r := ReadDirective(et, v, format[1], strict);
      KnownDirective(et, v, format[1], strict);
      if r.Read? {
        OnlyReadable(r.et, r.rest, format[2..], strict);
      }
    }
  }

  lemma KnownDirective(et: Extended, v: string, c: char, strict: bool)
    ensures ReadDirective(et, v, c, strict).Read? ==> Readable(c)
  {
  }

  predicate HasPiece(c: char) {
    c in {'%', 'a', 'A', 'b', 'B', 'h', 'd', 'e', 'F', 'H', 'k', 'm', 'M', 'q', 's', 'S', 'T', 'Y', 'z'}
  }

  predicate AllPrinted(format: string)
    decreases |format|
  {
    format == "" ||
    (if format[0] != '%' then AllPrinted(format[1..])
     else |format| > 1 && HasPiece(format[1]) && AllPrinted(format[2..]))
  }

  /** All fields can be printed: to_str_ refuses the smallest hour, as int_to_str does. */
  predicate AllFieldsPrint(et: Extended) {
    Printable(et) && KnownDay(et) && et.tm.hour > -0x8000_0000
  }

  lemma SimplePieceOf(et: Extended, c: char)
    requires AllFieldsPrint(et) && GmToTime(et.tm) > -IntText.IntType.Int64.Max()
    ensures c != 'F' && c != 'T' ==> (SimplePiece(et, c).Some? <==> HasPiece(c))
  {
  }

  lemma PieceOf(et: Extended, c: char)
    requires AllFieldsPrint(et)
    ensures Piece(et, c).Some? <==> HasPiece(c)
  {
    SecondsFit(et);
    SimplePieceOf(et, c);
    NestedTexts(et);
  }

  /** A format prints something exactly when all its directives are known and none is cut. */
  lemma {:induction false} PrintsExactlyKnown(et: Extended, format: string)
    requires AllFieldsPrint(et)
    ensures Text(et, format).Some? <==> AllPrinted(format)
    decreases |format|
  {
    if format == "" {
    } else if format[0] != '%' {
      assert format == Lit(format[0], format[1..]);
      TextOfLit(et, format[0], format[1..]);
      PrintsExactlyKnown(et, format[1..]);
    } else if |format| > 1 {
      assert format == Dir(format[1], format[2..]);
      TextOfDir(et, format[1], format[2..]);
      PieceOf(et, format[1]);
      PrintsExactlyKnown(et, format[2..]);
    }
  }
}
