/** StringManip::str_to_int and int_to_str over the built-in integer types. */
module IntText {

  datatype IntType = Int8 | UInt8 | Int16 | UInt16 | Int32 | UInt32 | Int64 | UInt64 {
    predicate Signed() { Int8? || Int16? || Int32? || Int64? }

    // std::numeric_limits<Integer>::max()
    function Max(): int {
      match this
      case Int8 => 0x7F
      case UInt8 => 0xFF
      case Int16 => 0x7FFF
      case UInt16 => 0xFFFF
      case Int32 => 0x7FFF_FFFF
      case UInt32 => 0xFFFF_FFFF
      case Int64 => 0x7FFF_FFFF_FFFF_FFFF
      case UInt64 => 0xFFFF_FFFF_FFFF_FFFF
    }

    function Min(): int { if Signed() then -Max() - 1 else 0 }

    // std::numeric_limits<Integer>::digits10
    function Digits10(): nat {
      match this
      case Int8 => 2
      case UInt8 => 2
      case Int16 => 4
      case UInt16 => 4
      case Int32 => 9
      case UInt32 => 9
      case Int64 => 18
      case UInt64 => 19
    }

    predicate Holds(x: int) { Min() <= x <= Max() }

    /** An intermediate value, which must fit the type: no step may overflow. */
    function Fit(x: int): int
      requires Holds(x)
    {
      x
    }
  }

  type Byte = c: char | c as int < 256 witness 'a'

  // ----- decimal text and what it denotes -----

  predicate IsDigit(c: char) { '0' <= c <= '9' }

  predicate AllDigits(s: string) { s != "" && forall i :: 0 <= i < |s| ==> IsDigit(s[i]) }

  function Natural(s: string): int {
    if s == "" then 0 else Natural(s[..|s| - 1]) * 10 + (s[|s| - 1] as int - '0' as int)
  }

  predicate HasSign(s: string) { s != "" && (s[0] == '-' || s[0] == '+') }

  function Body(s: string): string { if HasSign(s) then s[1..] else s }

  /** Decimal digits after an optional sign; a minus only for signed types. */
  predicate IsDecimal(signed: bool, s: string) {
    s != "" && (s[0] == '-' ==> signed) && AllDigits(Body(s))
  }

  function Denoted(s: string): int {
    if s != "" && s[0] == '-' then -Natural(Body(s)) else Natural(Body(s))
  }

  /** Further digits never make a number smaller. */
  lemma {:induction false} NaturalGrows(s: string, i: nat)
    requires i <= |s| && forall k :: 0 <= k < |s| ==> IsDigit(s[k])
    ensures 0 <= Natural(s[..i]) <= Natural(s)
    decreases |s|
  {
    if i < |s| {
      NaturalGrows(s[..|s| - 1], i);
      assert s[..|s| - 1][..i] == s[..i];
    } else if i > 0 {
      assert s[..i] == s;
      NaturalGrows(s[..|s| - 1], |s| - 1);
      assert s[..|s| - 1][..|s| - 1] == s[..|s| - 1];
    } else {
      assert s[..0] == "";
    }
  }

  /** static_cast<unsigned char>(*src) - static_cast<unsigned char>('0'), which wraps. */
  function DigitByte(c: Byte): nat { (c as int - '0' as int) % 256 }

  lemma DigitByteIs(c: Byte)
    ensures DigitByte(c) <= 9 <==> IsDigit(c)
    ensures IsDigit(c) ==> DigitByte(c) == c as int - '0' as int
  {
  }

  lemma PrefixStep(s: string, i: nat)
    requires i < |s|
    ensures Natural(s[..i + 1]) == Natural(s[..i]) * 10 + (s[i] as int - '0' as int)
  {
    assert s[..i + 1][..i] == s[..i];
  }

  datatype Digit = Refused | Taken(value: int)

  /** One turn of the non-negative loop: the tests refuse exactly the non-digits and the digits
      that would leave the type, and no intermediate value leaves it. */
  function PushPositive(ty: IntType, value: int, ch: nat): (r: Digit)
    requires 0 <= value <= ty.Max()
    ensures r == if ch <= 9 && value * 10 + ch <= ty.Max() then Taken(value * 10 + ch) else Refused
  {
    var limit := ty.Max() / 10;
    if ch > 9 || value > limit || (value == limit && ch > ty.Max() - limit * 10)
    then Refused
    else Taken(ty.Fit(ty.Fit(value * 10) + ch))
  }

  /** One turn of the negative loop, which counts downward to reach the minimum. */
  function PushNegative(ty: IntType, value: int, ch: nat): (r: Digit)
    requires ty.Signed() && ty.Min() <= value <= 0
    ensures r == if ch <= 9 && ty.Min() <= value * 10 - ch then Taken(value * 10 - ch) else Refused
  {
    var limit := ty.Max() / 10;
    if ch > 9 || value < -limit || (value == -limit && ch > -(ty.Min() + limit * 10))
    then Refused
    else Taken(ty.Fit(ty.Fit(value * 10) - ch))
  }

  method ReadNegative(ty: IntType, s: seq<Byte>) returns (ok: bool, value: int)
    requires ty.Signed() && s != []
    ensures ok <==> AllDigits(s) && ty.Min() <= -Natural(s)
    ensures ok ==> value == -Natural(s)
  {
    value := 0;
    var i := 0;
    while i < |s|
      invariant 0 <= i <= |s|
      invariant forall k :: 0 <= k < i ==> IsDigit(s[k])
      invariant ty.Min() <= value <= 0 && value == -Natural(s[..i])
    {
      PrefixStep(s, i);
      var next := PushNegative(ty, value, DigitByte(s[i]));
      DigitByteIs(s[i]);
      if next.Refused? {
        if AllDigits(s) {
          NaturalGrows(s, i + 1);
        }
        return false, value;
      }
      value := next.value;
      i := i + 1;
    }
    assert s[..i] == s;
    ok := true;
  }

  method ReadPositive(ty: IntType, s: seq<Byte>) returns (ok: bool, value: int)
    requires s != []
    ensures ok <==> AllDigits(s) && Natural(s) <= ty.Max()
    ensures ok ==> value == Natural(s)
  {
    value := 0;
    var i := 0;
    while i < |s|
      invariant 0 <= i <= |s|
      invariant forall k :: 0 <= k < i ==> IsDigit(s[k])
      invariant 0 <= value <= ty.Max() && value == Natural(s[..i])
    {
      PrefixStep(s, i);
      var next := PushPositive(ty, value, DigitByte(s[i]));
      DigitByteIs(s[i]);
      if next.Refused? {
        if AllDigits(s) {
          NaturalGrows(s, i + 1);
        }
        return false, value;
      }
      value := next.value;
      i := i + 1;
    }
    assert s[..i] == s;
    ok := true;
  }

  /** str_to_int accepts exactly the decimals whose value the type holds, and returns it. */
  method StrToInt(ty: IntType, str: seq<Byte>) returns (ok: bool, value: int)
    ensures ok <==> IsDecimal(ty.Signed(), str) && ty.Holds(Denoted(str))
    ensures ok ==> value == Denoted(str)
  {
    value := 0;
    if str == [] {
      return false, value;
    }
    var src := str;
    var negative := false;
    if src[0] == '-' || src[0] == '+' {
      if src[0] == '-' {
        if !ty.Signed() {
          return false, value;
        }
        negative := true;
      }
      src := src[1..];
      if src == [] {
        return false, value;
      }
    }
    if AllDigits(src) {
      NaturalGrows(src, 0);
    }
    if negative {
      ok, value := ReadNegative(ty, src);
    } else {
      ok, value := ReadPositive(ty, src);
    }
  }

  // ----- writing -----

  function DigitChar(d: int): char
    requires 0 <= d < 10
  {
    ('0' as int + d) as char
  }

  function NaturalText(n: nat): (s: string)
    ensures AllDigits(s)
  {
    if n < 10 then [DigitChar(n)] else NaturalText(n / 10) + [DigitChar(n % 10)]
  }

  function Text(v: int): string { if v < 0 then "-" + NaturalText(-v) else NaturalText(v) }

  function Pow10(k: nat): (p: nat)
    ensures p > 0
  {
    if k == 0 then 1 else 10 * Pow10(k - 1)
  }

  /** n < 10^k needs at most k digits. */
  lemma {:induction false} TextLength(n: nat, k: nat)
    requires k >= 1 && n < Pow10(k)
    ensures 1 <= |NaturalText(n)| <= k
  {
    if n >= 10 {
      TextLength(n / 10, k - 1);
    }
  }

  lemma {:induction false} NaturalOfText(n: nat)
    ensures Natural(NaturalText(n)) == n
  {
    if n >= 10 {
      NaturalOfText(n / 10);
      assert NaturalText(n)[..|NaturalText(n)| - 1] == NaturalText(n / 10);
    } else {
      assert NaturalText(n)[..0] == "";
    }
  }

  /** How many values some bytes can tell apart. */
  function Patterns(bytes: nat): nat {
    if bytes == 0 then 1 else 256 * Patterns(bytes - 1)
  }

  function Bytes(ty: IntType): nat {
    match ty
    case Int8 => 1
    case UInt8 => 1
    case Int16 => 2
    case UInt16 => 2
    case Int32 => 4
    case UInt32 => 4
    case Int64 => 8
    case UInt64 => 8
  }

  /** Each type holds as many values as its bits can tell apart, half of them negative if it is signed;
      and digits10 is the largest number of digits that always fit. */
  lemma TypeRanges(ty: IntType)
    ensures ty.Max() - ty.Min() + 1 == Patterns(Bytes(ty))
    ensures ty.Min() == if ty.Signed() then -(ty.Max() + 1) else 0
    ensures Pow10(ty.Digits10()) - 1 <= ty.Max() < Pow10(ty.Digits10() + 1) - 1
  {
    MaxDigits(ty);
    assert Patterns(2) == 0x1_0000 && Patterns(4) == 0x1_0000_0000;
    assert Patterns(8) == 0x1_0000_0000_0000_0000;
  }

  /** The largest value of each type has digits10 + 1 digits. */
  lemma MaxDigits(ty: IntType)
    ensures Pow10(ty.Digits10()) <= ty.Max() < Pow10(ty.Digits10() + 1) - 1
  {
    assert Pow10(2) == 100;
    assert Pow10(4) == 1_0000;
    assert Pow10(9) == 1_0000_00000;
    assert Pow10(18) == 1000_00000_00000_00000;
    assert Pow10(3) == 1000;
    assert Pow10(5) == 1_00000;
    assert Pow10(10) == 1_00000_00000;
    assert Pow10(15) == 1_00000_00000_00000;
    assert Pow10(19) == 1_0000_00000_00000_00000;
    assert Pow10(20) == 1_00000_00000_00000_00000;
  }

  function Backwards(s: string): (r: string)
    ensures |r| == |s| && forall i :: 0 <= i < |s| ==> r[i] == s[|s| - 1 - i]
  {
    seq(|s|, i requires 0 <= i < |s| => s[|s| - 1 - i])
  }

  lemma BackwardsAppend(s: string, c: char)
    ensures Backwards(s + [c]) == [c] + Backwards(s)
  {
  }

  /** Outside at..end the array is as it was. */
  twostate predicate Only(str: array<char>, at: nat, end: nat)
    requires at <= end <= str.Length
    reads str
  {
    forall k :: 0 <= k < at || end <= k < str.Length ==> str[k] == old(str[k])
  }

  /** The do-while loop: digits from the low end. */
  method WriteDigits(value: nat, str: array<char>, at: nat) returns (ptr: nat)
    requires at + |NaturalText(value)| < str.Length
    modifies str
    ensures ptr == at + |NaturalText(value)| && Backwards(str[at..ptr]) == NaturalText(value)
    ensures Only(str, at, ptr)
  {
    var v := value;
    ptr := at;
    ghost var text := NaturalText(value);
    str[ptr] := DigitChar(v % 10);
    ptr := ptr + 1;
    v := v / 10;
    assert str[at..ptr] == [DigitChar(value % 10)];
    while v != 0
      invariant at < ptr && (if v == 0 then ptr - at == |text| else ptr - at + |NaturalText(v)| == |text|)
      invariant text == (if v == 0 then "" else NaturalText(v)) + Backwards(str[at..ptr])
      invariant ptr <= str.Length && Only(str, at, ptr)
    {
      ghost var written := str[at..ptr];
      str[ptr] := DigitChar(v % 10);
      assert str[at..ptr + 1] == written + [DigitChar(v % 10)];
      BackwardsAppend(written, DigitChar(v % 10));
      ptr := ptr + 1;
      v := v / 10;
    }
  }

  /** The swap loop. */
  method ReverseAt(str: array<char>, at: nat, end: nat)
    requires at < end <= str.Length
    modifies str
    ensures str[at..end] == Backwards(old(str[at..end])) && Only(str, at, end)
  {
    var lo, hi := at, end - 1;
    while lo < hi
      invariant at <= lo && lo + hi == at + end - 1 && lo <= hi + 1
      invariant forall k :: at <= k < lo || hi < k < end ==> str[k] == old(str[at + end - 1 - k])
      invariant forall k :: lo <= k <= hi ==> str[k] == old(str[k])
      invariant Only(str, at, end)
    {
      str[lo], str[hi] := str[hi], str[lo];
      lo := lo + 1;
      hi := hi - 1;
    }
    forall k | 0 <= k < end - at
      ensures str[at..end][k] == Backwards(old(str[at..end]))[k]
    {
      assert str[at + k] == old(str[end - 1 - k]);
    }
  }

  /** IntToStrSign<Integer, false>::convert at offset `at`. */
  method ConvertUnsigned(value: nat, str: array<char>, at: nat) returns (size: nat)
    requires at + |NaturalText(value)| < str.Length
    modifies str
    ensures size == |NaturalText(value)| && str[at..at + size] == NaturalText(value)
    ensures str[at + size] == '\0' && Only(str, at, at + size + 1)
  {
    var ptr := WriteDigits(value, str, at);
    size := ptr - at;
    label written:
    str[ptr] := '\0';
    assert str[at..ptr] == old@written(str[at..ptr]);
    ReverseAt(str, at, ptr);
  }

  /** IntToStrSign::convert for signed types; for unsigned ones the first two cases cannot occur. */
  method ConvertSigned(ty: IntType, value: int, str: array<char>) returns (size: nat)
    requires ty.Holds(value) && str.Length >= ty.Digits10() + 3
    modifies str
    ensures value < -ty.Max() ==> size == 0 && Only(str, 0, 0)
    ensures value >= -ty.Max() ==>
      && size == |Text(value)| && 1 <= size && size + 1 <= ty.Digits10() + 3
      && str[..size] == Text(value) && str[size] == '\0' && Only(str, 0, size + 1)
  {
    if value < -ty.Max() {
      return 0;
    }
    MaxDigits(ty);
    if value < 0 {
      TextLength(-value, ty.Digits10() + 1);
      str[0] := '-';
      size := ConvertUnsigned(-value, str, 1);
      size := size + 1;
      assert str[..size] == ['-'] + str[1..size];
    } else {
      TextLength(value, ty.Digits10() + 1);
      size := ConvertUnsigned(value, str, 0);
    }
  }

  /** int_to_str writes the canonical decimal and a terminator inside the first digits10 + 3
      bytes, or nothing at all when the buffer is shorter or the value is the signed minimum. */
  method IntToStr(ty: IntType, value: int, str: array<char>) returns (size: nat)
    requires ty.Holds(value)
    modifies str
    ensures str.Length < ty.Digits10() + 3 || value < -ty.Max() ==> size == 0 && Only(str, 0, 0)
    ensures str.Length >= ty.Digits10() + 3 && value >= -ty.Max() ==>
      && size == |Text(value)| && 1 <= size && size + 1 <= ty.Digits10() + 3
      && str[..size] == Text(value) && str[size] == '\0' && Only(str, 0, size + 1)
  {
    if str.Length < ty.Digits10() + 3 {
      return 0;
    }
    size := ConvertSigned(ty, value, str);
  }

  lemma SignedText(signed: bool, digits: string)
    requires AllDigits(digits)
    ensures IsDecimal(signed, digits) && Denoted(digits) == Natural(digits)
    ensures IsDecimal(signed, "-" + digits) == signed && Denoted("-" + digits) == -Natural(digits)
  {
  }

  /** The canonical text of a value is a decimal of the type and denotes the value. */
  lemma TextDenotes(ty: IntType, value: int)
    requires ty.Holds(value)
    ensures IsDecimal(ty.Signed(), Text(value)) && Denoted(Text(value)) == value
  {
    var digits := NaturalText(if value < 0 then -value else value);
    NaturalOfText(if value < 0 then -value else value);
    SignedText(ty.Signed(), digits);
  }

  /** str_to_int inverts int_to_str on every value but the signed minimum, which is refused. */
  method PrintThenParse(ty: IntType, value: int) returns (printed: bool, ok: bool, back: int)
    requires ty.Holds(value)
    ensures printed <==> value != -ty.Max() - 1
    ensures printed ==> ok && back == value
  {
    var str := new char[ty.Digits10() + 3](_ => '\0');
    var size := IntToStr(ty, value, str);
    printed, ok, back := size > 0, false, 0;
    if printed {
      var text := str[..size];
      assert text == Text(value);
      TextDenotes(ty, value);
      assert forall i :: 0 <= i < |text| ==> text[i] == '-' || IsDigit(text[i]);
      ok, back := StrToInt(ty, text);
    }
  }
}
