/** Gears::Time: seconds and microseconds, the microseconds always counted upward from the
    second, so that -0.25 s is (-1, 750000).  Every operator is read against the one integer
    the pair stands for. */
module TimeArithmetic {
  import opened Multiples

  const USEC_MAX := 1000000

  datatype Time = Time(sec: int, usec: int) {
    predicate Valid() { 0 <= usec < USEC_MAX }

    function Microseconds(): int { sec * USEC_MAX + usec }
  }

  datatype Print = Print(sign: int, integerPart: int, fractionalPart: int)

  /** Equal microseconds of normalised times are equal times: the operators below are determined
      by their contracts. */
  lemma MicrosecondsInjective(a: Time, b: Time)
    requires a.Valid() && b.Valid() && a.Microseconds() == b.Microseconds()
    ensures a == b
  {
  }

  function Neg(t: Time): (r: Time)
    requires t.Valid()
    ensures r.Valid() && r.Microseconds() == -t.Microseconds()
  {
    if t.usec != 0 then Time(-t.sec - 1, USEC_MAX - t.usec) else Time(-t.sec, 0)
  }

  function Abs(t: Time): (r: Time)
    requires t.Valid()
    ensures r.Valid() && r.sec >= 0
    ensures r.Microseconds() == if t.Microseconds() < 0 then -t.Microseconds() else t.Microseconds()
  {
    if t.sec < 0 then Neg(t) else t
  }

  function Add(a: Time, b: Time): (r: Time)
    requires a.Valid() && b.Valid()
    ensures r.Valid() && r.Microseconds() == a.Microseconds() + b.Microseconds()
  {
    if a.usec + b.usec >= USEC_MAX
    then Time(a.sec + b.sec + 1, a.usec + b.usec - USEC_MAX)
    else Time(a.sec + b.sec, a.usec + b.usec)
  }

  function Sub(a: Time, b: Time): (r: Time)
    requires a.Valid() && b.Valid()
    ensures r.Valid() && r.Microseconds() == a.Microseconds() - b.Microseconds()
  {
    if a.usec < b.usec
    then Time(a.sec - b.sec - 1, USEC_MAX + a.usec - b.usec)
    else Time(a.sec - b.sec, a.usec - b.usec)
  }

  function AbsInt(v: int): nat { if v < 0 then -v else v }

  /** Helper::mul, called with a non-negative time and multiplier. */
  function MulAbs(t: Time, m: nat): (r: Time)
    requires t.Valid() && t.sec >= 0
    ensures r.Valid() && r.sec >= 0 && r.Microseconds() == t.Microseconds() * m
  {
    assert t.usec * m >= 0;
    assert t.sec * m >= 0;
    assert (t.sec * USEC_MAX + t.usec) * m == t.sec * m * USEC_MAX + t.usec * m;
    Time(t.sec * m + t.usec * m / USEC_MAX, t.usec * m % USEC_MAX)
  }

  /** Helper::div, called with a non-negative time and a positive divisor. */
  function DivAbs(t: Time, d: nat): (r: Time)
    requires t.Valid() && t.sec >= 0 && d > 0
    ensures r.Valid() && r.Microseconds() == t.Microseconds() / d
  {
    var q := t.sec / d;
    var rest := (t.sec - q * d) * USEC_MAX + t.usec;
    DivSplit(t.sec, t.usec, d);
    Time(q, rest / d)
  }

  /** Dividing the seconds first and the remainder after gives the quotient of the whole. */
  lemma DivSplit(sec: nat, usec: nat, d: nat)
    requires usec < USEC_MAX && d > 0
    ensures var rest := (sec - sec / d * d) * USEC_MAX + usec;
      && 0 <= rest / d < USEC_MAX
      && (sec * USEC_MAX + usec) / d == sec / d * USEC_MAX + rest / d
  {
    var q, r := sec / d, sec % d;
    assert sec - q * d == r;
    QuotientBelow(r * USEC_MAX + usec, d, USEC_MAX);
    DivShift(q * USEC_MAX, r * USEC_MAX + usec, d);
    assert sec * USEC_MAX + usec == d * (q * USEC_MAX) + (r * USEC_MAX + usec);
  }

  lemma QuotientBelow(n: nat, d: int, bound: int)
    requires d > 0 && n < d * bound
    ensures 0 <= n / d < bound
  {
  }

  lemma DivShift(k: int, n: int, d: int)
    requires d > 0
    ensures (d * k + n) / d == k + n / d
  {
    QuotientIs(n, d, n / d);
    assert d * (k + n / d) == d * k + d * (n / d);
    QuotientIs(d * k + n, d, k + n / d);
  }

  lemma QuotientIs(n: int, d: int, q: int)
    requires d > 0
    ensures d * q <= n < d * q + d <==> n / d == q
  {
    var p := n / d;
    assert d * p <= n < d * p + d;
    assert d * (p - q) == d * p - d * q;
    FarFromZero(d, p - q);
  }

  function Mul(t: Time, m: int): (r: Time)
    requires t.Valid()
    ensures r.Valid() && r.Microseconds() == t.Microseconds() * m
  {
    SignedProduct(Abs(t).Microseconds(), AbsInt(m));
    if (t.sec < 0) == (m < 0) then MulAbs(Abs(t), AbsInt(m)) else Neg(MulAbs(Abs(t), AbsInt(m)))
  }

  lemma SignedProduct(a: int, b: int)
    ensures (-a) * b == -(a * b) && a * (-b) == -(a * b) && (-a) * (-b) == a * b
  {
  }

  /** Division that truncates toward zero. */
  function Truncated(n: int, d: int): int
    requires d != 0
  {
    if (n < 0) == (d < 0) then AbsInt(n) / AbsInt(d) else -(AbsInt(n) / AbsInt(d))
  }

  /** Truncation: the product with d comes as close to n as it can without passing it, and a
      non-zero quotient is negative exactly when the signs differ. */
  lemma TruncatedIsTowardZero(n: int, d: int)
    requires d != 0
    ensures AbsInt(d) * AbsInt(Truncated(n, d)) <= AbsInt(n) < AbsInt(d) * AbsInt(Truncated(n, d)) + AbsInt(d)
    ensures Truncated(n, d) == 0 || (Truncated(n, d) < 0 <==> (n < 0) != (d < 0))
  {
    var q := AbsInt(n) / AbsInt(d);
    QuotientIs(AbsInt(n), AbsInt(d), q);
    assert AbsInt(Truncated(n, d)) == q;
  }

  function Div(t: Time, d: int): (r: Time)
    requires t.Valid() && d != 0
    ensures r.Valid() && r.Microseconds() == Truncated(t.Microseconds(), d)
  {
    if (t.sec < 0) == (d < 0) then DivAbs(Abs(t), AbsInt(d)) else Neg(DivAbs(Abs(t), AbsInt(d)))
  }

  predicate Less(a: Time, b: Time) { a.sec < b.sec || (a.sec == b.sec && a.usec < b.usec) }

  lemma LessIsIntegerOrder(a: Time, b: Time)
    requires a.Valid() && b.Valid()
    ensures Less(a, b) <==> a.Microseconds() < b.Microseconds()
  {
  }

  function Printed(t: Time): (p: Print)
    requires t.Valid()
    ensures p.sign * (p.integerPart * USEC_MAX + p.fractionalPart) == t.Microseconds()
    ensures p.integerPart >= 0 && 0 <= p.fractionalPart < USEC_MAX
    ensures p.sign == if t.Microseconds() > 0 then 1 else if t.Microseconds() < 0 then -1 else 0
  {
    if t.sec > 0 then Print(1, t.sec, t.usec)
    else if t.sec != 0 then
      if t.usec != 0 then Print(-1, -t.sec - 1, USEC_MAX - t.usec) else Print(-1, -t.sec, 0)
    else if t.usec != 0 then Print(1, 0, t.usec)
    else Print(0, 0, 0)
  }

  /** Dividing undoes multiplying, and subtracting undoes adding, on every normalised time. */
  lemma ArithmeticInverses(a: Time, b: Time, m: int)
    requires a.Valid() && b.Valid() && m != 0
    ensures Div(Mul(a, m), m) == a
    ensures Sub(Add(a, b), b) == a
    ensures Neg(Neg(a)) == a
  {
    var n := a.Microseconds();
    ExactQuotient(n, m);
    MicrosecondsInjective(Div(Mul(a, m), m), a);
    MicrosecondsInjective(Sub(Add(a, b), b), a);
    MicrosecondsInjective(Neg(Neg(a)), a);
  }

  lemma ProductSign(n: int, m: int)
    ensures n * m == 0 <==> n == 0 || m == 0
    ensures n * m < 0 <==> (n < 0 < m || m < 0 < n)
  {
  }

  lemma AbsProduct(n: int, m: int)
    ensures AbsInt(n * m) == AbsInt(n) * AbsInt(m)
  {
  }

  lemma QuotientOfProduct(a: nat, d: nat)
    requires d > 0
    ensures a * d / d == a
  {
    QuotientIs(a * d, d, a);
  }

  lemma ExactQuotient(n: int, m: int)
    requires m != 0
    ensures Truncated(n * m, m) == n
  {
    ProductSign(n, m);
    AbsProduct(n, m);
    QuotientOfProduct(AbsInt(n), AbsInt(m));
  }
}
