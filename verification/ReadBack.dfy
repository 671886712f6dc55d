/** Why the rounding interval is the right one: the binary numbers of one format, the neighbours of a number
    among them, and reading the printed decimal back. */
module ReadBack {
  import opened Bignum
  import opened Powers
  import opened BigintClass
  import opened Digits
  import opened ShortestFormat
  import opened FallbackFormatting

  /** The numbers g * 2^k of a format with p-bit significands and least exponent eMin. */
  predicate IsBinary(g: nat, k: int, p: nat, eMin: int) {
    g < Exp(2, p) && k >= eMin
  }

  /** f * 2^e as fp::assign leaves it: a full significand, or the least exponent. */
  predicate IsNormal(f: nat, e: int, closer: bool, p: nat, eMin: int) {
    && p >= 2 && 0 < f < Exp(2, p) && e >= eMin && (f >= Exp(2, p - 1) || e == eMin)
    && (closer <==> f == Exp(2, p - 1) && e > eMin)
  }

  // ---------- fp::assign ----------

  datatype Parts = Parts(f: nat, e: int, closer: bool)

  /** fp::assign on the bits of a non-negative number: size is that of the stored significand, 52 or 23, and
      exponentSize 11 or 8. */
  function Assign(bits: nat, size: nat, exponentSize: nat): Parts
    requires exponentSize > 0
  {
    ExpPositive(2, size);
    ExpPositive(2, exponentSize);
    var f := bits % Exp(2, size);
    var biased := bits / Exp(2, size) % Exp(2, exponentSize);
    var bias := Exp(2, exponentSize - 1) - 1;
    Parts(if biased != 0 then f + Exp(2, size) else f,
          (if biased != 0 then biased else 1) - bias - size,
          f == 0 && biased > 1)
  }

  /** What it leaves is in normal form, with the least exponent that of the subnormal numbers. */
  lemma AssignIsNormal(bits: nat, size: nat, exponentSize: nat)
    requires size > 0 && exponentSize > 0 && Assign(bits, size, exponentSize).f > 0
    ensures var r := Assign(bits, size, exponentSize);
            IsNormal(r.f, r.e, r.closer, size + 1, 2 - Exp(2, exponentSize - 1) - size)
  {
    ExpNext(2, size);
    ExpPositive(2, size);
    ExpPositive(2, exponentSize);
  }

  // The fields of a bit pattern of `size` and `exponentSize` bits.
  lemma FieldsOfBits(bits: nat, size: nat, exponentSize: nat, f: nat, b: nat)
    requires bits == b * Exp(2, size) + f && f < Exp(2, size) && b < Exp(2, exponentSize)
    ensures Exp(2, size) > 0 && Exp(2, exponentSize) > 0
    ensures bits % Exp(2, size) == f && bits / Exp(2, size) % Exp(2, exponentSize) == b
  {
    hide Exp;
    DivUnique(bits, Exp(2, size), b, f);
    DivUnique(b, Exp(2, exponentSize), 0, b);
  }

  lemma BitsInFields(bits: nat, size: nat, exponentSize: nat) returns (f: nat, b: nat)
    requires bits < Exp(2, size + exponentSize)
    ensures bits == b * Exp(2, size) + f && f < Exp(2, size) && b < Exp(2, exponentSize)
  {
    hide Exp;
    ExpPositive(2, size);
    ExpAdd(2, size, exponentSize);
    b, f := bits / Exp(2, size), bits % Exp(2, size);
    assert bits == Exp(2, size) * b + f;
    if b >= Exp(2, exponentSize) {
      MulOrder(Exp(2, size), Exp(2, exponentSize), b);
      assert false;
    }
  }

  /** The pattern of all zeros is the number zero, at the least exponent. */
  lemma ZeroPattern(size: nat, exponentSize: nat)
    requires exponentSize > 0
    ensures var r := Assign(0, size, exponentSize); r.f == 0 && r.e == 2 - Exp(2, exponentSize - 1) - size
  {
    hide Exp;
    ExpPositive(2, size);
    ExpPositive(2, exponentSize);
    FieldsOfBits(0, size, exponentSize, 0, 0);
  }

  /** Each pattern is the number one unit in the last place above the one before it. From zero on this fixes the
      number of every pattern. */
  lemma NextPattern(bits: nat, size: nat, exponentSize: nat)
    requires exponentSize > 0 && bits + 1 < Exp(2, size + exponentSize)
    ensures var r, s := Assign(bits, size, exponentSize), Assign(bits + 1, size, exponentSize);
            s.f * Lift(s.e, r.e) == (r.f + 1) * Lift(r.e, s.e)
  {
    assert Exp(2, 0) == 1 && Exp(2, 1) == 2;
    hide Exp;
    var f, b := BitsInFields(bits, size, exponentSize);
    FieldsOfBits(bits, size, exponentSize, f, b);
    if f + 1 < Exp(2, size) {
      FieldsOfBits(bits + 1, size, exponentSize, f + 1, b);
    } else {
      MulDistributes(Exp(2, size), b, 1);
      assert bits + 1 == (b + 1) * Exp(2, size) + 0;
      if b + 1 >= Exp(2, exponentSize) {
        ExpAdd(2, size, exponentSize);
        MulOrder(Exp(2, size), Exp(2, exponentSize), b + 1);
        assert false;
      }
      FieldsOfBits(bits + 1, size, exponentSize, 0, b + 1);
    }
  }

  /** The double 1.0 and the float 1.0. */
  lemma OnePointNought()
    ensures Assign(0x3ff0_0000_0000_0000, 52, 11) == Parts(0x10_0000_0000_0000, -52, true)
    ensures Assign(0x3f80_0000, 23, 8) == Parts(0x80_0000, -23, true)
  {
    Sizes();
    ExpNext(2, 52);
    ExpNext(2, 23);
    Exp2Small();
    assert Exp(2, 3) == 8 && Exp(2, 10) == 1024 && Exp(2, 11) == 2048 && Exp(2, 7) == 128;
    hide Exp;
    FieldsOfBits(0x3ff0_0000_0000_0000, 52, 11, 0, 0x3ff);
    FieldsOfBits(0x3f80_0000, 23, 8, 0, 0x7f);
  }

  // ---------- Neighbours ----------

  // Two to the distance of e from the smaller of the two exponents.
  function Lift(e: int, k: int): nat {
    Exp(2, e - Lesser(e, k))
  }

  /** In units of the smaller exponent: any other number of the format is at least one unit of f's last place
      above, or as much below, or half of that where the predecessor is closer. */
  lemma OthersAreFarther(f: nat, e: int, closer: bool, p: nat, eMin: int, g: nat, k: int)
    requires IsNormal(f, e, closer, p, eMin) && IsBinary(g, k, p, eMin)
    requires g * Lift(k, e) != f * Lift(e, k)
    ensures g * Lift(k, e) >= (f + 1) * Lift(e, k) ||
            (if closer then 2 * (g * Lift(k, e)) <= (2 * f - 1) * Lift(e, k)
             else g * Lift(k, e) <= (f - 1) * Lift(e, k))
  {
    assert Exp(2, 0) == 1;
    hide Exp;
    if k < e {
      ExpNext(2, e - k - 1);
      ExpPositive(2, e - k - 1);
      ExpNext(2, p - 1);
      SmallerExponent(f, Exp(2, p - 1), 2 * Exp(2, e - k - 1), g, closer);
    }
  }

  lemma SmallerExponent(f: nat, h: nat, m: nat, g: nat, closer: bool)
    requires f >= h > 0 && g < 2 * h && m >= 2 && (closer <==> f == h)
    ensures if closer then 2 * g <= (2 * f - 1) * m else g <= (f - 1) * m
  {
    if closer {
      MulOrder(2 * f - 1, 2, m);
    } else {
      MulOrder(f - 1, 2, m);
    }
  }

  // ---------- Reading back ----------

  lemma NearestOfTwo(x: int, n: int, lower: nat, upper: nat, y: int, even: bool)
    requires if even then n - lower <= x <= n + upper else n - lower < x < n + upper
    requires y >= n + 2 * upper || y <= n - 2 * lower
    requires lower > 0 && upper > 0
    ensures Distance(x, n) <= Distance(x, y) && (!even ==> Distance(x, n) < Distance(x, y))
  {
  }

  lemma ScaledReadsBack(w: Interval, q: int, even: bool, m: nat)
    requires ReadsBack(w, q, even) && m > 0
    ensures var x, n, lower, upper := m * (q * w.d), m * w.n, m * w.lower, m * w.upper;
            if even then n - lower <= x <= n + upper else n - lower < x < n + upper
  {
    var x := q * w.d;
    MulDistributes(m, w.n, w.upper);
    MulDistributes(m, w.n, w.lower);
    Ordered(m, w.n - w.lower, x);
    Ordered(m, x, w.n + w.upper);
  }

  lemma Ordered(m: nat, x: int, y: int)
    requires m > 0
    ensures x <= y ==> m * x <= m * y
    ensures x < y ==> m * x < m * y
  {
    MulDistributes(m, y, x);
    if x < y {
      AtMost(1, y - x, m);
    }
  }

  // The interval in units of the j-th place: f units of the last place, of which the distances are halves.
  lemma UnitsOfInterval(f: nat, e: int, closer: bool, exp10: int, j: nat)
    requires f > 0
    ensures var v := RoundingInterval(f, if closer then 2 else 1, Over(e, exp10), Under(e, exp10));
            var w := Scaled(v, j);
            && w.n == f * (2 * w.upper) && w.upper == (if closer then 2 else 1) * w.lower
            && w.lower > 0 && w.upper > 0
  {
    hide Exp, Over, Under;
    var v := RoundingInterval(f, if closer then 2 else 1, Over(e, exp10), Under(e, exp10));
    IntervalOfNumber(f, e, closer, exp10);
    var t := Exp(10, j);
    ExpPositive(10, j);
    MulAssociative(f, 2 * v.upper, t);
    MulAssociative(2, v.upper, t);
    MulAssociative(2, v.lower, t);
    OverPositive(e, exp10);
    NonzeroProduct(v.lower, t);
  }

  lemma OverPositive(e: int, exp10: int)
    ensures Over(e, exp10) > 0
  {
    hide Exp;
    if e >= 0 {
      ExpPositive(2, e);
    }
    if exp10 <= 0 {
      ExpPositive(10, -exp10);
    }
    NonzeroProduct(UpTo(2, e), UpTo(10, -exp10));
  }

  // A neighbour's distance, in the unit u of f's last place lifted by m.
  lemma Positions(f: nat, closer: bool, m: nat, other: nat, u: nat, lower: nat, upper: nat)
    requires u == 2 * upper && upper == (if closer then 2 else 1) * lower && f > 0
    requires other >= (f + 1) * m ||
             (if closer then 2 * other <= (2 * f - 1) * m else other <= (f - 1) * m)
    ensures var n := m * (f * u);
            other * u >= n + 2 * (m * upper) || other * u <= n - 2 * (m * lower)
  {
    MulAssociative(m, f, u);
    MulAssociative(m, upper, 1);
    if other >= (f + 1) * m {
      MulOrder(u, (f + 1) * m, other);
      MulDistributes(m, f, 1);
      MulDistributes(u, f * m, m);
      MulAssociative(2, m, upper);
      MulAssociative(m, 2, upper);
    } else if closer {
      MulOrder(upper, 2 * other, (2 * f - 1) * m);
      MulDistributes(m, 2 * f, 1);
      MulDistributes(upper, 2 * f * m, m);
      ProductsAgree(f, m, other, upper, lower);
    } else {
      MulOrder(u, other, (f - 1) * m);
      MulDistributes(m, f, 1);
      MulDistributes(u, f * m, m);
      MulAssociative(2, m, lower);
      MulAssociative(m, 2, lower);
    }
  }

  lemma ProductsAgree(f: nat, m: nat, other: nat, upper: nat, lower: nat)
    requires upper == 2 * lower
    ensures upper * (2 * other) == other * (2 * upper)
    ensures upper * (2 * f * m) == (f * m) * (2 * upper) && upper * m == 2 * (m * lower)
  {
    MulAssociative(upper, 2, other);
    MulAssociative(2 * upper, other, 1);
    MulAssociative(2, f, m);
    MulAssociative(upper, 2, f * m);
    MulAssociative(2 * upper, f * m, 1);
    MulAssociative(2, lower, m);
  }

  // Positions are in units of the decimal's last digit over the denominator, lifted to the smaller of the two
  // exponents; there f * 2^e is at w.n and 2^e is 2 * w.upper.
  predicate NearestTo(f: nat, e: int, w: Interval, q: int, g: nat, k: int, alone: bool) {
    var printed, number, other := Lift(e, k) * (q * w.d), Lift(e, k) * w.n, (g * Lift(k, e)) * (2 * w.upper);
    && Distance(printed, number) <= Distance(printed, other)
    && (alone ==> Distance(printed, number) < Distance(printed, other))
  }

  /** The rounding interval is the right one: of all binary numbers of the format, f * 2^e is the nearest to
      every decimal that reads back, and alone so to every decimal inside. */
  lemma IntervalIsNearest(f: nat, e: int, closer: bool, p: nat, eMin: int, exp10: int, j: nat, q: int, even: bool,
                          g: nat, k: int)
    requires IsNormal(f, e, closer, p, eMin) && IsBinary(g, k, p, eMin)
    requires g * Lift(k, e) != f * Lift(e, k)
    requires var v := RoundingInterval(f, if closer then 2 else 1, Over(e, exp10), Under(e, exp10));
             ReadsBack(Scaled(v, j), q, even)
    ensures var v := RoundingInterval(f, if closer then 2 else 1, Over(e, exp10), Under(e, exp10));
            NearestTo(f, e, Scaled(v, j), q, g, k, !even)
  {
    hide Exp, Over, Under, Scaled, RoundingInterval, IsNormal, IsBinary, ReadsBack;
    var v := RoundingInterval(f, if closer then 2 else 1, Over(e, exp10), Under(e, exp10));
    var w, m, y := Scaled(v, j), Lift(e, k), g * Lift(k, e);
    PositiveSignificand(f, e, closer, p, eMin);
    OthersAreFarther(f, e, closer, p, eMin, g, k);
    UnitsOfInterval(f, e, closer, exp10, j);
    ExpPositive(2, e - Lesser(e, k));
    ScaledReadsBack(w, q, even, m);
    Positions(f, closer, m, y, 2 * w.upper, w.lower, w.upper);
    NonzeroProduct(m, w.lower);
    NonzeroProduct(m, w.upper);
    NearestOfTwo(m * (q * w.d), m * w.n, m * w.lower, m * w.upper, y * (2 * w.upper), even);
  }

  /** What the shortest decimal is for. Among all binary numbers of the format the one printed is the nearest
      to it, and alone so if its significand is odd. */
  lemma ShortestReadsBack(f: nat, e: int, closer: bool, p: nat, eMin: int, exp10: int, exact: bool, ds: seq<nat>,
                          exp: int, g: nat, k: int)
    requires IsNormal(f, e, closer, p, eMin) && IsBinary(g, k, p, eMin)
    requires g * Lift(k, e) != f * Lift(e, k)
    requires var v := RoundingInterval(f, if closer then 2 else 1, Over(e, exp10), Under(e, exp10));
             IsShortest(v, f % 2 == 0, exact, exp10, ds, exp)
    ensures var w := Scaled(RoundingInterval(f, if closer then 2 else 1, Over(e, exp10), Under(e, exp10)), |ds| - 1);
            NearestTo(f, e, w, DigitsValue(ds), g, k, f % 2 == 1)
  {
    hide Exp, Over, Under, DigitsValue, IsDecimal, NoCandidate, Closest, Scaled, RoundingInterval, IsNormal;
    hide IsBinary, ReadsBack, NearestTo, Lift;
    IntervalIsNearest(f, e, closer, p, eMin, exp10, |ds| - 1, DigitsValue(ds), f % 2 == 0, g, k);
  }

  lemma PositiveSignificand(f: nat, e: int, closer: bool, p: nat, eMin: int)
    requires IsNormal(f, e, closer, p, eMin)
    ensures f > 0
  {
  }

  // ---------- Given precision ----------

  // The printed decimal in units of the last of numDigits digits; the carry into the exponent makes its own
  // last digit worth ten of them.
  function RoundedValue(ds: seq<nat>, exp: int, numDigits: nat, exp10: int): nat {
    DigitsValue(ds) * (if exp == exp10 - (numDigits - 1) then 1 else 10)
  }

  // Half a unit of a last decimal place is less than the distance to either midpoint.
  lemma FineEnough(f: nat, c: nat, lower: nat, d: nat, size: nat, ten: nat)
    requires 0 < d <= f * (2 * (c * lower)) && f * c <= size < ten && lower > 0
    ensures d < 2 * (lower * ten)
  {
    MulAssociative(f, c, 2 * lower);
    MulAssociative(2, c, lower);
    MulAssociative(c, 2, lower);
    MulOrder(2 * lower, f * c, size);
    MulOrder(2 * lower, size + 1, ten);
    MulDistributes(2 * lower, size, 1);
    MulAssociative(2, lower, ten);
  }

  lemma HalfUnit(a: nat, d: nat, lower: nat, upper: nat)
    requires 0 < d < 2 * lower && lower <= upper
    ensures Inside(Interval(a, lower, upper, d), RoundHalfEven(a, d))
  {
    var q, r := a / d, a % d;
    assert a == d * q + r;
    MulAssociative(d, q, 1);
    MulDistributes(d, q, 1);
  }

  /** A number of at least 10^exp10, rounded to so many digits that the last decimal place is finer than the
      significand's, lies strictly between the midpoints. */
  lemma RoundedIsInside(f: nat, e: int, closer: bool, p: nat, eMin: int, exp10: int, numDigits: nat)
    requires IsNormal(f, e, closer, p, eMin) && numDigits > 0 && Exp(2, p) < Exp(10, numDigits - 1)
    requires var v := RoundingInterval(f, if closer then 2 else 1, Over(e, exp10), Under(e, exp10));
             v.n >= v.d > 0
    ensures var v := RoundingInterval(f, if closer then 2 else 1, Over(e, exp10), Under(e, exp10));
            Inside(Scaled(v, numDigits - 1), RoundHalfEven(v.n * Exp(10, numDigits - 1), v.d))
  {
    var v := RoundingInterval(f, if closer then 2 else 1, Over(e, exp10), Under(e, exp10));
    var c, t := if closer then 2 else 1, Exp(10, numDigits - 1);
    Significands(f, e, closer, p, eMin);
    hide Exp, Over, Under, RoundingInterval, RoundHalfEven, IsNormal, Inside;
    IntervalOfNumber(f, e, closer, exp10);
    UnitsOfInterval(f, e, closer, exp10, 0);
    UnitsOfInterval(f, e, closer, exp10, numDigits - 1);
    Unscaled(v);
    FineEnough(f, c, v.lower, v.d, Exp(2, p), t);
    HalfUnit(v.n * t, v.d, v.lower * t, v.upper * t);
  }

  lemma Unscaled(v: Interval)
    ensures Scaled(v, 0) == v
  {
    assert Exp(10, 0) == 1;
  }

  lemma Significands(f: nat, e: int, closer: bool, p: nat, eMin: int)
    requires IsNormal(f, e, closer, p, eMin)
    ensures f > 0 && f * (if closer then 2 else 1) <= Exp(2, p)
  {
    ExpNext(2, p - 1);
  }

  /** What the given precision is for: with so many digits the decimal is nearer to the number printed than to
      any other of the format. */
  lemma RoundedReadsBack(f: nat, e: int, closer: bool, p: nat, eMin: int, exp10: int, numDigits: nat, ds: seq<nat>,
                         exp: int, g: nat, k: int)
    requires IsNormal(f, e, closer, p, eMin) && IsBinary(g, k, p, eMin)
    requires g * Lift(k, e) != f * Lift(e, k)
    requires numDigits > 0 && Exp(2, p) < Exp(10, numDigits - 1)
    requires var v := RoundingInterval(f, if closer then 2 else 1, Over(e, exp10), Under(e, exp10));
             v.n >= v.d > 0 && IsRounded(v, numDigits, exp10, ds, exp)
    ensures var v := RoundingInterval(f, if closer then 2 else 1, Over(e, exp10), Under(e, exp10));
            NearestTo(f, e, Scaled(v, numDigits - 1), RoundedValue(ds, exp, numDigits, exp10), g, k, true)
  {
    hide Exp, Over, Under, DigitsValue, IsDecimal, Scaled, RoundingInterval, IsNormal, RoundHalfEven;
    hide IsBinary, NearestTo, Lift, Inside;
    RoundedIsInside(f, e, closer, p, eMin, exp10, numDigits);
    var q := RoundedValue(ds, exp, numDigits, exp10);
    IntervalIsNearest(f, e, closer, p, eMin, exp10, numDigits - 1, q, false, g, k);
  }

  lemma Sizes()
    ensures Exp(2, 24) == 0x100_0000 && Exp(2, 53) == 0x20_0000_0000_0000
    ensures Exp(10, 8) == 1_0000_0000 && Exp(10, 16) == 1_0000_0000_0000_0000
  {
    Exp2Small();
    ExpAdd(2, 8, 16);
    assert Exp(2, 5) == 32;
    ExpAdd(2, 24, 24);
    ExpAdd(2, 48, 5);
    assert Exp(10, 4) == 10000;
    ExpAdd(10, 4, 4);
    ExpAdd(10, 8, 8);
  }

  /** Seventeen digits are enough for a double, and nine for a float. */
  lemma SeventeenDigitsReadBack(f: nat, e: int, closer: bool, p: nat, eMin: int, exp10: int, numDigits: nat,
                                ds: seq<nat>, exp: int, g: nat, k: int)
    requires (p == 53 && numDigits >= 17) || (p == 24 && numDigits >= 9)
    requires IsNormal(f, e, closer, p, eMin) && IsBinary(g, k, p, eMin)
    requires g * Lift(k, e) != f * Lift(e, k)
    requires var v := RoundingInterval(f, if closer then 2 else 1, Over(e, exp10), Under(e, exp10));
             v.n >= v.d > 0 && IsRounded(v, numDigits, exp10, ds, exp)
    ensures var v := RoundingInterval(f, if closer then 2 else 1, Over(e, exp10), Under(e, exp10));
            NearestTo(f, e, Scaled(v, numDigits - 1), RoundedValue(ds, exp, numDigits, exp10), g, k, true)
  {
    hide Exp, Over, Under, Scaled, RoundingInterval, IsNormal, RoundHalfEven, RoundedValue, IsRounded;
    hide IsBinary, NearestTo, Lift;
    Sizes();
    ExpOrder(10, if p == 53 then 16 else 8, numDigits - 1);
    RoundedReadsBack(f, e, closer, p, eMin, exp10, numDigits, ds, exp, g, k);
  }

  function SixteenInterval(): Interval {
    RoundingInterval(5000000000000001, 1, Over(1, 16), Under(1, 16))
  }

  lemma SixteenNumbers()
    ensures var v := SixteenInterval();
            && v.n == 20000000000000004 && v.upper == 2 && v.d == 20000000000000000
            && IsNormal(5000000000000001, 1, false, 53, -1074) && IsBinary(5000000000000000, 1, 53, -1074)
            && Estimated(5000000000000001, 16, Over(1, 16), Under(1, 16)) && Lift(1, 1) == 1
  {
    hide Exp;
    Sizes();
    CasesOfScale(1, 16);
    ExpNext(2, 52);
    Exp2Zero();
    ExpNext(2, 0);
    hide Over, Under;
  }

  lemma SixteenRounded()
    ensures Exp(10, 15) == 1000000000000000
    ensures RoundHalfEven(20000000000000004 * Exp(10, 15), 20000000000000000) == 1000000000000000
  {
    hide Exp;
    Sizes();
    ExpNext(10, 15);
    var a, d, q, r: nat := 20000000000000004 * 1000000000000000, 20000000000000000, 1000000000000000, 4000000000000000;
    assert a == d * q + r;
    DivUnique(a, d, q, r);
  }

  lemma OtherIsThere(f: nat, w: Interval, q: int, g: nat)
    requires Lift(1, 1) == 1 && q * w.d == g * (2 * w.upper) && q * w.d != w.n
    ensures !NearestTo(f, 1, w, q, g, 1, false)
  {
    hide Lift;
  }

  /** Sixteen are not enough: 10^16 + 2, which is 5000000000000001 * 2, is printed as 10^16, another double. */
  method SixteenDigitsAreAnotherNumber() returns (buf: seq<nat>, exp: int)
    ensures IsNormal(5000000000000001, 1, false, 53, -1074) && IsBinary(5000000000000000, 1, 53, -1074)
    ensures SixteenInterval().d > 0 && IsRounded(SixteenInterval(), 16, 16, buf, exp)
    ensures !NearestTo(5000000000000001, 1, Scaled(SixteenInterval(), 15), RoundedValue(buf, exp, 16, 16),
                       5000000000000000, 1, false)
  {
    hide Exp, Over, Under, DigitsValue, RoundingInterval, Estimated, RoundHalfEven, IsNormal, IsBinary, NearestTo;
    hide Lift, IsDecimal, IsShortest, LowerEndWins, SeesLowerEnd;
    SixteenNumbers();
    ghost var stored;
    buf, exp, stored := FallbackFormat(5000000000000001, 1, false, 16, 16);
    SixteenRounded();
    OtherIsThere(5000000000000001, Scaled(SixteenInterval(), 15), 1000000000000000, 5000000000000000);
  }
}
