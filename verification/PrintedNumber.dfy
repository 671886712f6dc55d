/** What is printed, as a real number: the digits times the power of ten they are returned with, beside the
    binary number that was to be printed. */
module PrintedNumber {
  import opened Bignum
  import opened Powers
  import opened BigintClass
  import opened Digits
  import opened ShortestFormat
  import opened FallbackFormatting
  import opened ReadBack

  function Power(b: nat, e: int): (r: real)
    requires b > 0
    ensures r > 0.0
  {
    ExpPositive(b, if e >= 0 then e else -e);
    if e >= 0 then Exp(b, e) as real else 1.0 / Exp(b, -e) as real
  }

  function Binary(f: nat, e: int): real {
    f as real * Power(2, e)
  }

  function Tens(q: nat, exp: int): real {
    q as real * Power(10, exp)
  }

  function Decimal(ds: seq<nat>, exp: int): real {
    Tens(DigitsValue(ds), exp)
  }

  function Apart(x: real, y: real): real {
    if x >= y then x - y else y - x
  }

  // y is at most half of u away from x.
  predicate HalfAway(x: real, y: real, u: real) {
    2.0 * Apart(x, y) <= u
  }

  // ---------- Powers of any sign ----------

  lemma Associative(x: real, y: real, z: real)
    ensures x * y * z == x * (y * z) && x * y == y * x
  {
  }

  lemma Distributes(x: real, y: real, z: real)
    ensures x * (y - z) == x * y - x * z && (y - z) * x == y * x - z * x
  {
  }

  lemma Product(x: int, y: int)
    ensures (x * y) as real == x as real * y as real
  {
  }

  lemma Cancels(c: real, x: real, y: real)
    requires c > 0.0 && x * c == y * c
    ensures x == y
  {
    Distributes(c, x, y);
  }

  lemma PowerNext(b: nat, e: int)
    requires b > 0
    ensures Power(b, e + 1) == b as real * Power(b, e)
  {
    hide Exp;
    if e >= 0 {
      ExpNext(b, e);
      Product(b, Exp(b, e));
    } else {
      ExpNext(b, -e - 1);
      ExpPositive(b, -e - 1);
      ExpPositive(b, -e);
      Product(b, Exp(b, -e - 1));
      var x, y := b as real, Exp(b, -e - 1) as real;
      assert Exp(b, -e) as real == x * y;
      Inverse(x, y);
    }
  }

  lemma Inverse(x: real, y: real)
    requires x > 0.0 && y > 0.0
    ensures x * y > 0.0 && x * (1.0 / (x * y)) == 1.0 / y
  {
    var i := 1.0 / (x * y);
    assert i * (x * y) == 1.0;
    assert (x * i) * y == 1.0;
  }

  lemma {:induction false} PowerAdd(b: nat, e: int, n: nat)
    requires b > 0
    ensures Power(b, e + n) == Power(b, e) * Exp(b, n) as real
  {
    hide Power;
    if n > 0 {
      PowerAdd(b, e, n - 1);
      PowerNext(b, e + n - 1);
      ExpNext(b, n - 1);
      Product(b, Exp(b, n - 1));
      Associative(b as real, Power(b, e), Exp(b, n - 1) as real);
      Associative(Power(b, e), b as real, Exp(b, n - 1) as real);
    }
  }

  // b^e is UpTo(b, e) over UpTo(b, -e).
  lemma PowerIsUpTo(b: nat, e: int)
    requires b > 0
    ensures Power(b, e) * UpTo(b, -e) as real == UpTo(b, e) as real
  {
    hide Exp;
    ExpPositive(b, if e >= 0 then e else -e);
    ExpNext(b, 0);
  }

  // ---------- The interval as numbers ----------

  function TheInterval(f: nat, e: int, closer: bool, exp10: int): Interval {
    RoundingInterval(f, if closer then 2 else 1, Over(e, exp10), Under(e, exp10))
  }

  lemma Fraction(n: real, d: real, f: real, p2: real, p10: real, up2: real, down2: real, up10: real, down10: real)
    requires p2 * down2 == up2 && p10 * down10 == up10 && down2 > 0.0 && down10 > 0.0
    requires n * (up10 * down2) == f * (up2 * down10) * d
    ensures (f * p2 * d) * (down2 * down10) == (n * p10) * (down2 * down10) && down2 * down10 > 0.0
  {
    assert n * (up10 * down2) == n * (p10 * down10 * down2);
    assert f * (up2 * down10) * d == f * (p2 * down2 * down10) * d;
    Regroup(n, p10, down10, down2);
    Regroup(f, p2, down2, down10);
    Associative(f * p2, down2 * down10, d);
    Associative(f * p2, d, down2 * down10);
    Associative(down2, down10, 1.0);
  }

  lemma Regroup(x: real, p: real, y: real, z: real)
    ensures x * (p * y * z) == (x * p) * (y * z) && y * z == z * y
  {
    Associative(p, y, z);
    Associative(x, p, y * z);
  }

  /** v.n / v.d is the number in units of 10^exp10. */
  lemma IntervalHoldsNumber(f: nat, e: int, closer: bool, exp10: int)
    ensures var v := TheInterval(f, e, closer, exp10); Binary(f, e) * v.d as real == v.n as real * Power(10, exp10)
  {
    hide Power, UpTo;
    var v := TheInterval(f, e, closer, exp10);
    IntervalOfNumber(f, e, closer, exp10);
    hide RoundingInterval;
    PowerIsUpTo(2, e);
    PowerIsUpTo(10, exp10);
    UpToPositive(2, -e);
    UpToPositive(10, -exp10);
    Product(UpTo(10, exp10), UpTo(2, -e));
    Product(UpTo(2, e), UpTo(10, -exp10));
    Product(v.n, UpTo(10, exp10) * UpTo(2, -e));
    Product(f, UpTo(2, e) * UpTo(10, -exp10));
    Product(f * (UpTo(2, e) * UpTo(10, -exp10)), v.d);
    Fraction(v.n as real, v.d as real, f as real, Power(2, e), Power(10, exp10), UpTo(2, e) as real,
             UpTo(2, -e) as real, UpTo(10, exp10) as real, UpTo(10, -exp10) as real);
    Cancels(UpTo(2, -e) as real * UpTo(10, -exp10) as real, Binary(f, e) * v.d as real, v.n as real * Power(10, exp10));
  }

  lemma UpToPositive(b: nat, e: int)
    requires b > 0
    ensures UpTo(b, e) > 0
  {
    if e >= 0 {
      ExpPositive(b, e);
    }
  }

  // Real numbers brought to the integer positions of a decimal with j digits behind the first.
  function Scale(v: Interval, j: nat): real {
    (v.d * Exp(10, j)) as real
  }

  lemma DecimalPosition(v: Interval, j: nat, q: nat, exp10: int)
    ensures Tens(q, exp10 - j) * Scale(v, j) == (q * v.d) as real * Power(10, exp10)
  {
    hide Power, Exp;
    PowerAdd(10, exp10 - j, j);
    Product(v.d, Exp(10, j));
    Product(q, v.d);
    var x, p, d, t := q as real, Power(10, exp10 - j), v.d as real, Exp(10, j) as real;
    Associative(x, p, d * t);
    Associative(p, d, t);
    Associative(d, p, t);
    Associative(x, d, p * t);
  }

  lemma BinaryPosition(f: nat, e: int, closer: bool, exp10: int, j: nat)
    ensures var v := TheInterval(f, e, closer, exp10);
            Binary(f, e) * Scale(v, j) == Scaled(v, j).n as real * Power(10, exp10)
  {
    var v := TheInterval(f, e, closer, exp10);
    IntervalHoldsNumber(f, e, closer, exp10);
    hide Power, Exp, Binary, TheInterval;
    Product(v.d, Exp(10, j));
    Product(v.n, Exp(10, j));
    var x, d, t, n, p := Binary(f, e), v.d as real, Exp(10, j) as real, v.n as real, Power(10, exp10);
    Associative(x, d, t);
    Associative(n, p, t);
    Associative(n, t, p);
    Associative(p, t, 1.0);
  }

  // Another number of the format, on the lifted positions.
  lemma LiftedPower(e: int, k: int)
    ensures Power(2, k) * Lift(e, k) as real == Power(2, e) * Lift(k, e) as real
  {
    hide Power, Exp;
    var least := Lesser(e, k);
    PowerAdd(2, least, k - least);
    PowerAdd(2, least, e - least);
    Associative(Power(2, least), Lift(k, e) as real, Lift(e, k) as real);
    Associative(Power(2, least), Lift(e, k) as real, Lift(k, e) as real);
  }

  lemma UnitArithmetic(f: nat, p2: real, s: real, unit: int, p10: real)
    requires f > 0 && f as real * p2 * s == (f * unit) as real * p10
    ensures p2 * s == unit as real * p10
  {
    Product(f, unit);
    Associative(f as real, p2, s);
    Associative(f as real, unit as real, p10);
    Associative(f as real, p2 * s, 1.0);
    Associative(f as real, unit as real * p10, 1.0);
    Cancels(f as real, p2 * s, unit as real * p10);
  }

  // 2^e is one unit.
  lemma UnitPosition(f: nat, e: int, closer: bool, exp10: int, j: nat)
    requires f > 0
    ensures var v := TheInterval(f, e, closer, exp10);
            Power(2, e) * Scale(v, j) == (2 * Scaled(v, j).upper) as real * Power(10, exp10)
  {
    hide Power, RoundingInterval, Scaled, Scale, Over, Under, Exp;
    var v := TheInterval(f, e, closer, exp10);
    BinaryPosition(f, e, closer, exp10, j);
    UnitsOfInterval(f, e, closer, exp10, j);
    UnitArithmetic(f, Power(2, e), Scale(v, j), 2 * Scaled(v, j).upper, Power(10, exp10));
  }

  lemma OtherPosition(f: nat, e: int, closer: bool, exp10: int, j: nat, g: nat, k: int)
    requires f > 0
    ensures var v := TheInterval(f, e, closer, exp10);
            Binary(g, k) * (Scale(v, j) * Lift(e, k) as real) ==
            ((g * Lift(k, e)) * (2 * Scaled(v, j).upper)) as real * Power(10, exp10)
  {
    hide Power, TheInterval, Scaled, Lift, Scale;
    var v := TheInterval(f, e, closer, exp10);
    var unit := 2 * Scaled(v, j).upper;
    UnitPosition(f, e, closer, exp10, j);
    LiftedPower(e, k);
    OtherProducts(g, Lift(k, e), unit);
    OtherArithmetic(g as real, Power(2, k), Scale(v, j), Lift(e, k) as real, Power(2, e), Lift(k, e) as real,
                    unit as real, Power(10, exp10));
  }

  lemma OtherProducts(g: nat, l: nat, unit: int)
    ensures ((g * l) * unit) as real == g as real * l as real * unit as real
  {
    Product(g, l);
    Product(g * l, unit);
  }

  lemma OtherArithmetic(g: real, pk: real, s: real, le: real, pe: real, lk: real, unit: real, p10: real)
    requires pk * le == pe * lk && pe * s == unit * p10
    ensures g * pk * (s * le) == g * lk * unit * p10
  {
    Associative(s, le, 1.0);
    Associative(g * pk, le, s);
    Associative(g, pk, le);
    assert g * pk * (le * s) == g * (pe * lk) * s;
    Associative(pe, lk, s);
    Associative(lk, pe, s);
    Associative(g, pe * lk, s);
    assert g * (pe * lk) * s == g * (lk * (pe * s));
    Associative(g, lk, unit * p10);
    Associative(g * lk, unit, p10);
  }

  // ---------- The decimal and the numbers of the format ----------

  lemma ScaledApart(x: real, y: real, c: real, m: int, n: int, p: real)
    requires c > 0.0 && p > 0.0 && x * c == m as real * p && y * c == n as real * p
    ensures Apart(x, y) * c == Distance(m, n) as real * p
  {
    Distributes(c, x, y);
    Distributes(c, y, x);
    Distributes(p, m as real, n as real);
    Distributes(p, n as real, m as real);
    Ordered(c, y, x);
    Ordered(c, x, y);
    Ordered(p, n as real, m as real);
    Ordered(p, m as real, n as real);
  }

  lemma Ordered(c: real, x: real, y: real)
    requires c > 0.0
    ensures x < y <==> x * c < y * c
  {
    Distributes(c, y, x);
  }

  lemma LiftedPosition(x: real, s: real, l: nat, m: nat, p: real)
    requires x * s == m as real * p
    ensures x * (s * l as real) == (l * m) as real * p
  {
    Product(l, m);
    Associative(x, s, l as real);
    Associative(m as real, p, l as real);
    Associative(l as real, m as real, p);
    Associative(l as real, m as real * p, 1.0);
  }

  lemma LiftPositive(e: int, k: int)
    ensures Lift(e, k) > 0
  {
    ExpPositive(2, e - Lesser(e, k));
  }

  lemma InOrder(x: real, y: real, z: real, c: real, m: int, n: int, o: int, p: real)
    requires c > 0.0 && p > 0.0 && x * c == m as real * p && y * c == n as real * p && z * c == o as real * p
    ensures Distance(m, n) <= Distance(m, o) ==> Apart(x, y) <= Apart(x, z)
    ensures Distance(m, n) < Distance(m, o) ==> Apart(x, y) < Apart(x, z)
  {
    ScaledApart(x, y, c, m, n, p);
    ScaledApart(x, z, c, m, o, p);
    hide Apart, Distance;
    SameOrder(Apart(x, y), Apart(x, z), Distance(m, n), Distance(m, o), c, p);
  }

  lemma SameOrder(a: real, b: real, i: int, k: int, c: real, p: real)
    requires c > 0.0 && p > 0.0 && a * c == i as real * p && b * c == k as real * p
    ensures i <= k ==> a <= b
    ensures i < k ==> a < b
  {
    Ordered(c, b, a);
    Ordered(c, a, b);
    Ordered(p, k as real, i as real);
    Ordered(p, i as real, k as real);
  }

  lemma LiftedInOrder(x: real, y: real, z: real, s: real, l: nat, m: nat, n: nat, o: int, p: real)
    requires s > 0.0 && l > 0 && p > 0.0
    requires x * s == m as real * p && y * s == n as real * p && z * (s * l as real) == o as real * p
    ensures Distance(l * m, l * n) <= Distance(l * m, o) ==> Apart(x, y) <= Apart(x, z)
    ensures Distance(l * m, l * n) < Distance(l * m, o) ==> Apart(x, y) < Apart(x, z)
  {
    LiftedPosition(x, s, l, m, p);
    LiftedPosition(y, s, l, n, p);
    assert s * l as real > 0.0;
    InOrder(x, y, z, s * l as real, l * m, l * n, o, p);
  }

  lemma ScalePositive(v: Interval, j: nat)
    requires v.d > 0
    ensures Scale(v, j) > 0.0
  {
    ExpPositive(10, j);
    NonzeroProduct(v.d, Exp(10, j));
  }

  lemma NearestAsNumbers(f: nat, e: int, closer: bool, exp10: int, j: nat, q: nat, g: nat, k: int, alone: bool)
    requires var v := TheInterval(f, e, closer, exp10);
             f > 0 && v.d > 0 && NearestTo(f, e, Scaled(v, j), q, g, k, alone)
    ensures var x := Tens(q, exp10 - j);
            && Apart(x, Binary(f, e)) <= Apart(x, Binary(g, k))
            && (alone ==> Apart(x, Binary(f, e)) < Apart(x, Binary(g, k)))
  {
    hide Power, Exp, TheInterval, Binary, Tens, Scale, Lift, Apart, Distance;
    var v := TheInterval(f, e, closer, exp10);
    var w := Scaled(v, j);
    DecimalPosition(v, j, q, exp10);
    BinaryPosition(f, e, closer, exp10, j);
    OtherPosition(f, e, closer, exp10, j, g, k);
    LiftPositive(e, k);
    ScalePositive(v, j);
    LiftedInOrder(Tens(q, exp10 - j), Binary(f, e), Binary(g, k), Scale(v, j), Lift(e, k), q * w.d, w.n,
                  (g * Lift(k, e)) * (2 * w.upper), Power(10, exp10));
  }

  /** Two binary numbers are the same if and only if their lifted significands are. */
  lemma SameBinary(f: nat, e: int, g: nat, k: int)
    ensures Binary(g, k) == Binary(f, e) <==> g * Lift(k, e) == f * Lift(e, k)
  {
    hide Power, Lift;
    LiftedPower(e, k);
    LiftPositive(e, k);
    LiftPositive(k, e);
    Product(g, Lift(k, e));
    Product(f, Lift(e, k));
    var le, lk, pe, pk := Lift(e, k) as real, Lift(k, e) as real, Power(2, e), Power(2, k);
    Associative(g as real, pk, le);
    Associative(g as real, pe, lk);
    Associative(g as real, lk, pe);
    Associative(f as real, pe, le);
    Associative(f as real, le, pe);
    assert Binary(g, k) * le == (g as real * lk) * pe && Binary(f, e) * le == (f as real * le) * pe;
    if Binary(g, k) == Binary(f, e) {
      Cancels(pe, g as real * lk, f as real * le);
    } else if g * Lift(k, e) == f * Lift(e, k) {
      Cancels(le, Binary(g, k), Binary(f, e));
    }
  }

  lemma DenominatorPositive(f: nat, e: int, closer: bool, exp10: int)
    ensures TheInterval(f, e, closer, exp10).d > 0
  {
    var shift := if closer then 2 else 1;
    hide Exp;
    UpToPositive(2, -e);
    UpToPositive(10, exp10);
    ExpPositive(2, shift);
    NonzeroProduct(UpTo(10, exp10), UpTo(2, -e));
    NonzeroProduct(Exp(2, shift), Under(e, exp10));
  }

  /** The shortest decimal, as fallback_format returns it, is nearest to the number printed among all numbers of
      the format, and to no other as near if the significand is odd. */
  lemma ShortestIsNearest(f: nat, e: int, closer: bool, p: nat, eMin: int, exp10: int, exact: bool, ds: seq<nat>,
                          exp: int, g: nat, k: int)
    requires IsNormal(f, e, closer, p, eMin) && IsBinary(g, k, p, eMin) && Binary(g, k) != Binary(f, e)
    requires IsShortest(TheInterval(f, e, closer, exp10), f % 2 == 0, exact, exp10, ds, exp)
    ensures |ds| > 0 && forall i :: 0 <= i < |ds| ==> ds[i] <= 9
    ensures var x := Decimal(ds, exp);
            && Apart(x, Binary(f, e)) <= Apart(x, Binary(g, k))
            && (f % 2 == 1 ==> Apart(x, Binary(f, e)) < Apart(x, Binary(g, k)))
  {
    hide Exp, Over, Under, DigitsValue, NoCandidate, Closest, Candidate, RoundingInterval, IsNormal;
    hide IsBinary, NearestTo, Lift, Power, Binary;
    SameBinary(f, e, g, k);
    ShortestReadsBack(f, e, closer, p, eMin, exp10, exact, ds, exp, g, k);
    PositiveSignificand(f, e, closer, p, eMin);
    DenominatorPositive(f, e, closer, exp10);
    NearestAsNumbers(f, e, closer, exp10, |ds| - 1, DigitsValue(ds), g, k, f % 2 == 1);
  }

  // ---------- No shorter decimal reads back ----------

  // The two neighbours of the number among those of the format.
  function Above(f: nat, e: int, p: nat): Parts
    requires p > 0
  {
    if f + 1 == Exp(2, p) then Parts(Exp(2, p - 1), e + 1, false) else Parts(f + 1, e, false)
  }

  function Below(f: nat, e: int, closer: bool): Parts
    requires f > 0
  {
    if closer then Parts(2 * f - 1, e - 1, false) else Parts(f - 1, e, false)
  }

  lemma NeighboursAreBinary(f: nat, e: int, closer: bool, p: nat, eMin: int)
    requires IsNormal(f, e, closer, p, eMin)
    ensures IsBinary(Above(f, e, p).f, Above(f, e, p).e, p, eMin)
    ensures IsBinary(Below(f, e, closer).f, Below(f, e, closer).e, p, eMin)
  {
    hide Exp;
    ExpNext(2, p - 1);
    ExpPositive(2, p - 1);
  }

  lemma SmallLifts(e: int)
    ensures Lift(e, e) == 1 && Lift(e, e + 1) == 1 && Lift(e + 1, e) == 2 && Lift(e, e - 1) == 2 && Lift(e - 1, e) == 1
  {
    assert Exp(2, 0) == 1 && Exp(2, 1) == 2;
  }

  lemma AboveLifts(f: nat, e: int, p: nat)
    requires f > 0 && p > 0
    ensures var a := Above(f, e, p); Lift(e, a.e) == 1 && a.f * Lift(a.e, e) == f + 1
  {
    SmallLifts(e);
    hide Exp, Lift;
    ExpNext(2, p - 1);
  }

  lemma AbovePosition(f: nat, e: int, closer: bool, p: nat, exp10: int, j: nat)
    requires f > 0 && p > 0
    ensures var v, a := TheInterval(f, e, closer, exp10), Above(f, e, p);
            Binary(a.f, a.e) * Scale(v, j) == (Scaled(v, j).n + 2 * Scaled(v, j).upper) as real * Power(10, exp10)
  {
    hide Power, TheInterval, Scaled, Lift, Scale, Binary, Above;
    var v, a := TheInterval(f, e, closer, exp10), Above(f, e, p);
    var w := Scaled(v, j);
    AboveLifts(f, e, p);
    OtherPosition(f, e, closer, exp10, j, a.f, a.e);
    UnitsOf(f, e, closer, exp10, j);
    MulDistributes(2 * w.upper, f, 1);
    assert Scale(v, j) * 1 as real == Scale(v, j);
  }

  lemma UnitsOf(f: nat, e: int, closer: bool, exp10: int, j: nat)
    requires f > 0
    ensures var w := Scaled(TheInterval(f, e, closer, exp10), j);
            && w.n == f * (2 * w.upper) && w.upper == (if closer then 2 else 1) * w.lower && w.lower > 0 && w.upper > 0
  {
    hide Scaled, Over, Under, RoundingInterval, Exp;
    UnitsOfInterval(f, e, closer, exp10, j);
  }

  lemma HalfScale(x: real, s: real, m: int, p: real)
    requires x * (s * 2.0) == (2 * m) as real * p
    ensures x * s == m as real * p
  {
    Associative(x, s, 2.0);
    Associative(2.0, m as real, p);
    Associative(2.0, x * s, 1.0);
  }

  lemma BelowPosition(f: nat, e: int, closer: bool, exp10: int, j: nat)
    requires f > 0
    ensures var v, b := TheInterval(f, e, closer, exp10), Below(f, e, closer);
            Binary(b.f, b.e) * Scale(v, j) == (Scaled(v, j).n - 2 * Scaled(v, j).lower) as real * Power(10, exp10)
  {
    hide Power, TheInterval, Scaled, Lift, Scale, Binary;
    var v, b := TheInterval(f, e, closer, exp10), Below(f, e, closer);
    var w := Scaled(v, j);
    SmallLifts(e);
    OtherPosition(f, e, closer, exp10, j, b.f, b.e);
    UnitsOf(f, e, closer, exp10, j);
    if closer {
      MulDistributes(2 * w.upper, 2 * f, 1);
      MulAssociative(2, f, 2 * w.upper);
      assert (b.f * 1) * (2 * w.upper) == 2 * (w.n - 2 * w.lower);
      HalfScale(Binary(b.f, b.e), Scale(v, j), w.n - 2 * w.lower, Power(10, exp10));
    } else {
      MulDistributes(2 * w.upper, f, 1);
      assert Scale(v, j) * 1 as real == Scale(v, j);
    }
  }

  // Some neighbour is as near as the number itself.
  lemma OutsideIsNotNearest(w: Interval, q: nat, even: bool, exact: bool)
    requires !Candidate(w, q, even, exact) && w.lower > 0 && w.upper > 0
    ensures if q * w.d >= w.n then Distance(q * w.d, w.n + 2 * w.upper) <= Distance(q * w.d, w.n)
            else Distance(q * w.d, w.n - 2 * w.lower) <= Distance(q * w.d, w.n)
    ensures even && exact ==>
              if q * w.d >= w.n then Distance(q * w.d, w.n + 2 * w.upper) < Distance(q * w.d, w.n)
              else Distance(q * w.d, w.n - 2 * w.lower) < Distance(q * w.d, w.n)
  {
  }

  // g * 2^k is another number at least as near to x as f * 2^e, or nearer.
  predicate IsAsNear(x: real, g: nat, k: int, f: nat, e: int, nearer: bool) {
    && Binary(g, k) != Binary(f, e) && Apart(x, Binary(g, k)) <= Apart(x, Binary(f, e))
    && (nearer ==> Apart(x, Binary(g, k)) < Apart(x, Binary(f, e)))
  }

  lemma OtherIsAsNear(x: real, g: nat, k: int, f: nat, e: int, s: real, m: int, o: int, n: int, u: real, nearer: bool)
    requires s > 0.0 && u > 0.0 && o != n
    requires x * s == m as real * u && Binary(g, k) * s == o as real * u && Binary(f, e) * s == n as real * u
    requires Distance(m, o) <= Distance(m, n) && (nearer ==> Distance(m, o) < Distance(m, n))
    ensures IsAsNear(x, g, k, f, e, nearer)
  {
    hide Binary, Distance;
    InOrder(x, Binary(g, k), Binary(f, e), s, m, o, n, u);
    if Binary(g, k) == Binary(f, e) {
      Cancels(u, o as real, n as real);
    }
  }

  /** A decimal of fewer digits, q * 10^t with t above the exponent printed, does not read back: a neighbour of
      the number is at least as near to it, and nearer if the significand is even and the loop sees its lower
      end. */
  lemma NoShorterReadsBack(f: nat, e: int, closer: bool, p: nat, eMin: int, exp10: int, exact: bool, ds: seq<nat>,
                           exp: int, q: nat, t: int)
    requires IsNormal(f, e, closer, p, eMin) && exp < t <= exp10
    requires IsShortest(TheInterval(f, e, closer, exp10), f % 2 == 0, exact, exp10, ds, exp)
    ensures exists g: nat, k: int :: IsBinary(g, k, p, eMin) && IsAsNear(Tens(q, t), g, k, f, e, f % 2 == 0 && exact)
  {
    hide Exp, DigitsValue, IsDecimal, Candidate, Closest, TheInterval, Scaled, IsNormal, IsBinary, Tens, Binary, Power;
    hide Distance, Apart, Scale, Above, Below, IsAsNear;
    var v, j := TheInterval(f, e, closer, exp10), exp10 - t;
    var w := Scaled(v, j);
    assert NoCandidate(w, f % 2 == 0, exact);
    PositiveSignificand(f, e, closer, p, eMin);
    NormalIsWide(f, e, closer, p, eMin);
    DenominatorPositive(f, e, closer, exp10);
    NeighbourIsAsNear(f, e, closer, p, eMin, exp10, j, q, f % 2 == 0, exact);
  }

  lemma AboveIsAsNear(f: nat, e: int, closer: bool, p: nat, exp10: int, j: nat, q: nat, nearer: bool)
    requires f > 0 && p > 0 && TheInterval(f, e, closer, exp10).d > 0
    requires var w := Scaled(TheInterval(f, e, closer, exp10), j);
             && Distance(q * w.d, w.n + 2 * w.upper) <= Distance(q * w.d, w.n)
             && (nearer ==> Distance(q * w.d, w.n + 2 * w.upper) < Distance(q * w.d, w.n))
    ensures var a := Above(f, e, p); IsAsNear(Tens(q, exp10 - j), a.f, a.e, f, e, nearer)
  {
    hide Exp, TheInterval, Scaled, Tens, Binary, Power, Distance, Scale, Above, IsAsNear;
    var v, a := TheInterval(f, e, closer, exp10), Above(f, e, p);
    var w := Scaled(v, j);
    SameDenominator(v, j);
    ScalePositive(v, j);
    UnitsOf(f, e, closer, exp10, j);
    DecimalPosition(v, j, q, exp10);
    BinaryPosition(f, e, closer, exp10, j);
    AbovePosition(f, e, closer, p, exp10, j);
    OtherIsAsNear(Tens(q, exp10 - j), a.f, a.e, f, e, Scale(v, j), q * w.d, w.n + 2 * w.upper, w.n,
                  Power(10, exp10), nearer);
  }

  lemma BelowIsAsNear(f: nat, e: int, closer: bool, exp10: int, j: nat, q: nat, nearer: bool)
    requires f > 0 && TheInterval(f, e, closer, exp10).d > 0
    requires var w := Scaled(TheInterval(f, e, closer, exp10), j);
             && Distance(q * w.d, w.n - 2 * w.lower) <= Distance(q * w.d, w.n)
             && (nearer ==> Distance(q * w.d, w.n - 2 * w.lower) < Distance(q * w.d, w.n))
    ensures var a := Below(f, e, closer); IsAsNear(Tens(q, exp10 - j), a.f, a.e, f, e, nearer)
  {
    hide Exp, TheInterval, Scaled, Tens, Binary, Power, Distance, Scale, Below, IsAsNear;
    var v, a := TheInterval(f, e, closer, exp10), Below(f, e, closer);
    var w := Scaled(v, j);
    SameDenominator(v, j);
    ScalePositive(v, j);
    UnitsOf(f, e, closer, exp10, j);
    DecimalPosition(v, j, q, exp10);
    BinaryPosition(f, e, closer, exp10, j);
    BelowPosition(f, e, closer, exp10, j);
    OtherIsAsNear(Tens(q, exp10 - j), a.f, a.e, f, e, Scale(v, j), q * w.d, w.n - 2 * w.lower, w.n,
                  Power(10, exp10), nearer);
  }

  lemma NeighbourIsAsNear(f: nat, e: int, closer: bool, p: nat, eMin: int, exp10: int, j: nat, q: nat, even: bool,
                          exact: bool)
    requires IsNormal(f, e, closer, p, eMin) && f > 0 && p > 0 && TheInterval(f, e, closer, exp10).d > 0
    requires !Candidate(Scaled(TheInterval(f, e, closer, exp10), j), q, even, exact)
    ensures exists g: nat, k: int :: && IsBinary(g, k, p, eMin)
                                     && IsAsNear(Tens(q, exp10 - j), g, k, f, e, even && exact)
  {
    hide Exp, Candidate, TheInterval, Scaled, IsNormal, IsBinary, Tens, Distance, Above, Below, IsAsNear;
    var w := Scaled(TheInterval(f, e, closer, exp10), j);
    UnitsOf(f, e, closer, exp10, j);
    NeighboursAreBinary(f, e, closer, p, eMin);
    OutsideIsNotNearest(w, q, even, exact);
    if q * w.d >= w.n {
      AboveIsAsNear(f, e, closer, p, exp10, j, q, even && exact);
    } else {
      BelowIsAsNear(f, e, closer, exp10, j, q, even && exact);
    }
  }

  lemma NormalIsWide(f: nat, e: int, closer: bool, p: nat, eMin: int)
    requires IsNormal(f, e, closer, p, eMin)
    ensures p > 0
  {
  }

  lemma SameDenominator(v: Interval, j: nat)
    ensures Scaled(v, j).d == v.d
  {
  }

  // ---------- Given precision ----------

  lemma ValueWithCarry(ds: seq<nat>, exp: int, last: int)
    requires exp == last || exp == last + 1
    ensures Decimal(ds, exp) == Tens(DigitsValue(ds) * (if exp == last then 1 else 10), last)
  {
    hide DigitsValue, Power;
    if exp == last + 1 {
      PowerNext(10, last);
      Product(DigitsValue(ds), 10);
      Associative(DigitsValue(ds) as real, 10.0, Power(10, last));
    }
  }

  /** So are the decimals of given precision from 17 digits on for a double, and from 9 for a float. */
  lemma RoundedIsNearest(f: nat, e: int, closer: bool, p: nat, eMin: int, exp10: int, numDigits: nat, ds: seq<nat>,
                         exp: int, g: nat, k: int)
    requires (p == 53 && numDigits >= 17) || (p == 24 && numDigits >= 9)
    requires IsNormal(f, e, closer, p, eMin) && IsBinary(g, k, p, eMin) && Binary(g, k) != Binary(f, e)
    requires Binary(f, e) >= Power(10, exp10)
    requires var v := TheInterval(f, e, closer, exp10); v.d > 0 && IsRounded(v, numDigits, exp10, ds, exp)
    ensures Apart(Decimal(ds, exp), Binary(f, e)) < Apart(Decimal(ds, exp), Binary(g, k))
  {
    hide Exp, Over, Under, DigitsValue, IsDecimal, RoundingInterval, IsNormal, RoundHalfEven;
    hide IsBinary, NearestTo, Lift, Power, Binary;
    var v := TheInterval(f, e, closer, exp10);
    SameBinary(f, e, g, k);
    AtLeastOne(f, e, closer, exp10);
    SeventeenDigitsReadBack(f, e, closer, p, eMin, exp10, numDigits, ds, exp, g, k);
    PositiveSignificand(f, e, closer, p, eMin);
    NearestAsNumbers(f, e, closer, exp10, numDigits - 1, RoundedValue(ds, exp, numDigits, exp10), g, k, true);
    ValueWithCarry(ds, exp, exp10 - (numDigits - 1));
  }

  lemma AtLeastOne(f: nat, e: int, closer: bool, exp10: int)
    requires Binary(f, e) >= Power(10, exp10) && TheInterval(f, e, closer, exp10).d > 0
    ensures TheInterval(f, e, closer, exp10).n >= TheInterval(f, e, closer, exp10).d
  {
    hide Binary, Power, TheInterval;
    var v := TheInterval(f, e, closer, exp10);
    IntervalHoldsNumber(f, e, closer, exp10);
    Ordered(v.d as real, Binary(f, e), Power(10, exp10));
    Ordered(Power(10, exp10), v.n as real, v.d as real);
    Associative(v.d as real, Power(10, exp10), 1.0);
  }

  // ---------- Correctly rounded ----------

  lemma NearestInteger(a: nat, d: nat)
    requires d > 0
    ensures 2 * Distance(RoundHalfEven(a, d) * d, a) <= d
  {
    var q, r := a / d, a % d;
    assert a == d * q + r;
    MulAssociative(d, q, 1);
    MulDistributes(d, q, 1);
  }

  lemma HalfAsNumbers(x: real, y: real, c: real, u: real, m: int, n: int, d: nat, p: real)
    requires c > 0.0 && p > 0.0 && 2 * Distance(m, n) <= d
    requires x * c == m as real * p && y * c == n as real * p && u * c == d as real * p
    ensures HalfAway(x, y, u)
  {
    ScaledApart(x, y, c, m, n, p);
    hide Apart, Distance;
    var a, k := 2.0 * Apart(x, y), Distance(m, n);
    Associative(2.0, Apart(x, y), c);
    Associative(2.0, k as real, p);
    assert a * c == (2 * k) as real * p;
    Ordered(p, d as real, (2 * k) as real);
    Ordered(c, u, a);
  }

  /** A decimal of given precision is at most half a unit of its last place away from the number; with no digits
      asked for that place is 10^(exp10 + 1). */
  lemma RoundedIsHalfAway(f: nat, e: int, closer: bool, exp10: int, numDigits: nat, ds: seq<nat>, exp: int)
    requires var v := TheInterval(f, e, closer, exp10); v.d > 0 && IsRounded(v, numDigits, exp10, ds, exp)
    ensures |ds| == (if numDigits == 0 then 1 else numDigits) && forall i :: 0 <= i < |ds| ==> ds[i] <= 9
    ensures HalfAway(Decimal(ds, exp), Binary(f, e), Power(10, exp10 - numDigits + 1))
  {
    hide Power, RoundHalfEven, TheInterval, Binary, HalfAway, Exp;
    var v := TheInterval(f, e, closer, exp10);
    if numDigits > 0 {
      var last := exp10 - (numDigits - 1);
      var q := DigitsValue(ds) * (if exp == last then 1 else 10);
      hide DigitsValue;
      ManyDigits(f, e, closer, exp10, numDigits - 1, q);
      ValueWithCarry(ds, exp, last);
      assert last == exp10 - numDigits + 1;
    } else {
      assert ds[..0] == [] && DigitsValue(ds) == ds[0];
      hide Tens;
      OneDigit(f, e, closer, exp10, ds[0]);
    }
  }

  lemma ManyDigits(f: nat, e: int, closer: bool, exp10: int, j: nat, q: nat)
    requires var v := TheInterval(f, e, closer, exp10); v.d > 0 && q == RoundHalfEven(v.n * Exp(10, j), v.d)
    ensures HalfAway(Tens(q, exp10 - j), Binary(f, e), Power(10, exp10 - j))
  {
    hide Power, Exp, TheInterval, Binary, RoundHalfEven, HalfAway, Distance, Scale;
    var v := TheInterval(f, e, closer, exp10);
    DecimalPosition(v, j, q, exp10);
    DecimalPosition(v, j, 1, exp10);
    BinaryPosition(f, e, closer, exp10, j);
    ScalePositive(v, j);
    NearestInteger(v.n * Exp(10, j), v.d);
    OneTen(exp10 - j);
    hide Tens;
    assert 1 * v.d == v.d;
    HalfAsNumbers(Tens(q, exp10 - j), Binary(f, e), Scale(v, j), Power(10, exp10 - j), q * v.d, v.n * Exp(10, j), v.d,
                  Power(10, exp10));
  }

  lemma OneDigit(f: nat, e: int, closer: bool, exp10: int, q: nat)
    requires var v := TheInterval(f, e, closer, exp10); v.d > 0 && q == RoundHalfEven(v.n, 10 * v.d)
    ensures HalfAway(Tens(q, exp10 + 1), Binary(f, e), Power(10, exp10 + 1))
  {
    hide Power, TheInterval, Binary, RoundHalfEven, HalfAway, Distance;
    var v := TheInterval(f, e, closer, exp10);
    IntervalHoldsNumber(f, e, closer, exp10);
    PowerNext(10, exp10);
    NearestInteger(v.n, 10 * v.d);
    TenTimes(Power(10, exp10), Power(10, exp10 + 1), v.d, q);
    assert Tens(q, exp10 + 1) == q as real * Power(10, exp10 + 1);
    hide Tens;
    HalfAsNumbers(Tens(q, exp10 + 1), Binary(f, e), v.d as real, Power(10, exp10 + 1), q * (10 * v.d), v.n, 10 * v.d,
                  Power(10, exp10));
  }

  lemma OneTen(exp: int)
    ensures Tens(1, exp) == Power(10, exp)
  {
  }

  lemma TenTimes(p: real, u: real, d: nat, q: nat)
    requires u == 10.0 * p
    ensures u * d as real == (10 * d) as real * p && q as real * u * d as real == (q * (10 * d)) as real * p
  {
    var x := d as real;
    Associative(10.0, p, x);
    Associative(p, x, 1.0);
    Associative(10.0, x, p);
    Product(q, 10 * d);
    Associative(q as real, u, x);
    Associative(q as real, (10 * d) as real, p);
  }
}
