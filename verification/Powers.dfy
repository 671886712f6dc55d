/** Powers of small bases, and how a power of two splits into whole bigits. */
module Powers {
  import opened Bignum

  function Exp(b: nat, e: nat): nat {
    if e == 0 then 1 else b * Exp(b, e - 1)
  }

  lemma {:induction false} ExpPositive(b: nat, e: nat)
    requires b > 0
    ensures Exp(b, e) > 0
  {
    if e > 0 {
      ExpPositive(b, e - 1);
      MulOrder(b, 1, Exp(b, e - 1));
    }
  }

  lemma {:induction false} ExpAdd(b: nat, m: nat, n: nat)
    ensures Exp(b, m + n) == Exp(b, m) * Exp(b, n)
  {
    if m > 0 {
      ExpAdd(b, m - 1, n);
      MulAssociative(b, Exp(b, m - 1), Exp(b, n));
    }
  }

  lemma {:induction false} ExpProduct(b: nat, c: nat, e: nat)
    ensures Exp(b * c, e) == Exp(b, e) * Exp(c, e)
  {
    if e > 0 {
      var x, y := Exp(b, e - 1), Exp(c, e - 1);
      ExpProduct(b, c, e - 1);
      MulAssociative(b, c, x * y);
      MulAssociative(c, x, y);
      MulAssociative(x, c, y);
      MulAssociative(b, x, c * y);
    }
  }

  lemma TenIsFiveTimesTwo(e: nat)
    ensures Exp(10, e) == Exp(5, e) * Exp(2, e)
  {
    ExpProduct(5, 2, e);
  }

  lemma {:induction false} ExpOrder(b: nat, m: nat, n: nat)
    requires b > 0 && m <= n
    ensures Exp(b, m) <= Exp(b, n)
  {
    ExpAdd(b, m, n - m);
    ExpPositive(b, n - m);
    MulOrder(Exp(b, m), 1, Exp(b, n - m));
  }

  lemma Exp2Small()
    ensures Exp(2, 8) == 256 && Exp(2, 16) == 0x1_0000 && Exp(2, 32) == BASE
  {
    assert Exp(2, 4) == 16;
    ExpAdd(2, 4, 4);
    ExpAdd(2, 8, 8);
    ExpAdd(2, 16, 16);
  }

  lemma {:induction false} Exp2IsPow(k: nat)
    ensures Exp(2, 32 * k) == Pow(k)
  {
    if k > 0 {
      Exp2IsPow(k - 1);
      ExpAdd(2, 32, 32 * (k - 1));
      Exp2Small();
    }
  }

  /** Shifting by s bits is shifting by s / 32 bigits and then by s % 32 bits. */
  lemma Exp2Split(s: nat)
    ensures Exp(2, s) == Exp(2, s % 32) * Pow(s / 32)
  {
    ExpAdd(2, s % 32, 32 * (s / 32));
    Exp2IsPow(s / 32);
  }

  lemma DivUnique(a: nat, d: nat, q: nat, r: nat)
    requires a == d * q + r && r < d
    ensures a / d == q && a % d == r
  {
    var q', r' := a / d, a % d;
    assert a == d * q' + r';
    if q < q' {
      MulOrder(d, q + 1, q');
      MulDistributes(d, q, 1);
      assert false;
    } else if q' < q {
      MulOrder(d, q' + 1, q);
      MulDistributes(d, q', 1);
      assert false;
    }
  }

  // The two halves of a bigit shifted left by s bits.
  function ShiftedLow(x: Bigit, s: nat): nat
  {
    ((x as nat) * Exp(2, s)) % BASE
  }

  function ShiftedOut(x: Bigit, s: nat): nat
    requires s < 32
  {
    ExpPositive(2, 32 - s);
    x / Exp(2, 32 - s)
  }

  lemma ExpComplement(s: nat)
    requires s <= 32
    ensures Exp(2, s) * Exp(2, 32 - s) == BASE && Exp(2, s) > 0 && Exp(2, 32 - s) > 0
  {
    hide Exp;
    ExpAdd(2, s, 32 - s);
    Exp2Small();
    ExpPositive(2, 32 - s);
    ExpPositive(2, s);
  }

  lemma ShiftedHalves(x: Bigit, s: nat)
    requires 0 < s < 32
    ensures ShiftedLow(x, s) <= BASE - Exp(2, s) && ShiftedOut(x, s) < Exp(2, s)
    ensures x * Exp(2, s) == ShiftedLow(x, s) + BASE * ShiftedOut(x, s)
  {
    hide Exp;
    ExpComplement(s);
    HalvesArithmetic(x, Exp(2, s), Exp(2, 32 - s));
  }

  lemma HalvesArithmetic(x: Bigit, p: nat, q: nat)
    requires p > 0 && q > 0 && p * q == BASE
    ensures (x * p) % BASE <= BASE - p && x / q < p && x * p == (x * p) % BASE + BASE * (x / q)
  {
    ShiftArithmetic(x, p, q, x / q, x % q);
  }

  /** The halves of a bigit x on the two sides of a shift by s bits. */
  lemma ShiftedBigit(x: Bigit, s: nat, carry: nat)
    requires 0 < s < 32 && carry < Exp(2, s)
    ensures ShiftedLow(x, s) + carry < BASE && ShiftedOut(x, s) < Exp(2, s)
    ensures x * Exp(2, s) + carry == ShiftedLow(x, s) + carry + BASE * ShiftedOut(x, s)
    ensures x != 0 ==> ShiftedLow(x, s) + carry != 0 || ShiftedOut(x, s) != 0
  {
    hide Exp, ShiftedLow, ShiftedOut;
    ShiftedHalves(x, s);
    MulOrder(Exp(2, s), 1, if x == 0 then 1 else x);
  }

  lemma ShiftArithmetic(x: Bigit, p: nat, q: nat, c: nat, r: nat)
    requires p > 0 && q > 0 && p * q == BASE && x == q * c + r && r < q
    ensures (x * p) / BASE == c && (x * p) % BASE == r * p && r * p <= BASE - p && c < p
  {
    MulDistributes(p, q * c, r);
    MulAssociative(p, q, c);
    MulOrder(p, r, q - 1);
    MulDistributes(p, q, 1);
    if c >= p {
      MulOrder(q, p, c);
      assert false;
    }
    DivUnique(x * p, BASE, c, r * p);
  }

  lemma DivisionParts(e: nat, b: nat)
    requires b > 0
    ensures e == b * (e / b) + e % b && e % b < b
  {
  }

  lemma HalvedQuotient(e: nat, b: nat)
    requires b > 0
    ensures (e / b) / 2 == e / (2 * b)
  {
    DivisionParts(e, b);
    HalvedParts(e, b, (e / b) / 2, (e / b) % 2, e % b);
  }

  lemma HalvedParts(e: nat, b: nat, h: nat, bit: nat, r: nat)
    requires e == b * (2 * h + bit) + r && bit <= 1 && r < b
    ensures h == e / (2 * b)
  {
    MulDistributes(b, 2 * h, bit);
    MulAssociative(b, 2, h);
    MulAssociative(2, b, h);
    MulOrder(b, bit, 1);
    DivUnique(e, 2 * b, h, b * bit + r);
  }

  lemma ExpNext(b: nat, e: nat)
    ensures Exp(b, e + 1) == b * Exp(b, e) && Exp(b, 0) == 1
  {
  }

  lemma {:induction false} CubesOfFive(h: nat)
    ensures Exp(5, 3 * h) <= Exp(2, 7 * h)
  {
    if h > 0 {
      CubesOfFive(h - 1);
      ExpAdd(5, 3, 3 * (h - 1));
      ExpAdd(2, 7, 7 * (h - 1));
      assert Exp(5, 3) == 125 && Exp(2, 7) == 128;
    }
  }

  lemma Cubes(b: nat, n: nat, x: nat)
    requires x == Exp(b, n)
    ensures Exp(b, 3 * n) == x * x * x
  {
    ExpAdd(b, n, n);
    ExpAdd(b, 2 * n, n);
  }

  lemma CubesInOrder(x: nat, y: nat)
    requires x <= y
    ensures x * x * x <= y * y * y
  {
    MulOrder(x, x, y);
    MulOrder(y, x, y);
    MulOrder(x * x, x, y);
    MulOrder(y, x * x, y * y);
  }

  lemma ExpBelow(b: nat, m: nat, n: nat)
    requires b >= 2 && Exp(b, m) <= Exp(b, n)
    ensures m <= n
  {
    if m > n {
      ExpOrder(b, n + 1, m);
      ExpPositive(b, n);
      MulOrder(Exp(b, n), 2, b);
      assert false;
    }
  }

  /** A power of two not above 5^h: three bits of exponent are worth at most seven of h. */
  lemma FiveBelowTwo(h: nat, n: nat)
    requires Exp(2, n) <= Exp(5, h)
    ensures 3 * n <= 7 * h
  {
    hide Exp;
    Cubes(2, n, Exp(2, n));
    Cubes(5, h, Exp(5, h));
    CubesInOrder(Exp(2, n), Exp(5, h));
    CubesOfFive(h);
    ExpBelow(2, 3 * n, 7 * h);
  }

  lemma QuotientBelow(e: nat, d: nat)
    requires d > 0
    ensures e / d <= e
  {
    var q, r := e / d, e % d;
    assert e == d * q + r;
    MulOrder(q, 1, d);
  }

  lemma TopBit(e: nat, b: nat)
    requires 0 < b <= e < 2 * b
    ensures e / b == 1
  {
    DivUnique(e, b, 1, e - b);
  }

  /** One turn of repeated squaring: the exponent reached so far doubles and takes in the next bit. */
  lemma SquaredPower(b: nat, h: nat, q: nat)
    requires h == q / 2
    ensures Exp(b, h) * Exp(b, h) == Exp(b, 2 * h)
    ensures q == 2 * h + q % 2 && b * Exp(b, 2 * h) == Exp(b, 2 * h + 1)
  {
    ExpAdd(b, h, h);
  }
}
