/** Why the parts of a double never need more bigits than a bigint stores inline: how long the denominator is
    beside the exponents, for the three ways it is set up. */
module Capacity {
  import opened Bignum
  import opened Powers
  import opened BigintClass

  const CAPACITY: nat := 32

  // The most bigits any of the four is given by the set-up.
  function SetUpRoom(exp10: int): nat {
    PowerBigits(if exp10 < 0 then -exp10 else exp10) + 2
  }

  // The bigits of the digit loops, and of a denominator times ten.
  predicate Fits(num: Num, den: Num, exp10: int) {
    SetUpRoom(exp10) <= CAPACITY && Room(num, den) <= CAPACITY && |den.bits| + 1 <= CAPACITY
  }

  lemma SetUpRoomIs(exp10: int)
    ensures SetUpRoom(exp10) == PowerBigits(if exp10 < 0 then -exp10 else exp10) + 2 >= 4
  {
  }

  predicate Within(a: nat, b: nat, c: nat, d: nat, most: int) {
    a <= most && b <= most && c <= most && d <= most
  }

  // ---------- Powers of ten between powers of two ----------

  lemma {:induction false} TenAboveEight(k: nat)
    ensures Exp(2, 3 * k) <= Exp(10, k)
  {
    if k > 0 {
      TenAboveEight(k - 1);
      ExpAdd(2, 3, 3 * (k - 1));
      assert Exp(2, 3) == 8;
    }
  }

  lemma {:induction false} TenBelowSixteen(k: nat)
    ensures Exp(10, k) <= Exp(2, 4 * k)
  {
    if k > 0 {
      TenBelowSixteen(k - 1);
      ExpAdd(2, 4, 4 * (k - 1));
      assert Exp(2, 4) == 16;
    }
  }

  lemma Product(x: nat, y: nat, a: nat, b: nat)
    requires x <= Exp(2, a) && y <= Exp(2, b)
    ensures x * y <= Exp(2, a + b)
  {
    hide Exp;
    ExpAdd(2, a, b);
    MulOrder(x, y, Exp(2, b));
    MulOrder(Exp(2, b), x, Exp(2, a));
  }

  lemma SmallPowers()
    ensures Exp(2, 2) == 4 && Exp(2, 4) == 16 && Exp(2, 53) == 0x20_0000_0000_0000
  {
    Exp2Small();
    assert Exp(2, 4) == 16 && Exp(2, 5) == 32;
    ExpAdd(2, 16, 32);
    ExpAdd(2, 48, 5);
  }

  lemma SizeOfPower(a: Num, n: nat)
    requires TopNonzero(a) && Val(a) <= Exp(2, n)
    ensures 32 * (Size(a) - 1) <= n
  {
    hide Exp, Val;
    ValAtLeast(a);
    Exp2IsPow(Size(a) - 1);
    ExpBelow(2, 32 * (Size(a) - 1), n);
  }

  // 10 * f * x, for a significand f of 53 bits.
  lemma TenSignificands(f: nat, x: nat, n: nat)
    requires f < 0x20_0000_0000_0000 && x <= Exp(2, n)
    ensures 10 * (f * x) <= Exp(2, 57 + n)
  {
    hide Exp;
    SmallPowers();
    Product(f, x, 53, n);
    Product(10, f * x, 4, 53 + n);
  }

  lemma AtLeastOnce(f: nat, x: nat)
    requires f > 0
    ensures x <= f * x
  {
    MulOrder(x, 1, f);
  }

  // ---------- The three set-ups ----------

  // e >= 0: f * 2^e over 10^exp10.
  lemma IntegerFits(f: nat, e: nat, shift: nat, exp10: nat, num: Num, den: Num)
    requires 0 < f < 0x20_0000_0000_0000 && e <= 971 && shift <= 2
    requires f * Exp(2, e) <= 10 * Exp(10, exp10) && Exp(10, exp10) <= 10 * (f * Exp(2, e))
    requires TopNonzero(den) && Val(den) == Exp(2, shift) * Exp(10, exp10)
    requires num.exp == e / 32 && den.exp == exp10 / 32
    ensures Fits(num, den, exp10)
  {
    hide Exp, Val, TopNonzero;
    TenSignificands(f, Exp(2, e), e);
    TenAboveEight(exp10);
    ExpBelow(2, 3 * exp10, 57 + e);
    SmallPowers();
    ExpOrder(2, shift, 2);
    Product(Exp(2, shift), Exp(10, exp10), 2, 57 + e);
    SizeOfPower(den, 59 + e);
    AtLeastOnce(f, Exp(2, e));
    TenBelowSixteen(exp10);
    Product(10, Exp(10, exp10), 4, 4 * exp10);
    ExpBelow(2, e, 4 + 4 * exp10);
  }

  // e < 0 and exp10 < 0: f * 10^k over 2^m, for k and m the negated exponents.
  lemma SmallFits(f: nat, m: nat, shift: nat, k: nat, num: Num, den: Num)
    requires 0 < f < 0x20_0000_0000_0000 && m <= 1074 && shift <= 2
    requires f * Exp(10, k) <= 10 * Exp(2, m) && Exp(2, m) <= 10 * (f * Exp(10, k))
    requires TopNonzero(den) && Val(den) == Exp(2, shift) * Exp(2, m)
    requires num.exp == k / 32 && den.exp == (shift + m) / 32
    ensures Fits(num, den, -(k as int))
  {
    hide Exp, Val, TopNonzero;
    TenBelowSixteen(k);
    TenSignificands(f, Exp(10, k), 4 * k);
    ExpBelow(2, m, 57 + 4 * k);
    AtLeastOnce(f, Exp(10, k));
    TenAboveEight(k);
    SmallPowers();
    Product(10, Exp(2, m), 4, m);
    ExpBelow(2, 3 * k, 4 + m);
    ExpOrder(2, shift, 2);
    Product(Exp(2, shift), Exp(2, m), 2, m);
    SizeOfPower(den, 2 + m);
  }

  // e < 0 and exp10 >= 0: f over 10^exp10 * 2^m.
  lemma FractionFits(f: nat, m: nat, shift: nat, exp10: nat, num: Num, den: Num)
    requires 0 < f < 0x20_0000_0000_0000 && shift <= 2 && Exp(10, exp10) * Exp(2, m) <= 10 * f
    requires TopNonzero(den) && Val(den) == Exp(2, shift) * (Exp(10, exp10) * Exp(2, m))
    ensures Fits(num, den, exp10)
  {
    hide Exp, Val, TopNonzero;
    var under := Exp(10, exp10) * Exp(2, m);
    ExpNext(2, 0);
    TenSignificands(f, 1, 0);
    ExpPositive(2, m);
    MulOrder(Exp(10, exp10), 1, Exp(2, m));
    TenAboveEight(exp10);
    ExpBelow(2, 3 * exp10, 57);
    SmallPowers();
    ExpOrder(2, shift, 2);
    Product(Exp(2, shift), under, 2, 57);
    SizeOfPower(den, 59);
  }
}
