/** The digit loop of fallback_format with a given number of digits: Steele and White's fixed-format
    printing over bigints. The value to print is numerator / denominator * 10^exp10. */
module FixedFormat {
  import opened Bignum
  import opened Powers
  import opened BigintClass
  import opened Digits

  // ---------- Numerators that compare can tell from the denominator ----------

  /** No trailing zero bigits in the denominator, or no larger exponent in the numerator; or else t divides
      the numerator and not the denominator, so the two are never equal. */
  ghost predicate NeverMisread(num: Num, den: Num, t: nat) {
    (den.bits != [] && den.bits[0] != 0) || num.exp <= den.exp || (t > 0 && Val(num) % t == 0 && Val(den) % t != 0)
  }

  /** What the digit loops keep about the numerator's representation. */
  ghost predicate Ready(num: Num, den: Num, t: nat) {
    (TopNonzero(num) || (num.bits == [0] && num.exp <= den.exp)) && NeverMisread(num, den, t)
  }

  lemma NotMisread(num: Num, den: Num, t: nat)
    requires TopNonzero(den) && NeverMisread(num, den, t)
    ensures !Misread(num, den)
  {
    if den.bits[0] != 0 {
      LowBigitNonzero(num, den);
    } else if num.exp <= den.exp {
      AlignedComparesExactly(num, den);
    }
  }

  lemma MultipleTimes(x: nat, m: nat, t: nat)
    requires t > 0 && x % t == 0
    ensures (m * x) % t == 0
  {
    var q := x / t;
    assert x == t * q;
    MulAssociative(m, t, q);
    MulAssociative(t, m, q);
    DivUnique(m * x, t, m * q, 0);
  }

  lemma ReadyFits(num: Num, den: Num, t: nat)
    requires TopNonzero(den) && Ready(num, den, t) && Val(num) < 10 * Val(den)
    ensures num.bits != [] && Readable(num, den) && Size(num) <= Size(den) + 1 && !Misread(num, den)
  {
    hide Value, Pow, Val, NeverMisread, Misread;
    NotMisread(num, den, t);
    if TopNonzero(num) && Size(num) > Size(den) + 1 {
      ValAtLeast(num);
      ValBelow(den);
      PowNext(Size(den));
      PowOrder(Size(den) + 1, Size(num) - 1);
    }
  }

  lemma ReadyAfterTen(before: Num, after: Num, den: Num, t: nat)
    requires Ready(before, den, t) && after.exp == before.exp && Val(after) == 10 * Val(before)
    requires TopNonzero(before) ==> TopNonzero(after)
    requires before.bits == [0] ==> after.bits == [0]
    ensures Ready(after, den, t)
  {
    hide Val;
    if t > 0 && Val(before) % t == 0 {
      MultipleTimes(Val(before), 10, t);
    }
  }

  // ---------- One digit ----------

  lemma DigitBelowTen(num: nat, d: nat, digit: nat, r: nat)
    requires num == digit * d + r && num < 10 * d
    ensures digit <= 9
  {
    if digit >= 10 {
      MulOrder(d, 10, digit);
    }
  }

  method NextDigit(numerator: Bigint, denominator: Bigint, ghost t: nat) returns (digit: nat)
    requires numerator != denominator && TopNonzero(denominator.View())
    requires Ready(numerator.View(), denominator.View(), t)
    requires Val(numerator.View()) < 10 * Val(denominator.View())
    modifies numerator
    ensures old(Val(numerator.View())) == digit * Val(denominator.View()) + Val(numerator.View())
    ensures Val(numerator.View()) < Val(denominator.View()) && digit <= 9
    ensures Ready(numerator.View(), denominator.View(), t)
    ensures numerator.exp ==
            if digit == 0 || old(numerator.exp) <= denominator.exp then old(numerator.exp) else denominator.exp
    ensures numerator.peak <= Larger(old(numerator.peak), Room(old(numerator.View()), denominator.View()))
  {
    hide Val, Misread, Room;
    ReadyFits(numerator.View(), denominator.View(), t);
    digit := numerator.DivmodAssign(denominator);
    DigitBelowTen(old(Val(numerator.View())), Val(denominator.View()), digit, Val(numerator.View()));
  }

  /** With k digits done, of value p, the numerator is what is left: n0 * 10^k == 10 * p * d + num. */
  ghost predicate Remaining(n0: nat, d: nat, k: nat, p: nat, num: nat) {
    n0 * Exp(10, k) == (10 * p) * d + num
  }

  lemma RemainingStart(n0: nat, d: nat)
    ensures Remaining(n0, d, 0, 0, n0) && Exp(10, 0) == 1
  {
  }

  lemma DigitTaken(n0: nat, d: nat, k: nat, p: nat, num: nat, digit: nat, r: nat)
    requires Remaining(n0, d, k, p, num) && num == digit * d + r
    ensures n0 * Exp(10, k) == (10 * p + digit) * d + r
    ensures Remaining(n0, d, k + 1, 10 * p + digit, 10 * r)
  {
    hide Exp;
    MulDistributes(d, 10 * p, digit);
    ExpNext(10, k);
    MulAssociative(n0, 10, Exp(10, k));
    MulAssociative(10, n0, Exp(10, k));
    MulAssociative(10, 10 * p + digit, d);
  }

  // ---------- The given number of digits ----------

  lemma EmptyDigits()
    ensures DigitsValue([]) == 0 && IsDecimal([])
  {
  }

  lemma RoundedDigit(m: nat, d: nat, q: nat, digit: nat, r: nat)
    requires m == q * d + r && r < d && q % 2 == digit % 2
    ensures RoundHalfEven(m, d) == if 2 * r > d || (2 * r == d && digit % 2 == 1) then q + 1 else q
  {
    MulAssociative(q, d, 1);
    DivUnique(m, d, q, r);
  }

  lemma RoundedLast(m: nat, p: nat, d: nat, num: nat, digit: nat, r: nat)
    requires m == (10 * p) * d + num && num == digit * d + r && r < d
    ensures RoundHalfEven(m, d) ==
            if 2 * r > d || (2 * r == d && digit % 2 == 1) then 10 * p + digit + 1 else 10 * p + digit
  {
    hide RoundHalfEven;
    MulDistributes(d, 10 * p, digit);
    EvenTens(p, digit);
    RoundedDigit(m, d, 10 * p + digit, digit, r);
  }

  lemma EvenTens(p: nat, digit: nat)
    ensures (10 * p + digit) % 2 == digit % 2
  {
  }

  lemma CarryPrefix(ds: seq<nat>, x: nat)
    requires IsDecimal(ds)
    ensures IsDecimal((ds + [x])[..|ds|])
  {
    assert (ds + [x])[..|ds|] == ds;
  }

  lemma ReadyReadable(num: Num, den: Num, t: nat)
    requires TopNonzero(den) && Ready(num, den, t)
    ensures Readable(num, den) && num.bits != []
  {
  }

  // numerator *= 10
  method TimesTen(numerator: Bigint, ghost den: Num, ghost t: nat)
    requires Ready(numerator.View(), den, t)
    modifies numerator`bigits, numerator`peak
    ensures Val(numerator.View()) == 10 * old(Val(numerator.View())) && Ready(numerator.View(), den, t)
    ensures numerator.peak == Larger(old(numerator.peak), |numerator.bigits|)
  {
    hide Val, NeverMisread;
    numerator.MultiplySmall(10);
    ReadyAfterTen(old(numerator.View()), numerator.View(), den, t);
  }

  lemma RoomStays(num: Num, now: Num, den: Num)
    requires now.exp == num.exp || now.exp == Lesser(num.exp, den.exp)
    ensures Room(now, den) == Room(num, den)
    ensures Size(now) <= Size(den) + 1 ==> |now.bits| <= Room(num, den)
  {
  }

  /** The last digit of the given number: it is rounded half-even with what is left over. */
  method LastDigit(numerator: Bigint, denominator: Bigint, ds: seq<nat>, ghost m: nat, ghost t: nat)
    returns (buf: seq<nat>, bump: nat)
    requires numerator != denominator && TopNonzero(denominator.View()) && IsDecimal(ds)
    requires Ready(numerator.View(), denominator.View(), t)
    requires Val(numerator.View()) < 10 * Val(denominator.View())
    requires m == (10 * DigitsValue(ds)) * Val(denominator.View()) + Val(numerator.View())
    modifies numerator
    ensures |buf| == |ds| + 1 && IsDecimal(buf) && bump <= 1 && Val(denominator.View()) > 0
    ensures DigitsValue(buf) * (if bump == 1 then 10 else 1) == RoundHalfEven(m, Val(denominator.View()))
    ensures numerator.peak <= Larger(old(numerator.peak), Room(old(numerator.View()), denominator.View()))
  {
    hide Val, Exp, DigitsValue, RoundHalfEven, NeverMisread, TopNonzero, Ready, Room;
    ghost var p, num, d := DigitsValue(ds), Val(numerator.View()), Val(denominator.View());
    var digit := NextDigit(numerator, denominator, t);
    RoundedLast(m, p, d, num, digit, Val(numerator.View()));
    ReadyReadable(numerator.View(), denominator.View(), t);
    var result := AddCompare(numerator, numerator, denominator);
    DigitsPush(ds, digit);
    DigitsPush(ds, digit + 1);
    if result > 0 || (result == 0 && digit % 2 != 0) {
      if digit == 9 {
        CarryPrefix(ds, 10);
        buf, bump := PropagateCarry(ds + [10]);
        return;
      }
      digit := digit + 1;
    }
    buf, bump := ds + [digit], 0;
  }

  /** Generates numDigits >= 1 digits: exactly the value rounded half-even to that many digits. */
  method FixedDigits(numerator: Bigint, denominator: Bigint, numDigits: nat, exp10: int, ghost t: nat)
    returns (buf: seq<nat>, exp: int)
    requires numDigits >= 1 && numerator != denominator
    requires TopNonzero(denominator.View()) && Ready(numerator.View(), denominator.View(), t)
    requires Val(numerator.View()) < 10 * Val(denominator.View())
    modifies numerator
    ensures |buf| == numDigits && IsDecimal(buf) && Val(denominator.View()) > 0
    ensures exp == exp10 - (numDigits - 1) || exp == exp10 - (numDigits - 1) + 1
    ensures DigitsValue(buf) * (if exp == exp10 - (numDigits - 1) then 1 else 10)
            == RoundHalfEven(old(Val(numerator.View())) * Exp(10, numDigits - 1), Val(denominator.View()))
    ensures numerator.peak <= Larger(old(numerator.peak), Room(old(numerator.View()), denominator.View()))
  {
    hide Val, Exp, DigitsValue, RoundHalfEven, NeverMisread, TopNonzero, Ready, Room;
    ghost var room := Room(numerator.View(), denominator.View());
    ghost var most := Larger(numerator.peak, room);
    ghost var n0, d := Val(numerator.View()), Val(denominator.View());
    ValPositive(denominator.View());
    exp := exp10 - (numDigits - 1);
    buf := [];
    EmptyDigits();
    RemainingStart(n0, d);
    for i := 0 to numDigits - 1
      invariant |buf| == i && IsDecimal(buf) && denominator.View() == old(denominator.View())
      invariant Remaining(n0, d, i, DigitsValue(buf), Val(numerator.View())) && Val(numerator.View()) < 10 * d
      invariant Ready(numerator.View(), denominator.View(), t)
      invariant Room(numerator.View(), denominator.View()) == room && numerator.peak <= most
    {
      ghost var num, was := Val(numerator.View()), numerator.View();
      var digit := NextDigit(numerator, denominator, t);
      DigitTaken(n0, d, i, DigitsValue(buf), num, digit, Val(numerator.View()));
      DigitsPush(buf, digit);
      buf := buf + [digit];
      RoomStays(was, numerator.View(), denominator.View());
      was := numerator.View();
      TimesTen(numerator, denominator.View(), t);
      RoomStays(was, numerator.View(), denominator.View());
      ReadyFits(numerator.View(), denominator.View(), t);
    }
    var bump;
    buf, bump := LastDigit(numerator, denominator, buf, n0 * Exp(10, numDigits - 1), t);
    exp := exp + bump;
  }
}
