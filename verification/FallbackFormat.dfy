/** fallback_format: sets up the numerator, the denominator and the distances to the neighbouring midpoints
    for a binary number f * 2^e, and runs one of the two digit loops. */
module FallbackFormatting {
  import opened MachineWords
  import opened Bignum
  import opened Powers
  import opened BigintClass
  import opened Digits
  import opened Capacity
  import opened FixedFormat
  import opened ShortestFormat

  // ---------- What is printed ----------

  // b^e, or 1 when e is negative.
  function UpTo(b: nat, e: int): nat {
    if e >= 0 then Exp(b, e) else 1
  }

  // f * 2^e / 10^exp10 == f * Above / Below, where Above and Below are integers.
  function Over(e: int, exp10: int): nat {
    UpTo(2, e) * UpTo(10, -exp10)
  }

  function Under(e: int, exp10: int): nat {
    UpTo(10, exp10) * UpTo(2, -e)
  }

  /** The rounding interval of f * 2^e in units of 10^exp10, with everything scaled by 2^shift. */
  function RoundingInterval(f: nat, shift: nat, over: nat, under: nat): Interval
    requires shift > 0
  {
    Interval(f * Exp(2, shift) * over, over, Exp(2, shift - 1) * over, Exp(2, shift) * under)
  }

  /** The numerator over the denominator is the number, the upper distance is half a unit in the last place
      and the lower one too, or half of that where the predecessor is closer. */
  lemma IntervalOfNumber(f: nat, e: int, predecessorCloser: bool, exp10: int)
    ensures var shift := if predecessorCloser then 2 else 1;
            var v := RoundingInterval(f, shift, Over(e, exp10), Under(e, exp10));
            && v.n * (UpTo(10, exp10) * UpTo(2, -e)) == f * (UpTo(2, e) * UpTo(10, -exp10)) * v.d
            && v.n == f * (2 * v.upper) && v.upper == (if predecessorCloser then 2 else 1) * v.lower
  {
    var shift := if predecessorCloser then 2 else 1;
    var over, under := Over(e, exp10), Under(e, exp10);
    hide UpTo;
    assert Exp(2, 2) == 4 && Exp(2, 1) == 2 && Exp(2, 0) == 1;
    IntervalArithmetic(f, Exp(2, shift), Exp(2, shift - 1), over, under);
  }

  lemma IntervalArithmetic(f: nat, s: nat, h: nat, over: nat, under: nat)
    requires s == 2 * h
    ensures (f * s * over) * under == (f * over) * (s * under)
    ensures f * s * over == f * (2 * (h * over))
  {
    MulAssociative(f, s, over);
    MulAssociative(s, over, 1);
    MulAssociative(f, over, s);
    MulAssociative(f * over, s, under);
    MulAssociative(2, h, over);
  }

  /** exp10 is not too small: f * 2^e, or the midpoint above it, stays below 10^(exp10 + 1). */
  predicate Estimated(f: nat, numDigits: int, over: nat, under: nat) {
    if numDigits >= 0 then f * over < 10 * under
    else (2 * f + 1) * over < 20 * under || (f % 2 == 1 && (2 * f + 1) * over == 20 * under)
  }

  lemma EstimatedBelowTen(f: nat, numDigits: int, shift: nat, over: nat, under: nat)
    requires shift > 0 && Estimated(f, numDigits, over, under)
    ensures var v := RoundingInterval(f, shift, over, under);
            if numDigits >= 0 then v.n < 10 * v.d else BelowTen(v, f % 2 == 0)
  {
    hide Exp;
    var h, v := Exp(2, shift - 1), RoundingInterval(f, shift, over, under);
    ExpNext(2, shift - 1);
    ExpPositive(2, shift - 1);
    ScaledEstimate(f, 2 * h, h, over, under);
    var x, y := (2 * f + 1) * over, 20 * under;
    if numDigits >= 0 {
      MulOrder(2 * h, f * over + 1, 10 * under);
      MulDistributes(2 * h, f * over, 1);
    } else if x < y {
      MulOrder(h, x + 1, y);
      MulDistributes(h, x, 1);
    }
  }

  lemma ScaledEstimate(f: nat, s: nat, h: nat, over: nat, under: nat)
    requires s == 2 * h
    ensures f * s * over == s * (f * over) && f * s * over + h * over == h * ((2 * f + 1) * over)
    ensures 10 * (s * under) == s * (10 * under) == h * (20 * under)
  {
    MulAssociative(s, f, over);
    MulAssociative(f, s, over);
    MulAssociative(h, 2 * f + 1, over);
    MulDistributes(h, 2 * f, 1);
    MulDistributes(over, h * (2 * f), h);
    MulAssociative(h, 2, f);
    MulAssociative(2, h, f);
    MulAssociative(s, 10, under);
    MulAssociative(10, s, under);
    MulAssociative(h, 20, under);
    MulAssociative(20, h, under);
    MulAssociative(10, 2, h * under);
    MulAssociative(2, h, under);
  }

  // ---------- The numerator is never mistaken for the denominator ----------

  lemma {:induction false} PowersOfFiveAreOdd(e: nat)
    ensures Exp(5, e) % 2 == 1
  {
    if e > 0 {
      PowersOfFiveAreOdd(e - 1);
    }
  }

  lemma OddTimesPower(x: nat, m: nat, n: nat)
    requires x % 2 == 1 && m < n
    ensures Exp(2, n) > 0 && (x * Exp(2, m)) % Exp(2, n) != 0
  {
    hide Exp;
    ExpPositive(2, n);
    ExpPositive(2, m);
    if (x * Exp(2, m)) % Exp(2, n) == 0 {
      var q := (x * Exp(2, m)) / Exp(2, n);
      assert x * Exp(2, m) == Exp(2, n) * q;
      ExpAdd(2, m, n - m);
      ExpNext(2, n - m - 1);
      MulAssociative(Exp(2, m), Exp(2, n - m), q);
      MulAssociative(Exp(2, m), x, 1);
      SameFactor(Exp(2, m), x, Exp(2, n - m) * q);
      MulAssociative(2, Exp(2, n - m - 1), q);
      assert false;
    }
  }

  /** A numerator f * 2^(shift + e) with a larger exponent than the denominator 10^exp10 * 2^shift has more
      factors of two. */
  lemma MoreFactorsOfTwo(num: Num, den: Num, f: nat, shift: nat, e: nat, exp10: nat)
    requires num.exp == e / 32 && den.exp == exp10 / 32
    requires Val(num) == (f * Exp(2, shift)) * Exp(2, e) && Val(den) == Exp(10, exp10) * Exp(2, shift)
    ensures NeverMisread(num, den, Exp(2, shift + e))
  {
    hide Exp, Val;
    if num.exp > den.exp {
      ExpAdd(2, shift, e);
      ExpPositive(2, shift + e);
      MulAssociative(f, Exp(2, shift), Exp(2, e));
      var p := Exp(2, shift + e);
      DivUnique(p, p, 1, 0);
      MultipleTimes(p, f, p);
      TenIsFiveTimesTwo(exp10);
      ExpAdd(2, exp10, shift);
      MulAssociative(Exp(5, exp10), Exp(2, exp10), Exp(2, shift));
      PowersOfFiveAreOdd(exp10);
      OddTimesPower(Exp(5, exp10), exp10 + shift, shift + e);
    }
  }

  /** A power of two is stored in one bigit. */
  lemma PowerOfTwoBits(a: Num, s: nat)
    requires TopNonzero(a) && Val(a) == Exp(2, s) && a.exp == s / 32
    ensures a.bits[0] != 0
  {
    hide Exp, Value, Pow;
    Exp2Split(s);
    MulAssociative(Value(a.bits), Pow(a.exp), 1);
    MulAssociative(Exp(2, s % 32), Pow(a.exp), 1);
    SameFactor(Pow(a.exp), Value(a.bits), Exp(2, s % 32));
    ValueTop(a.bits);
    ExpComplement(s % 32);
    ExpOrder(2, 1, 32 - s % 32);
    ExpNext(2, 0);
    MulOrder(Exp(2, s % 32), 2, Exp(2, 32 - s % 32));
    if |a.bits| > 1 {
      PowOrder(1, |a.bits| - 1);
      PowNext(0);
      assert false;
    }
  }

  // ---------- The set-up ----------

  // The four bigints hold the interval, and the loops may start.
  ghost predicate Prepared(v: Interval, shift: nat, num: Num, den: Num, lower: Num, upper: Num, t: nat) {
    && Val(num) == v.n && Val(den) == v.d && Val(lower) == v.lower
    && TopNonzero(num) && TopNonzero(den) && TopNonzero(lower)
    && (if shift == 1 then v.upper == v.lower else Val(upper) == v.upper && TopNonzero(upper))
    && NeverMisread(num, den, t) && num.exp == lower.exp
  }

  // The exponents the set-up leaves.
  predicate Placed(e: int, shift: nat, exp10: int, num: nat, den: nat) {
    if e >= 0 then exp10 >= 0 && num == e / 32 && den == exp10 / 32
    else if exp10 < 0 then num == -exp10 / 32 && den == (shift - e) / 32
    else num == 0
  }

  // value.e >= 0
  method PrepareInteger(f: nat, e: nat, shift: nat, exp10: nat,
                        numerator: Bigint, denominator: Bigint, lower: Bigint, upperStore: Bigint)
    requires f > 0 && f * Exp(2, shift) < TWO64 && 1 <= shift <= 2 && exp10 < 0x4000_0000
    requires numerator != denominator && lower != numerator && lower != denominator
    requires upperStore != numerator && upperStore != denominator && upperStore != lower
    requires Within(numerator.peak, denominator.peak, lower.peak, upperStore.peak, 0)
    modifies numerator, denominator, lower, upperStore
    ensures Prepared(RoundingInterval(f, shift, Exp(2, e), Exp(10, exp10)), shift, numerator.View(), denominator.View(),
                     lower.View(), upperStore.View(), Exp(2, shift + e))
    ensures numerator.exp == e / 32 && denominator.exp == exp10 / 32
    ensures Within(numerator.peak, denominator.peak, lower.peak, upperStore.peak, SetUpRoom(exp10))
    ensures shift != 1 ==> numerator.exp <= upperStore.exp
  {
    hide Exp, Val, TopNonzero, NeverMisread, SetUpRoom, PowerBigits;
    SetUpRoomIs(exp10);
    ExpPositive(2, shift);
    NonzeroProduct(f, Exp(2, shift));
    numerator.AssignNumber(f * Exp(2, shift));
    numerator.ShiftLeft(e);
    lower.AssignNumber(1);
    lower.ShiftLeft(e);
    if shift != 1 {
      upperStore.AssignNumber(1);
      upperStore.ShiftLeft(e + 1);
    }
    denominator.AssignPow10(exp10);
    denominator.ShiftLeft(shift);
    ExpNext(2, e);
    ExpNext(2, 0);
    MoreFactorsOfTwo(numerator.View(), denominator.View(), f, shift, e, exp10);
  }

  // value.e < 0 and exp10 < 0
  method PrepareSmall(f: nat, e: int, shift: nat, exp10: int,
                      numerator: Bigint, denominator: Bigint, lower: Bigint, upperStore: Bigint)
    requires f > 0 && f * Exp(2, shift) < TWO64 && 1 <= shift <= 2 && -0x4000_0000 < exp10 < 0 && e < 0
    requires numerator != denominator && lower != numerator && lower != denominator
    requires upperStore != numerator && upperStore != denominator && upperStore != lower
    requires Within(numerator.peak, denominator.peak, lower.peak, upperStore.peak, 0)
    modifies numerator, denominator, lower, upperStore
    ensures Prepared(RoundingInterval(f, shift, Exp(10, -exp10), Exp(2, -e)), shift,
                     numerator.View(), denominator.View(), lower.View(), upperStore.View(), 0)
    ensures numerator.exp == -exp10 / 32 && denominator.exp == (shift - e) / 32
    ensures Within(numerator.peak, denominator.peak, lower.peak, upperStore.peak, SetUpRoom(exp10))
    ensures shift != 1 ==> numerator.exp <= upperStore.exp
  {
    hide Exp, Val, TopNonzero, SetUpRoom, PowerBigits;
    SetUpRoomIs(exp10);
    ExpPositive(2, shift);
    NonzeroProduct(f, Exp(2, shift));
    numerator.AssignPow10(-exp10);
    lower.AssignBigint(numerator);
    ExpNext(2, 0);
    if shift != 1 {
      upperStore.AssignBigint(numerator);
      upperStore.ShiftLeft(1);
    }
    numerator.MultiplyLarge(f * Exp(2, shift));
    denominator.AssignNumber(1);
    denominator.ShiftLeft(shift - e);
    ExpAdd(2, shift, -e);
    PowerOfTwoBits(denominator.View(), shift - e);
  }

  // value.e < 0 and exp10 >= 0
  method PrepareFraction(f: nat, e: int, shift: nat, exp10: nat,
                         numerator: Bigint, denominator: Bigint, lower: Bigint, upperStore: Bigint)
    requires f > 0 && f * Exp(2, shift) < TWO64 && 1 <= shift <= 2 && exp10 < 0x4000_0000 && e < 0
    requires numerator != denominator && lower != numerator && lower != denominator
    requires upperStore != numerator && upperStore != denominator && upperStore != lower
    requires Within(numerator.peak, denominator.peak, lower.peak, upperStore.peak, 0)
    modifies numerator, denominator, lower, upperStore
    ensures Prepared(RoundingInterval(f, shift, 1, Exp(10, exp10) * Exp(2, -e)), shift,
                     numerator.View(), denominator.View(), lower.View(), upperStore.View(), 0)
    ensures numerator.exp == 0
    ensures Within(numerator.peak, denominator.peak, lower.peak, upperStore.peak, SetUpRoom(exp10))
    ensures shift != 1 ==> numerator.exp <= upperStore.exp
  {
    hide Exp, Val, TopNonzero, SetUpRoom, PowerBigits;
    SetUpRoomIs(exp10);
    ExpPositive(2, shift);
    NonzeroProduct(f, Exp(2, shift));
    numerator.AssignNumber(f * Exp(2, shift));
    denominator.AssignPow10(exp10);
    denominator.ShiftLeft(shift - e);
    ExpAdd(2, shift, -e);
    MulAssociative(Exp(10, exp10), Exp(2, -e), Exp(2, shift));
    MulAssociative(Exp(2, shift), Exp(2, -e), 1);
    MulAssociative(Exp(10, exp10) * Exp(2, -e), Exp(2, shift), 1);
    lower.AssignNumber(1);
    ExpNext(2, 0);
    if shift != 1 {
      upperStore.AssignNumber(2);
    }
  }

  /** lower has no larger exponent than the denominator, so that the loop sees when its lower end is met. */
  predicate SeesLowerEnd(e: int, exp10: int) {
    e < 0 || (exp10 >= 0 && e / 32 <= exp10 / 32)
  }

  // For a small number 10^-exp10 is not too large beside 2^-e.
  lemma SmallNumerator(f: nat, e: int, numDigits: int, exp10: int)
    requires f > 0 && numDigits < 0 && Estimated(f, numDigits, Over(e, exp10), Under(e, exp10))
    ensures e < 0 && exp10 < 0 ==> -exp10 <= -e
  {
    hide Exp, UpTo, Over, Under;
    if e < 0 && exp10 < 0 {
      var k, m := -exp10, -e;
      CasesOfScale(e, exp10);
      var x := Exp(10, k);
      MulOrder(x, 3, 2 * f + 1);
      ExpNext(2, m);
      ExpNext(2, m + 1);
      ExpNext(2, m + 2);
      ExpPositive(2, m);
      TenAboveEight(k);
      if k > m {
        ExpOrder(2, m + 3, 3 * k);
        assert false;
      }
    }
  }

  lemma PreparedRuns(v: Interval, shift: nat, num: Num, den: Num, lower: Num, upper: Num, t: nat)
    requires Prepared(v, shift, num, den, lower, upper, t)
    ensures Ready(num, den, t)
  {
  }

  lemma CasesOfScale(e: int, exp10: int)
    requires e >= 0 ==> exp10 >= 0
    ensures e >= 0 ==> Over(e, exp10) == Exp(2, e) && Under(e, exp10) == Exp(10, exp10)
    ensures e < 0 && exp10 < 0 ==> Over(e, exp10) == Exp(10, -exp10) && Under(e, exp10) == Exp(2, -e)
    ensures e < 0 && exp10 >= 0 ==> Over(e, exp10) == 1 && Under(e, exp10) == Exp(10, exp10) * Exp(2, -e)
  {
  }

  /** The set-up, in its three cases. */
  method Prepare(f: nat, e: int, shift: nat, numDigits: int, exp10: int,
                 numerator: Bigint, denominator: Bigint, lower: Bigint, upperStore: Bigint)
    returns (ghost t: nat)
    requires f > 0 && f * Exp(2, shift) < TWO64 && 1 <= shift <= 2 && (e >= 0 ==> exp10 >= 0)
    requires -0x4000_0000 < exp10 < 0x4000_0000 && Estimated(f, numDigits, Over(e, exp10), Under(e, exp10))
    requires numerator != denominator && lower != numerator && lower != denominator
    requires upperStore != numerator && upperStore != denominator && upperStore != lower
    requires Within(numerator.peak, denominator.peak, lower.peak, upperStore.peak, 0)
    modifies numerator, denominator, lower, upperStore
    ensures Prepared(RoundingInterval(f, shift, Over(e, exp10), Under(e, exp10)), shift,
                     numerator.View(), denominator.View(), lower.View(), upperStore.View(), t)
    ensures numDigits < 0 ==> (SeesLowerEnd(e, exp10) <==> numerator.exp <= denominator.exp)
    ensures Within(numerator.peak, denominator.peak, lower.peak, upperStore.peak, SetUpRoom(exp10))
    ensures Placed(e, shift, exp10, numerator.exp, denominator.exp)
    ensures shift != 1 ==> numerator.exp <= upperStore.exp
  {
    hide Exp, Over, Under, Estimated, Prepared, Within, SetUpRoom;
    CasesOfScale(e, exp10);
    if numDigits < 0 {
      SmallNumerator(f, e, numDigits, exp10);
    }
    if e >= 0 {
      PrepareInteger(f, e, shift, exp10, numerator, denominator, lower, upperStore);
      t := Exp(2, shift + e);
    } else if exp10 < 0 {
      PrepareSmall(f, e, shift, exp10, numerator, denominator, lower, upperStore);
      t := 0;
    } else {
      PrepareFraction(f, e, shift, exp10, numerator, denominator, lower, upperStore);
      t := 0;
    }
  }

  /** The parts of a double, with an exponent that is at most one too large. */
  predicate DoubleWithFittingExponent(f: nat, e: int, exp10: int) {
    f < 0x20_0000_0000_0000 && -1074 <= e <= 971 && Under(e, exp10) <= 10 * (f * Over(e, exp10))
  }

  lemma EstimatedAtMost(f: nat, numDigits: int, over: nat, under: nat)
    requires Estimated(f, numDigits, over, under)
    ensures f * over <= 10 * under
  {
    MulDistributes(over, 2 * f, 1);
    MulAssociative(2, f, over);
  }

  /** For those every bigint keeps to its inline storage. */
  lemma DoublesFit(f: nat, e: int, shift: nat, numDigits: int, exp10: int, num: Num, den: Num)
    requires f > 0 && 1 <= shift <= 2 && (e >= 0 ==> exp10 >= 0) && DoubleWithFittingExponent(f, e, exp10)
    requires Estimated(f, numDigits, Over(e, exp10), Under(e, exp10)) && Placed(e, shift, exp10, num.exp, den.exp)
    requires TopNonzero(den) && Val(den) == Exp(2, shift) * Under(e, exp10)
    ensures Fits(num, den, exp10)
  {
    EstimatedAtMost(f, numDigits, Over(e, exp10), Under(e, exp10));
    CasesOfScale(e, exp10);
    hide Exp, Over, Under, Val, TopNonzero, Fits;
    if e >= 0 {
      IntegerFits(f, e, shift, exp10, num, den);
    } else if exp10 < 0 {
      SmallFits(f, -e, shift, -exp10, num, den);
    } else {
      FractionFits(f, -e, shift, exp10, num, den);
    }
  }

  // denominator *= 10, and the one digit of a numDigits of zero.
  method OnlyDigit(numerator: Bigint, denominator: Bigint) returns (digit: nat)
    requires numerator != denominator && TopNonzero(numerator.View()) && TopNonzero(denominator.View())
    requires Val(numerator.View()) < 10 * Val(denominator.View())
    modifies denominator
    ensures digit <= 1 && digit == RoundHalfEven(Val(numerator.View()), 10 * old(Val(denominator.View())))
    ensures denominator.peak <= Larger(old(denominator.peak), old(|denominator.bigits|) + 1)
  {
    hide Val;
    ValPositive(denominator.View());
    denominator.MultiplySmall(10);
    var result := AddCompare(numerator, numerator, denominator);
    RoundedDigit(Val(numerator.View()), Val(denominator.View()), 0, 0, Val(numerator.View()));
    digit := if result > 0 then 1 else 0;
  }

  /** The decimal is a candidate, no shorter one is, and none of its length is closer. With exact it is the
      shortest decimal that reads back as the number, and the closest of those. */
  ghost predicate IsShortest(v: Interval, even: bool, exact: bool, exp10: int, ds: seq<nat>, exp: int) {
    && ds != [] && IsDecimal(ds) && exp == exp10 - (|ds| - 1)
    && Candidate(Scaled(v, |ds| - 1), DigitsValue(ds), even, exact)
    && (forall j: nat :: j < |ds| - 1 ==> NoCandidate(Scaled(v, j), even, exact))
    && Closest(Scaled(v, |ds| - 1), DigitsValue(ds), even, exact)
  }

  /** x is the lower midpoint in units of the j-th decimal place, and nothing else that reads back is shorter,
      or as short and at least as close. */
  ghost predicate LowerEndWinsAt(v: Interval, j: nat, x: int) {
    var w := Scaled(v, j);
    && x * w.d == w.n - w.lower
    && (forall i: nat :: i < j ==> NoCandidate(Scaled(v, i), true, false))
    && forall y: int :: Candidate(w, y, true, false) ==> Distance(y * w.d, w.n) > w.lower
  }

  ghost predicate LowerEndWins(v: Interval) {
    exists j: nat, x: int :: LowerEndWinsAt(v, j, x)
  }

  lemma SeesMore(w: Interval, x: int)
    ensures Candidate(w, x, false, false) <==> Candidate(w, x, false, true)
    ensures Candidate(w, x, true, false) ==> Candidate(w, x, true, true)
  {
  }

  /** The printed decimal is the shortest that reads back, and the closest of those, if and only if the loop
      sees the lower end, or the significand is odd, or no decimal on the lower midpoint would win. */
  lemma FullyShortest(v: Interval, even: bool, exact: bool, exp10: int, ds: seq<nat>, exp: int)
    requires IsShortest(v, even, exact, exp10, ds, exp)
    ensures IsShortest(v, even, true, exp10, ds, exp) <==> exact || !even || !LowerEndWins(v)
  {
    hide DigitsValue, Exp, IsDecimal, LowerEndWinsAt, Scaled, Candidate;
    var n := |ds| - 1;
    if !exact && even {
      if j: nat, x: int :| LowerEndWinsAt(v, j, x) {
        WinnerIsMissed(v, n, DigitsValue(ds), j, x);
      } else {
        SeesMore(Scaled(v, n), DigitsValue(ds));
        NothingMissed(v, n, DigitsValue(ds));
      }
    } else if !exact {
      forall w: Interval, x: int ensures Candidate(w, x, false, false) <==> Candidate(w, x, false, true) {
        SeesMore(w, x);
      }
      assert Closest(Scaled(v, n), DigitsValue(ds), false, true);
      forall j: nat | j < n ensures NoCandidate(Scaled(v, j), false, true) {
        assert NoCandidate(Scaled(v, j), false, false);
      }
    }
  }

  lemma WinnerIsMissed(v: Interval, n: nat, q: int, j: nat, x: int)
    requires LowerEndWinsAt(v, j, x) && Candidate(Scaled(v, n), q, true, false)
    ensures j <= n && Candidate(Scaled(v, j), x, true, true)
    ensures j == n ==> !Closest(Scaled(v, n), q, true, true)
  {
    hide Exp;
    var w := Scaled(v, j);
    assert Candidate(w, x, true, true);
    if j == n {
      assert Distance(x * w.d, w.n) <= w.lower;
    }
  }

  lemma NothingMissed(v: Interval, n: nat, q: int)
    requires !LowerEndWins(v) && Closest(Scaled(v, n), q, true, false)
    requires forall j: nat :: j < n ==> NoCandidate(Scaled(v, j), true, false)
    ensures Closest(Scaled(v, n), q, true, true) && forall j: nat :: j < n ==> NoCandidate(Scaled(v, j), true, true)
  {
    hide Scaled;
    hide Candidate, LowerEndWins;
    forall j: nat | j < n ensures NoCandidate(Scaled(v, j), true, true) {
      forall x: int ensures !Candidate(Scaled(v, j), x, true, true) {
        if Candidate(Scaled(v, j), x, true, true) {
          MissedOne(v, n, q, j, x);
        }
      }
    }
    var w := Scaled(v, n);
    forall x: int | Candidate(w, x, true, true) ensures Distance(q * w.d, w.n) <= Distance(x * w.d, w.n) {
      MissedOne(v, n, q, n, x);
    }
  }

  lemma MissedOne(v: Interval, n: nat, q: int, j: nat, x: int)
    requires !LowerEndWins(v) && Closest(Scaled(v, n), q, true, false) && j <= n
    requires forall i: nat :: i < n ==> NoCandidate(Scaled(v, i), true, false)
    requires Candidate(Scaled(v, j), x, true, true)
    ensures var w := Scaled(v, n); j == n && Distance(q * w.d, w.n) <= Distance(x * w.d, w.n)
  {
    hide Exp;
    var w := Scaled(v, j);
    if !Candidate(w, x, true, false) {
      assert !LowerEndWinsAt(v, j, x);
      var y :| Candidate(w, y, true, false) && Distance(y * w.d, w.n) <= w.lower;
      assert j == n;
      assert Distance(x * w.d, w.n) == w.lower;
    }
  }

  /** The decimal is the number rounded half-even to numDigits digits; all nines become 1 and zeros. */
  ghost predicate IsRounded(v: Interval, numDigits: nat, exp10: int, ds: seq<nat>, exp: int)
    requires v.d > 0
  {
    if numDigits == 0 then |ds| == 1 && ds[0] <= 1 && exp == exp10 + 1 && ds[0] == RoundHalfEven(v.n, 10 * v.d)
    else
      var last := exp10 - (numDigits - 1);
      && |ds| == numDigits && IsDecimal(ds) && (exp == last || exp == last + 1)
      && DigitsValue(ds) * (if exp == last then 1 else 10) == RoundHalfEven(v.n * Exp(10, numDigits - 1), v.d)
  }

  /** fallback_format, for a number f * 2^e already taken apart; stored is the most bigits that any of its four
      bigints has stored. */
  method FallbackFormat(f: nat, e: int, predecessorCloser: bool, numDigits: int, exp10: int)
    returns (buf: seq<nat>, exp: int, ghost stored: nat)
    requires 0 < f < 0x4000_0000_0000_0000 && -0x4000_0000 < exp10 < 0x4000_0000 && (e >= 0 ==> exp10 >= 0)
    requires Estimated(f, numDigits, Over(e, exp10), Under(e, exp10))
    ensures var v := RoundingInterval(f, if predecessorCloser then 2 else 1, Over(e, exp10), Under(e, exp10));
            && v.d > 0
            && (numDigits < 0 ==> IsShortest(v, f % 2 == 0, SeesLowerEnd(e, exp10), exp10, buf, exp))
            && (numDigits < 0 ==>
                  TiesToEven(Scaled(v, |buf| - 1), DigitsValue(buf), f % 2 == 0, SeesLowerEnd(e, exp10)))
            && (numDigits < 0 ==> (IsShortest(v, f % 2 == 0, true, exp10, buf, exp) <==>
                                   SeesLowerEnd(e, exp10) || f % 2 == 1 || !LowerEndWins(v)))
            && (numDigits >= 0 ==> IsRounded(v, numDigits, exp10, buf, exp))
    ensures DoubleWithFittingExponent(f, e, exp10) ==> stored <= 32
  {
    hide Val, Exp, TopNonzero, Over, Under, Estimated, RoundHalfEven, DigitsValue, Scaled, Candidate;
    hide NoCandidate, Closest, LowerEndWins, TiesToEven, DoubleWithFittingExponent, Placed, Room, SetUpRoom;
    var numerator := new Bigint();
    var denominator := new Bigint();
    var lower := new Bigint();
    var upperStore := new Bigint();
    var upper: Bigint? := null;
    var shift := if predecessorCloser then 2 else 1;
    ShiftedSignificand(f, shift);
    ghost var v := RoundingInterval(f, shift, Over(e, exp10), Under(e, exp10));
    ghost var t := Prepare(f, e, shift, numDigits, exp10, numerator, denominator, lower, upperStore);
    if shift != 1 {
      upper := upperStore;
    }
    PreparedRuns(v, shift, numerator.View(), denominator.View(), lower.View(), upperStore.View(), t);
    EstimatedBelowTen(f, numDigits, shift, Over(e, exp10), Under(e, exp10));
    ValPositive(denominator.View());
    ValPositive(lower.View());
    ghost var num, den := numerator.View(), denominator.View();
    ghost var most := Enough(f, e, shift, numDigits, exp10, num, den, lower.View(), upperStore.View());
    if numDigits < 0 {
      if upper == null {
        upper := lower;
      }
      AboveLower(f, e, predecessorCloser, exp10);
      buf, exp := ShortestDigits(numerator, denominator, lower, upper, f % 2 == 0, exp10, v, t);
      FullyShortest(v, f % 2 == 0, SeesLowerEnd(e, exp10), exp10, buf, exp);
    } else if numDigits == 0 {
      var digit := OnlyDigit(numerator, denominator);
      buf, exp := [digit], exp10 + 1;
    } else {
      buf, exp := FixedDigits(numerator, denominator, numDigits, exp10, t);
    }
    // What the four destructors assert.
    assert DoubleWithFittingExponent(f, e, exp10) ==>
        Within(numerator.peak, denominator.peak, lower.peak, upperStore.peak, CAPACITY);
    stored := Larger(Larger(numerator.peak, denominator.peak), Larger(lower.peak, upperStore.peak));
  }

  // Enough bigits for the rest of the way; for a double, as many as are stored inline.
  lemma Enough(f: nat, e: int, shift: nat, numDigits: int, exp10: int, num: Num, den: Num, lower: Num, upper: Num)
    returns (most: int)
    requires f > 0 && 1 <= shift <= 2 && (e >= 0 ==> exp10 >= 0)
    requires Estimated(f, numDigits, Over(e, exp10), Under(e, exp10)) && Placed(e, shift, exp10, num.exp, den.exp)
    requires TopNonzero(den) && Val(den) == Exp(2, shift) * Under(e, exp10)
    requires num.exp == lower.exp && (shift != 1 ==> num.exp <= upper.exp)
    ensures SetUpRoom(exp10) <= most && |den.bits| + 1 <= most
    ensures Room(num, den) <= most && Room(lower, den) <= most && (shift != 1 ==> Room(upper, den) <= most)
    ensures DoubleWithFittingExponent(f, e, exp10) ==> most <= CAPACITY
  {
    hide Exp, Over, Under, Val, TopNonzero, Estimated, Placed, DoubleWithFittingExponent, SetUpRoom;
    most := Larger(Larger(SetUpRoom(exp10), |den.bits| + 1), Room(num, den));
    if DoubleWithFittingExponent(f, e, exp10) {
      DoublesFit(f, e, shift, numDigits, exp10, num, den);
    }
  }

  lemma AboveLower(f: nat, e: int, predecessorCloser: bool, exp10: int)
    requires f > 0
    ensures var v := RoundingInterval(f, if predecessorCloser then 2 else 1, Over(e, exp10), Under(e, exp10));
            (v.lower > 0 ==> v.n > v.lower) && v.lower <= v.upper
  {
    hide Exp, Over, Under;
    var v := RoundingInterval(f, if predecessorCloser then 2 else 1, Over(e, exp10), Under(e, exp10));
    IntervalOfNumber(f, e, predecessorCloser, exp10);
    MulOrder(2 * v.upper, 1, f);
  }

  lemma ShiftedSignificand(f: nat, shift: nat)
    requires f < 0x4000_0000_0000_0000 && shift <= 2
    ensures f * Exp(2, shift) < TWO64
  {
    assert Exp(2, 0) == 1 && Exp(2, 1) == 2 && Exp(2, 2) == 4;
  }
}
