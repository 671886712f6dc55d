/** The digit loop of fallback_format without a given number of digits: Steele and White's free-format
    printing. It stops at the first digit after which the decimal lies in the rounding interval. */
module ShortestFormat {
  import opened Bignum
  import opened Powers
  import opened BigintClass
  import opened Digits
  import opened FixedFormat

  // ---------- The rounding interval ----------

  /** The number n / d with the distances lower / d and upper / d to the midpoints below and above it. */
  datatype Interval = Interval(n: nat, lower: nat, upper: nat, d: nat)

  // The same interval in units of the j-th decimal place.
  function Scaled(v: Interval, j: nat): Interval {
    Interval(v.n * Exp(10, j), v.lower * Exp(10, j), v.upper * Exp(10, j), v.d)
  }

  /** q lies strictly between the midpoints: only this number is nearest to it. */
  predicate Inside(v: Interval, q: int) {
    v.n - v.lower < q * v.d < v.n + v.upper
  }

  /** Reading q with rounding to nearest gives this number back: midpoints belong to even significands. */
  predicate ReadsBack(v: Interval, q: int, even: bool) {
    if even then v.n - v.lower <= q * v.d <= v.n + v.upper else Inside(v, q)
  }

  /** A decimal the loop has to stop at: it reads the number back. The lower midpoint itself only counts if
      the code can see that it is met. */
  predicate Candidate(v: Interval, q: int, even: bool, exact: bool) {
    ReadsBack(v, q, even) && (exact || q * v.d != v.n - v.lower)
  }

  /** No candidate is closer to the number than q. */
  ghost predicate Closest(v: Interval, q: int, even: bool, exact: bool) {
    forall x: int :: Candidate(v, x, even, exact) ==> Distance(q * v.d, v.n) <= Distance(x * v.d, v.n)
  }

  /** If some candidate is just as close, q is the even one of the two. */
  ghost predicate TiesToEven(v: Interval, q: int, even: bool, exact: bool) {
    forall x: int :: Candidate(v, x, even, exact) && x != q && Distance(x * v.d, v.n) == Distance(q * v.d, v.n) ==>
                       q % 2 == 0
  }

  ghost predicate NoCandidate(v: Interval, even: bool, exact: bool) {
    forall x: int :: !Candidate(v, x, even, exact)
  }

  // The first digit cannot be ten, not even after rounding up.
  predicate BelowTen(v: Interval, even: bool) {
    v.n + v.upper < 10 * v.d || (!even && v.n + v.upper == 10 * v.d)
  }

  // ---------- One turn ----------

  // The digit is incremented: digit is the last digit, r what is left, d the denominator.
  predicate Increments(low: bool, high: bool, digit: nat, r: nat, d: nat) {
    !low || (high && (2 * r > d || (2 * r == d && digit % 2 != 0)))
  }

  // What the two tests of a turn have found about the remainder r.
  predicate Measured(v: Interval, r: nat, even: bool, exact: bool, low: bool, high: bool) {
    && (low <==> if even && exact then r <= v.lower else r < v.lower)
    && (high <==> if even then r + v.upper >= v.d else r + v.upper > v.d)
  }

  lemma AtMost(q: int, x: int, d: nat)
    ensures x <= q ==> x * d <= q * d
    ensures x > q ==> x * d >= q * d + d && (q + 1) * d == q * d + d
  {
    MulAssociative(q, d, 1);
    MulDistributes(d, q, 1);
    if x <= q {
      NonNegativeProduct(d, q - x);
      MulDistributes(d, q, x);
    } else {
      NonNegativeProduct(d, x - (q + 1));
      MulDistributes(d, x, q + 1);
    }
  }

  /** Neither test succeeds: no integer is a candidate, and the next digit is again below ten. */
  lemma GoOn(v: Interval, q: nat, r: nat, even: bool, exact: bool)
    requires v.n == q * v.d + r && Measured(v, r, even, exact, false, false)
    ensures NoCandidate(v, even, exact) && BelowTen(Interval(10 * r, 10 * v.lower, 10 * v.upper, v.d), even)
  {
    forall x: int ensures !Candidate(v, x, even, exact) {
      AtMost(q, x, v.d);
    }
  }

  /** A test succeeds: the digit is final, and rounding it as the code does picks the closest decimal. */
  lemma Stop(v: Interval, q: nat, r: nat, even: bool, exact: bool, low: bool, high: bool, digit: nat)
    requires v.n == q * v.d + r && r < v.d && v.upper > 0 && Measured(v, r, even, exact, low, high) && (low || high)
    ensures var z := if Increments(low, high, digit, r, v.d) then q + 1 else q;
            Candidate(v, z, even, exact) && Closest(v, z, even, exact)
  {
    var z := if Increments(low, high, digit, r, v.d) then q + 1 else q;
    AtMost(q, q + 1, v.d);
    forall x: int | Candidate(v, x, even, exact) ensures Distance(z * v.d, v.n) <= Distance(x * v.d, v.n) {
      AtMost(q, x, v.d);
    }
  }

  lemma Beyond(n: int, q: nat, r: nat, x: int, d: nat)
    requires n == q * d + r
    ensures x < q ==> x * d <= n - r - d
    ensures x > q + 1 ==> x * d >= n - r + 2 * d
    ensures q * d == n - r && (q + 1) * d == n - r + d
  {
    AtMost(q, q + 1, d);
    if x > q + 1 {
      AtMost(q + 1, x, d);
    }
    if x < q {
      AtMost(q - 1, x, d);
      MulDistributes(d, q, 1);
    }
  }

  // A tie at position y with the position z taken, in a turn that has stopped: it is one of the two next to n.
  lemma TieIsNext(n: int, d: nat, r: nat, lower: nat, upper: nat, y: int, up: bool)
    requires r < d && upper > 0 && n - lower <= y <= n + upper
    requires up ==> r >= lower || d - r <= r
    requires y <= n - r - d || y >= n - r + 2 * d
    ensures Distance(y, n) != Distance(if up then n - r + d else n - r, n)
  {
  }

  /** Of two decimals equally close it picks the one with the even last digit. */
  lemma StopAtEven(v: Interval, q: nat, r: nat, even: bool, exact: bool, low: bool, high: bool, digit: nat)
    requires v.n == q * v.d + r && r < v.d && v.upper > 0 && v.lower > 0
    requires Measured(v, r, even, exact, low, high) && (low || high) && q % 2 == digit % 2
    ensures var z := if Increments(low, high, digit, r, v.d) then q + 1 else q; TiesToEven(v, z, even, exact)
  {
    hide Distance;
    var up := Increments(low, high, digit, r, v.d);
    var z := if up then q + 1 else q;
    forall x: int | Candidate(v, x, even, exact) && x != z && Distance(x * v.d, v.n) == Distance(z * v.d, v.n)
      ensures z % 2 == 0
    {
      Beyond(v.n, q, r, x, v.d);
      if x < q || x > q + 1 {
        TieIsNext(v.n, v.d, r, v.lower, v.upper, x * v.d, up);
        assert false;
      } else {
        TieOfTwo(v.n, v.d, r);
        assert 2 * r == v.d;
      }
    }
  }

  lemma TieOfTwo(n: int, d: nat, r: nat)
    requires r < d
    ensures Distance(n - r, n) == Distance(n - r + d, n) ==> 2 * r == d
  {
  }

  // An incremented digit is at most nine.
  lemma NoTen(v: Interval, num: nat, digit: nat, r: nat, even: bool, exact: bool, low: bool, high: bool)
    requires num == digit * v.d + r && r < v.d && Measured(v, r, even, exact, low, high)
    requires BelowTen(v.(n := num), even) && (low || high) && Increments(low, high, digit, r, v.d)
    ensures digit <= 8
  {
    AtMost(8, digit, v.d);
  }

  // ---------- The loop ----------

  // numerator, lower and upper hold v times 10^k, less the k digits of value p.
  ghost predicate Holds(v: Interval, k: nat, p: nat, num: nat, lower: nat, upper: nat) {
    && Remaining(v.n, v.d, k, p, num)
    && lower == Scaled(v, k).lower && upper == Scaled(v, k).upper
  }

  lemma HoldsAtFirst(v: Interval)
    ensures Holds(v, 0, 0, v.n, v.lower, v.upper) && DigitsValue([]) == 0 && IsDecimal([])
  {
  }

  lemma HoldsNext(v: Interval, k: nat, p: nat, num: nat, lower: nat, upper: nat, digit: nat, r: nat)
    requires Holds(v, k, p, num, lower, upper) && num == digit * v.d + r
    ensures Scaled(v, k).n == (10 * p + digit) * v.d + r
    ensures Holds(v, k + 1, 10 * p + digit, 10 * r, 10 * lower, 10 * upper)
  {
    hide Exp, Remaining;
    DigitTaken(v.n, v.d, k, p, num, digit, r);
    ExpNext(10, k);
    MulAssociative(v.lower, 10, Exp(10, k));
    MulAssociative(10, v.lower, Exp(10, k));
    MulAssociative(v.upper, 10, Exp(10, k));
    MulAssociative(10, v.upper, Exp(10, k));
    assert Remaining(v.n, v.d, k, p, num) && v.n * Exp(10, k) == (10 * p + digit) * v.d + r;
  }

  /** Whether numerator <[=] lower and numerator + upper >[=] denominator. The first test sees that numerator
      equals lower if it stores no more bigits. */
  method Tests(numerator: Bigint, lower: Bigint, upper: Bigint, denominator: Bigint, even: bool, ghost v: Interval,
               ghost t: nat)
    returns (low: bool, high: bool)
    requires TopNonzero(lower.View()) && TopNonzero(upper.View()) && TopNonzero(denominator.View())
    requires Ready(numerator.View(), denominator.View(), t) && numerator.exp <= lower.exp
    requires v.lower == Val(lower.View()) && v.upper == Val(upper.View()) && v.d == Val(denominator.View())
    ensures Measured(v, Val(numerator.View()), even, |numerator.bigits| <= |lower.bigits|, low, high)
  {
    hide Val, NeverMisread, Ready;
    ReadyReadable(numerator.View(), denominator.View(), t);
    ReadyBesideLower(numerator.View(), lower.View(), denominator.View(), t);
    var c := Compare(numerator, lower);
    low := c - (if even then 1 else 0) < 0;
    var a := AddCompare(numerator, upper, denominator);
    high := a + (if even then 1 else 0) > 0;
  }

  lemma ReadyBesideLower(num: Num, lower: Num, den: Num, t: nat)
    requires TopNonzero(lower) && Ready(num, den, t) && num.exp <= lower.exp
    ensures Readable(num, lower) && !Misread(num, lower)
  {
    AlignedComparesExactly(num, lower);
  }

  /** A remainder equal to lower stores as many bigits if its exponent is the same, and more if it is smaller:
      compare then ranks it above lower. */
  lemma BigitsOfEqual(num: Num, lower: Num)
    requires TopNonzero(lower) && num.bits != [] && (TopNonzero(num) || num.bits == [0]) && num.exp <= lower.exp
    requires Val(num) == Val(lower)
    ensures |num.bits| <= |lower.bits| <==> num.exp == lower.exp
  {
    hide Pow;
    ValPositive(lower);
    if num.bits == [0] {
      ValueOne(0);
    }
    LongEnough(num, lower);
    LongEnough(lower, num);
  }

  // The last digit, after a test has succeeded.
  method FinishDigit(numerator: Bigint, denominator: Bigint, digit: nat, low: bool, high: bool, ghost t: nat)
    returns (last: nat)
    requires TopNonzero(denominator.View()) && Ready(numerator.View(), denominator.View(), t)
    ensures last ==
            if Increments(low, high, digit, Val(numerator.View()), Val(denominator.View())) then digit + 1 else digit
  {
    hide Val, NeverMisread, Ready;
    last := digit;
    ReadyReadable(numerator.View(), denominator.View(), t);
    if !low {
      last := last + 1;
    } else if high {
      var result := AddCompare(numerator, numerator, denominator);
      // Round half to even.
      if result > 0 || (result == 0 && digit % 2 != 0) {
        last := last + 1;
      }
    }
  }

  // Ten times a distance that is at most the denominator has its room.
  lemma TenFits(a: Num, den: Num)
    requires TopNonzero(a) && Val(a) <= 10 * Val(den)
    ensures |a.bits| <= Room(a, den)
  {
    hide Value, Pow, Val;
    ValAtLeast(a);
    ValBelow(den);
    if Size(a) > Size(den) + 1 {
      PowNext(Size(den));
      PowOrder(Size(den) + 1, Size(a) - 1);
      assert false;
    }
  }

  // After the next place all three have room.
  lemma PlaceHasRoom(num: Num, lower: Num, upper: Num, den: Num, even: bool, t: nat)
    requires TopNonzero(lower) && TopNonzero(upper) && TopNonzero(den) && Ready(num, den, t)
    requires BelowTen(Interval(Val(num), Val(lower), Val(upper), Val(den)), even) && Val(lower) <= Val(upper)
    ensures |num.bits| <= Room(num, den) && |lower.bits| <= Room(lower, den) && |upper.bits| <= Room(upper, den)
  {
    hide Val, Ready;
    TenFits(lower, den);
    TenFits(upper, den);
    ValPositive(upper);
    ReadyFits(num, den, t);
    RoomStays(num, num, den);
  }

  // numerator, lower and upper times ten; upper may be the same object as lower.
  method NextPlace(numerator: Bigint, lower: Bigint, upper: Bigint, even: bool, ghost den: Num, ghost t: nat)
    requires numerator != lower && numerator != upper && Ready(numerator.View(), den, t)
    requires TopNonzero(lower.View()) && TopNonzero(upper.View()) && TopNonzero(den)
    requires Val(lower.View()) <= Val(upper.View())
    requires BelowTen(Interval(10 * Val(numerator.View()), 10 * Val(lower.View()), 10 * Val(upper.View()), Val(den)),
                      even)
    modifies numerator`bigits, lower`bigits, upper`bigits, numerator`peak, lower`peak, upper`peak
    ensures Val(numerator.View()) == 10 * old(Val(numerator.View())) && Ready(numerator.View(), den, t)
    ensures Val(lower.View()) == 10 * old(Val(lower.View())) && TopNonzero(lower.View())
    ensures Val(upper.View()) == 10 * old(Val(upper.View())) && TopNonzero(upper.View())
    ensures numerator.peak <= Larger(old(numerator.peak), Room(numerator.View(), den))
    ensures lower.peak <= Larger(old(lower.peak), Room(lower.View(), den))
    ensures upper.peak <= Larger(old(upper.peak), Room(upper.View(), den))
    ensures Room(numerator.View(), den) == old(Room(numerator.View(), den))
    ensures Room(lower.View(), den) == old(Room(lower.View(), den))
    ensures Room(upper.View(), den) == old(Room(upper.View(), den))
  {
    hide Val, NeverMisread, Ready, Room;
    ghost var n, l, u := numerator.View(), lower.View(), upper.View();
    TimesTen(numerator, den, t);
    lower.MultiplySmall(10);
    if upper != lower {
      upper.MultiplySmall(10);
    }
    RoomStays(n, numerator.View(), den);
    RoomStays(l, lower.View(), den);
    RoomStays(u, upper.View(), den);
    PlaceHasRoom(numerator.View(), lower.View(), upper.View(), den, even, t);
  }

  // The first test is exact about equality, or equality does not occur.
  lemma SeenMeans(v: Interval, num: Num, lower: Num, r: nat, even: bool, exact: bool, low: bool, high: bool)
    requires Measured(v, r, even, |num.bits| <= |lower.bits|, low, high) && v.lower == Val(lower) && r == Val(num)
    requires TopNonzero(lower) && num.bits != [] && (TopNonzero(num) || num.bits == [0]) && num.exp <= lower.exp
    requires r == v.lower ==> (exact <==> num.exp == lower.exp)
    ensures Measured(v, r, even, exact, low, high)
  {
    hide Val;
    if r == v.lower {
      BigitsOfEqual(num, lower);
    }
  }

  lemma ReadyShape(num: Num, den: Num, t: nat)
    requires Ready(num, den, t)
    ensures num.bits != [] && (TopNonzero(num) || num.bits == [0])
  {
  }

  // As long as all digits are zero what is left is the number itself, which is above its lower distance.
  lemma NothingTaken(v: Interval, k: nat, r: nat)
    requires Scaled(v, k).n == 0 * v.d + r && v.n > v.lower
    ensures r > Scaled(v, k).lower
  {
    ExpPositive(10, k);
    MulOrder(Exp(10, k), v.lower + 1, v.n);
    MulDistributes(Exp(10, k), v.lower, 1);
  }

  // A turn of the loop up to its two tests: k digits of value p are done.
  method DigitAndTests(numerator: Bigint, denominator: Bigint, lower: Bigint, upper: Bigint, even: bool,
                       ghost v: Interval, ghost k: nat, ghost p: nat, ghost exact: bool, ghost t: nat)
    returns (digit: nat, low: bool, high: bool)
    requires numerator != denominator && numerator != lower && numerator != upper
    requires TopNonzero(denominator.View()) && TopNonzero(lower.View()) && TopNonzero(upper.View())
    requires Ready(numerator.View(), denominator.View(), t)
    requires Holds(v, k, p, Val(numerator.View()), Val(lower.View()), Val(upper.View()))
    requires v.d == Val(denominator.View()) && v.n > v.lower && Val(numerator.View()) < 10 * v.d
    requires exact <==> lower.exp <= denominator.exp
    requires numerator.exp == if exact || p == 0 then lower.exp else denominator.exp
    modifies numerator
    ensures old(Val(numerator.View())) == digit * v.d + Val(numerator.View()) && Val(numerator.View()) < v.d
    ensures digit <= 9 && Scaled(v, k).n == (10 * p + digit) * v.d + Val(numerator.View())
    ensures Scaled(v, k).lower == Val(lower.View()) && Scaled(v, k).upper == Val(upper.View()) && Scaled(v, k).d == v.d
    ensures Holds(v, k + 1, 10 * p + digit, 10 * Val(numerator.View()), 10 * Val(lower.View()), 10 * Val(upper.View()))
    ensures Measured(Scaled(v, k), Val(numerator.View()), even, exact, low, high)
    ensures Ready(numerator.View(), denominator.View(), t)
    ensures numerator.exp == if exact || 10 * p + digit == 0 then lower.exp else denominator.exp
    ensures numerator.peak <= Larger(old(numerator.peak), old(Room(numerator.View(), denominator.View())))
    ensures Room(numerator.View(), denominator.View()) == old(Room(numerator.View(), denominator.View()))
  {
    hide Val, Exp, NeverMisread, Ready, Holds, Scaled, Measured, Room;
    ghost var was, num, l, u := numerator.View(), Val(numerator.View()), Val(lower.View()), Val(upper.View());
    digit := NextDigit(numerator, denominator, t);
    ghost var r, here := Val(numerator.View()), Scaled(v, k);
    HoldsNext(v, k, p, num, l, u, digit, r);
    RoomStays(was, numerator.View(), denominator.View());
    ScaledHolds(v, k, p, num, l, u);
    low, high := Tests(numerator, lower, upper, denominator, even, here, t);
    if 10 * p + digit == 0 {
      NothingTaken(v, k, r);
    }
    ReadyShape(numerator.View(), denominator.View(), t);
    SeenMeans(here, numerator.View(), lower.View(), r, even, exact, low, high);
  }

  lemma LowerAtMostUpper(v: Interval, k: nat)
    requires v.lower <= v.upper
    ensures Scaled(v, k).lower <= Scaled(v, k).upper
  {
    MulOrder(Exp(10, k), v.lower, v.upper);
  }

  /** Generates the digits: the shortest decimal that reads back as the number, and the closest of those. If
      lower has a larger exponent than the denominator, a decimal on the lower midpoint can be passed over,
      because compare ranks an equal remainder with trailing zero bigits above lower. */
  method ShortestDigits(numerator: Bigint, denominator: Bigint, lower: Bigint, upper: Bigint, even: bool, exp10: int,
                        ghost v: Interval, ghost t: nat)
    returns (ds: seq<nat>, exp: int)
    requires numerator != denominator && numerator != lower && numerator != upper
    requires denominator != lower && denominator != upper
    requires TopNonzero(denominator.View()) && TopNonzero(lower.View()) && TopNonzero(upper.View())
    requires Ready(numerator.View(), denominator.View(), t) && numerator.exp == lower.exp
    requires v == Interval(Val(numerator.View()), Val(lower.View()), Val(upper.View()), Val(denominator.View()))
    requires BelowTen(v, even) && v.n > v.lower && v.lower <= v.upper
    modifies numerator, lower, upper
    ensures ds != [] && IsDecimal(ds) && exp == exp10 - (|ds| - 1)
    ensures var exact := old(lower.exp <= denominator.exp);
            && Candidate(Scaled(v, |ds| - 1), DigitsValue(ds), even, exact)
            && (forall j: nat :: j < |ds| - 1 ==> NoCandidate(Scaled(v, j), even, exact))
            && Closest(Scaled(v, |ds| - 1), DigitsValue(ds), even, exact)
            && TiesToEven(Scaled(v, |ds| - 1), DigitsValue(ds), even, exact)
    ensures numerator.peak <= Larger(old(numerator.peak), Room(old(numerator.View()), denominator.View()))
    ensures lower.peak <= Larger(old(lower.peak), Room(old(lower.View()), denominator.View()))
    ensures upper.peak <= Larger(old(upper.peak), Room(old(upper.View()), denominator.View()))
  {
    hide Val, Exp, DigitsValue, NeverMisread, Ready, Holds, Scaled, NoCandidate, Measured, Candidate, Closest;
    hide Increments, Room, TiesToEven;
    ghost var den, first := denominator.View(), numerator.View();
    ghost var roomN, roomL, roomU := Room(first, den), Room(lower.View(), den), Room(upper.View(), den);
    ghost var mostN, mostL := Larger(numerator.peak, roomN), Larger(lower.peak, roomL);
    ghost var mostU := Larger(upper.peak, roomU);
    ghost var exact := lower.exp <= denominator.exp;
    ds := [];
    HoldsAtFirst(v);
    while true
      invariant denominator.View() == old(denominator.View()) && IsDecimal(ds)
      invariant TopNonzero(lower.View()) && TopNonzero(upper.View())
      invariant Ready(numerator.View(), denominator.View(), t)
      invariant Holds(v, |ds|, DigitsValue(ds), Val(numerator.View()), Val(lower.View()), Val(upper.View()))
      invariant BelowTen(Interval(Val(numerator.View()), Val(lower.View()), Val(upper.View()), v.d), even)
      invariant forall j: nat :: j < |ds| ==> NoCandidate(Scaled(v, j), even, exact)
      invariant lower.exp == old(lower.exp)
      invariant numerator.peak <= mostN && lower.peak <= mostL && upper.peak <= mostU
      invariant Room(numerator.View(), den) == roomN
      invariant Room(lower.View(), den) == roomL && Room(upper.View(), den) == roomU
      invariant numerator.exp == if exact || DigitsValue(ds) == 0 then lower.exp else denominator.exp
      decreases 10 * v.d - Val(upper.View())
    {
      ghost var k, p, num := |ds|, DigitsValue(ds), Val(numerator.View());
      ghost var here := Scaled(v, k);
      ValPositive(upper.View());
      var digit, low, high := DigitAndTests(numerator, denominator, lower, upper, even, v, k, p, exact, t);
      ghost var r := Val(numerator.View());
      DigitsPush(ds, digit);
      DigitsPush(ds, digit + 1);
      if low || high {
        Stop(here, 10 * p + digit, r, even, exact, low, high, digit);
        ValPositive(lower.View());
        EvenTens(p, digit);
        StopAtEven(here, 10 * p + digit, r, even, exact, low, high, digit);
        var last := FinishDigit(numerator, denominator, digit, low, high, t);
        if last != digit {
          NoTen(here, num, digit, r, even, exact, low, high);
        }
        ds := ds + [last];
        exp := exp10 - (|ds| - 1);
        return;
      }
      GoOn(here, 10 * p + digit, r, even, exact);
      ds := ds + [digit];
      LowerAtMostUpper(v, k);
      NextPlace(numerator, lower, upper, even, den, t);
    }
  }

  lemma ScaledHolds(v: Interval, k: nat, p: nat, num: nat, lower: nat, upper: nat)
    requires Holds(v, k, p, num, lower, upper)
    ensures Scaled(v, k) == Interval(Scaled(v, k).n, lower, upper, v.d)
  {
  }
}
