/** A number whose shortest decimal fallback_format does not print: 4720687866210938 * 2^33, an even significand.
    The midpoint below it is 405504 * 10^20, six digits that read back as the number. */
module LowerEnd {
  import opened Bignum
  import opened Powers
  import opened Digits
  import opened ShortestFormat
  import opened FallbackFormatting

  const SIGNIFICAND: nat := 4720687866210938

  function TheInterval(): Interval {
    RoundingInterval(SIGNIFICAND, 1, Over(33, 25), Under(33, 25))
  }

  lemma PowersUsed()
    ensures Exp(2, 33) == 0x2_0000_0000 && Exp(2, 1) == 2 && Exp(2, 0) == 1
    ensures Exp(10, 5) == 100000 && Exp(10, 25) == 100000_00000_00000_00000_00000
  {
    Exp2Small();
    ExpNext(2, 32);
    assert Exp(10, 5) == 100000;
    ExpAdd(10, 5, 5);
    ExpAdd(10, 10, 10);
    ExpAdd(10, 20, 5);
    assert Exp(2, 1) == 2;
  }

  /** Six digits are the lower midpoint exactly, and read the even number back. */
  lemma SixDigitsReadBack()
    ensures var w := Scaled(TheInterval(), 5);
            && Estimated(SIGNIFICAND, -1, Over(33, 25), Under(33, 25)) && !SeesLowerEnd(33, 25)
            && w.n == 405504 * w.d + w.lower && w.upper == w.lower && 2 * w.lower < w.d
            && !Inside(w, 405504) && ReadsBack(w, 405504, true)
  {
    hide Exp;
    PowersUsed();
    CasesOfScale(33, 25);
    hide Over, Under;
  }

  // A candidate with j digits behind the first is one with more digits, with zeros behind it.
  lemma MoreZeros(v: Interval, j: nat, k: nat, x: int) returns (y: int)
    requires j <= k && Candidate(Scaled(v, j), x, true, false)
    ensures Candidate(Scaled(v, k), y, true, false)
  {
    y := x;
    for i := j to k
      invariant Candidate(Scaled(v, i), y, true, false)
    {
      OneZero(v, i, y);
      y := 10 * y;
    }
  }

  lemma OneZero(v: Interval, i: nat, x: int)
    requires Candidate(Scaled(v, i), x, true, false)
    ensures Candidate(Scaled(v, i + 1), 10 * x, true, false)
  {
    hide Exp;
    ExpNext(10, i);
    TimesTenScaled(v.n, Exp(10, i));
    TimesTenScaled(v.lower, Exp(10, i));
    TimesTenScaled(v.upper, Exp(10, i));
    MulAssociative(10, x, v.d);
  }

  lemma TimesTenScaled(x: nat, p: nat)
    ensures x * (10 * p) == 10 * (x * p)
  {
    MulAssociative(x, 10, p);
    MulAssociative(10, x, p);
  }

  /** No decimal of at most six digits but the lower midpoint reads back. */
  lemma NothingElseIsShort(j: nat)
    requires j <= 5
    ensures NoCandidate(Scaled(TheInterval(), j), true, false)
  {
    hide Scaled, TheInterval;
    var v := TheInterval();
    forall x: int ensures !Candidate(Scaled(v, j), x, true, false) {
      if Candidate(Scaled(v, j), x, true, false) {
        var y := MoreZeros(v, j, 5, x);
        SixDigitsReadBack();
        OnlyTheMidpoint(Scaled(v, 5), y);
        assert false;
      }
    }
  }

  lemma OnlyTheMidpoint(w: Interval, y: int)
    requires w.n == 405504 * w.d + w.lower && w.upper == w.lower && 2 * w.lower < w.d
    ensures !Candidate(w, y, true, false)
  {
    AtMost(405504, y, w.d);
  }

  lemma TheMidpointWins()
    ensures LowerEndWins(TheInterval())
  {
    hide Scaled, TheInterval, NoCandidate, Candidate;
    var v := TheInterval();
    SixDigitsReadBack();
    forall j: nat | j <= 5 ensures NoCandidate(Scaled(v, j), true, false) {
      NothingElseIsShort(j);
    }
    NoneAtAll(Scaled(v, 5));
    assert LowerEndWinsAt(v, 5, 405504);
  }

  lemma NoneAtAll(w: Interval)
    requires NoCandidate(w, true, false)
    ensures forall y: int :: !Candidate(w, y, true, false)
  {
  }

  /** fallback_format, asked for the shortest decimal of this number with the right exponent estimate, prints
      more than six digits. */
  method PrintsMoreThanSixDigits() returns (buf: seq<nat>, exp: int)
    ensures |buf| > 6 && !IsShortest(TheInterval(), true, true, 25, buf, exp)
  {
    hide Scaled, NoCandidate, LowerEndWins, SeesLowerEnd, IsShortest, RoundingInterval, Over, Under, Estimated;
    SixDigitsReadBack();
    TheMidpointWins();
    ghost var stored;
    buf, exp, stored := FallbackFormat(SIGNIFICAND, 33, false, -1, 25);
    ItIsLong(buf, exp);
  }

  lemma ItIsLong(buf: seq<nat>, exp: int)
    requires IsShortest(TheInterval(), true, false, 25, buf, exp)
    ensures |buf| > 6
  {
    hide Scaled, TheInterval, DigitsValue, Candidate, Closest;
    if |buf| <= 6 {
      NothingElseIsShort(|buf| - 1);
      NoneAtAll(Scaled(TheInterval(), |buf| - 1));
      assert false;
    }
  }
}
