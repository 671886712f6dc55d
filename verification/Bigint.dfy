/** The class bigint: an in-place digit buffer with a base-2^32 exponent. */
module BigintClass {
  import opened MachineWords
  import opened Bignum
  import opened Powers
  import opened Convolution

  // ---------- Facts used by the loops ----------

  lemma SliceGrows(s: seq<nat>, off: nat, i: nat)
    requires off <= i < |s|
    ensures Value(s[off..i + 1]) == Value(s[off..i]) + Pow(i - off) * s[i]
  {
    hide Value, Pow;
    assert s[off..i + 1] == s[off..i] + [s[i]];
    ValuePush(s[off..i], s[i]);
  }

  lemma ValueThreeParts(s: seq<nat>, off: nat, e: nat)
    requires off <= e <= |s|
    ensures Value(s) == Value(s[..off]) + Pow(off) * Value(s[off..e]) + Pow(e) * Value(s[e..])
  {
    hide Value, Pow;
    ValueSplit(s, off);
    assert s[off..][..e - off] == s[off..e] && s[off..][e - off..] == s[e..];
    ValueSplit(s[off..], e - off);
    PowAdd(off, e - off);
    MulNested(Pow(off), Value(s[off..]), Value(s[off..e]), Pow(e - off), Value(s[e..]), Pow(e));
  }

  lemma SliceBound(s: seq<Bigit>, off: nat, e: nat, n: nat)
    requires off <= e <= |s| && n == e - off
    ensures Value(s[off..e]) < Pow(n)
  {
    ValueBound(s[off..e]);
  }

  lemma ValueMiddleChanged(s: seq<nat>, t: seq<nat>, off: nat, e: nat)
    requires off <= e <= |s| == |t| && s[..off] == t[..off] && s[e..] == t[e..]
    ensures Value(t) + Pow(off) * Value(s[off..e]) == Value(s) + Pow(off) * Value(t[off..e])
  {
    hide Value, Pow;
    ValueThreeParts(s, off, e);
    ValueThreeParts(t, off, e);
  }

  lemma ValueUpdate(s: seq<nat>, i: nat, x: nat)
    requires i < |s|
    ensures Value(s[i := x]) + Pow(i) * s[i] == Value(s) + Pow(i) * x
  {
    hide Value, Pow;
    var t := s[i := x];
    assert t[i..i + 1] == [x] && s[i..i + 1] == [s[i]];
    ValueOne(x);
    ValueOne(s[i]);
    ValueMiddleChanged(s, t, i, i + 1);
  }

  // The wrap-around of a 64-bit difference and its top bit.
  lemma WrappedDifference(d: int)
    requires -(BASE as int) <= d < BASE
    ensures (d % TWO64) % BASE == (if d < 0 then d + BASE else d)
    ensures (d % TWO64) / TWO63 == (if d < 0 then 1 else 0)
  {
  }

  lemma TrimmedValue(s: seq<nat>, n: nat)
    requires n <= |s| && forall i :: n <= i < |s| ==> s[i] == 0
    ensures Value(s[..n]) == Value(s)
  {
    ValueSplit(s, n);
    ValueZeros(s[n..]);
  }

  // ---------- Subtraction ----------

  /** subtract_aligned goes wrong exactly here: the digits under b force a borrow and the digit above them is
      zero, because its last loop keeps borrowing from that one digit. */
  ghost predicate Stalls(a: Num, b: Num)
    requires a.exp <= b.exp
  {
    var off := b.exp - a.exp;
    var e := off + |b.bits|;
    e < |a.bits| && Value(a.bits[off..e]) < Value(b.bits) && a.bits[e] == 0
  }

  function Borrowed(p: nat, borrow: nat): nat {
    if borrow == 0 then 0 else p
  }

  // After the main loop: the digits under b have been replaced, with a borrow left over.
  lemma SubtractedMiddle(was: seq<Bigit>, now: seq<Bigit>, other: nat, off: nat, e: nat, borrow: nat)
    requires off <= e <= |was| == |now| && borrow <= 1
    requires now[..off] == was[..off] && now[e..] == was[e..]
    requires Value(was[off..e]) + Borrowed(Pow(e - off), borrow) == Value(now[off..e]) + other
    ensures Value(now) == Value(was) - Pow(off) * other + Borrowed(Pow(e), borrow)
    ensures borrow == 1 <==> Value(was[off..e]) < other
  {
    hide Value, Pow;
    SliceBound(now, off, e, e - off);
    ValueMiddleChanged(was, now, off, e);
    MiddleArithmetic(off, e, Value(was[off..e]), Value(now[off..e]), other, borrow);
  }

  lemma MiddleArithmetic(off: nat, e: nat, w: nat, n: nat, o: nat, borrow: nat)
    requires off <= e && w + Borrowed(Pow(e - off), borrow) == n + o
    ensures Pow(off) * w + Borrowed(Pow(e), borrow) == Pow(off) * n + Pow(off) * o
  {
    hide Pow;
    var len := e - off;
    MulDistributes(Pow(off), n, o);
    if borrow != 0 {
      MulDistributes(Pow(off), w, Pow(len));
      PowAdd(off, len);
    }
  }

  lemma BorrowHasSource(a: Num, b: Num)
    requires a.exp <= b.exp && Val(a) >= Val(b)
    requires var off := b.exp - a.exp; off + |b.bits| <= |a.bits| && Value(a.bits[off..off + |b.bits|]) < Value(b.bits)
    ensures b.exp - a.exp + |b.bits| < |a.bits|
  {
    hide Value, Pow;
    var off := b.exp - a.exp;
    if off + |b.bits| == |a.bits| {
      assert a.bits[off..|a.bits|] == a.bits[off..];
      ValueSplit(a.bits, off);
      ValueBound(a.bits[..off]);
      MulOrder(Pow(off), Value(a.bits[off..]) + 1, Value(b.bits));
      MulDistributes(Pow(off), Value(a.bits[off..]), 1);
      assert Value(a.bits) < Pow(off) * Value(b.bits);
      MulOrder(Pow(a.exp), Value(a.bits) + 1, Pow(off) * Value(b.bits));
      MulDistributes(Pow(a.exp), Value(a.bits), 1);
      ScaledBack(b, a.exp);
    }
  }

  lemma ScaledBack(b: Num, exp: nat)
    requires exp <= b.exp
    ensures Pow(exp) * (Pow(b.exp - exp) * Value(b.bits)) == Val(b)
  {
    hide Value, Pow;
    PowAdd(exp, b.exp - exp);
    MulAssociative(Pow(exp), Pow(b.exp - exp), Value(b.bits));
    MulAssociative(Pow(b.exp), Value(b.bits), 1);
  }

  lemma LongEnough(a: Num, b: Num)
    requires TopNonzero(b) && Val(a) >= Val(b)
    ensures Size(a) >= Size(b)
  {
    hide Value, Pow;
    ValBelow(a);
    ValAtLeast(b);
    if Size(a) < Size(b) {
      PowOrder(Size(a), Size(b) - 1);
    }
  }

  /** A dividend at most one bigit longer than the divisor never stalls. */
  lemma NoStall(a: Num, b: Num)
    requires a.exp <= b.exp && TopNonzero(b) && Val(a) >= Val(b) && Size(a) <= Size(b) + 1
    ensures !Stalls(a, b)
  {
    if Stalls(a, b) {
      var off, e := b.exp - a.exp, b.exp - a.exp + |b.bits|;
      assert |a.bits| == e + 1;
      TrimmedValue(a.bits, e);
      var c := Num(a.bits[..e], a.exp);
      assert Val(c) == Val(a);
      assert c.bits[off..e] == a.bits[off..e];
      BorrowHasSource(c, b);
    }
  }

  // ---------- Other loops ----------

  lemma MultiplyStep(s: seq<nat>, was: seq<nat>, i: nat, value: nat, carry: nat, digit: nat, carry': nat)
    requires i < |s| == |was| && s[i..] == was[i..]
    requires Value(s[..i]) + Pow(i) * carry == value * Value(was[..i])
    requires was[i] * value + carry == digit + BASE * carry'
    ensures Value(s[i := digit][..i + 1]) + Pow(i + 1) * carry' == value * Value(was[..i + 1])
  {
    hide Value, Pow;
    var t := s[i := digit];
    assert t[..i] == s[..i];
    ValuePrefix(t, i);
    ValuePrefix(was, i);
    var p := Pow(i);
    PowNext(i);
    StepArithmetic(p, was[i], value, carry, digit, carry', Value(was[..i]), Value(s[..i]));
  }

  lemma StepArithmetic(p: nat, x: nat, value: nat, carry: nat, digit: nat, carry': nat, low: nat, done: nat)
    requires done + p * carry == value * low
    requires x * value + carry == digit + BASE * carry'
    ensures (done + p * digit) + (BASE * p) * carry' == value * (low + p * x)
  {
    assert p * (x * value + carry) == p * (digit + BASE * carry');
    MulDistributes(p, x * value, carry);
    MulDistributes(p, digit, BASE * carry');
    MulAssociative(p, BASE, carry');
    MulAssociative(BASE, p, carry');
    MulAssociative(p, x, value);
    MulDistributes(value, low, p * x);
    MulAssociative(value, p * x, 1);
  }

  lemma EmptyPrefix(s: seq<nat>, value: nat)
    ensures Value(s[..0]) == 0 && Pow(0) == 1 && value * 0 == 0
  {
  }

  lemma ProductFits(x: Bigit, y: Bigit, carry: Bigit)
    ensures x * y + carry < TWO64 && (x * y + carry) / BASE < BASE
    ensures x != 0 && y != 0 ==> x * y + carry > 0
  {
    MulOrder(y, x, 0xffff_ffff);
    MulOrder(0xffff_ffff, y, 0xffff_ffff);
  }

  lemma FirstDigit(n: nat)
    ensures Value([n % BASE]) + Pow(1) * (n / BASE) == n
  {
    ValueOne(n % BASE);
    assert Pow(1) == BASE;
  }

  lemma PushStep(s: seq<nat>, carry: nat)
    ensures Value(s + [carry % BASE]) + Pow(|s| + 1) * (carry / BASE) == Value(s) + Pow(|s|) * carry
  {
    hide Value, Pow;
    ValuePush(s, carry % BASE);
    ValueOne(carry % BASE);
    PowNext(|s|);
    MulNested(Pow(|s|), carry, carry % BASE, BASE, carry / BASE, Pow(|s| + 1));
  }

  // The loop of align: the digits move up and zeros fill the places below.
  method MovedUp(bits: seq<Bigit>, diff: nat) returns (moved: seq<Bigit>)
    ensures moved == seq(diff, _ => 0) + bits
  {
    var numBigits := |bits|;
    moved := bits + seq(diff, _ => 0);
    var i, j := numBigits - 1, numBigits - 1 + diff;
    while i >= 0
      invariant -1 <= i < numBigits && j == i + diff && |moved| == numBigits + diff
      invariant forall k :: 0 <= k <= i ==> moved[k] == bits[k]
      invariant forall k :: i < k < numBigits ==> moved[k + diff] == bits[k]
    {
      moved := moved[j := moved[i]];
      i, j := i - 1, j - 1;
    }
    moved := seq(diff, _ => 0) + moved[diff..];
  }

  class Bigint {
    var bigits: seq<Bigit>
    var exp: nat
    // The most bigits that have been stored so far: what the destructor's assertion is about.
    ghost var peak: nat

    function View(): Num
      reads this
    {
      Num(bigits, exp)
    }

    constructor ()
      ensures View() == Num([], 0) && peak == 0
    {
      bigits := [];
      exp := 0;
      peak := 0;
    }

    method SubtractBits(index: nat, other: Bigit, borrow: nat) returns (borrow': nat)
      requires index < |bigits| && borrow <= 1
      modifies this`bigits
      ensures borrow' <= 1 && |bigits| == old(|bigits|) && bigits == old(bigits)[index := bigits[index]]
      ensures old(bigits[index]) - other - borrow == bigits[index] - BASE * borrow'
    {
      WrappedDifference(bigits[index] - other - borrow);
      var result := (bigits[index] - other - borrow) % TWO64;
      bigits := bigits[index := result % BASE];
      borrow' := result / TWO63;
    }

    method RemoveLeadingZeros()
      requires bigits != []
      modifies this`bigits
      ensures Value(bigits) == Value(old(bigits)) && bigits <= old(bigits)
      ensures TopNonzero(View()) || bigits == [0]
    {
      var numBigits := |bigits| - 1;
      while numBigits > 0 && bigits[numBigits] == 0
        invariant 0 <= numBigits < |bigits|
        invariant forall i :: numBigits < i < |bigits| ==> bigits[i] == 0
      {
        numBigits := numBigits - 1;
      }
      TrimmedValue(bigits, numBigits + 1);
      bigits := bigits[..numBigits + 1];
    }

    /** *this -= other, for aligned operands. The difference is exact if and only if the borrow does not
        stall; the clause also says by how much it is off when it does. */
    method SubtractAligned(other: Bigint)
      requires this != other && exp <= other.exp && TopNonzero(other.View())
      requires Val(View()) >= Val(other.View())
      modifies this`bigits
      ensures Val(View()) == Val(old(View())) - Val(other.View())
                             + (if Stalls(old(View()), other.View()) then (BASE - 1) * Pow(Size(other.View())) else 0)
      ensures TopNonzero(View()) || bigits == [0]
      ensures |bigits| <= |old(bigits)|
    {
      hide Value, Pow;
      ghost var was := bigits;
      LongEnough(View(), other.View());
      var borrow := 0;
      var off := other.exp - exp;
      var i, j := off, 0;
      ValueEmpty();
      assert was[off..off] == [] && bigits[off..off] == [] && other.bigits[..0] == [];
      while j != |other.bigits|
        invariant 0 <= j <= |other.bigits| && i == off + j && |bigits| == |was| && borrow <= 1
        invariant bigits[..off] == was[..off] && bigits[i..] == was[i..]
        invariant Value(was[off..i]) + Borrowed(Pow(j), borrow) == Value(bigits[off..i]) + Value(other.bigits[..j])
      {
        ghost var before := bigits;
        var borrow' := SubtractBits(i, other.bigits[j], borrow);
        SubtractStep(was, before, bigits, other.bigits, off, j, borrow, borrow');
        borrow := borrow';
        i, j := i + 1, j + 1;
      }
      assert other.bigits[..j] == other.bigits;
      SubtractedMiddle(was, bigits, Value(other.bigits), off, i, borrow);
      ghost var middle, b := bigits, borrow;
      if borrow > 0 {
        BorrowHasSource(Num(was, exp), other.View());
      }
      while borrow > 0
        invariant borrow <= 1 && (b == 1 ==> i < |bigits|) && |bigits| == |middle| && i == off + |other.bigits|
        invariant b == 0 ==> borrow == 0 && bigits == middle
        invariant b == 1 ==> bigits == middle[i := bigits[i]]
        invariant b == 1 && borrow == 1 ==> bigits[i] == middle[i] || (middle[i] == 0 && bigits[i] == BASE - 1)
        invariant b == 1 && borrow == 0 ==> bigits[i] == if middle[i] == 0 then BASE - 2 else middle[i] - 1
        decreases if borrow == 0 then 0 else if bigits[i] == 0 then 2 else 1
      {
        borrow := SubtractBits(i, 0, borrow);
      }
      SubtractResult(was, middle, bigits, other.bigits, off, b);
      DifferenceValue(Num(was, exp), Num(bigits, exp), other.View());
      RemoveLeadingZeros();
    }

    method MultiplySmall(value: nat)
      requires value < BASE
      modifies this`bigits, this`peak
      ensures Value(bigits) == value * Value(old(bigits)) && Val(View()) == value * Val(old(View()))
      ensures |old(bigits)| <= |bigits| <= |old(bigits)| + 1 && peak == Larger(old(peak), |bigits|)
      ensures value > 0 && TopNonzero(old(View())) ==> TopNonzero(View())
      ensures value > 0 && old(bigits) == [0] ==> bigits == [0]
    {
      hide Value, Pow;
      ghost var was := bigits;
      var carry := 0;
      EmptyPrefix(bigits, value);
      for i := 0 to |bigits|
        invariant |bigits| == |was| && bigits[i..] == was[i..] && 0 <= carry < BASE
        invariant Value(bigits[..i]) + Pow(i) * carry == value * Value(was[..i])
        invariant i > 0 && value > 0 && was[i - 1] != 0 ==> bigits[i - 1] != 0 || carry != 0
        invariant was == [0] ==> bigits == [0] && carry == 0
        invariant peak == old(peak)
      {
        // The product and the carry fit a 64-bit double bigit.
        ProductFits(was[i], value, carry);
        var result := bigits[i] * value + carry;
        assert result < TWO64;
        MultiplyStep(bigits, was, i, value, carry, result % BASE, result / BASE);
        bigits := bigits[i := result % BASE];
        carry := result / BASE;
      }
      assert bigits[..|bigits|] == bigits && was[..|was|] == was;
      ValuePush(bigits, carry);
      if carry != 0 {
        bigits := bigits + [carry];
      }
      peak := Larger(peak, |bigits|);
      ScaledValue(Num(was, exp), View(), value);
    }

    /** *this *= value, for a 64-bit value: the carry is a double bigit that never overflows. */
    method MultiplyLarge(value: nat)
      requires value < TWO64
      modifies this`bigits, this`peak
      ensures Value(bigits) == value * Value(old(bigits)) && Val(View()) == value * Val(old(View()))
      ensures |old(bigits)| <= |bigits| <= |old(bigits)| + 2 && peak == Larger(old(peak), |bigits|)
      ensures value > 0 && TopNonzero(old(View())) ==> TopNonzero(View())
    {
      hide Value, Pow, LowProduct, HighProduct, CarryBigits;
      ghost var was := bigits;
      var lower, upper := value % BASE, value / BASE;
      var carry := 0;
      EmptyPrefix(bigits, value);
      for i := 0 to |bigits|
        invariant |bigits| == |was| && bigits[i..] == was[i..] && 0 <= carry < TWO64 && peak == old(peak)
        invariant Value(bigits[..i]) + Pow(i) * carry == value * Value(was[..i])
        invariant i > 0 && value > 0 && was[i - 1] != 0 ==> bigits[i - 1] != 0 || carry != 0
      {
        LargeStep(was[i], value, carry);
        var result := LowProduct(bigits[i], lower, carry);
        var carry' := HighProduct(bigits[i], upper, result, carry);
        assert result < TWO64 && carry' < TWO64;
        MultiplyStep(bigits, was, i, value, carry, result % BASE, carry');
        bigits := bigits[i := result % BASE];
        carry := carry';
      }
      assert bigits[..|bigits|] == bigits && was[..|was|] == was;
      CarryFits(carry);
      while carry != 0
        invariant 0 <= carry && |was| <= |bigits|
        invariant |bigits| + CarryBigits(carry) <= |was| + 2 && peak == old(peak)
        invariant Value(bigits) + Pow(|bigits|) * carry == value * Value(was)
        invariant value > 0 && was != [] && was[|was| - 1] != 0 ==> carry != 0 || TopNonzero(View())
      {
        CarryShrinks(carry);
        PushStep(bigits, carry);
        bigits := bigits + [carry % BASE];
        carry := carry / BASE;
      }
      peak := Larger(peak, |bigits|);
      ScaledValue(Num(was, exp), View(), value);
    }

    /** *this <<= shift. */
    method ShiftLeft(shift: nat)
      modifies this
      ensures Val(View()) == Val(old(View())) * Exp(2, shift)
      ensures exp == old(exp) + shift / 32
      ensures |old(bigits)| <= |bigits| <= |old(bigits)| + 1 && peak == Larger(old(peak), |bigits|)
      ensures TopNonzero(old(View())) ==> TopNonzero(View())
    {
      hide Value, Pow, Exp, ShiftedOut, ShiftedLow;
      ghost var was := View();
      exp := exp + shift / 32;
      peak := Larger(peak, |bigits|);
      var s := shift % 32;
      if s == 0 {
        Exp2Zero();
        ShiftedValue(was, View(), shift);
        return;
      }
      var carry := 0;
      EmptyPrefix(bigits, Exp(2, s));
      ExpPositive(2, s);
      for i := 0 to |bigits|
        invariant |bigits| == |was.bits| && bigits[i..] == was.bits[i..] && 0 <= carry < Exp(2, s)
        invariant exp == was.exp + shift / 32 && peak == Larger(old(peak), |was.bits|)
        invariant Value(bigits[..i]) + Pow(i) * carry == Exp(2, s) * Value(was.bits[..i])
        invariant i > 0 && was.bits[i - 1] != 0 ==> bigits[i - 1] != 0 || carry != 0
      {
        ShiftedBigit(was.bits[i], s, carry);
        var c := ShiftedOut(bigits[i], s);
        var digit := ShiftedLow(bigits[i], s) + carry;
        MultiplyStep(bigits, was.bits, i, Exp(2, s), carry, digit, c);
        bigits := bigits[i := digit];
        carry := c;
      }
      assert bigits[..|bigits|] == bigits && was.bits[..|was.bits|] == was.bits;
      ExpBelowBase(s);
      ValuePush(bigits, carry);
      if carry != 0 {
        bigits := bigits + [carry];
      }
      peak := Larger(peak, |bigits|);
      ShiftedValue(was, View(), shift);
    }

    method AssignNumber(n: nat)
      requires n < TWO64
      modifies this
      ensures Val(View()) == n && exp == 0 && 1 <= |bigits| <= 2 && peak == Larger(old(peak), |bigits|)
      ensures n > 0 ==> TopNonzero(View())
      ensures n < BASE ==> bigits == [n]
    {
      hide Value, Pow;
      // The first turn of the do-while loop.
      bigits := [n % BASE];
      var rest := n / BASE;
      exp := 0;
      FirstDigit(n);
      while rest != 0
        invariant 0 <= rest < BASE && 1 <= |bigits| <= (if rest > 0 then 1 else 2)
        invariant Value(bigits) + Pow(|bigits|) * rest == n
        invariant n > 0 ==> rest != 0 || TopNonzero(View())
        invariant n < BASE ==> rest == 0 && bigits == [n]
        invariant exp == 0 && peak == old(peak)
      {
        PushStep(bigits, rest);
        bigits := bigits + [rest % BASE];
        rest := rest / BASE;
      }
      peak := Larger(peak, |bigits|);
      PlainValue(View());
    }

    method AssignBigint(other: Bigint)
      modifies this
      ensures View() == old(other.View()) && peak == Larger(old(peak), |bigits|)
    {
      bigits := other.bigits;
      exp := other.exp;
      peak := Larger(peak, |bigits|);
    }

    /** Adds trailing zero bigits until the exponent is no larger than other's; the number is unchanged. */
    method Align(other: Bigint)
      modifies this
      ensures Val(View()) == Val(old(View()))
      ensures exp == if old(exp) <= old(other.exp) then old(exp) else old(other.exp)
      ensures Size(View()) == Size(old(View())) && |old(bigits)| <= |bigits|
      ensures peak == if old(exp) <= old(other.exp) then old(peak) else Larger(old(peak), |bigits|)
      ensures TopNonzero(old(View())) ==> TopNonzero(View())
    {
      var expDifference: int := exp - other.exp;
      if expDifference <= 0 {
        return;
      }
      ghost var was := View();
      bigits := MovedUp(bigits, expDifference);
      peak := Larger(peak, |bigits|);
      exp := exp - expDifference;
      AlignedValue(was, View(), expDifference);
    }

    // One turn of the do-while loop of divmod_assign.
    method SubtractOnce(divisor: Bigint) returns (c: int)
      requires this != divisor && TopNonzero(divisor.View()) && exp <= divisor.exp
      requires Val(View()) >= Val(divisor.View()) && Size(View()) <= Size(divisor.View()) + 1
      modifies this`bigits
      ensures Val(View()) == old(Val(View())) - Val(divisor.View()) && c == CompareResult(View(), divisor.View())
      ensures bigits != [] && Size(View()) <= Size(divisor.View()) + 1
      ensures TopNonzero(View()) || bigits == [0]
    {
      hide Value, Pow, Val, Stalls;
      NoStall(View(), divisor.View());
      SubtractAligned(divisor);
      c := Compare(this, divisor);
    }

    /** Divides by divisor, leaving the remainder and returning the quotient. The one case that goes wrong is
        a dividend equal to a divisor that stores more bigits: compare then calls it smaller. */
    method DivmodAssign(divisor: Bigint) returns (quotient: nat)
      requires this != divisor && TopNonzero(divisor.View()) && bigits != []
      requires Readable(View(), divisor.View()) && Size(View()) <= Size(divisor.View()) + 1
      modifies this
      ensures if Misread(old(View()), divisor.View()) then quotient == 0 && View() == old(View())
              else Val(old(View())) == quotient * Val(divisor.View()) + Val(View()) && Val(View()) < Val(divisor.View())
      ensures quotient == 0 ==> View() == old(View())
      ensures quotient > 0 ==> exp == (if old(exp) <= divisor.exp then old(exp) else divisor.exp)
      ensures bigits != [] && Size(View()) <= Size(divisor.View()) + 1
      ensures TopNonzero(View()) || (quotient > 0 && bigits == [0]) || View() == old(View())
      ensures peak <= Larger(old(peak), Room(old(View()), divisor.View()))
    {
      hide Value, Pow, Val, Stalls, Room;
      var c := Compare(this, divisor);
      if c < 0 {
        return 0;
      }
      ghost var was, d := View(), divisor.View();
      Align(divisor);
      WithinRoom(was, View(), d);
      ghost var aligned := peak;
      quotient := 0;
      // The first turn of the do-while loop.
      c := SubtractOnce(divisor);
      quotient := 1;
      while c >= 0
        invariant Val(was) == quotient * Val(d) + Val(View()) && quotient > 0 && d == divisor.View()
        invariant exp == (if was.exp <= d.exp then was.exp else d.exp)
        invariant bigits != [] && Size(View()) <= Size(d) + 1
        invariant TopNonzero(View()) || bigits == [0]
        invariant c == CompareResult(View(), d) && peak == aligned
        decreases Val(View())
      {
        c := SubtractOnce(divisor);
        MulDistributes(Val(d), quotient, 1);
        quotient := quotient + 1;
        ValPositive(d);
      }
      AlignedComparesExactly(View(), d);
    }

    /** square(): diagonal by diagonal, with a running carry in 128 bits. */
    method Square()
      requires bigits != [] && |bigits| <= BASE
      modifies this
      ensures Val(View()) == Val(old(View())) * Val(old(View()))
      ensures TopNonzero(old(View())) ==> TopNonzero(View())
      ensures exp == 2 * old(exp) && bigits != [] && |bigits| <= 2 * old(|bigits|)
      ensures peak == Larger(old(peak), 2 * old(|bigits|))
    {
      hide Value, Pow, Diagonal;
      var numBigits := |bigits|;
      var numResultBigits := 2 * numBigits;
      var n := bigits;
      ghost var was, ds := View(), Diagonals(n, n, numResultBigits);
      bigits := seq(numResultBigits, _ => 0);
      peak := Larger(peak, |bigits|);
      var sum: nat := 0;
      ValueEmpty();
      PowNext(0);
      assert bigits[..0] == [] && ds[..0] == [];
      for bigitIndex := 0 to numResultBigits
        invariant |bigits| == numResultBigits && sum <= numBigits * BASE && exp == was.exp
        invariant peak == Larger(old(peak), numResultBigits)
        invariant Value(bigits[..bigitIndex]) + Pow(bigitIndex) * sum == Value(ds[..bigitIndex])
      {
        ghost var before := sum;
        if bigitIndex < numBigits {
          sum := AddLowDiagonal(n, bigitIndex, sum);
        } else {
          sum := AddHighDiagonal(n, bigitIndex, sum);
        }
        SumFits(n, bigitIndex, before, sum);
        assert sum < TWO64 * TWO64;
        SquareStep(bigits, ds, bigitIndex, before, sum);
        bigits := bigits[bigitIndex := sum % BASE];
        sum := sum / BASE;
      }
      assert bigits[..numResultBigits] == bigits && ds[..numResultBigits] == ds;
      DiagonalsAreProduct(n, n, numResultBigits);
      NoCarryLeft(n, numResultBigits, Value(bigits), sum);
      RemoveLeadingZeros();
      exp := exp * 2;
      SquareValue(was, View());
      if TopNonzero(was) {
        SquareNotZero(was, View());
      }
    }

    // One turn of the loop of assign_pow10: square, and multiply by 5 if (exp & bitmask) != 0.
    method PowerStep(e: nat, bitmask: nat)
      requires 0 < bitmask && e < 0x4000_0000 && exp == 0 && TopNonzero(View())
      requires Val(View()) == Exp(5, e / (2 * bitmask)) && |bigits| <= e / (2 * bitmask)
      modifies this
      ensures Val(View()) == Exp(5, e / bitmask) && |bigits| <= e / bitmask
      ensures TopNonzero(View()) && exp == 0 && peak <= Larger(old(peak), PowerBigits(e))
    {
      hide Value, Pow, Exp, Val;
      HalvedQuotient(e, bitmask);
      QuotientBelow(e, bitmask);
      FivesAreShort(View(), e / (2 * bitmask));
      SquaredPower(5, e / (2 * bitmask), e / bitmask);
      QuotientBelow(e, 2 * bitmask);
      Square();
      if (e / bitmask) % 2 == 1 {
        MultiplySmall(5);
        FivesAreShort(View(), e / bitmask);
      }
    }

    /** assign_pow10(): repeated squaring of 5 along the bits of the exponent, then one shift. The bound is
        that of the int bitmask. */
    method AssignPow10(e: nat)
      requires e < 0x4000_0000
      modifies this
      ensures Val(View()) == Exp(10, e)
      ensures TopNonzero(View()) && exp == e / 32
      ensures |bigits| <= peak <= Larger(old(peak), PowerBigits(e))
    {
      hide Value, Pow, Exp, Val, TopNonzero;
      ghost var most: nat := Larger(peak, PowerBigits(e));
      assert 2 <= most;
      Exp2Zero();
      if e == 0 {
        AssignNumber(1);
        return;
      }
      var bitmask, t := FindTopBit(e);
      TopBit(e, bitmask);
      AssignNumber(5);
      ExpNext(5, 0);
      ghost var u := t as int - 1;
      if u >= 0 {
        ExpNext(2, u);
      }
      bitmask := bitmask / 2;
      while bitmask != 0
        invariant bitmask == 0 ==> Val(View()) == Exp(5, e) && |bigits| <= e
        invariant bitmask != 0 ==> u >= 0 && bitmask == Exp(2, u)
        invariant bitmask != 0 ==> Val(View()) == Exp(5, e / (2 * bitmask)) && |bigits| <= e / (2 * bitmask)
        invariant TopNonzero(View()) && exp == 0 && peak <= most
        decreases bitmask
      {
        PowerStep(e, bitmask);
        if u > 0 {
          ExpNext(2, u - 1);
        }
        bitmask := bitmask / 2;
        u := u - 1;
      }
      TenIsFiveTimesTwo(e);
      FivesAreShort(View(), e);
      ShiftLeft(e);
    }
  }

  // Find the top bit.
  method FindTopBit(e: nat) returns (bitmask: nat, ghost t: nat)
    requires 0 < e < 0x4000_0000
    ensures bitmask == Exp(2, t) && 0 < bitmask <= e < 2 * bitmask
  {
    hide Exp;
    Exp2Zero();
    bitmask := 1;
    t := 0;
    while e >= bitmask
      invariant bitmask == Exp(2, t) && 1 <= bitmask <= 2 * e
      invariant t > 0 ==> Exp(2, t - 1) <= e
      decreases 2 * e - bitmask
    {
      ExpNext(2, t);
      bitmask := bitmask * 2;
      t := t + 1;
    }
    // It still fits the int.
    assert bitmask < 0x8000_0000;
    t := t - 1;
    ExpNext(2, t);
    bitmask := bitmask / 2;
  }

  // The bigits a can be given beside a divisor b, when it is aligned with it and less than a bigit longer.
  function Room(a: Num, b: Num): int {
    Size(b) + 1 - Lesser(a.exp, b.exp)
  }

  lemma WithinRoom(a: Num, aligned: Num, b: Num)
    requires Size(aligned) == Size(a) <= Size(b) + 1 && aligned.exp == if a.exp <= b.exp then a.exp else b.exp
    ensures |aligned.bits| <= Room(a, b)
  {
  }

  // The most bigits on the way to 10^e: seven bits for every three times five.
  function PowerBigits(e: nat): nat {
    7 * e / 96 + 2
  }

  /** A power of five is stored in few bigits. */
  lemma FivesAreShort(a: Num, h: nat)
    requires TopNonzero(a) && a.exp == 0 && Val(a) == Exp(5, h)
    ensures |a.bits| <= 7 * h / 96 + 1
  {
    hide Val, Exp, Pow;
    var m := |a.bits| - 1;
    ValAtLeast(a);
    Exp2IsPow(m);
    FiveBelowTwo(h, 32 * m);
  }

  lemma ScaledValue(was: Num, now: Num, x: nat)
    requires Value(now.bits) == x * Value(was.bits) && now.exp == was.exp
    ensures Val(now) == x * Val(was)
  {
    MulAssociative(x, Value(was.bits), Pow(was.exp));
  }

  /** A number equal to one that stores more bigits. compare cannot tell the two are equal. */
  predicate Misread(a: Num, b: Num) {
    Val(a) == Val(b) && |a.bits| < |b.bits|
  }

  /** What compare answers: the order of the values, and between equal numbers the one that stores more
      bigits counts as larger. */
  function CompareResult(a: Num, b: Num): int {
    if Val(a) > Val(b) then 1
    else if Val(a) < Val(b) then -1
    else if |a.bits| > |b.bits| then 1
    else if |a.bits| < |b.bits| then -1
    else 0
  }

  lemma AlignedComparesExactly(a: Num, b: Num)
    requires TopNonzero(b) && a.exp <= b.exp
    ensures !Misread(a, b)
  {
    if Misread(a, b) {
      LongEnough(a, b);
    }
  }

  /** A divisor whose lowest bigit is not zero is never misread. */
  lemma LowBigitNonzero(a: Num, b: Num)
    requires TopNonzero(b) && b.bits[0] != 0
    ensures !Misread(a, b)
  {
    hide Pow, Value, Val, Above;
    if Misread(a, b) {
      if a.exp <= b.exp {
        AlignedComparesExactly(a, b);
      } else {
        var k := b.exp;
        AboveExact(a, k);
        AboveExact(b, k);
        SameFactor(Pow(k), Above(a, k), Above(b, k));
        AboveStep(a, k);
        AboveStep(b, k);
        NotMultiple(b.bits[0], Above(b, k + 1), Above(a, k + 1));
        assert false;
      }
    }
  }

  lemma NotMultiple(low: Bigit, x: nat, y: nat)
    requires low != 0
    ensures low + BASE * x != BASE * y
  {
  }

  lemma SameFactor(p: nat, x: nat, y: nat)
    requires p > 0 && p * x == p * y
    ensures x == y
  {
    if x < y {
      MulOrder(p, x + 1, y);
      MulDistributes(p, x, 1);
    } else if y < x {
      MulOrder(p, y + 1, x);
      MulDistributes(p, y, 1);
    }
  }

  /** compare is exact if the operand with more stored bigits has a non-zero lowest bigit. */
  lemma CompareIsExact(a: Num, b: Num)
    requires TopNonzero(a) && TopNonzero(b)
    requires |a.bits| > |b.bits| ==> a.bits[0] != 0
    requires |a.bits| < |b.bits| ==> b.bits[0] != 0
    ensures CompareResult(a, b) == Sign(Val(a) - Val(b))
  {
    hide Val, TopNonzero;
    if |a.bits| > |b.bits| {
      LowBigitNonzero(b, a);
    } else if |a.bits| < |b.bits| {
      LowBigitNonzero(a, b);
    }
  }

  /** Without that, equal numbers may compare as different, and divmod_assign then returns quotient zero for
      a dividend equal to the divisor: 2^32 stored as one bigit with exponent 1, and as two bigits. */
  lemma MisreadHappens()
    ensures Misread(Num([1], 1), Num([0, 1], 0)) && CompareResult(Num([1], 1), Num([0, 1], 0)) == -1
    ensures TopNonzero(Num([1], 1)) && TopNonzero(Num([0, 1], 0))
  {
    assert Pow(1) == BASE && Pow(0) == 1;
    ValueOne(1);
    assert [0, 1][1..] == [1];
  }

  /** A dividend two bigits longer than the divisor can stall subtract_aligned: 2^64 - 1 comes out wrong. */
  lemma StallHappens()
    ensures Stalls(Num([0, 0, 1], 0), Num([1], 0)) && Val(Num([0, 0, 1], 0)) >= Val(Num([1], 0))
  {
    var s: seq<nat> := [0, 0, 1];
    assert s[0..1] == [0] && s[1..] == [0, 1] && [0, 1][1..] == [1];
    ValueOne(0);
    ValueOne(1);
  }

  /** Nor has a dividend as much longer a quotient that fits an int. */
  lemma LongQuotient(a: Num, b: Num, q: nat, r: nat)
    requires TopNonzero(a) && TopNonzero(b) && Size(a) > Size(b) + 1
    requires Val(a) == q * Val(b) + r && r < Val(b)
    ensures q >= BASE
  {
    hide Value, Pow, Val, TopNonzero;
    ValAtLeast(a);
    ValBelow(b);
    PowNext(Size(b));
    PowOrder(Size(b) + 1, Size(a) - 1);
    if q < BASE {
      MulOrder(Val(b), q + 1, BASE);
      MulDistributes(Val(b), q, 1);
      MulOrder(BASE, Val(b), Pow(Size(b)));
      assert false;
    }
  }

  lemma PlainValue(a: Num)
    ensures a.exp == 0 ==> Val(a) == Value(a.bits)
  {
  }

  lemma ValPositive(a: Num)
    requires TopNonzero(a)
    ensures Val(a) > 0
  {
    ValAtLeast(a);
  }

  lemma NonzeroProduct(x: nat, y: nat)
    requires y > 0
    ensures x != 0 ==> x * y > 0
  {
  }

  lemma Exp2Zero()
    ensures Exp(2, 0) == 1 && Exp(10, 0) == 1
  {
  }

  lemma ExpBelowBase(s: nat)
    requires s <= 32
    ensures Exp(2, s) <= BASE
  {
    ExpOrder(2, s, 32);
    Exp2Small();
  }

  // How many bigits a 64-bit carry will take.
  function CarryBigits(carry: nat): nat {
    if carry == 0 then 0 else 1 + CarryBigits(carry / BASE)
  }

  lemma CarryShrinks(carry: nat)
    requires carry > 0
    ensures CarryBigits(carry) == 1 + CarryBigits(carry / BASE)
  {
  }

  lemma CarryFits(carry: nat)
    requires carry < TWO64
    ensures CarryBigits(carry) <= 2 && CarryBigits(0) == 0
  {
    assert carry / BASE < BASE && carry / BASE / BASE == 0;
  }

  // The two 64-bit sums of a 64-bit multiplication step.
  function LowProduct(x: nat, lower: nat, carry: nat): nat {
    x * lower + carry % BASE
  }

  function HighProduct(x: nat, upper: nat, low: nat, carry: nat): nat {
    x * upper + low / BASE + carry / BASE
  }

  lemma LargeStep(x: Bigit, value: nat, carry: nat)
    requires value < TWO64 && carry < TWO64
    ensures var r := LowProduct(x, value % BASE, carry);
            var c := HighProduct(x, value / BASE, r, carry);
            && r < TWO64 && c < TWO64
            && x * value + carry == r % BASE + BASE * c
            && (x != 0 && value != 0 ==> r % BASE != 0 || c != 0)
  {
    var lower, upper := value % BASE, value / BASE;
    var r := x * lower + carry % BASE;
    var c := x * upper + r / BASE + carry / BASE;
    ProductFits(x, lower, carry % BASE);
    MulOrder(upper, x, 0xffff_ffff);
    MulOrder(0xffff_ffff, upper, 0xffff_ffff);
    MulNested(x, value, lower, BASE, upper, x * BASE);
    MulAssociative(x, BASE, upper);
    MulAssociative(BASE, x, upper);
    assert x * value + carry == r % BASE + BASE * c;
    if value != 0 {
      NonzeroProduct(x, value);
    }
  }

  lemma ShiftedValue(was: Num, now: Num, shift: nat)
    requires Value(now.bits) == Exp(2, shift % 32) * Value(was.bits) && now.exp == was.exp + shift / 32
    ensures Val(now) == Val(was) * Exp(2, shift)
  {
    hide Value, Pow, Exp;
    var v, p, x, q := Value(was.bits), Pow(was.exp), Exp(2, shift % 32), Pow(shift / 32);
    PowAdd(was.exp, shift / 32);
    Exp2Split(shift);
    ProductOfFour(x, v, p, q);
  }

  lemma ProductOfFour(x: nat, v: nat, p: nat, q: nat)
    ensures (x * v) * (p * q) == (v * p) * (x * q)
  {
    MulAssociative(x, v, p * q);
    MulAssociative(v, p, q);
    MulAssociative(x, v * p, q);
    MulAssociative(v * p, x, q);
  }

  lemma AlignedValue(was: Num, now: Num, diff: nat)
    requires diff <= was.exp && now.exp == was.exp - diff && now.bits == seq(diff, _ => 0) + was.bits
    ensures Val(now) == Val(was)
  {
    hide Value, Pow;
    var zeros := seq(diff, _ => 0);
    ValueZeros(zeros);
    ValueConcat(zeros, was.bits);
    PowAdd(diff, now.exp);
    MulAssociative(Pow(diff), Value(was.bits), Pow(now.exp));
    MulAssociative(Value(was.bits), Pow(diff), Pow(now.exp));
  }

  lemma DiagonalStep(n: seq<nat>, i: nat, j: nat)
    requires i < |n| && j < |n|
    ensures Diagonal(n[i..], n, j) == n[i] * n[j] + Diagonal(n[i + 1..], n, j - 1)
  {
    assert n[i..][1..] == n[i + 1..];
  }

  lemma DiagonalEnds(n: seq<nat>, i: nat, j: int)
    requires i <= |n| && (j < 0 || i == |n|)
    ensures Diagonal(n[i..], n, j) == 0 && n[0..] == n
  {
  }

  // The inner loop of square for the low half.
  method AddLowDiagonal(n: seq<nat>, k: nat, sum: nat) returns (sum': nat)
    requires k < |n|
    ensures sum' == sum + Diagonal(n, n, k)
  {
    hide Diagonal;
    sum' := sum;
    var i, j: int := 0, k;
    DiagonalEnds(n, 0, -1);
    while j >= 0
      invariant 0 <= i && i + j == k && j >= -1
      invariant sum' + Diagonal(n[i..], n, j) == sum + Diagonal(n, n, k)
    {
      DiagonalStep(n, i, j);
      sum' := sum' + n[i] * n[j];
      i, j := i + 1, j - 1;
    }
    DiagonalEnds(n, i, j);
  }

  // The inner loop of square for the high half.
  method AddHighDiagonal(n: seq<nat>, k: nat, sum: nat) returns (sum': nat)
    requires |n| <= k < 2 * |n|
    ensures sum' == sum + Diagonal(n, n, k)
  {
    hide Diagonal;
    sum' := sum;
    var j: int := |n| - 1;
    var i := k - j;
    DiagonalSkips(n, n, k, i);
    while i < |n|
      invariant 0 <= i <= |n| && i + j == k && j < |n|
      invariant sum' + Diagonal(n[i..], n, j) == sum + Diagonal(n, n, k)
    {
      DiagonalStep(n, i, j);
      sum' := sum' + n[i] * n[j];
      i, j := i + 1, j - 1;
    }
    DiagonalEnds(n, i, j);
  }

  lemma SumFits(n: seq<Bigit>, k: int, before: nat, sum: nat)
    requires |n| <= BASE && before <= |n| * BASE && sum == before + Diagonal(n, n, k)
    ensures sum < TWO64 * TWO64 && sum / BASE <= |n| * BASE
  {
    DiagonalBound(n, n, k);
    assert sum <= |n| * TWO64;
    MulOrder(TWO64, |n|, BASE);
    DivUnique(|n| * TWO64, BASE, |n| * BASE, 0);
  }

  lemma SquareStep(s: seq<Bigit>, ds: seq<nat>, k: nat, before: nat, sum: nat)
    requires k < |s| == |ds| && sum == before + ds[k]
    requires Value(s[..k]) + Pow(k) * before == Value(ds[..k])
    ensures Value(s[k := sum % BASE][..k + 1]) + Pow(k + 1) * (sum / BASE) == Value(ds[..k + 1])
  {
    hide Value, Pow;
    var t := s[k := sum % BASE];
    assert t[..k] == s[..k];
    ValuePrefix(t, k);
    ValuePrefix(ds, k);
    PowNext(k);
    MulNested(Pow(k), sum, sum % BASE, BASE, sum / BASE, Pow(k + 1));
    MulDistributes(Pow(k), before, ds[k]);
  }

  lemma NoCarryLeft(n: seq<Bigit>, size: nat, value: nat, sum: nat)
    requires size == 2 * |n| && value + Pow(size) * sum == Value(n) * Value(n)
    ensures sum == 0
  {
    hide Value, Pow;
    ValueBound(n);
    PowAdd(|n|, |n|);
    MulOrder(Value(n), Value(n), Pow(|n|));
    var v, p := Value(n), Pow(|n|);
    MulOrder(p, v + 1, p);
    MulDistributes(p, v, 1);
    if sum > 0 {
      MulOrder(Pow(size), 1, sum);
    }
  }

  lemma SquareNotZero(was: Num, now: Num)
    requires TopNonzero(was) && Val(now) == Val(was) * Val(was)
    ensures now.bits != [0]
  {
    hide Pow;
    ValPositive(was);
    NonzeroProduct(Val(was), Val(was));
    if now.bits == [0] {
      ValueOne(0);
    }
  }

  lemma SquareValue(was: Num, now: Num)
    requires Value(now.bits) == Value(was.bits) * Value(was.bits) && now.exp == was.exp * 2
    ensures Val(now) == Val(was) * Val(was)
  {
    hide Value, Pow;
    var v, p := Value(was.bits), Pow(was.exp);
    PowAdd(was.exp, was.exp);
    ProductOfFour(v, v, p, p);
    MulAssociative(v, p, v * p);
  }

  /** compare(lhs, rhs). */
  method Compare(lhs: Bigint, rhs: Bigint) returns (r: int)
    ensures TopNonzero(rhs.View()) && Readable(lhs.View(), rhs.View()) ==> r == CompareResult(lhs.View(), rhs.View())
  {
    hide Value, Pow, Val, Above;
    ghost var a, b := lhs.View(), rhs.View();
    ghost var sane := TopNonzero(b) && Readable(a, b);
    var numLhsBigits, numRhsBigits := |lhs.bigits| + lhs.exp, |rhs.bigits| + rhs.exp;
    if numLhsBigits != numRhsBigits {
      SizesDecide(a, b);
      return if numLhsBigits > numRhsBigits then 1 else -1;
    }
    var i, j := |lhs.bigits| - 1, |rhs.bigits| - 1;
    var end := i - j;
    if end < 0 {
      end := 0;
    }
    AboveNothing(a, numLhsBigits);
    AboveNothing(b, numLhsBigits);
    while i >= end
      invariant end - 1 <= i < |lhs.bigits| && i - j == |lhs.bigits| - |rhs.bigits| && -1 <= j < |rhs.bigits|
      invariant Above(a, i + 1 + lhs.exp) == Above(b, j + 1 + rhs.exp)
    {
      var lhsBigit, rhsBigit := lhs.bigits[i], rhs.bigits[j];
      AboveStep(a, i + lhs.exp);
      AboveStep(b, j + rhs.exp);
      if lhsBigit != rhsBigit {
        AboveDecides(a, b, i + lhs.exp);
        return if lhsBigit > rhsBigit then 1 else -1;
      }
      i, j := i - 1, j - 1;
    }
    if i != j {
      RestDecides(a, b);
      return if i > j then 1 else -1;
    }
    RestDecides(a, b);
    return 0;
  }

  lemma SizesDecide(a: Num, b: Num)
    requires Size(a) != Size(b)
    ensures TopNonzero(b) && Readable(a, b) ==> CompareResult(a, b) == if Size(a) > Size(b) then 1 else -1
  {
    hide Value, Pow;
    ValBelow(a);
    ValBelow(b);
    if TopNonzero(b) && Readable(a, b) {
      if Size(a) > Size(b) {
        ValAtLeast(a);
        PowOrder(Size(b), Size(a) - 1);
      } else {
        ValAtLeast(b);
        PowOrder(Size(a), Size(b) - 1);
      }
    }
  }

  /** A difference at some position decides the comparison, whatever lies below. */
  lemma AboveDecides(a: Num, b: Num, k: nat)
    ensures Above(a, k) > Above(b, k) ==> Val(a) > Val(b)
    ensures Above(a, k) < Above(b, k) ==> Val(a) < Val(b)
  {
    hide Value, Pow, Above;
    AboveBounds(a, k);
    AboveBounds(b, k);
    if Above(a, k) > Above(b, k) {
      MulOrder(Pow(k), Above(b, k) + 1, Above(a, k));
    }
    if Above(a, k) < Above(b, k) {
      MulOrder(Pow(k), Above(a, k) + 1, Above(b, k));
    }
  }

  // The loop has found no difference: the shorter operand is used up.
  lemma RestDecides(a: Num, b: Num)
    requires Size(a) == Size(b)
    requires var k := if a.exp >= b.exp then a.exp else b.exp; Above(a, k) == Above(b, k)
    ensures CompareResult(a, b) == if |a.bits| > |b.bits| then 1 else if |a.bits| < |b.bits| then -1 else 0
  {
    hide Value, Pow, Above;
    var k := if a.exp >= b.exp then a.exp else b.exp;
    AboveBounds(a, k);
    AboveBounds(b, k);
    if a.exp == k {
      AboveExact(a, k);
    }
    if b.exp == k {
      AboveExact(b, k);
    }
  }

  lemma SubtractStep(was: seq<Bigit>, before: seq<Bigit>, now: seq<Bigit>, other: seq<Bigit>, off: nat, j: nat,
                     borrow: nat, borrow': nat)
    requires j < |other| && off + j < |was| == |before| == |now| && borrow <= 1 && borrow' <= 1
    requires before[off + j..] == was[off + j..] && now == before[off + j := now[off + j]]
    requires was[off + j] - other[j] - borrow == now[off + j] - BASE * borrow'
    requires Value(was[off..off + j]) + Borrowed(Pow(j), borrow) == Value(before[off..off + j]) + Value(other[..j])
    ensures Value(was[off..off + j + 1]) + Borrowed(Pow(j + 1), borrow') ==
            Value(now[off..off + j + 1]) + Value(other[..j + 1])
  {
    hide Value, Pow;
    var i := off + j;
    SliceGrows(was, off, i);
    SliceGrows(now, off, i);
    assert now[off..i] == before[off..i];
    ValuePrefix(other, j);
    BorrowArithmetic(j, was[i], other[j], now[i], borrow, borrow');
  }

  lemma BorrowArithmetic(j: nat, x: nat, y: nat, z: nat, borrow: nat, borrow': nat)
    requires x - y - borrow == z - BASE * borrow' && borrow <= 1 && borrow' <= 1
    ensures Pow(j) * x + Borrowed(Pow(j + 1), borrow') == Pow(j) * z + Pow(j) * y + Borrowed(Pow(j), borrow)
  {
    hide Pow;
    PowNext(j);
    var p := Pow(j);
    assert p * (x + BASE * borrow') == p * (z + y + borrow);
    MulDistributes(p, x, BASE * borrow');
    MulDistributes(p, z + y, borrow);
    MulDistributes(p, z, y);
    MulAssociative(p, BASE, 1);
  }

  lemma SubtractResult(was: seq<Bigit>, middle: seq<Bigit>, now: seq<Bigit>, other: seq<Bigit>, off: nat, b: nat)
    requires off + |other| <= |was| == |middle| == |now| && b <= 1
    requires middle[off + |other|..] == was[off + |other|..]
    requires Value(middle) == Value(was) - Pow(off) * Value(other) + Borrowed(Pow(off + |other|), b)
    requires b == 0 ==> now == middle
    requires b == 1 ==> var e := off + |other|;
                        e < |was| && now == middle[e := if middle[e] == 0 then BASE - 2 else middle[e] - 1]
    ensures Value(now) == Value(was) - Pow(off) * Value(other)
                          + (if b == 1 && was[off + |other|] == 0 then (BASE - 1) * Pow(off + |other|) else 0)
  {
    hide Value, Pow;
    var e := off + |other|;
    if b == 1 {
      assert middle[e] == middle[e..][0] == was[e];
      ValueUpdate(middle, e, now[e]);
      if was[e] == 0 {
        MulDistributes(Pow(e), BASE - 2, 1);
      } else {
        MulDistributes(Pow(e), was[e] - 1, 1);
      }
    }
  }

  lemma DifferenceValue(was: Num, now: Num, other: Num)
    requires was.exp == now.exp <= other.exp
    requires var off := other.exp - was.exp;
             off + |other.bits| <= |was.bits| &&
             Value(now.bits) == Value(was.bits) - Pow(off) * Value(other.bits)
                                + (if Stalls(was, other) then (BASE - 1) * Pow(off + |other.bits|) else 0)
    ensures Val(now) == Val(was) - Val(other) + (if Stalls(was, other) then (BASE - 1) * Pow(Size(other)) else 0)
  {
    hide Value, Pow;
    var off, p := other.exp - was.exp, Pow(was.exp);
    var extra := if Stalls(was, other) then (BASE - 1) * Pow(off + |other.bits|) else 0;
    ScaledBack(other, was.exp);
    MulDistributes(p, Value(was.bits), Pow(off) * Value(other.bits));
    MulDistributes(p, Value(was.bits) - Pow(off) * Value(other.bits), extra);
    MulAssociative(BASE - 1, Pow(off + |other.bits|), p);
    PowAdd(off + |other.bits|, was.exp);
  }

  // ---------- add_compare ----------

  function Sign(x: int): int {
    if x > 0 then 1 else if x < 0 then -1 else 0
  }

  lemma SumTooSmall(a: Num, b: Num, c: Num)
    requires TopNonzero(c) && Size(a) + 1 < Size(c) && Size(b) + 1 < Size(c)
    ensures Val(a) + Val(b) < Val(c)
  {
    hide Value, Pow, Val;
    ValBelow(a);
    ValBelow(b);
    ValAtLeast(c);
    PowOrder(Size(a), Size(c) - 2);
    PowOrder(Size(b), Size(c) - 2);
    PowOrder(Size(c) - 2, Size(c) - 1);
  }

  lemma TermTooBig(a: Num, c: Num)
    requires TopNonzero(a) && Size(a) > Size(c)
    ensures Val(a) > Val(c)
  {
    hide Value, Pow, Val;
    ValAtLeast(a);
    ValBelow(c);
    PowOrder(Size(c), Size(a) - 1);
  }

  /** From position k on, two terms already exceed c, or fall short of it by two or more: what lies below
      cannot change the order. */
  lemma SumDecided(a: Num, b: Num, c: Num, k: nat)
    ensures Above(a, k) + Above(b, k) > Above(c, k) ==> Val(a) + Val(b) > Val(c)
    ensures Above(a, k) + Above(b, k) + 2 <= Above(c, k) ==> Val(a) + Val(b) < Val(c)
  {
    hide Value, Pow, Val, Above;
    AboveBounds(a, k);
    AboveBounds(b, k);
    AboveBounds(c, k);
    SumBounds(Pow(k), Above(a, k), Above(b, k), Above(c, k));
  }

  lemma SumBounds(p: nat, x: nat, y: nat, z: nat)
    ensures p * x + p * y == p * (x + y) && p * (x + 1) + p * (y + 1) == p * (x + y + 2)
    ensures x + y > z ==> p * (z + 1) <= p * (x + y)
    ensures x + y + 2 <= z ==> p * (x + y + 2) <= p * z
  {
    MulDistributes(p, x, y);
    MulDistributes(p, x + 1, y + 1);
    if x + y > z {
      MulOrder(p, z + 1, x + y);
    }
    if x + y + 2 <= z {
      MulOrder(p, x + y + 2, z);
    }
  }

  // With nothing left below position k the remaining difference is the whole answer.
  lemma SumExact(a: Num, b: Num, c: Num, k: nat, d: int)
    requires k <= a.exp && k <= b.exp && k <= c.exp
    requires d == Above(c, k) - Above(a, k) - Above(b, k)
    ensures d == 0 ==> Val(a) + Val(b) == Val(c)
    ensures d > 0 ==> Val(a) + Val(b) < Val(c)
  {
    hide Value, Pow, Val, Above;
    AboveExact(a, k);
    AboveExact(b, k);
    AboveExact(c, k);
    var p := Pow(k);
    MulDistributes(p, Above(a, k), Above(b, k));
    if d > 0 {
      MulOrder(p, Above(a, k) + Above(b, k) + 1, Above(c, k));
      MulDistributes(p, Above(a, k) + Above(b, k), 1);
    } else if d == 0 {
      assert Above(a, k) + Above(b, k) == Above(c, k);
    }
  }

  /** add_compare(lhs1, lhs2, rhs): the sign of lhs1 + lhs2 - rhs, in spite of its early exits. */
  method AddCompare(lhs1: Bigint, lhs2: Bigint, rhs: Bigint) returns (r: int)
    ensures TopNonzero(rhs.View()) && Readable(lhs1.View(), rhs.View()) && Readable(lhs2.View(), rhs.View()) ==>
              r == Sign(Val(lhs1.View()) + Val(lhs2.View()) - Val(rhs.View()))
  {
    hide Value, Pow, Val, Above, TopNonzero;
    ghost var a, b, c := lhs1.View(), lhs2.View(), rhs.View();
    ghost var sane := TopNonzero(c) && Readable(a, c) && Readable(b, c);
    var maxLhsBigits := if Size(lhs1.View()) >= Size(lhs2.View()) then Size(lhs1.View()) else Size(lhs2.View());
    var numRhsBigits := Size(rhs.View());
    if maxLhsBigits + 1 < numRhsBigits {
      if sane {
        SumTooSmall(a, b, c);
      }
      return -1;
    }
    if maxLhsBigits > numRhsBigits {
      if sane {
        TermTooBig(if Size(a) >= Size(b) then a else b, c);
      }
      return 1;
    }
    var borrow := 0;
    var minExp := if lhs1.exp <= lhs2.exp then lhs1.exp else lhs2.exp;
    if rhs.exp < minExp {
      minExp := rhs.exp;
    }
    AboveNothing(a, numRhsBigits);
    AboveNothing(b, numRhsBigits);
    AboveNothing(c, numRhsBigits);
    var i := (numRhsBigits as int) - 1;
    while i >= minExp
      invariant minExp - 1 <= i < numRhsBigits && borrow in {0, BASE}
      invariant borrow == BASE * (Above(c, i + 1) - Above(a, i + 1) - Above(b, i + 1))
    {
      var sum := Digit(lhs1.View(), i) + Digit(lhs2.View(), i);
      var rhsBigit := Digit(rhs.View(), i);
      AboveStep(a, i);
      AboveStep(b, i);
      AboveStep(c, i);
      assert rhsBigit + borrow - sum == Above(c, i) - Above(a, i) - Above(b, i);
      SumDecided(a, b, c, i);
      if sum > rhsBigit + borrow {
        return 1;
      }
      borrow := rhsBigit + borrow - sum;
      if borrow > 1 {
        return -1;
      }
      borrow := borrow * BASE;
      i := i - 1;
    }
    SumExact(a, b, c, minExp, Above(c, minExp) - Above(a, minExp) - Above(b, minExp));
    return if borrow != 0 then -1 else 0;
  }
}
