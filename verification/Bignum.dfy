/** Numbers as sequences of base-2^32 digits ("bigits"), least significant first, and the facts about their
    values that the in-place routines of class bigint rest on. */
module Bignum {

  const BASE: nat := 0x1_0000_0000

  type Bigit = x: nat | x < BASE

  // ---------- Powers of the base ----------

  function Pow(n: nat): (p: nat)
    ensures p >= 1
  {
    if n == 0 then 1 else BASE * Pow(n - 1)
  }

  function Lesser(x: int, y: int): int {
    if x <= y then x else y
  }

  function Larger(x: int, y: int): int {
    if x >= y then x else y
  }

  lemma PowNext(n: nat)
    ensures Pow(n + 1) == BASE * Pow(n) && Pow(0) == 1
  {
  }

  lemma MulAssociative(x: int, y: int, z: int)
    ensures x * y * z == x * (y * z) && x * y == y * x
  {
  }

  lemma MulDistributes(x: int, y: int, z: int)
    ensures x * (y + z) == x * y + x * z && (y + z) * x == y * x + z * x
    ensures x * (y - z) == x * y - x * z
  {
  }

  lemma MulNested(p: int, v: int, x: int, r: int, y: int, q: int)
    requires q == p * r && v == x + r * y
    ensures p * v == p * x + q * y
  {
    MulDistributes(p, x, r * y);
    MulAssociative(p, r, y);
  }

  lemma MulOrder(x: nat, y: int, z: int)
    requires y <= z
    ensures x * y <= x * z && y * x <= z * x
  {
  }

  lemma {:induction false} PowAdd(m: nat, n: nat)
    ensures Pow(m + n) == Pow(m) * Pow(n)
  {
    if m > 0 {
      PowAdd(m - 1, n);
      MulAssociative(BASE, Pow(m - 1), Pow(n));
    }
  }

  lemma PowOrder(m: nat, n: nat)
    requires m <= n
    ensures Pow(m) <= Pow(n)
    ensures m < n ==> BASE * Pow(m) <= Pow(n)
  {
    PowAdd(m, n - m);
    MulOrder(Pow(m), 1, Pow(n - m));
    if m < n {
      PowAdd(m + 1, n - m - 1);
      MulOrder(Pow(m + 1), 1, Pow(n - m - 1));
    }
  }

  // ---------- Values ----------

  function Value(s: seq<nat>): nat {
    if s == [] then 0 else s[0] + BASE * Value(s[1..])
  }

  lemma {:induction false} ValueConcat(a: seq<nat>, b: seq<nat>)
    ensures Value(a + b) == Value(a) + Pow(|a|) * Value(b)
  {
    if a == [] {
      assert a + b == b;
    } else {
      assert (a + b)[0] == a[0] && (a + b)[1..] == a[1..] + b;
      ValueConcat(a[1..], b);
      MulDistributes(BASE, Value(a[1..]), Pow(|a| - 1) * Value(b));
      MulAssociative(BASE, Pow(|a| - 1), Value(b));
    }
  }

  lemma ValueSplit(s: seq<nat>, i: nat)
    requires i <= |s|
    ensures Value(s) == Value(s[..i]) + Pow(i) * Value(s[i..])
  {
    assert s == s[..i] + s[i..];
    ValueConcat(s[..i], s[i..]);
  }

  lemma ValueEmpty()
    ensures Value([]) == 0
  {
  }

  lemma ValueOne(x: nat)
    ensures Value([x]) == x
  {
    assert [x][1..] == [];
  }

  lemma ValuePush(s: seq<nat>, x: nat)
    ensures Value(s + [x]) == Value(s) + Pow(|s|) * x
  {
    ValueConcat(s, [x]);
    ValueOne(x);
  }

  // The prefix of a sequence grows by one digit.
  lemma ValuePrefix(s: seq<nat>, i: nat)
    requires i < |s|
    ensures Value(s[..i + 1]) == Value(s[..i]) + Pow(i) * s[i]
  {
    assert s[..i + 1] == s[..i] + [s[i]];
    ValuePush(s[..i], s[i]);
  }

  lemma {:induction false} ValueBound(s: seq<Bigit>)
    ensures Value(s) < Pow(|s|)
  {
    if s != [] {
      ValueBound(s[1..]);
      assert Value(s) < BASE + BASE * (Pow(|s| - 1) - 1);
    }
  }

  lemma {:induction false} ValueZeros(s: seq<nat>)
    requires forall i :: 0 <= i < |s| ==> s[i] == 0
    ensures Value(s) == 0
  {
    if s != [] {
      ValueZeros(s[1..]);
    }
  }

  lemma {:induction false} ZeroValueZeros(s: seq<nat>)
    requires Value(s) == 0
    ensures forall i :: 0 <= i < |s| ==> s[i] == 0
  {
    if s != [] {
      ZeroValueZeros(s[1..]);
      assert forall i :: 0 < i < |s| ==> s[i] == s[1..][i - 1];
    }
  }

  /** A non-zero top digit makes the value at least its place. */
  lemma ValueTop(s: seq<nat>)
    requires s != [] && s[|s| - 1] != 0
    ensures Value(s) >= Pow(|s| - 1)
  {
    var n := |s| - 1;
    ValuePrefix(s, n);
    assert s[..n + 1] == s;
    MulOrder(Pow(n), 1, s[n]);
  }

  // ---------- Numbers with an exponent ----------

  /** bigits times BASE to the power exp. */
  datatype Num = Num(bits: seq<Bigit>, exp: nat)

  function Val(a: Num): nat {
    Value(a.bits) * Pow(a.exp)
  }

  // num_bigits()
  function Size(a: Num): nat {
    |a.bits| + a.exp
  }

  predicate TopNonzero(a: Num) {
    a.bits != [] && a.bits[|a.bits| - 1] != 0
  }

  /** The condition under which compare and add_compare may read a beside b: its top bigit is non-zero, or it
      is no longer than b. */
  predicate Readable(a: Num, b: Num) {
    TopNonzero(a) || Size(a) <= Size(b)
  }

  lemma ValBelow(a: Num)
    ensures Val(a) < Pow(Size(a))
  {
    ValueBound(a.bits);
    PowAdd(|a.bits|, a.exp);
    MulOrder(Pow(a.exp), Value(a.bits) + 1, Pow(|a.bits|));
    MulDistributes(Pow(a.exp), Value(a.bits), 1);
  }

  lemma ValAtLeast(a: Num)
    requires TopNonzero(a)
    ensures Val(a) >= Pow(Size(a) - 1)
  {
    ValueTop(a.bits);
    PowAdd(|a.bits| - 1, a.exp);
    MulOrder(Pow(a.exp), Pow(|a.bits| - 1), Value(a.bits));
  }

  // The digit at position k, counted from the units: get_bigit.
  function Digit(a: Num, k: nat): Bigit {
    if a.exp <= k < Size(a) then a.bits[k - a.exp] else 0
  }

  /** What is left of a from position k on: Val(a) divided by Pow(k). */
  function Above(a: Num, k: nat): nat {
    if k <= a.exp then Value(a.bits) * Pow(a.exp - k)
    else if k <= Size(a) then Value(a.bits[k - a.exp..])
    else 0
  }

  lemma AboveStep(a: Num, k: nat)
    ensures Above(a, k) == Digit(a, k) + BASE * Above(a, k + 1)
  {
    if k < a.exp {
      MulAssociative(Value(a.bits), BASE, Pow(a.exp - k - 1));
      MulAssociative(BASE, Value(a.bits), Pow(a.exp - k - 1));
      assert Pow(a.exp - k) == BASE * Pow(a.exp - (k + 1));
    } else if k < Size(a) {
      var rest := a.bits[k - a.exp..];
      assert rest[1..] == a.bits[k + 1 - a.exp..];
      if k == a.exp {
        assert rest == a.bits;
      }
    } else if k == Size(a) {
      assert a.bits[k - a.exp..] == [];
    }
  }

  lemma AboveNothing(a: Num, k: nat)
    requires Size(a) <= k
    ensures Above(a, k) == 0
  {
    if k <= a.exp {
      assert a.bits == [];
    } else if k == Size(a) {
      assert a.bits[k - a.exp..] == [];
    }
  }

  lemma AboveExact(a: Num, k: nat)
    requires k <= a.exp
    ensures Val(a) == Pow(k) * Above(a, k)
  {
    PowAdd(k, a.exp - k);
    MulAssociative(Value(a.bits), Pow(k), Pow(a.exp - k));
    MulAssociative(Pow(k), Value(a.bits), Pow(a.exp - k));
    MulAssociative(Value(a.bits), Pow(a.exp - k), Pow(k));
  }

  lemma {:induction false} AboveBounds(a: Num, k: nat)
    ensures Pow(k) * Above(a, k) <= Val(a) < Pow(k) * (Above(a, k) + 1)
  {
    if k <= a.exp {
      AboveExact(a, k);
      MulDistributes(Pow(k), Above(a, k), 1);
    } else {
      AboveBounds(a, k - 1);
      AboveStep(a, k - 1);
      var p, d, h := Pow(k - 1), Digit(a, k - 1), Above(a, k);
      MulDistributes(p, d, BASE * h);
      MulOrder(p, d + 1 + BASE * h, BASE * (h + 1));
      MulAssociative(p, BASE, h);
      MulAssociative(p, BASE, h + 1);
      MulOrder(p, BASE * h, d + BASE * h);
    }
  }
}
