/** Decimal digit sequences, most significant first, and what rounding to them means. */
module Digits {
  import opened Bignum
  import opened Powers

  function DigitsValue(ds: seq<nat>): nat {
    if ds == [] then 0 else 10 * DigitsValue(ds[..|ds| - 1]) + ds[|ds| - 1]
  }

  predicate IsDecimal(ds: seq<nat>) {
    forall i :: 0 <= i < |ds| ==> ds[i] <= 9
  }

  lemma DigitsPush(ds: seq<nat>, d: nat)
    ensures DigitsValue(ds + [d]) == 10 * DigitsValue(ds) + d
  {
    assert (ds + [d])[..|ds|] == ds;
  }

  /** Rounding a / b to an integer, ties to even. */
  function RoundHalfEven(a: nat, b: nat): nat
    requires b > 0
  {
    var q, r := a / b, a % b;
    if 2 * r > b || (2 * r == b && q % 2 == 1) then q + 1 else q
  }

  function Distance(x: int, y: int): nat {
    if x >= y then x - y else y - x
  }

  /** RoundHalfEven is the nearest integer, and of two nearest ones the even one. */
  lemma RoundHalfEvenIsNearest(a: nat, b: nat, x: int)
    requires b > 0
    ensures var n := RoundHalfEven(a, b);
            && Distance(a, n * b) <= Distance(a, x * b)
            && (x != n && Distance(a, n * b) == Distance(a, x * b) ==> n % 2 == 0)
  {
    var q, r := a / b, a % b;
    assert a == b * q + r;
    MulAssociative(b, q, 1);
    MulDistributes(b, q, 1);
    if x <= q {
      MulDistributes(b, q, x);
      if x < q {
        MulDistributes(b, q - x, 1);
        NonNegativeProduct(b, q - x - 1);
        MulDistributes(b, q - x - 1, 1);
      }
    } else {
      MulDistributes(b, x, q);
      NonNegativeProduct(b, x - q - 1);
      MulDistributes(b, x - q - 1, 1);
    }
  }

  lemma NonNegativeProduct(x: nat, y: int)
    requires y >= 0
    ensures x * y >= 0
  {
  }

  // ---------- The carry of the last digit ----------

  lemma {:induction false} DigitsCarry(ds: seq<nat>, i: nat)
    requires 0 < i < |ds| && ds[i] == 10
    ensures DigitsValue(ds[i := 0][i - 1 := ds[i - 1] + 1]) == DigitsValue(ds)
  {
    var n := |ds| - 1;
    var t := ds[i := 0][i - 1 := ds[i - 1] + 1];
    if i < n {
      DigitsCarry(ds[..n], i);
      assert t[..n] == ds[..n][i := 0][i - 1 := ds[..n][i - 1] + 1];
    } else {
      assert t[..n][..n - 1] == ds[..n][..n - 1];
    }
  }

  lemma {:induction false} LeadingDigit(ds: seq<nat>)
    requires ds != [] && forall i :: 0 < i < |ds| ==> ds[i] == 0
    ensures DigitsValue(ds) == ds[0] * Exp(10, |ds| - 1)
  {
    var n := |ds| - 1;
    if n == 0 {
      assert ds[..0] == [];
    } else {
      LeadingDigit(ds[..n]);
      MulAssociative(ds[0], 10, Exp(10, n - 1));
      MulAssociative(10, ds[0], Exp(10, n - 1));
    }
  }

  /** The carry loop of the fixed-precision branch: a last digit that became ten is carried up; if it reaches
      the first digit that one becomes 1 and the decimal exponent grows by one. */
  method PropagateCarry(ds: seq<nat>) returns (buf: seq<nat>, bump: nat)
    requires ds != [] && IsDecimal(ds[..|ds| - 1]) && ds[|ds| - 1] == 10
    ensures |buf| == |ds| && IsDecimal(buf) && bump <= 1
    ensures DigitsValue(buf) * (if bump == 1 then 10 else 1) == DigitsValue(ds)
  {
    hide DigitsValue, Exp;
    buf := ds;
    bump := 0;
    var i := |ds| - 1;
    while i > 0 && buf[i] == 10
      invariant 0 <= i < |ds| == |buf|
      invariant DigitsValue(buf) == DigitsValue(ds) && buf[i] <= 10
      invariant forall k :: 0 <= k < i ==> buf[k] <= 9
      invariant forall k :: i < k < |ds| ==> buf[k] == 0
    {
      DigitsCarry(buf, i);
      buf := buf[i := 0][i - 1 := buf[i - 1] + 1];
      i := i - 1;
    }
    if buf[0] == 10 {
      LeadingDigit(buf);
      buf := buf[0 := 1];
      LeadingDigit(buf);
      bump := 1;
    }
  }
}
