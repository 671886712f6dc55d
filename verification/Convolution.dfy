/** The product of two digit sequences, diagonal by diagonal. */
module Convolution {
  import opened Bignum

  function At(s: seq<nat>, i: int): nat {
    if 0 <= i < |s| then s[i] else 0
  }

  /** The cross products a[i] * b[j] with i + j == k, added up. */
  function Diagonal(a: seq<nat>, b: seq<nat>, k: int): nat {
    if a == [] || k < 0 then 0 else a[0] * At(b, k) + Diagonal(a[1..], b, k - 1)
  }

  function Diagonals(a: seq<nat>, b: seq<nat>, n: nat): seq<nat> {
    seq(n, k requires 0 <= k < n => Diagonal(a, b, k))
  }

  lemma {:induction false} ValueOfSum(s: seq<nat>, t: seq<nat>, u: seq<nat>)
    requires |s| == |t| == |u| && forall i :: 0 <= i < |u| ==> u[i] == s[i] + t[i]
    ensures Value(u) == Value(s) + Value(t)
  {
    if u != [] {
      ValueOfSum(s[1..], t[1..], u[1..]);
    }
  }

  lemma {:induction false} ValueOfScaled(x: nat, s: seq<nat>, u: seq<nat>)
    requires |s| == |u| && forall i :: 0 <= i < |u| ==> u[i] == x * s[i]
    ensures Value(u) == x * Value(s)
  {
    if u == [] {
      assert x * 0 == 0;
    } else {
      ValueOfScaled(x, s[1..], u[1..]);
      MulNested(x, Value(s), s[0], BASE, Value(s[1..]), x * BASE);
      MulAssociative(x, BASE, Value(s[1..]));
      MulAssociative(BASE, x, Value(s[1..]));
    }
  }

  lemma ValueOfPadded(s: seq<nat>, n: nat)
    requires |s| <= n
    ensures Value(seq(n, i requires 0 <= i < n => At(s, i))) == Value(s)
  {
    var u := seq(n, i requires 0 <= i < n => At(s, i));
    assert u[..|s|] == s;
    ValueSplit(u, |s|);
    ValueZeros(u[|s|..]);
  }

  lemma DiagonalsOfCons(a: seq<nat>, b: seq<nat>, n: nat)
    requires a != [] && n > 0
    ensures var first := seq(n, k requires 0 <= k < n => a[0] * At(b, k));
            Value(Diagonals(a, b, n)) == Value(first) + BASE * Value(Diagonals(a[1..], b, n - 1))
  {
    var first := seq(n, k requires 0 <= k < n => a[0] * At(b, k));
    var rest := [0] + Diagonals(a[1..], b, n - 1);
    forall k | 0 <= k < n ensures Diagonals(a, b, n)[k] == first[k] + rest[k] {
      assert rest[k] == Diagonal(a[1..], b, k - 1);
    }
    ValueOfSum(first, rest, Diagonals(a, b, n));
    assert rest[1..] == Diagonals(a[1..], b, n - 1);
  }

  /** The diagonals add up, each at its own place, to the product. */
  lemma {:induction false} DiagonalsAreProduct(a: seq<nat>, b: seq<nat>, n: nat)
    requires n >= |a| + |b|
    ensures Value(Diagonals(a, b, n)) == Value(a) * Value(b)
  {
    if a == [] {
      ValueZeros(Diagonals(a, b, n));
    } else {
      var padded := seq(n, k requires 0 <= k < n => At(b, k));
      var first := seq(n, k requires 0 <= k < n => a[0] * At(b, k));
      ValueOfPadded(b, n);
      ValueOfScaled(a[0], padded, first);
      DiagonalsOfCons(a, b, n);
      DiagonalsAreProduct(a[1..], b, n - 1);
      MulDistributes(Value(b), a[0], BASE * Value(a[1..]));
      MulAssociative(BASE, Value(a[1..]), Value(b));
      MulAssociative(Value(b), a[0], 1);
    }
  }

  /** Terms whose second index is past the end vanish: the inner loop may start further in. */
  lemma {:induction false} DiagonalSkips(a: seq<nat>, b: seq<nat>, k: int, i: nat)
    requires i <= |a| && k - i + 1 >= |b|
    ensures Diagonal(a, b, k) == Diagonal(a[i..], b, k - i)
  {
    if i > 0 {
      DiagonalSkips(a[1..], b, k - 1, i - 1);
      assert a[1..][i - 1..] == a[i..];
    }
  }

  lemma {:induction false} DiagonalBound(a: seq<Bigit>, b: seq<Bigit>, k: int)
    ensures Diagonal(a, b, k) <= |a| * (0xffff_ffff * 0xffff_ffff)
  {
    if a != [] && k >= 0 {
      DiagonalBound(a[1..], b, k - 1);
      MulOrder(a[0], At(b, k), 0xffff_ffff);
      MulOrder(0xffff_ffff, a[0], 0xffff_ffff);
    }
  }
}
