/** pkg/xcommon/math.go: division that returns 0 instead of panicking on a
    zero divisor, with Go's integer-division semantics. */
module XCommonMath {

  function Pow2(bits: nat): (p: nat)
    ensures p >= 1
  {
    if bits == 0 then 1 else 2 * Pow2(bits - 1)
  }

  /** The most negative value of a Go signed integer type of the given width. */
  function MinSigned(bits: nat): (m: int)
    requires bits > 0
    ensures m < 0
  {
    0 - Pow2(bits - 1)
  }

  /** The values of a Go signed integer type of the given width. */
  predicate InSigned(x: int, bits: nat)
    requires bits > 0
  {
    MinSigned(bits) <= x < Pow2(bits - 1)
  }

  /** Euclidean quotient and remainder of naturals, as facts the solver
      does not find alone. */
  lemma NatDivMod(a: nat, b: nat)
    requires b > 0
    ensures a == b * (a / b) + a % b && 0 <= a % b < b
    ensures 0 <= a / b <= a
    ensures a < b * (a / b + 1)
  {
    var q, m := a / b, a % b;
    assert a == b * q + m;
    MulAtLeast(b, q);
    assert b * (q + 1) == b * q + b;
  }

  lemma MulAtLeast(b: int, q: int)
    requires b >= 1 && q >= 0
    ensures b * q >= q
  {
    var k := b - 1;
    assert b * q == k * q + q;
  }

  function Abs(x: int): nat { if x < 0 then -x else x }

  /** Go's `/` on integers: the quotient truncated toward zero.
      Dafny's own `/` is Euclidean and differs when an operand is negative. */
  function TruncDiv(a: int, b: int): (q: int)
    requires b != 0
  {
    if (a < 0) == (b < 0) then Abs(a) / Abs(b) else -(Abs(a) / Abs(b))
  }

  /** Go's remainder matching TruncDiv: it has the sign of the dividend. */
  function TruncRem(a: int, b: int): (r: int)
    requires b != 0
  {
    a - b * TruncDiv(a, b)
  }

  lemma TruncDivSpec(a: int, b: int)
    requires b != 0
    ensures a == b * TruncDiv(a, b) + TruncRem(a, b)
    ensures Abs(TruncRem(a, b)) < Abs(b)
    ensures TruncRem(a, b) == 0 || (TruncRem(a, b) < 0 <==> a < 0)
    ensures Abs(TruncDiv(a, b)) <= Abs(a)
  {
    var A: int, B: int := Abs(a), Abs(b);
    var q: int, m: int := A / B, A % B;
    NatDivMod(A, B);
    var p: int := B * q;
    if a < 0 && b < 0 {
      assert TruncDiv(a, b) == q;
      assert b * q == -p;
      assert TruncRem(a, b) == -m;
    } else if a < 0 {
      assert TruncDiv(a, b) == -q;
      assert b * -q == -p;
      assert TruncRem(a, b) == -m;
    } else if b < 0 {
      assert TruncDiv(a, b) == -q;
      assert b * -q == p;
      assert TruncRem(a, b) == m;
    } else {
      assert TruncDiv(a, b) == q;
      assert b * q == p;
      assert TruncRem(a, b) == m;
    }
  }

  /** SafeDivision instantiated at a signed type of `bits` bits
      (int16, int32, int64, and int, which is 64 bits wide). */
  function SafeDivisionSigned(a: int, b: int, bits: nat): (r: int)
    requires bits > 0 && InSigned(a, bits) && InSigned(b, bits)
    ensures InSigned(r, bits)
    ensures b == 0 ==> r == 0
    ensures b != 0 && !(a == MinSigned(bits) && b == -1) ==>
              a == b * r + TruncRem(a, b) && Abs(TruncRem(a, b)) < Abs(b) &&
              (TruncRem(a, b) == 0 || (TruncRem(a, b) < 0 <==> a < 0))
    ensures a == MinSigned(bits) && b == -1 ==> r == a
  {
    if b == 0 then 0
    else if a == MinSigned(bits) && b == -1 then
      // two's-complement overflow: Go defines the quotient to be the dividend
      a
    else
      TruncDivSpec(a, b);
      TruncDivInRange(a, b, bits);
      TruncDiv(a, b)
  }

  /** Only MinSigned / -1 leaves the signed range. */
  lemma TruncDivInRange(a: int, b: int, bits: nat)
    requires bits > 0 && InSigned(a, bits) && InSigned(b, bits) && b != 0
    requires !(a == MinSigned(bits) && b == -1)
    ensures InSigned(TruncDiv(a, b), bits)
  {
    var A: int, B: int := Abs(a), Abs(b);
    var q: int := A / B;
    var P: int := Pow2(bits - 1);
    NatDivMod(A, B);
    assert A <= P;
    if B >= 2 {
      MulAtLeast(B - 1, q);
      assert B * q == (B - 1) * q + q;
      assert 2 * q <= A;
      assert q < P;
    } else {
      assert B == 1;
      assert q == A;
      assert b == -1 ==> a != -P;
    }
  }

  /** SafeDivision instantiated at an unsigned type (uint16, uint32, uint64):
      Go's quotient floors, and never exceeds the dividend. */
  function SafeDivisionUnsigned(a: nat, b: nat): (r: nat)
    ensures r <= a
    ensures b == 0 ==> r == 0
    ensures b != 0 ==> b * r <= a < b * (r + 1)
  {
    if b == 0 then 0
    else
      NatDivMod(a, b);
      a / b
  }

  /** The signed quotient truncates: -7 / 2 is -3 in Go, where Dafny's
      Euclidean division gives -4. */
  lemma SignedDivisionTruncates()
    ensures SafeDivisionSigned(-7, 2, 64) == -3
    ensures -7 / 2 == -4
    ensures SafeDivisionSigned(7, -2, 64) == -3
    ensures SafeDivisionSigned(-7, -2, 64) == 3
  {
    assert Pow2(63) > 8 by {
      Pow2Grows(63);
    }
  }

  lemma {:induction false} Pow2Grows(n: nat)
    ensures Pow2(n) >= n + 1
  {
    if n > 0 {
      Pow2Grows(n - 1);
    }
  }

  /** On non-negative operands the two divisions agree. */
  lemma SignedMatchesEuclideanOnNonNegatives(a: int, b: int, bits: nat)
    requires bits > 0 && InSigned(a, bits) && InSigned(b, bits)
    requires a >= 0 && b > 0
    ensures SafeDivisionSigned(a, b, bits) == a / b
  {
  }
}
