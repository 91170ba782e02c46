/**
 * Java's integer and float-to-int arithmetic, stated over Dafny's unbounded
 * `int` and `real`.  Dafny's `/` is Euclidean; Java's `/` on `int` and its
 * `(int)` cast of a `float` both round toward zero (sections 15.17.2 and
 * 5.1.3 of the Java Language Specification).
 */
module JavaNum {

  function Abs(x: int): nat
  {
    if x < 0 then -x else x
  }

  function RealAbs(x: real): real
  {
    if x < 0.0 then -x else x
  }

  /** `Math.signum` on a float: -1, 0 or +1. */
  function Signum(x: real): real
  {
    if x > 0.0 then 1.0 else if x < 0.0 then -1.0 else 0.0
  }

  /** Java's `a / b` on `int`: the quotient rounded toward zero. */
  function JavaDiv(a: int, b: int): int
    requires b != 0
  {
    if (a < 0) == (b < 0) then Abs(a) / Abs(b) else -(Abs(a) / Abs(b))
  }

  /** The remainder a Java quotient leaves: smaller than the divisor and of the dividend's sign. */
  ghost predicate IsJavaQuotient(a: int, b: int, q: int)
    requires b != 0
  {
    var r := a - q * b;
    Abs(r) < Abs(b) && (r == 0 || (r < 0 <==> a < 0))
  }

  lemma NegMul(x: int, y: int)
    ensures (-x) * y == -(x * y) && x * (-y) == -(x * y)
  {
  }

  /** JavaDiv meets the Java Language Specification's definition of integer division. */
  lemma JavaDivIsJavaQuotient(a: int, b: int)
    requires b != 0
    ensures IsJavaQuotient(a, b, JavaDiv(a, b))
  {
    var q0, r0 := Abs(a) / Abs(b), Abs(a) % Abs(b);
    EuclidOnAbs(Abs(a), Abs(b));
    if (a < 0) == (b < 0) {
      RemainderOfSameSigns(a, b, q0, r0);
    } else {
      RemainderOfMixedSigns(a, b, q0, r0);
    }
  }

  lemma EuclidOnAbs(n: nat, d: nat)
    requires d > 0
    ensures n == (n / d) * d + n % d && 0 <= n % d < d
  {
  }

  lemma RemainderOfSameSigns(a: int, b: int, q0: int, r0: int)
    requires b != 0 && (a < 0) == (b < 0)
    requires Abs(a) == q0 * Abs(b) + r0 && 0 <= r0 < Abs(b)
    ensures a - q0 * b == (if a < 0 then -r0 else r0)
  {
    if a < 0 {
      NegMul(q0, b);
      assert q0 * Abs(b) == -(q0 * b);
    }
  }

  lemma RemainderOfMixedSigns(a: int, b: int, q0: int, r0: int)
    requires b != 0 && (a < 0) != (b < 0)
    requires Abs(a) == q0 * Abs(b) + r0 && 0 <= r0 < Abs(b)
    ensures a - (-q0) * b == (if a < 0 then -r0 else r0)
  {
    NegMul(q0, b);
    if a < 0 {
      assert q0 * Abs(b) == q0 * b;
    } else {
      assert q0 * Abs(b) == -(q0 * b);
    }
  }

  lemma MulMonotone(x: int, y: int, k: int)
    ensures x <= y && k >= 0 ==> x * k <= y * k
  {
  }

  lemma AbsMul(d: int, b: int)
    ensures Abs(d * b) == Abs(d) * Abs(b)
  {
    NegMul(d, b);
    NegMul(-d, b);
    if d < 0 && b < 0 {
      assert d * b == (-d) * (-b);
    }
  }

  lemma MulAtLeastDivisor(d: int, b: int)
    ensures d != 0 && b != 0 ==> Abs(d * b) >= Abs(b)
  {
    AbsMul(d, b);
    MulMonotone(1, Abs(d), Abs(b));
  }

  /** Two remainders of the same dividend's sign, each smaller than |b|, are less than |b| apart. */
  lemma RemaindersClose(a: int, b: int, r: int, r': int)
    requires Abs(r) < Abs(b) && (r == 0 || (r < 0 <==> a < 0))
    requires Abs(r') < Abs(b) && (r' == 0 || (r' < 0 <==> a < 0))
    ensures Abs(r' - r) < Abs(b)
  {
  }

  lemma ProductDifference(q: int, q': int, b: int)
    ensures q * b - q' * b == (q - q') * b
  {
  }

  /** That definition admits exactly one quotient, so JavaDiv is the only function meeting it. */
  lemma JavaQuotientUnique(a: int, b: int, q: int)
    requires b != 0
    requires IsJavaQuotient(a, b, q)
    ensures q == JavaDiv(a, b)
  {
    JavaDivIsJavaQuotient(a, b);
    var q' := JavaDiv(a, b);
    // the two remainders share a sign and are each smaller than |b|,
    // yet unless the quotients agree they differ by a non-zero multiple of b
    RemaindersClose(a, b, a - q * b, a - q' * b);
    ProductDifference(q, q', b);
    MulAtLeastDivisor(q - q', b);
  }

  /** On a non-negative dividend and a positive divisor Java and Dafny divide alike. */
  lemma JavaDivNonNegative(a: int, b: int)
    requires a >= 0 && b > 0
    ensures JavaDiv(a, b) == a / b
  {
  }

  lemma DivMonotone(x: nat, y: nat, b: int)
    requires b > 0 && x <= y
    ensures x / b <= y / b
  {
    var qx, qy := x / b, y / b;
    assert qx * b <= x;
    assert y < (qy + 1) * b;
    MulMonotone(qy + 1, qx, b);
  }

  /** Java's integer division is monotone in the dividend for a fixed positive divisor. */
  lemma JavaDivMonotone(a: int, a': int, b: int)
    requires b > 0 && a <= a'
    ensures JavaDiv(a, b) <= JavaDiv(a', b)
  {
    if a >= 0 {
      JavaDivNonNegative(a, b);
      JavaDivNonNegative(a', b);
      DivMonotone(a, a', b);
    } else if a' < 0 {
      JavaDivNegative(a, b);
      JavaDivNegative(a', b);
      DivMonotone(-a', -a, b);
    } else {
      JavaDivNegative(a, b);
      JavaDivNonNegative(a', b);
      DivMonotone(0, a', b);
    }
  }

  lemma JavaDivNegative(a: int, b: int)
    requires a < 0 && b > 0
    ensures JavaDiv(a, b) == -((-a) / b) <= 0
  {
  }

  /** Java's `(int)` cast of a float: the value rounded toward zero. */
  function TruncToInt(x: real): (t: int)
    ensures RealAbs(t as real) <= RealAbs(x) < RealAbs(t as real) + 1.0
    ensures t > 0 ==> x > 0.0
    ensures t < 0 ==> x < 0.0
  {
    if x >= 0.0 then x.Floor else -((-x).Floor)
  }

  /** Truncation never reverses the order of two values. */
  lemma TruncMonotone(x: real, y: real)
    requires x <= y
    ensures TruncToInt(x) <= TruncToInt(y)
  {
  }

  /**
   * Adding a whole number n to a float before truncating moves the result by n,
   * or by n - 1 when the float is a negative fraction that the sum lifts past zero.
   */
  lemma TruncPlusWhole(x: real, n: nat)
    ensures TruncToInt(x) + n - 1 <= TruncToInt(x + n as real) <= TruncToInt(x) + n
    ensures x >= 0.0 ==> TruncToInt(x + n as real) == TruncToInt(x) + n
  {
    var y := x + n as real;
    if x >= 0.0 {
      assert (x.Floor + n) as real <= y < (x.Floor + n) as real + 1.0;
    } else if y < 0.0 {
      assert ((-x).Floor - n) as real <= -y < ((-x).Floor - n) as real + 1.0;
    } else {
      var k := (-x).Floor;
      assert k as real <= -x < k as real + 1.0;
      assert (n - k - 1) as real < y <= (n - k) as real;
    }
  }
}
