/**
 Base-3 arithmetic on natural numbers: powers of three, the digit of a given
 weight, and the facts that make "divide by 3 nine times" an exact base-3
 expansion. Python's `%` and `//` agree with Dafny's `%` and `/` here, because
 every divisor is positive and every dividend is non-negative.
 */
module Base3 {

  /** 3^n. */
  function Pow3(n: nat): (p: nat)
    ensures p >= 1
  {
    if n == 0 then 1 else 3 * Pow3(n - 1)
  }

  /** The digit of weight 3^i in the base-3 expansion of x. */
  function Digit(x: nat, i: nat): (d: nat)
    ensures d < 3
  {
    (x / Pow3(i)) % 3
  }

  /** A positive multiple of d is at least d. */
  lemma MulAtLeast(k: int, d: int)
    requires k >= 1 && d > 0
    ensures k * d >= d
  {
    assert k * d == (k - 1) * d + d;
  }

  /** Euclidean division is determined by its defining equation. */
  lemma DivModUnique(x: int, d: int, q: int, m: int)
    requires d > 0 && x == q * d + m && 0 <= m < d
    ensures x / d == q && x % d == m
  {
    var q', m' := x / d, x % d;
    assert x == q' * d + m';
    var k := q - q';
    assert k * d == q * d - q' * d;
    assert k * d == m' - m;
    if k >= 1 {
      MulAtLeast(k, d);
    } else if k <= -1 {
      MulAtLeast(-k, d);
    }
  }

  lemma Regroup(q: int, b: int, t: int, a: int)
    ensures (q * b + t) * a == q * (a * b) + t * a
  {
    assert (q * b + t) * a == (q * b) * a + t * a;
  }

  lemma BelowProduct(t: int, s: int, a: int, b: int)
    requires 0 <= t < b && 0 <= s < a
    ensures t * a + s < a * b
  {
    assert (b - 1 - t) * a >= 0;
    assert (b - 1 - t) * a == a * b - a - t * a;
  }

  /** Dividing by a and then by b is dividing by a * b; the remainders combine
      as the two lowest "digits" of the mixed-radix expansion. */
  lemma DivModSplit(x: nat, a: nat, b: nat)
    requires a > 0 && b > 0
    ensures x / a / b == x / (a * b)
    ensures x % (a * b) == x % a + ((x / a) % b) * a
  {
    var q, s := x / a, x % a;
    var q2, t := q / b, q % b;
    Regroup(q2, b, t, a);
    BelowProduct(t, s, a, b);
    DivModUnique(x, a * b, q2, t * a + s);
  }

  /** The update `rule //= 3` moves from the digit of weight 3^i to the next. */
  lemma DivPow3Succ(x: nat, i: nat)
    ensures x / Pow3(i + 1) == x / Pow3(i) / 3
  {
    DivModSplit(x, Pow3(i), 3);
    assert Pow3(i + 1) == Pow3(i) * 3;
  }

  /** Peeling off one more digit extends the remainder modulo 3^i by that digit. */
  lemma ModPow3Succ(x: nat, i: nat)
    ensures x % Pow3(i + 1) == x % Pow3(i) + Digit(x, i) * Pow3(i)
  {
    DivModSplit(x, Pow3(i), 3);
    assert Pow3(i + 1) == Pow3(i) * 3;
  }

  /** 3^i grows with i. */
  lemma {:induction false} Pow3Monotone(i: nat, j: nat)
    requires i <= j
    ensures Pow3(i) <= Pow3(j)
  {
    if i < j {
      Pow3Monotone(i, j - 1);
    }
  }

  /** A number below 3^k has no digit of weight 3^i for i >= k. */
  lemma SmallDigit(x: nat, k: nat, i: nat)
    requires x < Pow3(k) && k <= i
    ensures Digit(x, i) == 0
  {
    Pow3Monotone(k, i);
    DivModUnique(x, Pow3(i), 0, x);
  }
}
