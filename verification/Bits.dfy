/** Powers of two, and bitwise conjunction of natural numbers. */
module Bits {

  function Pow2(k: nat): (r: nat)
    ensures r >= 1
  {
    if k == 0 then 1 else 2 * Pow2(k - 1)
  }

  predicate IsPowerOfTwo(n: int) {
    n == 1 || (n > 1 && n % 2 == 0 && IsPowerOfTwo(n / 2))
  }

  function Log2(n: int): (k: nat)
    requires IsPowerOfTwo(n)
  {
    if n == 1 then 0 else 1 + Log2(n / 2)
  }

  lemma {:induction false} Log2IsInverse(n: int)
    requires IsPowerOfTwo(n)
    ensures Pow2(Log2(n)) == n
  {
    if n > 1 { Log2IsInverse(n / 2); }
  }

  lemma {:induction false} Pow2IsPower(k: nat)
    ensures IsPowerOfTwo(Pow2(k))
  {
    if k > 0 { Pow2IsPower(k - 1); }
  }

  /** The recursive test is what it says. */
  lemma PowersOfTwo(n: int)
    ensures IsPowerOfTwo(n) <==> exists k: nat :: n == Pow2(k)
  {
    if IsPowerOfTwo(n) {
      Log2IsInverse(n);
    } else if k: nat :| n == Pow2(k) {
      Pow2IsPower(k);
    }
  }

  lemma {:induction false} Pow2Grows(j: nat, k: nat)
    requires j <= k
    ensures Pow2(j) <= Pow2(k)
    decreases k
  {
    if j < k { Pow2Grows(j, k - 1); }
  }

  lemma {:induction false} Pow2Adds(j: nat, k: nat)
    ensures Pow2(j + k) == Pow2(j) * Pow2(k)
  {
    if k > 0 {
      Pow2Adds(j, k - 1);
      assert Pow2(j) * (2 * Pow2(k - 1)) == 2 * (Pow2(j) * Pow2(k - 1));
    }
  }

  // ------------------------------------------------------------------- remainders

  lemma DivisionIs(x: int, n: int, q: int, r: int)
    requires n > 0 && x == n * q + r && 0 <= r < n
    ensures x / n == q && x % n == r
  {
    var d := q - x / n;
    assert n * d == x % n - r;
    AtLeastOnce(n, d);
  }

  lemma AtLeastOnce(n: int, d: int)
    requires n > 0
    ensures d >= 1 ==> n * d >= n
    ensures d <= -1 ==> n * d <= -n
  {
    if d >= 1 { assert n * (d - 1) >= 0; }
    if d <= -1 { assert n * (-1 - d) >= 0; }
  }

  /** Multiples do not change a remainder. */
  lemma DropMultiple(n: int, q: int, y: int)
    requires n > 0
    ensures (n * q + y) % n == y % n
  {
    assert n * (q + y / n) == n * q + n * (y / n);
    DivisionIs(n * q + y, n, q + y / n, y % n);
  }

  lemma SameRemainder(n: int, x: int, q: int, y: int)
    requires n > 0 && x == n * q + y
    ensures x % n == y % n
  {
    DropMultiple(n, q, y);
  }

  /** A remainder of a remainder, by a divisor of the first. */
  lemma NestedRemainder(x: int, a: int, b: int)
    requires a > 0 && b > 0 && a * b > 0
    ensures (x % (a * b)) % a == x % a
  {
    var q := x / (a * b);
    assert x == a * b * q + x % (a * b) && a * b * q == a * (b * q);
    DropMultiple(a, b * q, x % (a * b));
  }

  // ------------------------------------------------------------------ conjunction

  /** Bitwise conjunction of two natural numbers. */
  function And(x: nat, y: nat): (r: nat) {
    if x == 0 || y == 0 then 0 else 2 * And(x / 2, y / 2) + if x % 2 == 1 && y % 2 == 1 then 1 else 0
  }

  lemma {:induction false} AndSelf(x: nat)
    ensures And(x, x) == x
  {
    if x > 0 { AndSelf(x / 2); }
  }

  /** The source's test `n & (n - 1) == 0` admits exactly the powers of two. */
  lemma {:induction false} MaskTest(n: nat)
    requires n > 0
    ensures And(n, n - 1) == 0 <==> IsPowerOfTwo(n)
  {
    if n % 2 == 0 {
      MaskTest(n / 2);
      assert (n - 1) / 2 == n / 2 - 1;
    } else if n > 1 {
      AndSelf(n / 2);
      assert (n - 1) / 2 == n / 2;
    }
  }

  lemma DoubleRemainder(x: nat, n: nat)
    requires n > 0
    ensures x % (2 * n) == 2 * ((x / 2) % n) + x % 2
  {
    var h := x / 2;
    assert 2 * (n * (h / n)) == 2 * n * (h / n);
    DivisionIs(x, 2 * n, h / n, 2 * (h % n) + x % 2);
  }

  /** Masking with 2^k - 1 is the remainder by 2^k. */
  lemma {:induction false} AndMask(x: nat, k: nat)
    ensures And(x, Pow2(k) - 1) == x % Pow2(k)
    decreases k
  {
    if k > 0 {
      var n := Pow2(k - 1);
      assert (2 * n - 1) / 2 == n - 1 && (2 * n - 1) % 2 == 1;
      AndMask(x / 2, k - 1);
      DoubleRemainder(x, n);
    }
  }
}
