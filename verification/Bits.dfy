/** Unsigned machine words as naturals: masks and exclusive or. */
module Bits {
  function Pow2(k: nat): (p: nat)
    ensures k <= p && 1 <= p
  {
    if k == 0 then 1 else 2 * Pow2(k - 1)
  }

  ghost predicate IsPow2(n: nat) {
    exists k: nat :: n == Pow2(k)
  }

  lemma {:induction false} Pow2Mono(j: nat, k: nat)
    requires j <= k
    ensures Pow2(j) <= Pow2(k)
    decreases k
  {
    if j < k { Pow2Mono(j, k - 1); }
  }

  /** The bitwise `&` of two unsigned words. */
  function And(x: nat, y: nat): nat {
    if x == 0 || y == 0 then 0 else (if x % 2 == 1 && y % 2 == 1 then 1 else 0) + 2 * And(x / 2, y / 2)
  }

  lemma AndStep(x: nat, m: nat)
    requires 1 <= m
    ensures And(x, 2 * m - 1) == x % 2 + 2 * And(x / 2, m - 1)
  {
    assert (2 * m - 1) % 2 == 1 && (2 * m - 1) / 2 == m - 1;
  }

  /** Masking with 2^k - 1 is the remainder by 2^k. */
  lemma {:induction false} AndMask(x: nat, k: nat)
    ensures And(x, Pow2(k) - 1) == x % Pow2(k)
    decreases k
  {
    if k > 0 {
      AndStep(x, Pow2(k - 1));
      AndMask(x / 2, k - 1);
      HalfMod(x, Pow2(k - 1));
    }
  }

  lemma MaskKeepsSmall(x: nat, n: nat)
    requires IsPow2(n) && x < n
    ensures And(x, n - 1) == x
  {
    var k: nat :| n == Pow2(k);
    AndMask(x, k);
    ModUnique(x, n, 0, x);
  }

  lemma HalfMod(x: nat, m: nat)
    requires 1 <= m
    ensures x % (2 * m) == x % 2 + 2 * ((x / 2) % m)
  {
    var q, r := x / 2 / m, (x / 2) % m;
    assert x / 2 == m * q + r;
    assert x == 2 * m * q + (x % 2 + 2 * r);
    ModUnique(x, 2 * m, q, x % 2 + 2 * r);
  }

  lemma MulAtLeast(d: nat, m: int)
    requires 1 <= m
    ensures d <= d * m
  {}

  /** x == d q + r with 0 <= r < d determines the remainder. */
  lemma ModUnique(x: int, d: nat, q: int, r: nat)
    requires r < d && x == d * q + r
    ensures x % d == r
  {
    var q' := x / d;
    var m := q - q';
    assert d * m == d * q - d * q';
    assert d * m == x % d - r;
    assert d * -m == -(d * m);
    if m >= 1 {
      MulAtLeast(d, m);
    } else if m <= -1 {
      MulAtLeast(d, -m);
    }
  }

  /** Two numbers less than n apart leave different remainders by n. */
  lemma ModsDiffer(j: nat, k: nat, n: nat)
    requires j < k < j + n
    ensures j % n != k % n
  {
    var m := k / n - j / n;
    assert n * m == n * (k / n) - n * (j / n);
    if j % n == k % n {
      assert n * m == k - j;
      if m >= 1 { MulAtLeast(n, m); }
    }
  }

  lemma {:induction false} AndSelf(x: nat)
    ensures And(x, x) == x
  {
    if x != 0 { AndSelf(x / 2); }
  }

  /** The usual test `n & (n - 1)` is zero only for powers of two. */
  lemma {:induction false} AndPred(n: nat)
    requires 1 <= n && And(n, n - 1) == 0
    ensures IsPow2(n)
  {
    if n == 1 {
      assert n == Pow2(0);
    } else if n % 2 == 0 {
      assert (n - 1) / 2 == n / 2 - 1;
      AndPred(n / 2);
      var k: nat :| n / 2 == Pow2(k);
      assert n == Pow2(k + 1);
    } else {
      AndSelf(n / 2);
      assert false;
    }
  }

  // ----- exclusive or

  /** The bitwise `^` of two unsigned words. */
  function Xor(x: nat, y: nat): nat {
    if x == 0 && y == 0 then 0 else (if x % 2 != y % 2 then 1 else 0) + 2 * Xor(x / 2, y / 2)
  }

  lemma XorHalves(x: nat, y: nat)
    ensures Xor(x, y) % 2 == (if x % 2 != y % 2 then 1 else 0) && Xor(x, y) / 2 == Xor(x / 2, y / 2)
    ensures Xor(0, 0) == 0
  {}

  lemma {:induction false} XorTwice(x: nat, y: nat)
    ensures Xor(Xor(x, y), y) == x
    decreases x + y
  {
    hide Xor;
    XorHalves(x, y);
    XorHalves(Xor(x, y), y);
    if x != 0 || y != 0 {
      XorTwice(x / 2, y / 2);
    }
  }

  lemma {:induction false} XorBelow(x: nat, y: nat, k: nat)
    requires x < Pow2(k) && y < Pow2(k)
    ensures Xor(x, y) < Pow2(k)
  {
    if x != 0 || y != 0 { XorBelow(x / 2, y / 2, k - 1); }
  }
}
