/** Capacities, probe limits and saturated probe bounds, the same in ck_hs.c and ck_rhs.c. */
module MapSizes {
  import opened Bits
  import Internal

  /** CK_HS_WORD_MAX and CK_RHS_WORD_MAX, the saturated probe bound. */
  const WORD_MAX: nat := 255

  function Capped(n: nat): nat {
    if n > WORD_MAX then WORD_MAX else n
  }

  ghost predicate Shape(capacity: nat) {
    IsPow2(capacity) && 8 <= capacity
  }

  lemma Pow2OfAtLeastThree(k: nat)
    requires 3 <= k
    ensures Pow2(k) == 8 * Pow2(k - 3)
  {
    assert Pow2(k) == 2 * Pow2(k - 1);
    assert Pow2(k - 1) == 2 * Pow2(k - 2);
    assert Pow2(k - 2) == 2 * Pow2(k - 3);
  }

  lemma ShapeIsLines(capacity: nat)
    requires Shape(capacity)
    ensures capacity % 8 == 0
  {
    hide Pow2;
    Internal.SmallPowers();
    var k: nat :| capacity == Pow2(k);
    if k < 3 { Pow2Mono(k, 2); } else { Pow2OfAtLeastThree(k); }
  }

  /** CK_HS_PROBE_L1_DEFAULT: the size of a cache line. */
  const PROBE_DEFAULT: nat := 64

  const UINT_MAX: nat := 0xFFFF_FFFF

  lemma DoublePow2(p: nat)
    requires IsPow2(p)
    ensures IsPow2(2 * p) && 1 <= p
  {
    var k: nat :| p == Pow2(k);
    assert 2 * p == Pow2(k + 1);
  }

  /** The values of an `unsigned long`. */
  const ULONGS: nat := 0x1_0000_0000_0000_0000

  /** The largest capacity of a map. */
  const MAX_CAPACITY: nat := 0x8000_0000

  /** The capacity of a map for `entries` slots: ck_internal_power_2 of the low 32 bits, and at least a cache
      line of pointers. */
  function MapCapacity(entries: nat): (n: nat)
    ensures Shape(n) && n <= MAX_CAPACITY
  {
    PowerFits(entries % Internal.WORDS);
    var p := Internal.Power2(entries % Internal.WORDS);
    if p < 8 then 8 else p
  }

  lemma PowerFits(v: nat)
    requires v < Internal.WORDS
    ensures Internal.Power2(v) <= MAX_CAPACITY && (Internal.Power2(v) >= 8 ==> IsPow2(Internal.Power2(v)))
    ensures IsPow2(8)
  {
    assert Pow2(3) == 8;
    Internal.SmallPowers();
    hide Internal.Power2;
    hide Pow2;
    if v == 0 {
      Internal.Power2OfZero();
    } else {
      Internal.Power2IsCeiling(v);
      if v <= Pow2(31) { Pow2Mono(Internal.Ceiling(v), 31); }
    }
  }

  /** The least power of two that is at least the low 32 bits w of the argument and at least 8, if w is at
      most 2^31; otherwise 8. */
  lemma MapCapacityIs(entries: nat)
    ensures var n, w := MapCapacity(entries), entries % Internal.WORDS;
            if w <= MAX_CAPACITY then w <= n && (n == 8 || n < 2 * w) else n == 8
  {
    var w := entries % Internal.WORDS;
    Internal.SmallPowers();
    hide Internal.Power2;
    if w == 0 {
      Internal.Power2OfZero();
    } else {
      Internal.Power2IsCeiling(w);
      assert Internal.Ceiling(w) > 0 ==> Pow2(Internal.Ceiling(w)) == 2 * Pow2(Internal.Ceiling(w) - 1);
    }
  }

  /** A new map has the slots asked for if and only if these are at most 2^31. For 2^32 slots it has 8. */
  lemma CapacityReachesExactly(entries: nat)
    ensures entries <= MapCapacity(entries) <==> entries <= MAX_CAPACITY
    ensures MapCapacity(Internal.WORDS) == 8
  {
    hide MapCapacity;
    MapCapacityIs(entries);
    MapCapacityIs(Internal.WORDS);
    if entries <= MAX_CAPACITY { ModUnique(entries, Internal.WORDS, 0, entries); }
  }

  // ----- restarts

  /** What ck_hs_grow and ck_rhs_grow ask for after k restarts: each doubles an `unsigned long`. */
  function Attempt(wanted: nat, k: nat): nat {
    if k == 0 then wanted else Attempt(wanted, k - 1) * 2 % ULONGS
  }

  lemma {:induction false} AttemptOfPow2(j: nat, k: nat)
    requires j < 64
    ensures Attempt(Pow2(j), k) == if j + k < 64 then Pow2(j + k) else 0
    decreases k
  {
    PowerOf64();
    if k > 0 {
      AttemptOfPow2(j, k - 1);
      if j + k < 64 {
        Pow2Mono(j + k, 63);
        assert Pow2(j + k) == 2 * Pow2(j + k - 1);
      } else if j + k == 64 {
        assert Pow2(64) == 2 * Pow2(63);
      }
    }
  }

  lemma PowerOf64()
    ensures Pow2(64) == ULONGS && Pow2(63) == ULONGS / 2
  {
    Internal.SmallPowers();
    Pow2Sum(32, 32);
    assert Pow2(64) == 2 * Pow2(63);
  }

  lemma {:induction false} Pow2Sum(j: nat, k: nat)
    ensures Pow2(j + k) == Pow2(j) * Pow2(k)
    decreases j
  {
    if j > 0 {
      Doubles(j);
      Doubles(j + k);
      hide Pow2;
      Pow2Sum(j - 1, k);
      DoubledFactor(Pow2(j - 1), Pow2(k));
      assert j + k - 1 == j - 1 + k;
    }
  }

  lemma Doubles(k: nat)
    requires 0 < k
    ensures Pow2(k) == 2 * Pow2(k - 1)
  {}

  lemma DoubledFactor(a: nat, b: nat)
    ensures (2 * a) * b == 2 * (a * b)
  {}

  lemma Pow2Between(i: nat, m: nat)
    requires Pow2(i) <= Pow2(m) < 2 * Pow2(i)
    ensures m == i
  {
    assert Pow2(m) < Pow2(m + 1) && Pow2(i + 1) == 2 * Pow2(i);
    Internal.Pow2Above(m, i + 1);
    Internal.Pow2Above(i, m + 1);
  }

  lemma CapacityOfPow2(i: nat)
    ensures MapCapacity(Pow2(i)) == if 3 <= i <= 31 then Pow2(i) else 8
  {
    var w, n := Pow2(i), MapCapacity(Pow2(i));
    MapCapacityIs(w);
    Internal.SmallPowers();
    hide MapCapacity;
    if i <= 31 {
      Pow2Mono(i, 31);
      ModUnique(w, Internal.WORDS, 0, w);
      if i < 3 {
        Pow2Mono(i, 2);
        SmallCapacity(n, w);
      } else {
        Pow2Mono(3, i);
        var m: nat :| n == Pow2(m);
        if n != 8 { Pow2Between(i, m); }
      }
    } else {
      Pow2Sum(32, i - 32);
      ModUnique(w, Internal.WORDS, Pow2(i - 32), 0);
    }
  }

  lemma SmallCapacity(n: nat, w: nat)
    requires w <= 4 && Shape(n) && (n == 8 || n < 2 * w)
    ensures n == 8
  {}

  lemma {:induction false} AttemptUnwrapped(wanted: nat, k: nat)
    requires wanted * Pow2(k) < ULONGS
    ensures Attempt(wanted, k) == wanted * Pow2(k)
  {
    if k > 0 {
      DoubledProduct(wanted, k);
      hide Pow2;
      AttemptUnwrapped(wanted, k - 1);
    }
  }

  lemma DoubledProduct(wanted: nat, k: nat)
    requires 0 < k
    ensures wanted * Pow2(k) == wanted * Pow2(k - 1) * 2 && 0 <= wanted * Pow2(k - 1) <= wanted * Pow2(k)
  {
    var half := Pow2(k - 1);
    assert Pow2(k) == 2 * half;
    hide Pow2;
    Product(wanted, half);
  }

  lemma Product(a: nat, b: nat)
    ensures 0 <= a * b && (1 <= b ==> a <= a * b)
  {}

  /** Capacity k of a growth that asked for `wanted` is known to reach it if 2^31 slots would. */
  ghost predicate Regular(wanted: nat, k: nat) {
    k == 0 || wanted * Pow2(k) <= MAX_CAPACITY || (IsPow2(wanted) && MapCapacity(Attempt(wanted, k)) > 8)
  }

  /** Attempt k without a restart, before the capacity has passed 2^31, or for a power of two unless the map
      has 8 slots, reaches the wanted capacity if and only if that is at most 2^31. */
  lemma RegularReaches(wanted: nat, k: nat)
    requires wanted < ULONGS && Regular(wanted, k)
    ensures wanted <= MapCapacity(Attempt(wanted, k)) <==> wanted <= MAX_CAPACITY
  {
    hide MapCapacity;
    if k == 0 {
      CapacityReachesExactly(wanted);
    } else if wanted * Pow2(k) <= MAX_CAPACITY {
      AttemptUnwrapped(wanted, k);
      CapacityReachesExactly(wanted * Pow2(k));
      Product(wanted, Pow2(k));
    } else {
      var j: nat :| wanted == Pow2(j);
      PowerOf64();
      if j >= 64 { Pow2Mono(64, j); }
      AttemptOfPow2(j, k);
      CapacityOfPow2(j + k);
      assert Attempt(wanted, k) == 0 ==> MapCapacity(0) == 8 by { MapCapacityIs(0); }
      Pow2Mono(j, j + k);
    }
  }

  /** Other capacities may be cut to fewer slots by a restart: 2^30 + 1, doubled six times, gives 64. */
  lemma RestartMayShrink()
    ensures Attempt(0x4000_0001, 6) == 0x10_0000_0040 && MapCapacity(Attempt(0x4000_0001, 6)) == 64
  {
    assert Pow2(6) == 64;
    AttemptUnwrapped(0x4000_0001, 6);
    assert Attempt(0x4000_0001, 6) % Internal.WORDS == 64;
    MapCapacityIs(Attempt(0x4000_0001, 6));
    CapacityOfPow2(6);
    MapCapacityIs(64);
  }

  lemma BelowTop(capacity: nat)
    requires IsPow2(capacity) && capacity < MAX_CAPACITY
    ensures 2 * capacity <= MAX_CAPACITY
  {
    var i: nat :| capacity == Pow2(i);
    Internal.SmallPowers();
    Internal.Pow2Above(i, 31);
    Pow2Mono(i + 1, 31);
    assert Pow2(i + 1) == 2 * Pow2(i);
  }

  /** Doubling a capacity in use wraps to 0 only after 32 restarts. */
  lemma WrapsLate(capacity: nat, k: nat)
    requires Shape(capacity) && capacity <= MAX_CAPACITY && Attempt(2 * capacity, k) < capacity
    ensures 32 <= k
  {
    var i: nat :| capacity == Pow2(i);
    assert 2 * capacity == Pow2(i + 1);
    Internal.SmallPowers();
    if i > 31 { Pow2Mono(32, i); }
    AttemptOfPow2(i + 1, k);
    Pow2Mono(i, i + 1 + k);
  }

  /** Twice the largest capacity has 33 bits, and gives 8 slots, however often it is doubled. */
  lemma PastTheTop(k: nat)
    ensures MapCapacity(Attempt(2 * MAX_CAPACITY, k)) == 8
  {
    hide MapCapacity;
    hide Attempt;
    Internal.SmallPowers();
    AttemptOfPow2(32, k);
    CapacityOfPow2(32 + k);
    MapCapacityIs(0);
  }

  /** `map->probe_limit`. */
  function ProbeLimit(capacity: nat): nat {
    var limit := if capacity / 32 > PROBE_DEFAULT then capacity / 32 else PROBE_DEFAULT;
    if limit > UINT_MAX then UINT_MAX else limit
  }
}
