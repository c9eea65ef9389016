/** The bit tricks of ck_internal.h on 32-bit words. */
module Internal {
  import opened Bits

  const WORDS: nat := 0x1_0000_0000

  /** The bitwise `|` of two unsigned words. */
  function Or(x: nat, y: nat): nat {
    if x == 0 && y == 0 then 0 else (if x % 2 == 1 || y % 2 == 1 then 1 else 0) + 2 * Or(x / 2, y / 2)
  }

  /** `v >> k`. */
  function Shr(v: nat, k: nat): nat {
    if k == 0 then v else Shr(v / 2, k - 1)
  }

  /** `v |= v >> d`. */
  function Smear(v: nat, d: nat): nat {
    Or(v, Shr(v, d))
  }

  /** `ck_internal_power_2`, whose two steps by one wrap. */
  function Power2(v: nat): nat
    requires v < WORDS
  {
    (Filled((v + WORDS - 1) % WORDS) + 1) % WORDS
  }

  /** `ck_internal_log`: the five tests give the bits of the result. */
  function Log(v: nat): nat {
    (if And(v, 0xAAAAAAAA) != 0 then 1 else 0)
    + (if And(v, 0xFFFF0000) != 0 then 16 else 0)
    + (if And(v, 0xFF00FF00) != 0 then 8 else 0)
    + (if And(v, 0xF0F0F0F0) != 0 then 4 else 0)
    + (if And(v, 0xCCCCCCCC) != 0 then 2 else 0)
  }

  // ----- shifts and unions

  lemma {:induction false} ShrTwice(x: nat, j: nat, k: nat)
    ensures Shr(Shr(x, j), k) == Shr(x, j + k)
  {
    if j > 0 { ShrTwice(x / 2, j - 1, k); }
  }

  lemma {:induction false} ShrOr(x: nat, y: nat, k: nat)
    ensures Shr(Or(x, y), k) == Or(Shr(x, k), Shr(y, k))
  {
    if k > 0 { ShrOr(x / 2, y / 2, k - 1); }
  }

  lemma {:induction false} ShrOnes(j: nat, k: nat)
    requires k <= j
    ensures Shr(Pow2(j) - 1, k) == Pow2(j - k) - 1
  {
    if k > 0 { ShrOnes(j - 1, k - 1); }
  }

  lemma {:induction false} OrZero(x: nat)
    ensures Or(x, 0) == x
  {
    if x > 0 { OrZero(x / 2); }
  }

  /** Ones in front, and ones or-ed into the k places behind. */
  lemma {:induction false} OrOnes(x: nat, j: nat, k: nat)
    requires Shr(x, k) == Pow2(j) - 1
    ensures Or(x, Pow2(k) - 1) == Pow2(j + k) - 1
  {
    if k == 0 {
      OrZero(x);
    } else {
      OrOnes(x / 2, j, k - 1);
      assert (Pow2(k) - 1) / 2 == Pow2(k - 1) - 1 && (Pow2(k) - 1) % 2 == 1;
    }
  }

  // ----- the power of two that is not below

  /** A word of `len` bits whose first j bits are ones. */
  ghost predicate TopOnes(x: nat, len: nat, j: nat) {
    j <= len && Shr(x, len - j) == Pow2(j) - 1
  }

  /** Or-ed with itself j places down, such a word of at most 2 j bits becomes full. */
  lemma LeadingBits(a: nat, m: nat, j: nat)
    requires TopOnes(a, m, j) && m <= 2 * j
    ensures Smear(a, j) == Pow2(m) - 1
  {
    hide Pow2;
    hide Or;
    hide Shr;
    ShrTwice(a, m - j, 2 * j - m);
    ShrOnes(j, 2 * j - m);
    OrOnes(a, j, m - j);
    assert (m - j) + (2 * j - m) == j && j - (2 * j - m) == m - j;
  }

  function Least(a: nat, b: nat): nat {
    if a < b then a else b
  }

  /** One smear doubles the number of leading ones. */
  lemma SmearDoubles(x: nat, len: nat, j: nat)
    requires TopOnes(x, len, j)
    ensures TopOnes(Smear(x, j), len, Least(2 * j, len))
  {
    hide Pow2;
    hide Or;
    hide Shr;
    var m := Least(2 * j, len);
    var low := len - m;
    ShrTwice(x, low, m - j);
    assert low + (m - j) == len - j;
    LeadingBits(Shr(x, low), m, j);
    ShrOr(x, Shr(x, j), low);
    ShrTwice(x, j, low);
    ShrTwice(x, low, j);
    assert j + low == low + j;
  }

  lemma {:induction false} ShrAll(len: nat, d: nat)
    requires len <= d
    ensures Shr(Pow2(len) - 1, d) == 0
    decreases d
  {
    if len > 0 {
      ShrAll(len - 1, d - 1);
    } else if d > 0 {
      ShrAll(0, d - 1);
    }
  }

  /** The same for a word that is shorter than the shift, and full by then. */
  lemma SmearsOn(x: nat, len: nat, d: nat)
    requires TopOnes(x, len, Least(d, len))
    ensures TopOnes(Smear(x, d), len, Least(2 * d, len))
  {
    if d <= len {
      SmearDoubles(x, len, d);
    } else {
      ShrAll(len, d);
      OrZero(x);
    }
  }

  /** The number of bits of a word. */
  function Length(x: nat): nat {
    if x == 0 then 0 else 1 + Length(x / 2)
  }

  lemma {:induction false} LengthIs(x: nat)
    requires 0 < x
    ensures var len := Length(x); 0 < len && Pow2(len - 1) <= x < Pow2(len) && TopOnes(x, len, 1)
  {
    if x > 1 { LengthIs(x / 2); }
    assert Pow2(1) == 2;
  }

  lemma {:induction false} Pow2Above(j: nat, k: nat)
    requires Pow2(j) < Pow2(k)
    ensures j < k
  {
    if k <= j { Pow2Mono(k, j); }
  }

  /** The exponent of the least power of two that is not below v. */
  function Ceiling(v: nat): nat
    requires 1 <= v
  {
    Length(v - 1)
  }

  lemma CeilingIs(v: nat)
    requires 1 <= v
    ensures v <= Pow2(Ceiling(v)) && (Ceiling(v) > 0 ==> Pow2(Ceiling(v) - 1) < v)
  {
    if v > 1 { LengthIs(v - 1); }
  }

  /** What the five smears make of a word. */
  function Filled(x: nat): nat {
    Smear(Smear(Smear(Smear(Smear(x, 1), 2), 4), 8), 16)
  }

  lemma FullWord(x: nat, len: nat)
    requires TopOnes(x, len, Least(32, len)) && len <= 32
    ensures x == Pow2(len) - 1
  {}

  /** A word of up to 32 bits is filled with ones behind its first one. */
  lemma SmearsFill(x: nat)
    requires 0 < x < WORDS
    ensures Filled(x) == Pow2(Length(x)) - 1
  {
    SmallPowers();
    LengthIs(x);
    var len := Length(x);
    Pow2Above(len - 1, 32);
    hide Smear;
    hide TopOnes;
    hide Pow2;
    SmearsOn(x, len, 1);
    SmearsOn(Smear(x, 1), len, 2);
    SmearsOn(Smear(Smear(x, 1), 2), len, 4);
    SmearsOn(Smear(Smear(Smear(x, 1), 2), 4), len, 8);
    SmearsOn(Smear(Smear(Smear(Smear(x, 1), 2), 4), 8), len, 16);
    FullWord(Filled(x), len);
  }

  lemma FillsZero()
    ensures Filled(0) == 0
  {
    forall d: nat ensures Smear(0, d) == 0 { ShrAll(0, d); }
    hide Smear;
  }

  lemma CeilingRange(v: nat)
    requires 1 <= v < WORDS
    ensures Ceiling(v) <= 32 && (Ceiling(v) <= 31 <==> v <= Pow2(31))
  {
    CeilingIs(v);
    SmallPowers();
    hide Pow2;
    var k := Ceiling(v);
    if k > 0 {
      Pow2Above(k - 1, 32);
      if k <= 31 { Pow2Mono(k, 31); } else { Pow2Mono(31, k - 1); }
    }
  }

  lemma FilledBefore(v: nat)
    requires 1 <= v < WORDS
    ensures Filled((v + WORDS - 1) % WORDS) == Pow2(Ceiling(v)) - 1
  {
    hide Smear;
    assert (v + WORDS - 1) % WORDS == v - 1;
    if v > 1 { SmearsFill(v - 1); } else { FillsZero(); }
  }

  /** ck_internal_power_2 is the least power of two that is not below its argument; behind 2^31 it wraps to 0. */
  lemma Power2IsCeiling(v: nat)
    requires 1 <= v < WORDS
    ensures Power2(v) == if v <= Pow2(31) then Pow2(Ceiling(v)) else 0
    ensures v <= Pow2(Ceiling(v)) && (Ceiling(v) > 0 ==> Pow2(Ceiling(v) - 1) < v)
    ensures Ceiling(v) <= 31 <==> v <= Pow2(31)
  {
    hide Pow2;
    hide Filled;
    CeilingIs(v);
    CeilingRange(v);
    FilledBefore(v);
    SmallPowers();
    if Ceiling(v) <= 31 { Pow2Mono(Ceiling(v), 31); }
  }

  lemma LengthUnique(x: nat, len: nat)
    requires 0 < len && Pow2(len - 1) <= x < Pow2(len)
    ensures Length(x) == len
  {
    LengthIs(x);
    Pow2Above(len - 1, Length(x));
    Pow2Above(Length(x) - 1, len);
  }

  /** Zero wraps twice. */
  lemma Power2OfZero()
    ensures Power2(0) == 0
  {
    SmallPowers();
    hide Pow2;
    hide Filled;
    LengthUnique(WORDS - 1, 32);
    SmearsFill(WORDS - 1);
    assert (WORDS - 1) % WORDS == WORDS - 1;
  }

  // ----- the exponent

  lemma {:induction false} AndZero(m: nat)
    ensures And(m, 0) == 0 && And(0, m) == 0
  {}

  lemma DivUnique(x: nat, d: nat, q: nat, r: nat)
    requires r < d && x == d * q + r
    ensures x / d == q
  {
    var m := x / d - q;
    assert d * m == d * (x / d) - d * q;
    assert d * m == r - x % d;
    assert d * -m == -(d * m);
    if m >= 1 {
      MulAtLeast(d, m);
    } else if m <= -1 {
      MulAtLeast(d, -m);
    }
  }

  lemma HalfOfQuotient(x: nat, d: nat)
    requires 1 <= d
    ensures x / (2 * d) == x / 2 / d
  {
    var q, r := x / 2 / d, x / 2 % d;
    assert x == 2 * (d * q + r) + x % 2;
    assert 2 * d * q == 2 * (d * q);
    DivUnique(x, 2 * d, q, 2 * r + x % 2);
  }

  lemma HalfFirst(x: nat, k: nat)
    ensures x / Pow2(k + 1) == x / 2 / Pow2(k)
  {
    HalfOfQuotient(x, Pow2(k));
  }

  /** Masking a power of two tests one bit. */
  lemma {:induction false} AndPow2(k: nat, m: nat)
    ensures And(Pow2(k), m) != 0 <==> m / Pow2(k) % 2 == 1
    decreases k
  {
    if k == 0 {
      assert And(1 / 2, m / 2) == 0;
    } else {
      HalfFirst(m, k - 1);
      AndPow2(k - 1, m / 2);
      assert Pow2(k) / 2 == Pow2(k - 1) && Pow2(k) % 2 == 0;
    }
  }

  /** The bits that the five masks have at the place of p are those of k. */
  ghost predicate Code(k: nat, p: nat)
    requires 1 <= p
  {
    && 0xAAAAAAAA / p % 2 == k % 2 && 0xCCCCCCCC / p % 2 == k / 2 % 2 && 0xF0F0F0F0 / p % 2 == k / 4 % 2
    && 0xFF00FF00 / p % 2 == k / 8 % 2 && 0xFFFF0000 / p % 2 == k / 16 % 2
  }

  lemma LowCodes()
    ensures Code(0, 0x1) && Code(1, 0x2) && Code(2, 0x4) && Code(3, 0x8)
    ensures Code(4, 0x10) && Code(5, 0x20) && Code(6, 0x40) && Code(7, 0x80)
    ensures Code(8, 0x100) && Code(9, 0x200) && Code(10, 0x400) && Code(11, 0x800)
    ensures Code(12, 0x1000) && Code(13, 0x2000) && Code(14, 0x4000) && Code(15, 0x8000)
  {}

  lemma HighCodes()
    ensures Code(16, 0x10000) && Code(17, 0x20000) && Code(18, 0x40000) && Code(19, 0x80000)
    ensures Code(20, 0x100000) && Code(21, 0x200000) && Code(22, 0x400000) && Code(23, 0x800000)
    ensures Code(24, 0x1000000) && Code(25, 0x2000000) && Code(26, 0x4000000) && Code(27, 0x8000000)
    ensures Code(28, 0x10000000) && Code(29, 0x20000000) && Code(30, 0x40000000) && Code(31, 0x80000000)
  {}

  lemma SmallPowers()
    ensures Pow2(0) == 0x1 && Pow2(1) == 0x2 && Pow2(2) == 0x4 && Pow2(3) == 0x8
    ensures Pow2(4) == 0x10 && Pow2(5) == 0x20 && Pow2(6) == 0x40 && Pow2(7) == 0x80
    ensures Pow2(8) == 0x100 && Pow2(9) == 0x200 && Pow2(10) == 0x400 && Pow2(11) == 0x800
    ensures Pow2(12) == 0x1000 && Pow2(13) == 0x2000 && Pow2(14) == 0x4000 && Pow2(15) == 0x8000
    ensures Pow2(16) == 0x10000 && Pow2(17) == 0x20000 && Pow2(18) == 0x40000 && Pow2(19) == 0x80000
    ensures Pow2(20) == 0x100000 && Pow2(21) == 0x200000 && Pow2(22) == 0x400000 && Pow2(23) == 0x800000
    ensures Pow2(24) == 0x1000000 && Pow2(25) == 0x2000000 && Pow2(26) == 0x4000000 && Pow2(27) == 0x8000000
    ensures Pow2(28) == 0x10000000 && Pow2(29) == 0x20000000 && Pow2(30) == 0x40000000 && Pow2(31) == 0x80000000
    ensures Pow2(32) == WORDS
  {}

  lemma PowersAreCoded(k: nat)
    requires k < 32
    ensures Code(k, Pow2(k))
  {
    hide Code;
    hide Pow2;
    LowCodes();
    HighCodes();
    SmallPowers();
  }

  lemma FiveBits(k: nat)
    requires k < 32
    ensures k == k % 2 + 2 * (k / 2 % 2) + 4 * (k / 4 % 2) + 8 * (k / 8 % 2) + 16 * (k / 16 % 2)
  {}

  /** ck_internal_log of a power of two is its exponent. */
  lemma LogIsExponent(k: nat)
    requires k < 32
    ensures Log(Pow2(k)) == k
  {
    hide And;
    hide Pow2;
    PowersAreCoded(k);
    AndPow2(k, 0xAAAAAAAA);
    AndPow2(k, 0xFFFF0000);
    AndPow2(k, 0xFF00FF00);
    AndPow2(k, 0xF0F0F0F0);
    AndPow2(k, 0xCCCCCCCC);
    FiveBits(k);
  }

  /** Together: the exponent of the least power of two that is not below v. */
  lemma LogOfPower2(v: nat)
    requires 1 <= v <= Pow2(31)
    ensures Pow2(31) < WORDS && Log(Power2(v)) == Ceiling(v)
  {
    hide Pow2;
    hide Log;
    hide Power2;
    hide Ceiling;
    SmallPowers();
    Power2IsCeiling(v);
    LogIsExponent(Ceiling(v));
  }
}
