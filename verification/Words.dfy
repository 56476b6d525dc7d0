/** Unsigned machine arithmetic: wrapping 64-bit counters, bitwise AND, and the
    power-of-two capacities for which masking a counter is the same as reducing it. */
module Words {

  const TWO64: nat := 0x1_0000_0000_0000_0000

  /** An unsigned 64-bit word. */
  type U64 = x: int | 0 <= x < 0x1_0000_0000_0000_0000

  /** Conversion to uint64_t: reduction modulo 2^64. */
  function Wrap(x: int): (w: U64)
    ensures 0 <= x < TWO64 ==> w == x
  {
    x % 0x1_0000_0000_0000_0000
  }

  function Min(a: int, b: int): int {
    if a < b then a else b
  }

  /** Unsigned 64-bit subtraction. */
  function Sub64(a: U64, b: U64): U64
  {
    Wrap(a - b)
  }

  /** Which lap of the 64-bit counter an unbounded position lies in. */
  function Epoch(x: nat): nat
  {
    x / 0x1_0000_0000_0000_0000
  }

  /** Subtracting two wrapped positions gives their true distance when it fits in a word. */
  lemma SubOfWraps(a: nat, b: nat)
    requires b <= a < b + TWO64
    ensures Sub64(Wrap(a), Wrap(b)) == a - b
  {
  }

  lemma WrapOfSmall(a: U64)
    ensures Wrap(a) == a
  {
  }

  lemma WrapOfZero()
    ensures Wrap(0) == 0
  {
  }

  lemma WrapOfSum(a: int, b: int)
    ensures Wrap(Wrap(a) + b) == Wrap(a + b)
  {
  }

  /** Two positions less than a lap apart compare like their words exactly when no
      multiple of 2^64 lies between them. */
  lemma WordOrder(a: nat, b: nat)
    requires a <= b < a + TWO64
    ensures Wrap(a) <= Wrap(b) <==> Epoch(a) == Epoch(b)
    ensures Epoch(a) == Epoch(b) ==> Wrap(b) - Wrap(a) == b - a
    ensures Epoch(a) <= Epoch(b)
  {
  }

  lemma SameWord(a: nat, b: nat)
    requires a <= b < a + TWO64 && Wrap(a) == Wrap(b)
    ensures a == b
  {
  }

  lemma EpochBetween(a: nat, b: nat, c: nat)
    requires a <= b <= c
    ensures Epoch(a) <= Epoch(b) <= Epoch(c)
    ensures c < TWO64 ==> Epoch(c) == 0
  {
  }

  // ---------- bitwise AND and masks ----------

  function Pow2(k: nat): (p: nat)
    ensures p >= 1
  {
    if k == 0 then 1 else 2 * Pow2(k - 1)
  }

  /** Bitwise AND of two unsigned integers, one bit at a time. */
  function And(a: nat, b: nat): (r: nat)
    ensures r <= a && r <= b
  {
    if a == 0 || b == 0 then 0
    else (if a % 2 == 1 && b % 2 == 1 then 1 else 0) + 2 * And(a / 2, b / 2)
  }

  lemma {:induction false} AndSelf(a: nat)
    ensures And(a, a) == a
  {
    if a > 0 { AndSelf(a / 2); }
  }

  /** The test used for ring capacities. */
  predicate PowerOfTwoTest(value: nat)
  {
    value != 0 && And(value, value - 1) == 0
  }

  /** The test accepts exactly the powers of two. */
  lemma {:induction false} PowerOfTwoTestIsExact(value: nat)
    ensures PowerOfTwoTest(value) <==> exists k: nat :: value == Pow2(k)
  {
    if PowerOfTwoTest(value) {
      var k := Exponent(value);
    }
    if k: nat :| value == Pow2(k) {
      PowersPass(k);
    }
  }

  lemma {:induction false} Exponent(value: nat) returns (k: nat)
    requires PowerOfTwoTest(value)
    ensures value == Pow2(k)
  {
    if value == 1 {
      k := 0;
    } else if value % 2 == 0 {
      assert (value - 1) / 2 == value / 2 - 1 && value % 2 == 0;
      var j := Exponent(value / 2);
      k := j + 1;
    } else {
      assert (value - 1) / 2 == value / 2;
      AndSelf(value / 2);
      assert false;
    }
  }

  lemma {:induction false} PowersPass(k: nat)
    ensures PowerOfTwoTest(Pow2(k))
  {
    if k > 0 {
      PowersPass(k - 1);
      var u := Pow2(k - 1);
      assert (2 * u - 1) / 2 == u - 1 && (2 * u) / 2 == u && (2 * u) % 2 == 0;
    }
  }

  lemma AndStep(a: nat, b: nat)
    requires a > 0 && b > 0
    ensures And(a, b) == (if a % 2 == 1 && b % 2 == 1 then 1 else 0) + 2 * And(a / 2, b / 2)
  {
  }

  function ShiftLeft(q: nat, k: nat): nat
  {
    if k == 0 then q else 2 * ShiftLeft(q, k - 1)
  }

  lemma {:induction false} ShiftIsMultiple(q: nat, k: nat)
    ensures ShiftLeft(q, k) == q * Pow2(k)
  {
    if k > 0 {
      ShiftIsMultiple(q, k - 1);
      var u := Pow2(k - 1);
      assert q * (2 * u) == 2 * (q * u);
    }
  }

  /** The low k bits are what is left after removing whole multiples of 2^k. */
  lemma {:induction false} LowBits(x: nat, k: nat) returns (q: nat)
    ensures x == ShiftLeft(q, k) + And(x, Pow2(k) - 1)
  {
    if k == 0 {
      q := x;
    } else if x == 0 {
      q := LowBits(0, k - 1);
      assert ShiftLeft(q, k) == 0;
    } else {
      q := LowBits(x / 2, k - 1);
      OddMaskStep(x, Pow2(k - 1));
      hide And;
    }
  }

  lemma OddMaskStep(x: nat, u: nat)
    requires x > 0 && u > 0
    ensures And(x, 2 * u - 1) == x % 2 + 2 * And(x / 2, u - 1)
  {
    AndStep(x, 2 * u - 1);
    hide And;
    assert (2 * u - 1) / 2 == u - 1 && (2 * u - 1) % 2 == 1;
  }

  /** Masking with 2^k - 1 is reduction modulo 2^k. */
  lemma MaskIsModulo(x: nat, k: nat)
    ensures And(x, Pow2(k) - 1) == x % Pow2(k)
  {
    var q := LowBits(x, k);
    ShiftIsMultiple(q, k);
    ModUnique(x, Pow2(k), q, And(x, Pow2(k) - 1));
  }

  lemma ModUnique(x: int, m: int, q: int, r: int)
    requires 0 <= r < m && x == q * m + r
    ensures x % m == r && x / m == q
  {
    var d := x / m - q;
    assert d * m == r - x % m by {
      assert x == (x / m) * m + x % m;
      assert d * m == (x / m) * m - q * m;
    }
    SmallMultiple(d, m);
  }

  lemma MultipleBounds(d: int, m: int)
    requires m >= 0
    ensures d >= 1 ==> d * m >= m
    ensures d <= -1 ==> d * m <= -m
  {
    assert d * m == m + (d - 1) * m;
    assert d * m == (d + 1) * m - m;
  }

  /** The only multiple of m strictly between -m and m is zero. */
  lemma SmallMultiple(d: int, m: int)
    requires 0 <= m && -m < d * m < m
    ensures d == 0
  {
    MultipleBounds(d, m);
  }

  lemma {:induction false} PowersDivide(j: nat, k: nat) returns (c: nat)
    requires j <= k
    ensures Pow2(k) == c * Pow2(j)
  {
    if j == k {
      c := 1;
    } else {
      var d := PowersDivide(j, k - 1);
      c := 2 * d;
    }
  }

  /** Capacities the bridge accepts: 32-bit values passing the power-of-two test. */
  predicate ValidCapacity(capacity: nat)
  {
    capacity < 0x1_0000_0000 && PowerOfTwoTest(capacity)
  }

  lemma {:induction false} PowGrows(j: nat, k: nat)
    requires j <= k
    ensures Pow2(j) <= Pow2(k)
  {
    if j < k { PowGrows(j, k - 1); }
  }

  lemma PowValues()
    ensures Pow2(32) == 0x1_0000_0000
    ensures Pow2(64) == TWO64
  {
    assert Pow2(8) == 256;
    hide Pow2;
    PowAdd(8, 8);
    PowAdd(16, 16);
    PowAdd(32, 32);
  }

  lemma {:induction false} PowAdd(j: nat, k: nat)
    ensures Pow2(j + k) == Pow2(j) * Pow2(k)
  {
    if j > 0 {
      PowAdd(j - 1, k);
      DoubleProduct(Pow2(j - 1), Pow2(k));
      hide *;
    }
  }

  lemma DoubleProduct(a: nat, b: nat)
    ensures (2 * a) * b == 2 * (a * b)
  {
  }

  lemma CapacityDividesWord(capacity: nat) returns (k: nat, c: nat)
    requires ValidCapacity(capacity)
    ensures k < 32 && capacity == Pow2(k)
    ensures TWO64 == c * capacity
  {
    k := Exponent(capacity);
    PowValues();
    if k >= 32 {
      PowGrows(32, k);
      assert false;
    }
    c := PowersDivide(k, 64);
  }

  // ---------- slots ----------

  /** The array index that a counter word selects: word & (capacity - 1). */
  function SlotOf(capacity: nat, word: U64): (i: nat)
    requires capacity > 0
    ensures i < capacity
  {
    And(word, capacity - 1)
  }

  /** Masking the wrapped counter still selects position modulo capacity, because an
      accepted capacity divides 2^64. */
  lemma SlotIsModulo(capacity: nat, position: nat)
    requires ValidCapacity(capacity)
    ensures SlotOf(capacity, Wrap(position)) == position % capacity
  {
    var k, c := CapacityDividesWord(capacity);
    MaskIsModulo(Wrap(position), k);
    LapsVanish(position, capacity, c, TWO64);
  }

  lemma LapsVanish(x: nat, m: nat, c: nat, lap: nat)
    requires m > 0 && lap == c * m && lap > 0
    ensures (x % lap) % m == x % m
  {
    var w := x % lap;
    var q := x / lap;
    DivideInto(x, lap);
    DivideInto(w, m);
    assert q * lap == (q * c) * m;
    assert (q * c) * m + (w / m) * m == (q * c + w / m) * m;
    ModUnique(x, m, q * c + w / m, w % m);
  }

  lemma DivideInto(x: nat, m: nat)
    requires m > 0
    ensures x == (x / m) * m + x % m && 0 <= x % m < m
  {
  }

  lemma ResiduesDistinct(m: nat, p: nat, q: nat)
    requires m > 0 && p < q < p + m
    ensures p % m != q % m
  {
    DivideInto(p, m);
    DivideInto(q, m);
    if p % m == q % m {
      var d := q / m - p / m;
      assert d * m == (q / m) * m - (p / m) * m;
      SmallMultiple(d, m);
      assert false;
    }
  }

  /** Different positions less than a capacity apart never share a slot. */
  lemma SlotsDistinct(capacity: nat, p: nat, q: nat)
    requires ValidCapacity(capacity)
    requires p < q < p + capacity
    ensures SlotOf(capacity, Wrap(p)) != SlotOf(capacity, Wrap(q))
  {
    SlotIsModulo(capacity, p);
    SlotIsModulo(capacity, q);
    ResiduesDistinct(capacity, p, q);
  }

  lemma ResidueRepeats(m: nat, p: nat, k: nat)
    requires m > 0
    ensures p % m == (p + k * m) % m
  {
    DivideInto(p, m);
    assert (p / m + k) * m == (p / m) * m + k * m;
    ModUnique(p + k * m, m, p / m + k, p % m);
  }

  /** Positions whole capacities apart always share one. */
  lemma SlotsRepeat(capacity: nat, p: nat, k: nat)
    requires ValidCapacity(capacity)
    ensures SlotOf(capacity, Wrap(p)) == SlotOf(capacity, Wrap(p + k * capacity))
  {
    SlotIsModulo(capacity, p);
    SlotIsModulo(capacity, p + k * capacity);
    ResidueRepeats(capacity, p, k);
  }
}
