/** Unsigned machine words as bounded naturals, and the bit operators of C on them. */
module Bits {
  /** Always true. A predicate stated for every `n` with `Open(n)` is handed on as a unit by the
      verifier; naming an instance, `assert Open(0)`, gives access to what it says. */
  ghost predicate Open(n: nat) {
    true
  }

  const U16: nat := 0x1_0000
  const U32: nat := 0x1_0000_0000
  const U64: nat := 0x1_0000_0000_0000_0000

  /** `2^31`, the largest power of two in 32 bits. */
  const TOP_POWER: nat := 0x8000_0000

  function Pow2(k: nat): (p: nat)
    ensures p > 0
  {
    if k == 0 then 1 else 2 * Pow2(k - 1)
  }

  /** Bitwise `x & y`. */
  function And(x: nat, y: nat): (r: nat)
    ensures r <= y
    decreases x
  {
    if x == 0 || y == 0 then 0
    else (if x % 2 == 1 && y % 2 == 1 then 1 else 0) + 2 * And(x / 2, y / 2)
  }

  /** Bitwise `x | y`. */
  function Or(x: nat, y: nat): (r: nat)
    ensures r >= y
    decreases x
  {
    if x == 0 then y
    else if y == 0 then x
    else (if x % 2 == 1 || y % 2 == 1 then 1 else 0) + 2 * Or(x / 2, y / 2)
  }

  /** Bitwise `x ^ y`. */
  function Xor(x: nat, y: nat): nat
    decreases x
  {
    if x == 0 then y
    else if y == 0 then x
    else (if x % 2 != y % 2 then 1 else 0) + 2 * Xor(x / 2, y / 2)
  }

  /** `x >> k`. */
  function Shr(x: nat, k: nat): nat {
    if k == 0 then x else Shr(x / 2, k - 1)
  }

  /** `x << k`. */
  function Shl(x: nat, k: nat): nat {
    if k == 0 then x else 2 * Shl(x, k - 1)
  }

  /** Bit `i` of `x`. */
  predicate Bit(x: nat, i: nat) {
    if i == 0 then x % 2 == 1 else Bit(x / 2, i - 1)
  }

  lemma {:induction false} Pow2Add(a: nat, b: nat)
    ensures Pow2(a + b) == Pow2(a) * Pow2(b)
  {
    if a > 0 {
      Pow2Add(a - 1, b);
      assert Pow2(a + b) == 2 * Pow2(a - 1 + b);
    }
  }

  lemma {:induction false} Pow2Order(a: nat, b: nat)
    ensures a <= b ==> Pow2(a) <= Pow2(b)
    ensures a < b ==> 2 * Pow2(a) <= Pow2(b)
  {
    if a < b {
      Pow2Order(a, b - 1);
    }
  }

  lemma Pow2Values()
    ensures Pow2(2) == 4 && Pow2(6) == 64 && Pow2(31) == TOP_POWER
    ensures Pow2(32) == U32 && Pow2(64) == U64
  {
    assert Pow2(8) == 256;
    Pow2Add(8, 8);
    Pow2Add(16, 8);
    assert Pow2(31) == 128 * Pow2(24);
    Pow2Add(16, 16);
    Pow2Add(32, 32);
  }

  lemma ModDouble(x: nat, m: nat)
    requires m > 0
    ensures x % (2 * m) == 2 * ((x / 2) % m) + x % 2
  {
    var q, r := (x / 2) / m, (x / 2) % m;
    assert x / 2 == q * m + r;
    assert x == 2 * (q * m + r) + x % 2;
    assert x == q * (2 * m) + (2 * r + x % 2);
    DivModUnique(x, 2 * m, q, 2 * r + x % 2);
  }

  lemma SumOfWrapped(a: nat, b: nat)
    ensures (a % U64 + b) % U64 == (a + b) % U64
  {
  }

  lemma SmallMultiple(k: int, m: int)
    requires -m < k * m < m
    ensures k == 0
  {
    MulMono(m, 1, k);
    MulMono(m, k, -1);
  }

  lemma MulMono(c: nat, a: int, b: int)
    ensures a <= b ==> c * a <= c * b
  {
  }

  lemma DivModUnique(x: int, m: int, q: int, r: int)
    requires m > 0 && x == q * m + r && 0 <= r < m
    ensures x / m == q && x % m == r
  {
    var d, r' := q - x / m, x % m;
    assert d * m == q * m - (x / m) * m;
    assert x == (x / m) * m + r';
    SmallMultiple(d, m);
  }

  /** Masking with `2^k - 1` is the remainder modulo `2^k`. */
  lemma {:induction false} AndMask(x: nat, k: nat)
    ensures And(x, Pow2(k) - 1) == x % Pow2(k)
  {
    if x == 0 || k == 0 {
      assert x % Pow2(k) == 0 by { if k != 0 { DivModUnique(0, Pow2(k), 0, 0); } }
    } else {
      AndMask(x / 2, k - 1);
      ModDouble(x, Pow2(k - 1));
      assert (Pow2(k) - 1) / 2 == Pow2(k - 1) - 1;
    }
  }

  /** Or-ing into cleared low bits is addition. */
  lemma {:induction false} OrLow(high: nat, low: nat, m: nat)
    requires low < Pow2(m)
    ensures Or(Shl(high, m), low) == Shl(high, m) + low
  {
    if m > 0 && low > 0 {
      OrLow(high, low / 2, m - 1);
    }
  }

  /** Or-ing two numbers that end in the same place acts on the parts above it. */
  lemma {:induction false} OrHigh(h: nat, g: nat, low: nat, m: nat)
    requires low < Pow2(m)
    ensures Or(Shl(h, m) + low, Shl(g, m)) == Shl(Or(h, g), m) + low
  {
    if m > 0 {
      OrHigh(h, g, low / 2, m - 1);
      OrDouble(Shl(h, m - 1) + low / 2, low % 2, Shl(g, m - 1));
    }
  }

  lemma OrDouble(x: nat, bit: nat, y: nat)
    requires bit < 2
    ensures Or(2 * x + bit, 2 * y) == 2 * Or(x, y) + bit
  {
    assert (2 * x + bit) / 2 == x && (2 * x + bit) % 2 == bit;
    assert (2 * y) / 2 == y && (2 * y) % 2 == 0;
  }

  lemma {:induction false} OrBit(x: nat, y: nat, i: nat)
    ensures Bit(Or(x, y), i) <==> Bit(x, i) || Bit(y, i)
  {
    if x == 0 || y == 0 {
      ZeroBit(i);
    } else if i > 0 {
      OrBit(x / 2, y / 2, i - 1);
    }
  }

  lemma {:induction false} AndBit(x: nat, y: nat, i: nat)
    ensures Bit(And(x, y), i) <==> Bit(x, i) && Bit(y, i)
  {
    if x == 0 || y == 0 {
      ZeroBit(i);
    } else if i > 0 {
      AndBit(x / 2, y / 2, i - 1);
    }
  }

  lemma {:induction false} XorBit(x: nat, y: nat, i: nat)
    ensures Bit(Xor(x, y), i) <==> Bit(x, i) != Bit(y, i)
  {
    if x == 0 || y == 0 {
      ZeroBit(i);
    } else if i > 0 {
      XorBit(x / 2, y / 2, i - 1);
    }
  }

  lemma {:induction false} ZeroBit(i: nat)
    ensures !Bit(0, i)
  {
    if i > 0 {
      ZeroBit(i - 1);
    }
  }

  lemma {:induction false} OrBound(x: nat, y: nat, k: nat)
    requires x < Pow2(k) && y < Pow2(k)
    ensures Or(x, y) < Pow2(k)
  {
    if x > 0 && y > 0 {
      OrBound(x / 2, y / 2, k - 1);
    }
  }

  lemma {:induction false} ShrBit(x: nat, s: nat, i: nat)
    ensures Bit(Shr(x, s), i) <==> Bit(x, i + s)
    ensures Shr(x, s) <= x
  {
    if s > 0 {
      ShrBit(x / 2, s - 1, i);
    }
  }

  lemma {:induction false} AllOnes(x: nat, k: nat)
    requires x < Pow2(k) && forall i: nat :: i < k ==> Bit(x, i)
    ensures x == Pow2(k) - 1
  {
    if k > 0 {
      assert Bit(x, 0);
      forall i: nat | i < k - 1 ensures Bit(x / 2, i) {
        assert Bit(x, i + 1);
      }
      AllOnes(x / 2, k - 1);
    }
  }

  // ------------------------------------------------------------------ lumbre_next_power_of_2

  /** The test LUMBRE_IS_POWER_OF_TWO. */
  predicate PowerTest(n: nat) {
    n != 0 && And(n, n - 1) == 0
  }

  ghost predicate IsPowerOfTwo(n: nat) {
    exists k: nat :: n == Pow2(k)
  }

  lemma {:induction false} AndSelf(x: nat)
    ensures And(x, x) == x
  {
    if x > 0 {
      AndSelf(x / 2);
    }
  }

  lemma {:induction false} PowerTestCorrect(n: nat)
    ensures PowerTest(n) <==> IsPowerOfTwo(n)
  {
    if n == 1 {
      assert n == Pow2(0);
    } else if n > 1 {
      if n % 2 == 1 {
        AndSelf(n / 2);
        assert (n - 1) / 2 == n / 2;
        assert !PowerTest(n);
        forall k: nat ensures n != Pow2(k) { }
      } else {
        PowerTestCorrect(n / 2);
        assert (n - 1) / 2 == n / 2 - 1;
        assert PowerTest(n) == PowerTest(n / 2);
        if IsPowerOfTwo(n / 2) {
          var k: nat :| n / 2 == Pow2(k);
          assert n == Pow2(k + 1);
        }
        if IsPowerOfTwo(n) {
          var k: nat :| n == Pow2(k);
          assert n / 2 == Pow2(k - 1);
        }
      }
    }
  }

  ghost predicate LeastPowerOfTwoAtLeast(r: nat, v: nat) {
    && IsPowerOfTwo(r)
    && v <= r
    && forall k: nat :: v <= Pow2(k) ==> r <= Pow2(k)
  }

  /** Below `2^k`, with the top `s` of the `k` bits all set. */
  ghost predicate TopBitsSet(x: nat, k: nat, s: nat) {
    x < Pow2(k) && forall i: nat :: k - s <= i < k ==> Bit(x, i)
  }

  lemma {:induction false} BitLength(x: nat) returns (k: nat)
    requires x > 0
    ensures k > 0 && Pow2(k - 1) <= x && TopBitsSet(x, k, 1)
  {
    if x == 1 {
      k := 1;
    } else {
      var j := BitLength(x / 2);
      k := j + 1;
      assert Bit(x / 2, j - 1);
    }
  }

  /** One smearing step `x |= x >> s` doubles the number of set top bits. */
  lemma SmearStep(x: nat, k: nat, s: nat)
    requires TopBitsSet(x, k, s)
    ensures TopBitsSet(Or(x, Shr(x, s)), k, 2 * s)
  {
    ShrBit(x, s, 0);
    OrBound(x, Shr(x, s), k);
    forall i: nat | k - 2 * s <= i < k ensures Bit(Or(x, Shr(x, s)), i) {
      OrBit(x, Shr(x, s), i);
      ShrBit(x, s, i);
    }
  }

  /** The statement `x |= x >> s`. */
  method Smear(x: nat, s: nat, ghost k: nat) returns (y: nat)
    requires TopBitsSet(x, k, s)
    ensures TopBitsSet(y, k, 2 * s)
  {
    y := Or(x, Shr(x, s));
    SmearStep(x, k, s);
  }

  method SmearAll(x: nat, ghost k: nat) returns (y: nat)
    requires TopBitsSet(x, k, 1)
    ensures TopBitsSet(y, k, 32)
  {
    y := Smear(x, 1, k);
    y := Smear(y, 2, k);
    y := Smear(y, 4, k);
    y := Smear(y, 8, k);
    y := Smear(y, 16, k);
  }

  /** Bit smearing computes the least power of two not below its argument (0 counts as 1). */
  method NextPowerOfTwo(v: nat) returns (r: nat)
    requires v < U32
    ensures v == 0 ==> r == 1
    ensures 1 <= v <= TOP_POWER ==> LeastPowerOfTwoAtLeast(r, v)
    ensures v > TOP_POWER ==> r == 0
  {
    if v == 0 {
      return 1;
    }
    if PowerTest(v) {
      PowerIsItsOwnBound(v);
      return v;
    }
    OneIsPower(v);
    var x := v - 1;
    ghost var k := BitLength(x);
    x := SmearAll(x, k);
    SmearedAll(x, k, v);
    r := (x + 1) % U32;
  }

  lemma OneIsPower(v: nat)
    requires v > 0 && !PowerTest(v)
    ensures v > 1
  {
    assert And(1, 0) == 0;
  }

  lemma PowerIsItsOwnBound(v: nat)
    requires PowerTest(v) && v < U32
    ensures v <= TOP_POWER && LeastPowerOfTwoAtLeast(v, v)
  {
    PowerTestCorrect(v);
    var k: nat :| v == Pow2(k);
    Pow2Values();
    Pow2Order(k, 31);
    Pow2Order(32, k);
  }

  lemma SmearedAll(x: nat, k: nat, v: nat)
    requires TopBitsSet(x, k, 32)
    requires k > 0 && v < U32 && Pow2(k - 1) < v <= Pow2(k)
    ensures x + 1 <= U32
    ensures v <= TOP_POWER ==> x + 1 < U32 && LeastPowerOfTwoAtLeast(x + 1, v)
    ensures v > TOP_POWER ==> x + 1 == U32
  {
    Pow2Values();
    Pow2Order(32, k - 1);
    AllOnes(x, k);
    Pow2Order(k, 31);
    Pow2Order(31, k - 1);
    Pow2Order(k, 32);
    if v <= TOP_POWER {
      forall j: nat | v <= Pow2(j) ensures x + 1 <= Pow2(j) {
        Pow2Order(j, k - 1);
        Pow2Order(k, j);
      }
    }
  }
}
