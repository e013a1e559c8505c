/** Bytes, and fixed-width integers as byte strings in either order. */
module Bytes {
  import Bits

  type Byte = x: int | 0 <= x < 256

  /** The number of values `n` bytes can hold. */
  function Range(n: nat): (r: nat)
    ensures r > 0
  {
    if n == 0 then 1 else 256 * Range(n - 1)
  }

  /** The low `n` bytes of `v`, least significant first. */
  function Le(v: nat, n: nat): (b: seq<Byte>)
    ensures |b| == n
    decreases n
  {
    if n == 0 then [] else [v % 256] + Le(v / 256, n - 1)
  }

  function FromLe(b: seq<Byte>): (v: nat)
    ensures v < Range(|b|)
  {
    if b == [] then 0 else b[0] + 256 * FromLe(b[1..])
  }

  /** The low `n` bytes of `v`, most significant first. */
  function Be(v: nat, n: nat): (b: seq<Byte>)
    ensures |b| == n
    decreases n
  {
    if n == 0 then [] else Be(v / 256, n - 1) + [v % 256]
  }

  function FromBe(b: seq<Byte>): (v: nat)
    ensures v < Range(|b|)
  {
    if b == [] then 0 else 256 * FromBe(b[..|b| - 1]) + b[|b| - 1]
  }

  lemma Ranges()
    ensures Range(1) == 0x100 && Range(2) == 0x1_0000 && Range(4) == 0x1_0000_0000
    ensures Range(8) == 0x1_0000_0000_0000_0000
  {
    assert Range(4) == 256 * Range(3);
    assert Range(6) == 256 * Range(5);
    assert Range(8) == 256 * Range(7);
  }

  lemma {:induction false} LeRoundTrip(v: nat, n: nat)
    requires v < Range(n)
    ensures FromLe(Le(v, n)) == v
    decreases n
  {
    if n > 0 {
      LeRoundTrip(v / 256, n - 1);
      assert Le(v, n)[1..] == Le(v / 256, n - 1);
    }
  }

  lemma {:induction false} BeRoundTrip(v: nat, n: nat)
    requires v < Range(n)
    ensures FromBe(Be(v, n)) == v
    decreases n
  {
    if n > 0 {
      BeRoundTrip(v / 256, n - 1);
      assert Be(v, n)[..n - 1] == Be(v / 256, n - 1);
    }
  }

  /** Dividing by a power of 256 in two steps. */
  lemma DivTwice(v: nat, n: nat)
    ensures v / 256 / Range(n) == v / Range(n + 1)
  {
    var r, q := Range(n), v / Range(n + 1);
    assert Range(n + 1) == 256 * r;
    assert v == q * (256 * r) + v % (256 * r);
    DivBy(v / 256, r, q, v / 256 - q * r);
  }

  lemma DivBy(x: int, m: int, q: int, r: int)
    requires m > 0 && x == q * m + r && 0 <= r < m
    ensures x / m == q
  {
    Bits.DivModUnique(x, m, q, r);
  }

  /** Byte `i` of the big-endian form is the digit of weight 256^(n-1-i). */
  lemma {:induction false} BeDigit(v: nat, n: nat, i: nat)
    requires i < n
    ensures Be(v, n)[i] == v / Range(n - 1 - i) % 256
    decreases n
  {
    if i < n - 1 {
      BeDigit(v / 256, n - 1, i);
      DivTwice(v, n - 2 - i);
    }
  }

  /** Byte `i` of the little-endian form is the digit of weight 256^i. */
  lemma {:induction false} LeDigit(v: nat, n: nat, i: nat)
    requires i < n
    ensures Le(v, n)[i] == v / Range(i) % 256
    decreases n
  {
    if i > 0 {
      LeDigit(v / 256, n - 1, i - 1);
      DivTwice(v, i - 1);
    }
  }

  /** Exchange the byte order of the low `n` bytes of `v` (the compiler's byte-swap builtins). */
  function ByteSwap(v: nat, n: nat): nat {
    FromBe(Le(v, n))
  }

  lemma {:induction false} LeOfBe(b: seq<Byte>)
    ensures Le(FromBe(b), |b|) == Reversed(b)
  {
    if b != [] {
      var init, last := b[..|b| - 1], b[|b| - 1];
      LeOfBe(init);
      LeFirst(FromBe(init), last, |init|);
    }
  }

  lemma LeFirst(high: nat, low: Byte, n: nat)
    ensures Le(256 * high + low, n + 1) == [low] + Le(high, n)
  {
    assert (256 * high + low) % 256 == low && (256 * high + low) / 256 == high;
  }

  function Reversed(b: seq<Byte>): (r: seq<Byte>)
    ensures |r| == |b|
  {
    if b == [] then [] else [b[|b| - 1]] + Reversed(b[..|b| - 1])
  }

  lemma {:induction false} ReversedCons(x: Byte, b: seq<Byte>)
    ensures Reversed([x] + b) == Reversed(b) + [x]
  {
    if b != [] {
      ReversedCons(x, b[..|b| - 1]);
      assert ([x] + b)[..|b|] == [x] + b[..|b| - 1];
    }
  }

  /** Storing a byte-swapped value in little-endian memory lays it out big-endian. */
  lemma {:induction false} SwapStoresBigEndian(v: nat, n: nat)
    ensures Le(ByteSwap(v, n), n) == Be(v, n)
  {
    LeOfBe(Le(v, n));
    ReversedLe(v, n);
  }

  lemma {:induction false} ReversedLe(v: nat, n: nat)
    ensures Reversed(Le(v, n)) == Be(v, n)
    decreases n
  {
    if n > 0 {
      ReversedLe(v / 256, n - 1);
      ReversedCons(v % 256, Le(v / 256, n - 1));
    }
  }
}
