/**
 Machine integers as mathematical ones.

 The bitwise operators of the source are defined here digit by digit, so that what
 `|`, `&`, `^` and `<<` do to a number is proved and not written into the model.
 */
module Bits {
  type byte = x: int | 0 <= x < 0x100
  type U32 = x: int | 0 <= x < 0x1_0000_0000
  type U64 = x: int | 0 <= x < 0x1_0000_0000_0000_0000
  type I32 = x: int | -0x8000_0000 <= x < 0x8000_0000

  const U32_MAX: U32 := 0xFFFF_FFFF

  function Pow2(k: nat): (p: nat)
    ensures p > 0
  {
    if k == 0 then 1 else 2 * Pow2(k - 1)
  }

  function Or(a: nat, b: nat): nat
    decreases a + b
  {
    if a == 0 then b else if b == 0 then a
    else (if a % 2 == 1 || b % 2 == 1 then 1 else 0) + 2 * Or(a / 2, b / 2)
  }

  function And(a: nat, b: nat): nat
    decreases a
  {
    if a == 0 || b == 0 then 0
    else (if a % 2 == 1 && b % 2 == 1 then 1 else 0) + 2 * And(a / 2, b / 2)
  }

  function Xor(a: nat, b: nat): nat
    decreases a + b
  {
    if a == 0 then b else if b == 0 then a
    else (if a % 2 != b % 2 then 1 else 0) + 2 * Xor(a / 2, b / 2)
  }

  /** `n << k` on a 64-bit word: bits pushed past the top are lost. */
  function Shl64(n: U64, k: nat): U64 {
    n * Pow2(k) % 0x1_0000_0000_0000_0000
  }

  /** `n as u32` and `n as i32`: the low 32 bits, in two's complement for i32. */
  function AsU32(n: int): U32 {
    n % 0x1_0000_0000
  }

  function AsI32(n: nat): I32 {
    var low := n % 0x1_0000_0000;
    if low < 0x8000_0000 then low else low - 0x1_0000_0000
  }

  lemma {:induction false} OrIsAdditionOnDisjointBits(m: nat, x: nat, k: nat)
    requires x < Pow2(k)
    ensures Or(m * Pow2(k), x) == m * Pow2(k) + x
  {
    if k == 0 || x == 0 || m == 0 {
    } else {
      var high := m * Pow2(k - 1);
      assert m * Pow2(k) == 2 * high by { HalveProduct(m, Pow2(k - 1)); }
      assert high > 0;
      assert (2 * high) % 2 == 0 && (2 * high) / 2 == high;
      OrIsAdditionOnDisjointBits(m, x / 2, k - 1);
      assert Or(2 * high, x) == (if x % 2 == 1 then 1 else 0) + 2 * Or(high, x / 2);
    }
  }

  lemma HalveProduct(m: nat, p: nat)
    ensures m * (2 * p) == 2 * (m * p)
  {
  }

  lemma {:induction false} AndLowMaskIsModulo(a: nat, k: nat)
    ensures And(a, Pow2(k) - 1) == a % Pow2(k)
  {
    if k == 0 {
      assert a % 1 == 0;
    } else {
      AndLowMaskIsModulo(a / 2, k - 1);
      AndMaskStep(a, Pow2(k - 1), Pow2(k));
    }
  }

  lemma AndMaskStep(a: nat, p: nat, double: nat)
    requires p > 0 && double == 2 * p
    requires And(a / 2, p - 1) == a / 2 % p
    ensures And(a, double - 1) == a % double
  {
    AndOddMask(a, p - 1);
    ModuloByHalves(a, p);
  }

  lemma AndOddMask(a: nat, m: nat)
    ensures And(a, 2 * m + 1) == a % 2 + 2 * And(a / 2, m)
  {
    assert (2 * m + 1) % 2 == 1 && (2 * m + 1) / 2 == m;
  }

  lemma ModuloByHalves(a: nat, p: nat)
    requires p > 0
    ensures a % (2 * p) == a % 2 + 2 * (a / 2 % p)
  {
    var q, r := a / 2 / p, a / 2 % p;
    assert a / 2 == q * p + r;
    assert a == q * (2 * p) + (a % 2 + 2 * r);
    EuclideanUnique(a, 2 * p, q, a % 2 + 2 * r);
  }

  lemma EuclideanUnique(a: int, d: int, q: int, r: int)
    requires d > 0 && 0 <= r < d && a == q * d + r
    ensures a / d == q && a % d == r
  {
    MultipleIsFar(q - a / d, d);
    assert (q - a / d) * d == a % d - r;
  }

  lemma ModuloPlusOne(x: int, m: int)
    requires m > 0
    ensures (x % m + 1) % m == (x + 1) % m
  {
    var q, r := x / m, x % m;
    assert x == q * m + r;
    if r + 1 < m {
      EuclideanUnique(x + 1, m, q, r + 1);
      EuclideanUnique(r + 1, m, 0, r + 1);
    } else {
      assert (q + 1) * m == q * m + m;
      EuclideanUnique(x + 1, m, q + 1, 0);
      EuclideanUnique(r + 1, m, 1, 0);
    }
  }

  lemma ModuloOfSelfIff(x: nat, m: int)
    requires m > 0
    ensures x % m == x <==> x < m
  {
    if x < m {
      EuclideanUnique(x, m, 0, x);
    }
  }

  /** Reducing before multiplying and adding changes nothing modulo m. */
  lemma ReduceBefore(c: int, k: int, low: int, m: int)
    requires m > 0
    ensures (c % m * k + low) % m == (c * k + low) % m
  {
    var q, r := c / m, c % m;
    var x := r * k + low;
    Regroup(c, q, r, k, m);
    assert x == x / m * m + x % m;
    assert (q * k + x / m) * m == q * k * m + x / m * m;
    EuclideanUnique(c * k + low, m, q * k + x / m, x % m);
  }

  lemma Regroup(c: int, q: int, r: int, k: int, m: int)
    requires c == q * m + r
    ensures c * k == q * k * m + r * k
  {
    assert (q * m) * k == q * (m * k) == q * (k * m) == (q * k) * m;
    assert (q * m + r) * k == (q * m) * k + r * k;
  }

  lemma MultipleIsFar(k: int, d: int)
    requires d > 0
    ensures k >= 1 ==> k * d >= d
    ensures k <= -1 ==> k * d <= -d
  {
  }

  /** Testing one bit: `a & (1 << k) > 0` exactly when digit k of `a` is set. */
  lemma {:induction false} AndOneBit(a: nat, k: nat)
    ensures And(a, Pow2(k)) > 0 <==> a / Pow2(k) % 2 == 1
  {
    if a == 0 {
    } else if k == 0 {
      assert And(a, 1) == a % 2 + 2 * And(a / 2, 0);
    } else {
      var p := Pow2(k - 1);
      AndEven(a, p);
      AndOneBit(a / 2, k - 1);
      DivideByHalves(a, p);
      hide And;
    }
  }

  lemma AndEven(a: nat, p: nat)
    ensures And(a, 2 * p) == 2 * And(a / 2, p)
  {
    assert (2 * p) % 2 == 0 && (2 * p) / 2 == p;
  }

  lemma DivideByHalves(a: nat, p: nat)
    requires p > 0
    ensures a / (2 * p) == a / 2 / p
  {
    var q, r := a / 2 / p, a / 2 % p;
    assert a / 2 == q * p + r;
    assert a == q * (2 * p) + (a % 2 + 2 * r);
    EuclideanUnique(a, 2 * p, q, a % 2 + 2 * r);
  }

  /** Unmasking undoes masking. */
  lemma {:induction false} XorTwice(a: nat, m: nat)
    ensures Xor(Xor(a, m), m) == a
    decreases a + m
  {
    if a == 0 || m == 0 {
      XorSelf(m);
    } else {
      var low := if a % 2 != m % 2 then 1 else 0;
      var rest := Xor(a / 2, m / 2);
      assert Xor(a, m) == low + 2 * rest;
      assert (low + 2 * rest) / 2 == rest && (low + 2 * rest) % 2 == low;
      XorTwice(a / 2, m / 2);
      if low + 2 * rest != 0 {
        assert Xor(low + 2 * rest, m) == (if low != m % 2 then 1 else 0) + 2 * Xor(rest, m / 2);
      } else {
        assert Xor(rest, m / 2) == m / 2;
      }
    }
  }

  lemma {:induction false} XorSelf(m: nat)
    ensures Xor(m, m) == 0
  {
    if m == 0 {
    } else {
      XorSelf(m / 2);
    }
  }

  lemma {:induction false} XorBound(a: nat, b: nat, k: nat)
    requires a < Pow2(k) && b < Pow2(k)
    ensures Xor(a, b) < Pow2(k)
  {
    if k == 0 || a == 0 || b == 0 {
    } else {
      XorBound(a / 2, b / 2, k - 1);
    }
  }

  // ---------- little-endian words ----------

  function Pow256(k: nat): nat {
    if k == 0 then 1 else 0x100 * Pow256(k - 1)
  }

  /** The low `k` bytes of `n`, lowest first. */
  function LittleEndian(n: nat, k: nat): (s: seq<byte>)
    ensures |s| == k
  {
    if k == 0 then [] else [n % 0x100] + LittleEndian(n / 0x100, k - 1)
  }

  function FromLittleEndian(s: seq<byte>): nat {
    if s == [] then 0 else s[0] + 0x100 * FromLittleEndian(s[1..])
  }

  lemma {:induction false} LittleEndianRoundTrip(n: nat, k: nat)
    requires n < Pow256(k)
    ensures FromLittleEndian(LittleEndian(n, k)) == n
  {
    if k == 0 {
    } else {
      LittleEndianRoundTrip(n / 0x100, k - 1);
      assert LittleEndian(n, k)[1..] == LittleEndian(n / 0x100, k - 1);
    }
  }

  lemma {:induction false} FromLittleEndianBound(s: seq<byte>)
    ensures FromLittleEndian(s) < Pow256(|s|)
  {
    if s == [] {
    } else {
      FromLittleEndianBound(s[1..]);
    }
  }

  lemma Pow256Of4()
    ensures Pow256(4) == 0x1_0000_0000
  {
    assert Pow256(2) == 0x1_0000;
  }
}
