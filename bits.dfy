/**
 * Fixed-width integer behaviour the floating-point code relies on: saturating
 * float-to-`i32` casts, two's-complement bit patterns, and the bitwise `&` and
 * `^` on non-negative integers, defined one bit at a time.
 */
module Bits {
  const I32Min: int := -0x8000_0000
  const I32Max: int := 0x7FFF_FFFF
  const U32Max: nat := 0xFFFF_FFFF

  function Pow2(k: nat): (p: nat)
    ensures 1 <= p
  {
    if k == 0 then 1 else 2 * Pow2(k - 1)
  }

  /** `f.floor() as i32`: Rust's float-to-integer cast saturates at the bounds. */
  function SaturateI32(n: int): (m: int)
    ensures I32Min <= m <= I32Max
    ensures I32Min <= n <= I32Max ==> m == n
    ensures n < I32Min ==> m == I32Min
    ensures I32Max < n ==> m == I32Max
  {
    if n < I32Min then I32Min else if I32Max < n then I32Max else n
  }

  /** The 32-bit two's-complement pattern of `x`, read as an unsigned number. */
  function Pattern32(x: int): (b: nat)
    ensures b < Pow2(32)
  {
    x % Pow2(32)
  }

  /** Bitwise AND. */
  function BitAnd(a: nat, b: nat): (r: nat)
    ensures r <= a && r <= b
    decreases a
  {
    if a == 0 || b == 0 then 0
    else 2 * BitAnd(a / 2, b / 2) + (if a % 2 == 1 && b % 2 == 1 then 1 else 0)
  }

  /** Bitwise XOR. */
  function BitXor(a: nat, b: nat): nat
    decreases a + b
  {
    if a == 0 then b
    else if b == 0 then a
    else 2 * BitXor(a / 2, b / 2) + (if a % 2 == b % 2 then 0 else 1)
  }

  /** Masking with `2^k - 1` keeps the low `k` bits: it is the remainder mod `2^k`. */
  lemma {:induction false} AndLowMask(a: nat, k: nat)
    ensures BitAnd(a, Pow2(k) - 1) == a % Pow2(k)
  {
    if k == 0 || a == 0 {
    } else {
      var m := Pow2(k - 1);
      AndLowMask(a / 2, k - 1);
      assert (Pow2(k) - 1) / 2 == m - 1 && (Pow2(k) - 1) % 2 == 1;
      HalfRemainder(a, m);
    }
  }

  /** `a mod 2m` is twice `(a / 2) mod m` plus the lowest bit of `a`. */
  lemma HalfRemainder(a: nat, m: nat)
    requires 1 <= m
    ensures a % (2 * m) == 2 * ((a / 2) % m) + a % 2
  {
    var q := a / 2;
    var r := a % 2;
    var s := q / m;
    var t := q % m;
    assert a == 2 * m * s + (2 * t + r);
    assert 0 <= 2 * t + r < 2 * m;
    ModUnique(a, 2 * m, s, 2 * t + r);
  }

  lemma ModUnique(a: int, m: int, s: int, r: int)
    requires 0 < m && a == m * s + r && 0 <= r < m
    ensures a % m == r
  {
    var s' := a / m;
    var r' := a % m;
    assert m * s' + r' == a;
    assert m * (s - s') == r' - r by { MulSub(m, s, s'); }
    if s < s' {
      MulAtLeast(m, s' - s);
      MulSub(m, s', s);
    } else if s' < s {
      MulAtLeast(m, s - s');
    }
  }

  lemma MulSub(m: int, a: int, b: int)
    ensures m * (a - b) == m * a - m * b
  {
  }

  lemma MulAtLeast(m: int, d: int)
    requires 0 < m && 1 <= d
    ensures m <= m * d
  {
  }

  /** The XOR of two `k`-bit numbers is a `k`-bit number. */
  lemma {:induction false} XorBelow(a: nat, b: nat, k: nat)
    requires a < Pow2(k) && b < Pow2(k)
    ensures BitXor(a, b) < Pow2(k)
    decreases k
  {
    if a != 0 && b != 0 {
      XorBelow(a / 2, b / 2, k - 1);
    }
  }

  /** Taking the 32-bit pattern first does not change the remainder mod `2^k`, `k <= 32`. */
  lemma PatternRemainder(x: int, k: nat)
    requires k <= 32
    ensures Pattern32(x) % Pow2(k) == x % Pow2(k)
  {
    PowAdd(k, 32 - k);
    RemainderOfRemainder(x, Pow2(k), Pow2(32 - k), Pow2(32));
  }

  /** Reducing mod a multiple `m * c` first does not change the remainder mod `m`. */
  lemma RemainderOfRemainder(x: int, m: int, c: int, mc: int)
    requires 0 < m && 0 < c && mc == m * c
    ensures (x % mc) % m == x % m
  {
    assert 0 < mc by { MulAtLeast(m, c); }
    var s := x / mc;
    var r := x % mc;
    var t := r / m;
    var u := r % m;
    assert x == mc * s + r;
    assert r == m * t + u;
    assert mc * s == m * (c * s);
    assert x == m * (c * s + t) + u;
    ModUnique(x, m, c * s + t, u);
  }

  lemma {:induction false} PowAdd(a: nat, b: nat)
    ensures Pow2(a + b) == Pow2(a) * Pow2(b)
  {
    if a != 0 {
      PowAdd(a - 1, b);
    }
  }

  lemma {:induction false} Pow2Increasing(k: nat, m: nat)
    requires k <= m
    ensures Pow2(k) <= Pow2(m)
    decreases m
  {
    if k < m {
      Pow2Increasing(k, m - 1);
    }
  }
}
