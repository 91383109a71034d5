// Machine integers of the kernel's targets, written on unbounded integers:
// unsigned 32 and 64 bit words, the signed 64 bit view of a word, and the
// bitwise operations the drivers use to split a word in two halves.
// Powers of two are written out as literals so that products with them stay linear.

module Word {

  type u32 = x: int | 0 <= x < 0x1_0000_0000
  type u64 = x: int | 0 <= x < 0x1_0000_0000_0000_0000
  type i64 = x: int | -0x8000_0000_0000_0000 <= x < 0x8000_0000_0000_0000

  /** Unsigned conversion or arithmetic: the value modulo two to the 64. */
  function Wrap64(x: int): (r: u64)
    ensures 0 <= x < 0x1_0000_0000_0000_0000 ==> r == x
  {
    x % 0x1_0000_0000_0000_0000
  }

  function Wrap32(x: int): (r: u32)
    ensures 0 <= x < 0x1_0000_0000 ==> r == x
  {
    x % 0x1_0000_0000
  }

  /** static_cast<long long> of a word: two's complement. */
  function Signed(x: u64): (r: i64)
    ensures x < 0x8000_0000_0000_0000 ==> r == x
    ensures Wrap64(r) == x
  {
    if x < 0x8000_0000_0000_0000 then x else x - 0x1_0000_0000_0000_0000
  }

  /** Converting a difference of words to signed gives the true difference when that fits. */
  lemma SignedDifference(x: u64, y: u64)
    requires -0x8000_0000_0000_0000 <= x - y < 0x8000_0000_0000_0000
    ensures Signed(Wrap64(x - y)) == x - y
  {
  }

  function Abs(x: int): nat
  {
    if x >= 0 then x else -x
  }

  // ----- multiplication and division

  lemma MulMono(a: nat, b: nat, c: nat, d: nat)
    requires a <= c && b <= d
    ensures a * b <= c * d
  {
    assert a * b <= a * d;
    assert a * d <= c * d;
  }

  lemma OrderTimes(x: int, y: int, n: nat)
    requires x <= y
    ensures x * n <= y * n
  {
    MulMono(0, n, y - x, n);
    assert (y - x) * n == y * n - x * n;
  }

  lemma CancelLess(x: int, y: int, n: nat)
    requires x * n < y * n
    ensures x < y
  {
    if x >= y { OrderTimes(y, x, n); }
  }

  lemma CancelLeq(x: int, y: int, n: nat)
    requires n > 0 && x * n <= y * n
    ensures x <= y
  {
    if x > y { OrderTimes(y + 1, x, n); }
  }

  lemma DivModUnique(x: int, d: int, q: int, r: int)
    requires d > 0 && x == q * d + r && 0 <= r < d
    ensures x / d == q && x % d == r
  {
    var q', r' := x / d, x % d;
    assert x == q' * d + r';
    assert (q - q') * d == r' - r;
    if q > q' {
      MulMono(1, d, q - q', d);
    } else if q < q' {
      MulMono(1, d, q' - q, d);
    }
  }

  // ----- bitwise operations

  /** Bitwise or of two naturals, bit by bit. */
  function BitOr(a: nat, b: nat): nat
    decreases a + b
  {
    if a == 0 && b == 0 then 0
    else (if a % 2 == 1 || b % 2 == 1 then 1 else 0) + 2 * BitOr(a / 2, b / 2)
  }

  /** Bitwise and of two naturals, bit by bit. */
  function BitAnd(a: nat, b: nat): nat
    decreases a + b
  {
    if a == 0 && b == 0 then 0
    else (if a % 2 == 1 && b % 2 == 1 then 1 else 0) + 2 * BitAnd(a / 2, b / 2)
  }

  function Pow2(bits: nat): (r: nat)
    ensures r > 0
  {
    if bits == 0 then 1 else 2 * Pow2(bits - 1)
  }

  lemma {:induction false} Pow2Monotone(a: nat, b: nat)
    requires a <= b
    ensures Pow2(a) <= Pow2(b)
    decreases b
  {
    if a < b { Pow2Monotone(a, b - 1); }
  }

  lemma {:induction false} BitOrZero(a: nat)
    ensures BitOr(a, 0) == a && BitOr(0, a) == a
  {
    if a > 0 { BitOrZero(a / 2); }
  }

  lemma {:induction false} BitAndZero(a: nat)
    ensures BitAnd(a, 0) == 0 && BitAnd(0, a) == 0
  {
    if a > 0 { BitAndZero(a / 2); }
  }

  /** Or-ing a counter below 2^bits into a multiple of 2^bits is adding it. */
  lemma {:induction false} BitOrDisjoint(q: nat, c: nat, bits: nat)
    requires c < Pow2(bits)
    ensures BitOr(q * Pow2(bits), c) == q * Pow2(bits) + c
  {
    if bits == 0 {
      BitOrZero(q);
    } else {
      BitOrDisjoint(q, c / 2, bits - 1);
      DoubleProduct(q, Pow2(bits - 1));
      DoubleOr(q * Pow2(bits - 1), c);
    }
  }

  lemma DoubleProduct(q: nat, p: nat)
    ensures q * (2 * p) == 2 * (q * p)
  {
  }

  lemma DoubleOr(h: nat, c: nat)
    ensures BitOr(2 * h, c) == 2 * BitOr(h, c / 2) + c % 2
  {
    assert 2 * h % 2 == 0 && 2 * h / 2 == h;
  }

  /** Masking with 2^bits - 1 is the remainder. */
  lemma {:induction false} BitAndLower(x: nat, bits: nat)
    ensures BitAnd(x, Pow2(bits) - 1) == x % Pow2(bits)
  {
    if bits == 0 {
      BitAndZero(x);
    } else {
      var p := Pow2(bits - 1);
      BitAndLower(x / 2, bits - 1);
      assert Pow2(bits) - 1 == 2 * (p - 1) + 1;
      HalfRemainder(x, p);
    }
  }

  lemma HalfRemainder(x: nat, p: nat)
    requires p > 0
    ensures x % (2 * p) == 2 * ((x / 2) % p) + x % 2
  {
    var q, r := (x / 2) / p, (x / 2) % p;
    assert x == 2 * (q * p + r) + x % 2;
    assert x == q * (2 * p) + (2 * r + x % 2);
    DivModUnique(x, 2 * p, q, 2 * r + x % 2);
  }

  /** Masking a word with the complement of 2^bits - 1 clears the remainder. */
  lemma {:induction false} BitAndUpper(x: nat, bits: nat, width: nat)
    requires bits <= width && x < Pow2(width)
    ensures Pow2(bits) <= Pow2(width)
    ensures BitAnd(x, Pow2(width) - Pow2(bits)) == x - x % Pow2(bits)
    decreases width
  {
    Pow2Monotone(bits, width);
    if bits == 0 {
      BitAndLower(x, width);
      FullMask(x, Pow2(width));
    } else {
      BitAndUpper(x / 2, bits - 1, width - 1);
      HalfRemainder(x, Pow2(bits - 1));
      DoubleMask(x, Pow2(width - 1) - Pow2(bits - 1));
      assert x == 2 * (x / 2) + x % 2;
    }
  }

  lemma FullMask(x: nat, p: nat)
    requires x < p
    ensures x % p == x && x % 1 == 0
  {
  }

  lemma DoubleMask(x: nat, m: nat)
    ensures BitAnd(x, 2 * m) == 2 * BitAnd(x / 2, m)
  {
    assert (2 * m) % 2 == 0 && (2 * m) / 2 == m;
    if x == 0 && m == 0 {
    } else {
      assert x + 2 * m > 0;
    }
  }
}
