/**
 * Unsigned 16-bit arithmetic as C performs it on `uint16_t`, and the
 * power-of-two facts that make ring positions computed with a mask agree
 * with positions computed modulo the ring size.
 */
module Bits {

  const U16_MODULUS: int := 0x1_0000

  /** The values of a C `uint16_t`. */
  type u16 = x: int | 0 <= x < 0x1_0000
  /** The values of a C `uint32_t`. */
  type u32 = x: int | 0 <= x < 0x1_0000_0000
  /** The values of a C `uint64_t`. */
  type u64 = x: int | 0 <= x < 0x1_0000_0000_0000_0000

  /** Conversion of any C integer value to `uint16_t`: reduction modulo 2^16
      (Dafny's `%` is Euclidean, so a negative difference lands in range too). */
  function Wrap16(x: int): (r: u16)
    ensures exists k: int :: x == k * U16_MODULUS + r
  {
    var r := x % U16_MODULUS;
    assert x == (x / U16_MODULUS) * U16_MODULUS + r;
    r
  }

  /** `a - b` evaluated on two `uint16_t` operands and stored back in a
      `uint16_t`: the number of increments that take `b` to `a`. */
  function Sub16(a: u16, b: u16): (r: u16)
    ensures Wrap16(b + r) == a
  {
    Wrap16(a - b)
  }

  /** `a & b` on non-negative integers, bit by bit from the least significant. */
  function BitAnd(a: nat, b: nat): nat
    decreases a
  {
    if a == 0 || b == 0 then 0
    else 2 * BitAnd(a / 2, b / 2) + (if a % 2 == 1 && b % 2 == 1 then 1 else 0)
  }

  /** n is a power of two (1, 2, 4, ...). */
  predicate IsPow2(n: int)
    decreases if n < 0 then 0 else n
  {
    n == 1 || (n >= 2 && n % 2 == 0 && IsPow2(n / 2))
  }

  /** If x == n*a + c with 0 <= c < n, then c is the remainder of x by n. */
  lemma ModUnique(x: int, n: int, a: int, c: int)
    requires n > 0 && 0 <= c < n && x == n * a + c
    ensures x % n == c && x / n == a
  {
    var q, r := x / n, x % n;
    assert n * q + r == n * a + c;
    var d := q - a;
    assert n * d == c - r by {
      assert n * q == n * a + n * d;
    }
    if d >= 1 {
      MulAtLeast(n, d);
    } else if d <= -1 {
      MulAtLeast(n, -d);
    }
  }

  lemma MulAtLeast(n: int, d: int)
    requires n > 0 && d >= 1
    ensures n * d >= n
  {
    assert n * d == n + n * (d - 1);
  }

  /** Splitting off the lowest bit: for even n, x mod n is twice
      ((x/2) mod (n/2)) plus the lowest bit of x. */
  lemma ModHalf(x: nat, n: nat)
    requires n >= 2 && n % 2 == 0
    ensures x % n == 2 * ((x / 2) % (n / 2)) + x % 2
  {
    var h, q, r := n / 2, x / 2, x % 2;
    var a, b := q / h, q % h;
    assert q == h * a + b;
    assert x == 2 * q + r;
    assert x == n * a + (2 * b + r) by {
      calc {
        x;
        2 * (h * a + b) + r;
        (2 * h) * a + (2 * b + r);
      }
    }
    ModUnique(x, n, a, 2 * b + r);
  }

  /** Masking with n - 1 is reduction modulo n when n is a power of two:
      this is why the ring depth must be a power of two. */
  lemma {:induction false} MaskIsMod(x: nat, n: nat)
    requires IsPow2(n)
    ensures BitAnd(x, n - 1) == x % n
    decreases n
  {
    if n == 1 {
    } else if x == 0 {
    } else {
      MaskIsMod(x / 2, n / 2);
      assert (n - 1) / 2 == n / 2 - 1 && (n - 1) % 2 == 1;
      assert BitAnd(x, n - 1) == 2 * BitAnd(x / 2, n / 2 - 1) + x % 2;
      ModHalf(x, n);
    }
  }

  /** A power of two divides every power of two at least as large. */
  lemma {:induction false} Pow2DividesPow2(n: int, m: int)
    requires IsPow2(n) && IsPow2(m) && n <= m
    ensures m % n == 0
    decreases n
  {
    if n != 1 {
      Pow2DividesPow2(n / 2, m / 2);
      var a := (m / 2) / (n / 2);
      ModUnique(m / 2, n / 2, a, 0);
      ModUnique(m, n, a, 0);
    }
  }

  /** Every power of two up to 2^16 divides 2^16, so a 16-bit counter that
      wraps around does not disturb its position modulo the ring size. */
  lemma Pow2DividesModulus(n: int)
    requires IsPow2(n) && n <= U16_MODULUS
    ensures U16_MODULUS % n == 0
  {
    assert IsPow2(U16_MODULUS) by {
      assert IsPow2(1) && IsPow2(2) && IsPow2(4) && IsPow2(8) && IsPow2(16);
      assert IsPow2(32) && IsPow2(64) && IsPow2(128) && IsPow2(256);
      assert IsPow2(512) && IsPow2(1024) && IsPow2(2048) && IsPow2(4096);
      assert IsPow2(8192) && IsPow2(16384) && IsPow2(32768);
    }
    Pow2DividesPow2(n, U16_MODULUS);
  }

  /** Adding a multiple of n does not change the remainder by n. */
  lemma ModAddMultiple(x: int, n: int, t: int, y: int)
    requires n > 0 && x == n * t + y
    ensures x % n == y % n
  {
    var b, c := y / n, y % n;
    assert x == n * (t + b) + c by {
      assert y == n * b + c;
      assert n * t + n * b == n * (t + b);
    }
    ModUnique(x, n, t + b, c);
  }

  /** Reducing a counter to 16 bits keeps its position in a ring whose depth
      is a power of two no larger than 2^16. */
  lemma WrapKeepsResidue(x: int, n: int)
    requires IsPow2(n) && n <= U16_MODULUS
    ensures Wrap16(x) % n == x % n
  {
    Pow2DividesModulus(n);
    var m := U16_MODULUS / n;
    ModUnique(U16_MODULUS, n, m, 0);
    var k := x / U16_MODULUS;
    assert x == U16_MODULUS * k + Wrap16(x);
    assert x == n * (m * k) + Wrap16(x) by {
      assert U16_MODULUS * k == (n * m) * k == n * (m * k);
    }
    ModAddMultiple(x, n, m * k, Wrap16(x));
  }

  /** Adding a wrapped value and wrapping again is wrapping once. */
  lemma Wrap16AddWrap(x: int, d: int)
    ensures Wrap16(Wrap16(x) + d) == Wrap16(x + d)
  {
    ModAddMultiple(x + d, U16_MODULUS, x / U16_MODULUS, Wrap16(x) + d);
  }

  /** Two values less than n apart have different remainders by n. */
  lemma ModDistinct(x: int, d: int, n: int)
    requires 0 < d < n
    ensures (x + d) % n != x % n
  {
    var q, r := x / n, x % n;
    if r + d < n {
      ModUnique(x + d, n, q, r + d);
    } else {
      ModUnique(x + d, n, q + 1, r + d - n);
    }
  }

  /** The 16-bit difference of two wrapped counters is the true difference
      of the counters whenever that is below 2^16. */
  lemma Sub16AcrossWrap(produced: nat, consumed: nat)
    requires consumed <= produced < consumed + U16_MODULUS
    ensures Sub16(Wrap16(produced), Wrap16(consumed)) == produced - consumed
  {
    var a: int, b: int := Wrap16(produced), Wrap16(consumed);
    var t := produced / U16_MODULUS - consumed / U16_MODULUS;
    assert produced - consumed == U16_MODULUS * t + (a - b);
    ModAddMultiple(produced - consumed, U16_MODULUS, t, a - b);
    ModUnique(produced - consumed, U16_MODULUS, 0, produced - consumed);
  }
}
