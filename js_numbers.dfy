/** JavaScript's 32-bit integer operators (`|`, `&`, `& ~`, `<<`, `>>`). Each converts
    its operands with ToUint32/ToInt32; the bitwise parts are defined bit by bit on
    naturals so that their properties are proved arithmetically. */
module JsNumbers {
  const TWO_32: int := 0x1_0000_0000
  const TWO_31: int := 0x8000_0000

  function Pow2(n: nat): (r: nat)
    ensures r >= 1
  {
    if n == 0 then 1 else 2 * Pow2(n - 1)
  }

  /** ToUint32: the operand modulo 2^32. */
  function ToUint32(x: int): (r: int)
    ensures 0 <= r < TWO_32
    ensures 0 <= x < TWO_32 ==> r == x
  {
    x % TWO_32
  }

  /** ToInt32: the operand modulo 2^32, read as a signed 32-bit number. */
  function ToInt32(x: int): (r: int)
    ensures -TWO_31 <= r < TWO_31
    ensures 0 <= x < TWO_31 ==> r == x
  {
    var u := ToUint32(x);
    if u >= TWO_31 then u - TWO_32 else u
  }

  /** Bit k of x. */
  function Bit(x: nat, k: nat): (r: nat)
    ensures r <= 1
  {
    if k == 0 then x % 2 else Bit(x / 2, k - 1)
  }

  /** The low n bits of `a | b`. */
  function BitOr(a: nat, b: nat, n: nat): nat {
    if n == 0 then 0
    else (if a % 2 == 1 || b % 2 == 1 then 1 else 0) + 2 * BitOr(a / 2, b / 2, n - 1)
  }

  /** The low n bits of `a & b`. */
  function BitAnd(a: nat, b: nat, n: nat): nat {
    if n == 0 then 0
    else (if a % 2 == 1 && b % 2 == 1 then 1 else 0) + 2 * BitAnd(a / 2, b / 2, n - 1)
  }

  /** The low n bits of `a & ~b`. */
  function BitAndNot(a: nat, b: nat, n: nat): nat {
    if n == 0 then 0
    else (if a % 2 == 1 && b % 2 == 0 then 1 else 0) + 2 * BitAndNot(a / 2, b / 2, n - 1)
  }

  /** `a | b` */
  function Or(a: int, b: int): int {
    ToInt32(BitOr(ToUint32(a), ToUint32(b), 32))
  }

  /** `a & b` */
  function And(a: int, b: int): int {
    ToInt32(BitAnd(ToUint32(a), ToUint32(b), 32))
  }

  /** `a & ~b` */
  function AndNot(a: int, b: int): int {
    ToInt32(BitAndNot(ToUint32(a), ToUint32(b), 32))
  }

  /** `a << n` */
  function ShiftLeft(a: int, n: nat): int
    requires n < 32
  {
    ToInt32(ToUint32(a) * Pow2(n))
  }

  /** `a >> n`: ToInt32(a) divided by 2^n, rounded towards minus infinity. */
  function ShiftRight(a: int, n: nat): int
    requires n < 32
  {
    ToInt32(a) / Pow2(n)
  }

  lemma Pow2Values()
    ensures Pow2(1) == 2 && Pow2(2) == 4 && Pow2(3) == 8 && Pow2(4) == 16 && Pow2(5) == 32
    ensures Pow2(7) == 0x80 && Pow2(8) == 256 && Pow2(31) == TWO_31 && Pow2(32) == TWO_32
  {
    assert Pow2(8) == 256;
    assert Pow2(16) == 0x1_0000;
    assert Pow2(24) == 0x100_0000;
  }

  /** A multiple of m strictly between -m and m is zero. */
  lemma MulBounded(m: int, d: int, e: int)
    requires m > 0 && m * d == e && -m < e < m
    ensures d == 0
  {
    if d != 0 {
      MulAbs(m, d);
    }
  }

  lemma MulAbs(m: int, d: int)
    requires m > 0 && d != 0
    ensures m * d >= m || m * d <= -m
  {
    if d > 0 {
      MulAtLeast(m, d);
    } else {
      MulAtLeast(m, -d);
      assert m * d == -(m * -d);
    }
  }

  lemma {:induction false} MulAtLeast(m: int, d: int)
    requires m > 0 && d >= 1
    ensures m * d >= m
  {
    if d > 1 {
      MulAtLeast(m, d - 1);
      assert m * d == m * (d - 1) + m;
    }
  }

  /** Euclidean division is unique. */
  lemma DivModUnique(b: int, m: int, t: int, u: int)
    requires m > 0 && b == m * t + u && 0 <= u < m
    ensures b / m == t && b % m == u
  {
    var q, r := b / m, b % m;
    assert m * (q - t) == u - r;
    MulBounded(m, q - t, u - r);
  }

  /** The low n bits of b split into its lowest bit and the low n-1 bits of b / 2. */
  lemma ModPow2Split(b: nat, n: nat)
    requires n >= 1
    ensures b % Pow2(n) == b % 2 + 2 * ((b / 2) % Pow2(n - 1))
  {
    var h := Pow2(n - 1);
    var q, s := b / 2, (b / 2) % h;
    var t := q / h;
    assert q == h * t + s;
    assert b == 2 * q + b % 2;
    assert b == (2 * h) * t + (b % 2 + 2 * s);
    DivModUnique(b, Pow2(n), t, b % 2 + 2 * s);
  }

  lemma {:induction false} BitOrZero(b: nat, n: nat)
    requires b < Pow2(n)
    ensures BitOr(0, b, n) == b && BitOr(b, 0, n) == b
  {
    if n > 0 {
      assert b / 2 < Pow2(n - 1);
      BitOrZero(b / 2, n - 1);
    }
  }

  lemma {:induction false} BitAndZero(a: nat, n: nat)
    ensures BitAnd(a, 0, n) == 0
  {
    if n > 0 {
      BitAndZero(a / 2, n - 1);
    }
  }

  lemma {:induction false} BitAndNotZero(a: nat, n: nat)
    requires a < Pow2(n)
    ensures BitAndNot(a, 0, n) == a
  {
    if n > 0 {
      assert a / 2 < Pow2(n - 1);
      BitAndNotZero(a / 2, n - 1);
    }
  }

  lemma {:induction false} BitAndNotZeroLeft(m: nat, n: nat)
    ensures BitAndNot(0, m, n) == 0
  {
    if n > 0 {
      BitAndNotZeroLeft(m / 2, n - 1);
    }
  }

  /** OR-ing in the single bit k sets that bit and leaves the rest of the number alone. */
  lemma {:induction false} BitOrPow2(a: nat, k: nat, n: nat)
    requires k < n && a < Pow2(n)
    ensures BitOr(a, Pow2(k), n) == if Bit(a, k) == 1 then a else a + Pow2(k)
  {
    assert a / 2 < Pow2(n - 1);
    if k == 0 {
      BitOrZero(a / 2, n - 1);
      assert BitOr(a, 1, n) == 1 + 2 * BitOr(a / 2, 0, n - 1);
    } else {
      var p := Pow2(k - 1);
      assert Pow2(k) == 2 * p;
      BitOrPow2(a / 2, k - 1, n - 1);
      var r := BitOr(a / 2, p, n - 1);
      assert BitOr(a, 2 * p, n) == a % 2 + 2 * r;
      assert Bit(a, k) == Bit(a / 2, k - 1);
    }
  }

  /** AND-ing with the complement of the single bit k clears that bit and leaves the rest. */
  lemma {:induction false} BitAndNotPow2(a: nat, k: nat, n: nat)
    requires k < n && a < Pow2(n)
    ensures BitAndNot(a, Pow2(k), n) == if Bit(a, k) == 1 then a - Pow2(k) else a
  {
    assert a / 2 < Pow2(n - 1);
    if k == 0 {
      BitAndNotZero(a / 2, n - 1);
      assert BitAndNot(a, 1, n) == 2 * BitAndNot(a / 2, 0, n - 1);
    } else {
      var p := Pow2(k - 1);
      assert Pow2(k) == 2 * p;
      BitAndNotPow2(a / 2, k - 1, n - 1);
      var r := BitAndNot(a / 2, p, n - 1);
      assert BitAndNot(a, 2 * p, n) == a % 2 + 2 * r;
      assert Bit(a, k) == Bit(a / 2, k - 1);
    }
  }

  /** With an odd mask, the lowest bit of a passes and the rest is the shifted AND. */
  lemma BitAndOddStep(a: nat, m: nat, n: nat)
    requires n >= 1 && m % 2 == 1
    ensures BitAnd(a, m, n) == a % 2 + 2 * BitAnd(a / 2, m / 2, n - 1)
  {
  }

  /** The low k bits of a, built bit by bit. */
  function LowBits(a: nat, k: nat): nat {
    if k == 0 then 0 else a % 2 + 2 * LowBits(a / 2, k - 1)
  }

  lemma {:induction false} LowBitsMod(a: nat, k: nat)
    ensures LowBits(a, k) == a % Pow2(k)
  {
    if k > 0 {
      LowBitsMod(a / 2, k - 1);
      ModPow2Split(a, k);
    }
  }

  /** One step of the low-mask induction, stated over plain numbers: pk = 2^k, ph = 2^(k-1). */
  lemma LowMaskStep(a: nat, n: nat, k: nat, pk: nat, ph: nat)
    requires n >= 1 && k >= 1 && ph >= 1 && pk == 2 * ph
    requires BitAnd(a / 2, ph - 1, n - 1) == LowBits(a / 2, k - 1)
    ensures BitAnd(a, pk - 1, n) == LowBits(a, k)
  {
    assert (pk - 1) % 2 == 1 && (pk - 1) / 2 == ph - 1;
    BitAndOddStep(a, pk - 1, n);
  }

  lemma {:induction false} BitAndLowBits(a: nat, k: nat, n: nat)
    requires k <= n
    ensures BitAnd(a, Pow2(k) - 1, n) == LowBits(a, k)
  {
    if k == 0 {
      BitAndZero(a, n);
    } else {
      BitAndLowBits(a / 2, k - 1, n - 1);
      LowMaskStep(a, n, k, Pow2(k), Pow2(k - 1));
    }
  }

  /** `a & (2^k - 1)` keeps the low k bits. */
  lemma BitAndLowMask(a: nat, k: nat, n: nat)
    requires k <= n
    ensures BitAnd(a, Pow2(k) - 1, n) == a % Pow2(k)
  {
    BitAndLowBits(a, k, n);
    LowBitsMod(a, k);
  }

  /** `(2^k - 1) & ~m` is the complement of the low k bits of m. */
  lemma {:induction false} BitAndNotLowMask(m: nat, k: nat, n: nat)
    requires k <= n
    ensures BitAndNot(Pow2(k) - 1, m, n) == Pow2(k) - 1 - m % Pow2(k)
  {
    if k == 0 {
      BitAndNotZeroLeft(m, n);
    } else {
      var p := Pow2(k - 1);
      var f := 2 * (p - 1) + 1;
      assert Pow2(k) - 1 == f;
      assert f % 2 == 1 && f / 2 == p - 1;
      BitAndNotLowMask(m / 2, k - 1, n - 1);
      var r := BitAndNot(p - 1, m / 2, n - 1);
      assert BitAndNot(f, m, n) == (1 - m % 2) + 2 * r;
      ModPow2Split(m, k);
    }
  }

  /** `(2^k - 1) | b` is 2^k - 1 when b has no bit at or above k. */
  lemma {:induction false} BitOrLowFull(b: nat, k: nat, n: nat)
    requires k <= n && b < Pow2(k)
    ensures BitOr(Pow2(k) - 1, b, n) == Pow2(k) - 1
  {
    if k == 0 {
      assert b == 0;
      BitOrZero(0, n);
    } else {
      var p := Pow2(k - 1);
      var f := 2 * (p - 1) + 1;
      assert Pow2(k) - 1 == f;
      assert f % 2 == 1 && f / 2 == p - 1;
      assert b / 2 < p;
      BitOrLowFull(b / 2, k - 1, n - 1);
      assert BitOr(f, b, n) == 1 + 2 * BitOr(p - 1, b / 2, n - 1);
    }
  }

  lemma {:induction false} BitOrIdempotent(a: nat, b: nat, n: nat)
    ensures BitOr(BitOr(a, b, n), b, n) == BitOr(a, b, n)
  {
    if n > 0 {
      BitOrIdempotent(a / 2, b / 2, n - 1);
      var r := BitOr(a / 2, b / 2, n - 1);
      var c := if a % 2 == 1 || b % 2 == 1 then 1 else 0;
      assert BitOr(a, b, n) == c + 2 * r;
      assert (c + 2 * r) % 2 == c && (c + 2 * r) / 2 == r;
    }
  }

  lemma {:induction false} BitAndNotIdempotent(a: nat, b: nat, n: nat)
    ensures BitAndNot(BitAndNot(a, b, n), b, n) == BitAndNot(a, b, n)
  {
    if n > 0 {
      BitAndNotIdempotent(a / 2, b / 2, n - 1);
      var r := BitAndNot(a / 2, b / 2, n - 1);
      var c := if a % 2 == 1 && b % 2 == 0 then 1 else 0;
      assert BitAndNot(a, b, n) == c + 2 * r;
      assert (c + 2 * r) % 2 == c && (c + 2 * r) / 2 == r;
    }
  }

  /** The low n bits of a bitwise result fit in n bits. */
  lemma {:induction false} BitOrBound(a: nat, b: nat, n: nat)
    ensures BitOr(a, b, n) < Pow2(n)
  {
    if n > 0 {
      BitOrBound(a / 2, b / 2, n - 1);
    }
  }

  lemma {:induction false} BitAndNotBound(a: nat, b: nat, n: nat)
    ensures BitAndNot(a, b, n) < Pow2(n)
  {
    if n > 0 {
      BitAndNotBound(a / 2, b / 2, n - 1);
    }
  }

  lemma ToUint32OfInt32(x: int)
    ensures ToUint32(ToInt32(x)) == ToUint32(x)
  {
  }

  /** `x | m` is idempotent in m for every number x. */
  lemma OrIdempotent(x: int, m: int)
    ensures Or(Or(x, m), m) == Or(x, m)
  {
    Pow2Values();
    var u := BitOr(ToUint32(x), ToUint32(m), 32);
    BitOrBound(ToUint32(x), ToUint32(m), 32);
    assert ToUint32(ToInt32(u)) == u;
    BitOrIdempotent(ToUint32(x), ToUint32(m), 32);
  }

  /** `x & ~m` is idempotent in m for every number x. */
  lemma AndNotIdempotent(x: int, m: int)
    ensures AndNot(AndNot(x, m), m) == AndNot(x, m)
  {
    Pow2Values();
    var u := BitAndNot(ToUint32(x), ToUint32(m), 32);
    BitAndNotBound(ToUint32(x), ToUint32(m), 32);
    assert ToUint32(ToInt32(u)) == u;
    BitAndNotIdempotent(ToUint32(x), ToUint32(m), 32);
  }

  lemma {:induction false} Pow2Monotone(j: nat, k: nat)
    requires j <= k
    ensures Pow2(j) <= Pow2(k)
  {
    if j < k {
      Pow2Monotone(j, k - 1);
    }
  }

  /** A number below 2^n with bit k clear stays below 2^n after adding 2^k (k < n). */
  lemma {:induction false} BitClearRoom(x: nat, k: nat, n: nat)
    requires x < Pow2(n) && k < n && Bit(x, k) == 0
    ensures x + Pow2(k) < Pow2(n)
  {
    assert x / 2 < Pow2(n - 1);
    if k > 0 {
      BitClearRoom(x / 2, k - 1, n - 1);
      assert Pow2(k) == 2 * Pow2(k - 1);
    }
  }

  /** A number with bit k set is at least 2^k. */
  lemma {:induction false} BitSetAtLeast(x: nat, k: nat)
    requires Bit(x, k) == 1
    ensures x >= Pow2(k)
  {
    if k > 0 {
      BitSetAtLeast(x / 2, k - 1);
    }
  }

  /** `x | 2^k` sets bit k of x and keeps every other bit (for 0 <= x < 2^31, k < 31). */
  lemma OrSingleBit(x: int, k: nat)
    requires 0 <= x < TWO_31 && k < 31
    ensures Or(x, Pow2(k)) == if Bit(x, k) == 1 then x else x + Pow2(k)
  {
    Pow2Values();
    Pow2Monotone(k, 31);
    assert ToUint32(x) == x && ToUint32(Pow2(k)) == Pow2(k);
    BitOrPow2(x, k, 32);
    if Bit(x, k) == 0 {
      BitClearRoom(x, k, 31);
      assert BitOr(x, Pow2(k), 32) == x + Pow2(k) < TWO_31;
    } else {
      assert BitOr(x, Pow2(k), 32) == x;
    }
  }

  /** `x & ~2^k` clears bit k of x and keeps every other bit (for 0 <= x < 2^31, k < 32). */
  lemma AndNotSingleBit(x: int, k: nat)
    requires 0 <= x < TWO_31 && k < 32
    ensures AndNot(x, Pow2(k)) == if Bit(x, k) == 1 then x - Pow2(k) else x
  {
    Pow2Values();
    Pow2Monotone(k, 31);
    assert ToUint32(x) == x && ToUint32(Pow2(k)) == Pow2(k);
    BitAndNotPow2(x, k, 32);
    if Bit(x, k) == 1 {
      BitSetAtLeast(x, k);
      assert BitAndNot(x, Pow2(k), 32) == x - Pow2(k);
    } else {
      assert BitAndNot(x, Pow2(k), 32) == x;
    }
  }

  /** Adding 2^k to a number whose bit k is clear sets that bit and no other. */
  lemma {:induction false} BitsOfAddPow2(x: nat, k: nat, j: nat)
    requires Bit(x, k) == 0
    ensures Bit(x + Pow2(k), j) == if j == k then 1 else Bit(x, j)
  {
    if k == 0 {
      assert x % 2 == 0 && (x + 1) % 2 == 1 && (x + 1) / 2 == x / 2;
      if j > 0 {
        assert Bit(x + 1, j) == Bit((x + 1) / 2, j - 1);
      }
    } else {
      var p := Pow2(k - 1);
      assert Pow2(k) == 2 * p;
      assert (x + 2 * p) % 2 == x % 2 && (x + 2 * p) / 2 == x / 2 + p;
      if j > 0 {
        BitsOfAddPow2(x / 2, k - 1, j - 1);
        assert Bit(x + 2 * p, j) == Bit(x / 2 + p, j - 1);
      }
    }
  }

  /** Subtracting 2^k from a number whose bit k is set clears that bit and no other. */
  lemma {:induction false} BitsOfSubPow2(x: nat, k: nat, j: nat)
    requires Bit(x, k) == 1
    ensures x >= Pow2(k)
    ensures Bit(x - Pow2(k), j) == if j == k then 0 else Bit(x, j)
  {
    BitSetAtLeast(x, k);
    if k == 0 {
      assert x % 2 == 1 && (x - 1) % 2 == 0 && (x - 1) / 2 == x / 2;
      if j > 0 {
        assert Bit(x - 1, j) == Bit((x - 1) / 2, j - 1);
      }
    } else {
      var p := Pow2(k - 1);
      assert Pow2(k) == 2 * p;
      BitSetAtLeast(x / 2, k - 1);
      assert (x - 2 * p) % 2 == x % 2 && (x - 2 * p) / 2 == x / 2 - p;
      if j > 0 {
        BitsOfSubPow2(x / 2, k - 1, j - 1);
        assert Bit(x - 2 * p, j) == Bit(x / 2 - p, j - 1);
      }
    }
  }

  /** A number below 2^k has bit k clear. */
  lemma BitAboveClear(x: nat, k: nat)
    requires x < Pow2(k)
    ensures Bit(x, k) == 0
  {
    if Bit(x, k) == 1 {
      BitSetAtLeast(x, k);
    }
  }

  lemma ModShift(x: int, y: int, p: int, c: int)
    requires p > 0 && x == p * c + y
    ensures x % p == y % p
  {
    var t := y / p;
    assert y == p * t + y % p;
    assert x == p * (c + t) + y % p;
    DivModUnique(x, p, c + t, y % p);
  }

  lemma {:induction false} Pow2Divides(k: nat, n: nat)
    requires k <= n
    ensures Pow2(n) == Pow2(k) * Pow2(n - k)
  {
    if k < n {
      Pow2Divides(k, n - 1);
      assert Pow2(n) == 2 * (Pow2(k) * Pow2(n - 1 - k));
      assert Pow2(n - k) == 2 * Pow2(n - 1 - k);
    }
  }

  /** ToUint32 leaves the low k bits of any number alone (k <= 32). */
  lemma LowBitsOfUint32(x: int, k: nat)
    requires k <= 32
    ensures ToUint32(x) % Pow2(k) == x % Pow2(k)
  {
    Pow2Values();
    Pow2Divides(k, 32);
    var t := x / TWO_32;
    var p, q := Pow2(k), Pow2(32 - k);
    assert x == TWO_32 * t + ToUint32(x);
    assert TWO_32 * t == p * (q * t) by {
      assert TWO_32 == p * q;
      MulAssoc(p, q, t);
    }
    ModShift(x, ToUint32(x), p, q * t);
  }

  lemma MulAssoc(a: int, b: int, c: int)
    ensures (a * b) * c == a * (b * c)
  {
  }

  /** `x & m` for a non-negative 31-bit mask m is the bitwise AND of the low 32 bits. */
  lemma AndOfMask(x: int, m: int, r: int)
    requires 0 <= m < TWO_31 && 0 <= r < TWO_31
    requires BitAnd(ToUint32(x), m, 32) == r
    ensures And(x, m) == r
  {
    assert ToUint32(m) == m;
  }

  /** `x & (2^k - 1)` is x modulo 2^k, for every number x (k <= 31). */
  lemma AndLowMask(x: int, k: nat)
    requires k <= 31
    ensures And(x, Pow2(k) - 1) == x % Pow2(k)
  {
    var p := Pow2(k);
    assert 0 < p <= TWO_31 by {
      Pow2Monotone(k, 31);
      Pow2Values();
    }
    var r := x % p;
    assert BitAnd(ToUint32(x), p - 1, 32) == r by {
      BitAndLowMask(ToUint32(x), k, 32);
      LowBitsOfUint32(x, k);
    }
    AndOfMask(x, p - 1, r);
  }

  /** `255 & ~m` is 255 minus the low byte of m. */
  lemma ByteAndNot(m: int)
    ensures AndNot(255, m) == 255 - m % 256
  {
    Pow2Values();
    BitAndNotLowMask(ToUint32(m), 8, 32);
    LowBitsOfUint32(m, 8);
  }

  /** `255 & ~m` is 255 - m for a byte m. */
  lemma ByteAndNotByte(m: int)
    requires 0 <= m < 256
    ensures AndNot(255, m) == 255 - m
  {
    ByteAndNot(m);
    assert m % 256 == m;
  }

  /** `255 | b` is 255 and `0 | b` is b, for a byte b. */
  lemma OrWithByte(b: int)
    requires 0 <= b < 256
    ensures Or(255, b) == 255 && Or(0, b) == b
  {
    Pow2Values();
    Pow2Monotone(8, 32);
    BitOrLowFull(b, 8, 32);
    BitOrZero(b, 32);
  }

  /** Packing `(s << 4) + u` and reading back `>> 4` and `& 0xf` recovers s and u. */
  lemma NibblePacking(s: int, u: int)
    requires 0 <= s < 0x800_0000 && 0 <= u < 16
    ensures ShiftLeft(s, 4) == 16 * s
    ensures ShiftRight(ShiftLeft(s, 4) + u, 4) == s
    ensures And(ShiftLeft(s, 4) + u, 0xf) == u
  {
    Pow2Values();
    var v := 16 * s + u;
    DivModUnique(v, 16, s, u);
    AndLowMask(v, 4);
  }
}
