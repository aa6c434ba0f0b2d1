/**
 * Rust's 32-bit integer primitives, as both StackAssembly interpreters use
 * them: the `u32` and `i32` ranges, the two's-complement reinterpretation
 * between them, wrapping arithmetic, division that rounds toward zero, and
 * the bit operations of the standard library (`&`, `|`, `^`, `count_ones`,
 * `leading_zeros`, `trailing_zeros`, `rotate_left`, `rotate_right`, `<<`,
 * `>>`).
 *
 * Words are modelled as mathematical integers in range; every place where
 * Rust wraps or truncates is written out.
 */
module Int32 {

  /** 2^32, the number of distinct 32-bit words. */
  const WORD: int := 0x1_0000_0000
  /** 2^31, the first word whose signed reading is negative. */
  const HALF: int := 0x8000_0000

  /** Rust's `u32`. */
  type U32 = x: int | 0 <= x < 0x1_0000_0000
  /** Rust's `i32`. */
  type I32 = x: int | -0x8000_0000 <= x < 0x8000_0000

  /** `i32::MIN`. */
  const I32_MIN: I32 := -0x8000_0000

  // ---------------------------------------------------------------------
  // Reinterpretation and wrapping
  // ---------------------------------------------------------------------

  /** The low 32 bits of `x`: what a wrapping operation keeps. */
  function Wrap(x: int): (r: U32)
    ensures (x - r) % WORD == 0
  {
    x % WORD
  }

  /** The bits of `u` read as two's complement (`i32::from_le_bytes(u.to_le_bytes())`). */
  function Signed(u: U32): (r: I32)
    ensures (u - r) % WORD == 0
    ensures r >= 0 <==> u < HALF
  {
    if u < HALF then u else u - WORD
  }

  /** The bits of `i` read as unsigned (`u32::from_le_bytes(i.to_le_bytes())`). */
  function Unsigned(i: I32): (r: U32)
    ensures (r - i) % WORD == 0
    ensures r < HALF <==> i >= 0
  {
    if i < 0 then i + WORD else i
  }

  lemma SignedUnsigned(i: I32)
    ensures Signed(Unsigned(i)) == i
  {
  }

  lemma UnsignedSigned(u: U32)
    ensures Unsigned(Signed(u)) == u
  {
  }

  /** Two words congruent modulo 2^32 are the same word. */
  lemma CongruentWordsEqual(x: U32, y: U32)
    requires (x - y) % WORD == 0
    ensures x == y
  {
  }

  /** Adding a multiple of 2^32 does not change the low 32 bits. */
  lemma WrapShift(x: int, k: int)
    ensures Wrap(x + k * WORD) == Wrap(x)
  {
    CongruentWordsEqual(Wrap(x + k * WORD), Wrap(x));
  }

  /** `i32::wrapping_add`. */
  function WrappingAdd(a: I32, b: I32): I32 { Signed(Wrap(a + b)) }
  /** `i32::wrapping_sub`. */
  function WrappingSub(a: I32, b: I32): I32 { Signed(Wrap(a - b)) }
  /** `i32::wrapping_mul`. */
  function WrappingMul(a: I32, b: I32): I32 { Signed(Wrap(a * b)) }

  /** `u32::wrapping_add`. */
  function WrappingAddU32(a: U32, b: U32): U32 { Wrap(a + b) }
  /** `u32::wrapping_sub`. */
  function WrappingSubU32(a: U32, b: U32): U32 { Wrap(a - b) }
  /** `u32::wrapping_mul`. */
  function WrappingMulU32(a: U32, b: U32): U32 { Wrap(a * b) }

  /** A signed reading differs from the unsigned one by 0 or 2^32. */
  lemma SignedOffset(u: U32) returns (e: int)
    ensures e == 0 || e == 1
    ensures Signed(u) == u - e * WORD
  {
    e := if u < HALF then 0 else 1;
  }

  /**
   * Signed and unsigned wrapping addition produce the same bits: the
   * `i32` arithmetic of the evaluator and the `u32` arithmetic of the
   * legacy interpreter agree on every pair of words.
   */
  lemma WrappingAddSameBits(x: U32, y: U32)
    ensures Unsigned(WrappingAdd(Signed(x), Signed(y))) == WrappingAddU32(x, y)
  {
    var ex := SignedOffset(x);
    var ey := SignedOffset(y);
    assert Signed(x) + Signed(y) == (x + y) + (-(ex + ey)) * WORD;
    WrapShift(x + y, -(ex + ey));
    UnsignedSigned(Wrap(x + y));
  }

  /** Signed and unsigned wrapping subtraction produce the same bits. */
  lemma WrappingSubSameBits(x: U32, y: U32)
    ensures Unsigned(WrappingSub(Signed(x), Signed(y))) == WrappingSubU32(x, y)
  {
    var ex := SignedOffset(x);
    var ey := SignedOffset(y);
    assert Signed(x) - Signed(y) == (x - y) + (ey - ex) * WORD;
    WrapShift(x - y, ey - ex);
    UnsignedSigned(Wrap(x - y));
  }

  /** Signed and unsigned wrapping multiplication produce the same bits. */
  lemma WrappingMulSameBits(x: U32, y: U32)
    ensures Unsigned(WrappingMul(Signed(x), Signed(y))) == WrappingMulU32(x, y)
  {
    var ex := SignedOffset(x);
    var ey := SignedOffset(y);
    var k := ex * ey * WORD - ex * y - ey * x;
    calc {
      Signed(x) * Signed(y);
      (x - ex * WORD) * (y - ey * WORD);
      x * y + k * WORD;
    }
    WrapShift(x * y, k);
    UnsignedSigned(Wrap(x * y));
  }

  // ---------------------------------------------------------------------
  // Small facts about multiplication, kept apart so that each proof sees
  // only the terms it needs
  // ---------------------------------------------------------------------

  lemma MulNonneg(a: int, b: int)
    requires a >= 0 && b >= 0
    ensures a * b >= 0
  {
  }

  lemma MulMonotone(a: int, b: int, c: int)
    requires a <= b && c >= 0
    ensures a * c <= b * c
  {
    assert b * c - a * c == (b - a) * c;
    MulNonneg(b - a, c);
  }

  lemma MulNeg(x: int, y: int)
    ensures (-x) * y == -(x * y) && x * (-y) == -(x * y) && (-x) * (-y) == x * y
  {
  }

  /** Euclidean division of a natural number by a positive one. */
  lemma NatDiv(x: int, m: int)
    requires x >= 0 && m > 0
    ensures 0 <= x - m * (x / m) < m
    ensures 0 <= (x / m) * m <= x
    ensures x / m >= 0
  {
  }

  /** Below `m * p`, the quotient by `p` is below `m`. */
  lemma DivBelow(x: int, p: int, m: int)
    requires p >= 1 && m >= 1 && 0 <= x < p * m
    ensures x / p < m
    ensures x == (x / p) * p + x % p
  {
    NatDiv(x, p);
    if x / p >= m {
      MulMonotone(m, x / p, p);
    }
  }

  /** A digit `hi < p` below `lo < m` in base `p` stays below `m * p`. */
  lemma JoinBelow(lo: int, hi: int, p: int, m: int)
    requires 0 <= lo < m && 0 <= hi < p
    ensures lo * p + hi < m * p
  {
    MulMonotone(lo, m - 1, p);
  }

  lemma AbsMul(a: int, b: int)
    ensures Abs(a * b) == Abs(a) * Abs(b)
  {
    if a < 0 && b < 0 {
      assert a * b == (-a) * (-b);
      MulNonneg(-a, -b);
    } else if a < 0 {
      assert a * b == -((-a) * b);
      MulNonneg(-a, b);
    } else if b < 0 {
      assert a * b == -(a * (-b));
      MulNonneg(a, -b);
    } else {
      MulNonneg(a, b);
    }
  }

  // ---------------------------------------------------------------------
  // Division rounding toward zero (Rust `/` and `%` on integers)
  // ---------------------------------------------------------------------

  function Abs(x: int): nat { if x < 0 then -x else x }

  /** Rust's `/`: the quotient rounded toward zero. */
  function TruncDiv(a: int, b: int): int
    requires b != 0
  {
    var q := Abs(a) / Abs(b);
    if (a < 0) == (b < 0) then q else -q
  }

  /** Rust's `%`: the remainder, which takes the sign of the dividend. */
  function TruncRem(a: int, b: int): int
    requires b != 0
  {
    a - b * TruncDiv(a, b)
  }

  /**
   * Quotient and remainder recombine to the dividend, the remainder is
   * smaller than the divisor and is zero or has the dividend's sign, and
   * the quotient is no larger than the dividend.
   */
  lemma TruncDivRem(a: int, b: int)
    requires b != 0
    ensures TruncDiv(a, b) * b + TruncRem(a, b) == a
    ensures Abs(TruncRem(a, b)) < Abs(b)
    ensures TruncRem(a, b) == 0 || (TruncRem(a, b) < 0 <==> a < 0)
    ensures Abs(TruncDiv(a, b)) * Abs(b) <= Abs(a)
  {
    var A: int, B: int := Abs(a), Abs(b);
    var q: int := A / B;
    NatDiv(A, B);
    MulNeg(B, q);
    var d := TruncDiv(a, b);
    assert Abs(d) == q;
    if a >= 0 && b > 0 {
      assert b * d == B * q;
      assert TruncRem(a, b) == A - B * q;
    } else if a >= 0 {
      assert b * d == B * q;
      assert TruncRem(a, b) == A - B * q;
    } else if b > 0 {
      assert b * d == -(B * q);
      assert TruncRem(a, b) == -(A - B * q);
    } else {
      assert b * d == -(B * q);
      assert TruncRem(a, b) == -(A - B * q);
    }
  }

  /** A multiple of `b` smaller than `b` in size is zero. */
  lemma SmallMultipleIsZero(k: int, b: int)
    requires b != 0
    requires Abs(k * b) < Abs(b)
    ensures k == 0
  {
    if k != 0 {
      AbsMul(k, b);
      MulMonotone(1, Abs(k), Abs(b));
    }
  }

  /**
   * Truncating division is the only split of `a` into a multiple of `b`
   * and a remainder that is smaller than `b` and carries the sign of `a`.
   */
  lemma TruncDivUnique(a: int, b: int, q: int, r: int)
    requires b != 0
    requires q * b + r == a
    requires Abs(r) < Abs(b)
    requires r == 0 || (r < 0 <==> a < 0)
    ensures q == TruncDiv(a, b) && r == TruncRem(a, b)
  {
    TruncDivRem(a, b);
    var q0, r0 := TruncDiv(a, b), TruncRem(a, b);
    assert (q - q0) * b == r0 - r;
    assert Abs(r0 - r) < Abs(b);
    SmallMultipleIsZero(q - q0, b);
  }

  /**
   * Apart from `i32::MIN / -1`, the quotient and the remainder of two
   * `i32` values are `i32` values.
   */
  lemma TruncDivInRange(a: I32, b: I32)
    requires b != 0
    requires !(a == I32_MIN && b == -1)
    ensures -HALF <= TruncDiv(a, b) < HALF
    ensures -HALF <= TruncRem(a, b) < HALF
  {
    TruncDivRem(a, b);
    var q := TruncDiv(a, b);
    if Abs(b) == 1 {
      assert q == a || q == -a;
    } else {
      MulMonotone(2, Abs(b), Abs(q));
    }
  }

  /** Checked `i32` division: the quotient of `a / b`. */
  function DivI32(a: I32, b: I32): I32
    requires b != 0 && !(a == I32_MIN && b == -1)
  {
    TruncDivInRange(a, b);
    TruncDiv(a, b)
  }

  /** Checked `i32` remainder: `a % b`. */
  function RemI32(a: I32, b: I32): I32
    requires b != 0 && !(a == I32_MIN && b == -1)
  {
    TruncDivInRange(a, b);
    TruncRem(a, b)
  }

  // ---------------------------------------------------------------------
  // Bits
  // ---------------------------------------------------------------------

  function Pow2(n: nat): (r: nat)
    ensures r >= 1
  {
    if n == 0 then 1 else 2 * Pow2(n - 1)
  }

  lemma {:induction false} Pow2Add(m: nat, n: nat)
    ensures Pow2(m + n) == Pow2(m) * Pow2(n)
  {
    if m > 0 {
      Pow2Add(m - 1, n);
      assert Pow2(m + n) == 2 * Pow2(m - 1 + n);
    }
  }

  lemma Pow2Word()
    ensures Pow2(32) == WORD && Pow2(31) == HALF
  {
    assert Pow2(1) == 2;
    Pow2Add(1, 1);
    assert Pow2(2) == 4;
    Pow2Add(2, 2);
    assert Pow2(4) == 16;
    Pow2Add(4, 4);
    assert Pow2(8) == 256;
    Pow2Add(8, 8);
    assert Pow2(16) == 65536;
    Pow2Add(16, 16);
    assert Pow2(32) == 2 * Pow2(31);
  }

  /** Bit number `k` of `x`, counting from the least significant bit. */
  function Bit(x: nat, k: nat): bool
  {
    if k == 0 then x % 2 == 1 else Bit(x / 2, k - 1)
  }

  /** The three bitwise combinations of the language. */
  datatype Logic = And | Or | Xor

  function Combine(op: Logic, p: bool, q: bool): bool
  {
    match op
    case And => p && q
    case Or => p || q
    case Xor => p != q
  }

  /** The low `n` bits of `x` and `y`, combined bit by bit with `op`. */
  function Bitwise(op: Logic, x: nat, y: nat, n: nat): nat
  {
    if n == 0 then 0
    else 2 * Bitwise(op, x / 2, y / 2, n - 1) + (if Combine(op, x % 2 == 1, y % 2 == 1) then 1 else 0)
  }

  lemma {:induction false} BitwiseBound(op: Logic, x: nat, y: nat, n: nat)
    ensures Bitwise(op, x, y, n) < Pow2(n)
  {
    if n > 0 {
      BitwiseBound(op, x / 2, y / 2, n - 1);
    }
  }

  /** Each bit of the result is `op` applied to the same bit of both inputs. */
  lemma {:induction false} BitwiseBits(op: Logic, x: nat, y: nat, n: nat, k: nat)
    requires k < n
    ensures Bit(Bitwise(op, x, y, n), k) == Combine(op, Bit(x, k), Bit(y, k))
  {
    var rest := Bitwise(op, x / 2, y / 2, n - 1);
    var r := Bitwise(op, x, y, n);
    assert r / 2 == rest;
    if k > 0 {
      BitwiseBits(op, x / 2, y / 2, n - 1, k - 1);
    }
  }

  /** The `u32` result of a bitwise operator on two words. */
  function BitwiseU32(op: Logic, x: U32, y: U32): (r: U32)
    ensures forall k :: 0 <= k < 32 ==> Bit(r, k) == Combine(op, Bit(x, k), Bit(y, k))
  {
    BitwiseBound(op, x, y, 32);
    Pow2Word();
    var r := Bitwise(op, x, y, 32);
    forall k | 0 <= k < 32
      ensures Bit(r, k) == Combine(op, Bit(x, k), Bit(y, k))
    {
      BitwiseBits(op, x, y, 32, k);
    }
    r
  }

  /** `i32 & i32`, `i32 | i32`, `i32 ^ i32`: the same operation on the bits. */
  function BitwiseI32(op: Logic, a: I32, b: I32): I32
  {
    Signed(BitwiseU32(op, Unsigned(a), Unsigned(b)))
  }

  /** The number of set bits among the low `n` bits of `x`. */
  function CountOnes(x: nat, n: nat): nat
  {
    if n == 0 then 0 else x % 2 + CountOnes(x / 2, n - 1)
  }

  /** At most `n` bits are set, and none exactly when `x` is zero. */
  lemma {:induction false} CountOnesProperties(x: nat, n: nat)
    requires x < Pow2(n)
    ensures CountOnes(x, n) <= n
    ensures CountOnes(x, n) == 0 <==> x == 0
  {
    if n > 0 {
      CountOnesProperties(x / 2, n - 1);
    }
  }

  /** The position one above the highest set bit of `x`. */
  function BitLength(x: nat): nat
  {
    if x == 0 then 0 else 1 + BitLength(x / 2)
  }

  /** `x` lies in `[2^(len-1), 2^len)`, and fits in `n` bits when below `2^n`. */
  lemma {:induction false} BitLengthBounds(x: nat, n: nat)
    requires x < Pow2(n)
    ensures BitLength(x) <= n
    ensures x < Pow2(BitLength(x))
    ensures x > 0 ==> Pow2(BitLength(x) - 1) <= x
  {
    if x > 0 {
      BitLengthBounds(x / 2, n - 1);
    }
  }

  /** `u32::leading_zeros` (and `i32::leading_zeros` of the same bits). */
  function LeadingZeros(x: U32): (r: U32)
    ensures r <= 32
    ensures x < Pow2(32 - r)
    ensures r < 32 ==> Pow2(31 - r) <= x
    ensures r == 32 <==> x == 0
  {
    Pow2Word();
    BitLengthBounds(x, 32);
    32 - BitLength(x)
  }

  /** The number of low-order zero bits of `x`, looking at `n` bits. */
  function TrailingZeros(x: nat, n: nat): nat
  {
    if n == 0 then 0 else if x % 2 == 1 then 0 else 1 + TrailingZeros(x / 2, n - 1)
  }

  /** Every bit below the count is clear, and the bit at the count is set if it is in range. */
  lemma {:induction false} TrailingZerosBits(x: nat, n: nat)
    ensures TrailingZeros(x, n) <= n
    ensures forall k :: 0 <= k < TrailingZeros(x, n) ==> !Bit(x, k)
    ensures TrailingZeros(x, n) < n ==> Bit(x, TrailingZeros(x, n))
  {
    if n > 0 && x % 2 == 0 {
      TrailingZerosBits(x / 2, n - 1);
      forall k | 0 <= k < TrailingZeros(x, n)
        ensures !Bit(x, k)
      {
        if k > 0 {
          assert Bit(x, k) == Bit(x / 2, k - 1);
        }
      }
    }
  }

  /** `x == q * m + r` with `0 <= r < m` determines `x / m` and `x % m`. */
  lemma DivModUnique(x: int, m: int, q: int, r: int)
    requires m > 0 && 0 <= r < m
    requires x == q * m + r
    ensures x / m == q && x % m == r
  {
    var q0, r0 := x / m, x % m;
    assert (q - q0) * m == r0 - r;
    SmallMultipleIsZero(q - q0, m);
  }

  /** The bit positions below and above `k` together make up a word. */
  lemma Pow2Split(k: nat)
    requires k <= 32
    ensures Pow2(k) * Pow2(32 - k) == WORD
  {
    Pow2Add(k, 32 - k);
    Pow2Word();
  }

  /** The bits of `x` moved `j` places down, those shifted out at the bottom coming back in at the top. */
  function Rotation(x: U32, j: nat): U32
    requires j <= 32
  {
    RotationFits(x, j);
    (x % Pow2(j)) * Pow2(32 - j) + x / Pow2(j)
  }

  lemma RotationFits(x: U32, j: nat)
    requires j <= 32
    ensures 0 <= (x % Pow2(j)) * Pow2(32 - j) + x / Pow2(j) < WORD
  {
    Pow2Split(j);
    SwapFits(x, Pow2(j), Pow2(32 - j));
  }

  /** Swapping the digits of `x` in the mixed radix `m`, `p` keeps it below `p * m`. */
  lemma SwapFits(x: int, p: int, m: int)
    requires p >= 1 && m >= 1 && 0 <= x < p * m
    ensures 0 <= (x % p) * m + x / p < p * m
  {
    DivBelow(x, p, m);
    JoinBelow(x % p, x / p, m, p);
    MulNonneg(x % p, m);
  }

  /** Swapping the digits twice gives `x` back. */
  lemma SwapSwap(x: int, p: int, m: int)
    requires p >= 1 && m >= 1 && 0 <= x < p * m
    ensures var y := (x % p) * m + x / p;
      (y % m) * p + y / m == x
  {
    var lo, hi := x % p, x / p;
    DivBelow(x, p, m);
    DivModUnique((x % p) * m + x / p, m, lo, hi);
  }

  /** Moving the bits `32 - j` places further down brings them back. */
  lemma RotationInverse(x: U32, j: nat)
    requires j <= 32
    ensures Rotation(Rotation(x, j), 32 - j) == x
  {
    Pow2Split(j);
    SwapSwap(x, Pow2(j), Pow2(32 - j));
    assert 32 - (32 - j) == j;
  }

  /**
   * `u32::rotate_left`: the bits move `n mod 32` places up, and those
   * pushed out at the top come back in at the bottom.
   */
  function RotateLeft(x: U32, n: nat): U32
  {
    Rotation(x, 32 - n % 32)
  }

  /** `u32::rotate_right`: the bits move `n mod 32` places down, wrapping round. */
  function RotateRight(x: U32, n: nat): U32
  {
    Rotation(x, n % 32)
  }

  /** Rotating right by the same amount undoes a rotation to the left. */
  lemma RotateRightLeft(x: U32, n: nat)
    ensures RotateRight(RotateLeft(x, n), n) == x
  {
    var k := n % 32;
    RotationInverse(x, 32 - k);
    assert 32 - (32 - k) == k;
  }

  /** Rotating left by the same amount undoes a rotation to the right. */
  lemma RotateLeftRight(x: U32, n: nat)
    ensures RotateLeft(RotateRight(x, n), n) == x
  {
    RotationInverse(x, n % 32);
  }

  /**
   * `i32 << i32` in a release build: the amount is masked to its low five
   * bits (`amount & 31`, which is `amount mod 32` on the two's-complement
   * bits), and bits shifted out at the top are lost.
   */
  function ShiftLeft(a: I32, amount: I32): I32
  {
    Signed(Wrap(Unsigned(a) * Pow2(amount % 32)))
  }

  /**
   * `i32 >> i32` in a release build: an arithmetic shift by `amount mod 32`,
   * which is division by a power of two rounding toward minus infinity.
   */
  function ShiftRight(a: I32, amount: I32): (r: I32)
    ensures a >= 0 ==> 0 <= r <= a
    ensures a < 0 ==> a <= r < 0
  {
    ShiftRightBounds(a, Pow2(amount % 32));
    a / Pow2(amount % 32)
  }

  lemma ShiftRightBounds(a: int, p: int)
    requires p >= 1
    ensures a >= 0 ==> 0 <= a / p <= a
    ensures a < 0 ==> a <= a / p < 0
  {
    if a >= 0 {
      NatDiv(a, p);
      MulMonotone(1, p, a / p);
    } else {
      var q, r := a / p, a % p;
      assert a == p * q + r && 0 <= r < p;
      MulNonneg(-a, p - 1);
      if q >= 0 {
        MulNonneg(p, q);
      } else if q < a {
        MulMonotone(q - a, -1, p);
      }
    }
  }

  /** Shifting left is wrapping multiplication by a power of two. */
  lemma ShiftLeftIsMultiplication(a: I32, amount: I32)
    ensures Unsigned(ShiftLeft(a, amount)) == WrappingMulU32(Unsigned(a), Wrap(Pow2(amount % 32)))
  {
    var p := Pow2(amount % 32);
    Pow2Below(amount % 32);
    assert Wrap(p) == p;
    UnsignedSigned(Wrap(Unsigned(a) * p));
  }

  /** A shift amount below 32 gives a power of two that is itself a word. */
  lemma Pow2Below(k: nat)
    requires k < 32
    ensures Pow2(k) < WORD
  {
    Pow2Split(k);
    assert Pow2(32 - k) == 2 * Pow2(32 - k - 1);
    MulMonotone(2, Pow2(32 - k), Pow2(k));
  }

  // ---------------------------------------------------------------------
  // The bit queries and rotations on whole words, as the operators use them
  // ---------------------------------------------------------------------

  /** `u32::count_ones` (and `i32::count_ones` of the same bits). */
  function CountOnesU32(x: U32): (r: U32)
    ensures r <= 32
    ensures r == 0 <==> x == 0
  {
    Pow2Word();
    CountOnesProperties(x, 32);
    CountOnes(x, 32)
  }

  /** `u32::trailing_zeros` (and `i32::trailing_zeros` of the same bits). */
  function TrailingZerosU32(x: U32): (r: U32)
    ensures r <= 32
    ensures forall k :: 0 <= k < r ==> !Bit(x, k)
    ensures r < 32 ==> Bit(x, r)
  {
    TrailingZerosBits(x, 32);
    TrailingZeros(x, 32)
  }

  /** `i32::rotate_left`: the bits of `a` rotated as a `u32`. */
  function RotateLeftI32(a: I32, n: U32): I32
  {
    Signed(RotateLeft(Unsigned(a), n))
  }

  /** `i32::rotate_right`: the bits of `a` rotated as a `u32`. */
  function RotateRightI32(a: I32, n: U32): I32
  {
    Signed(RotateRight(Unsigned(a), n))
  }

  /** Rotating a signed integer right undoes rotating it left by the same amount. */
  lemma RotateRightLeftI32(a: I32, n: U32)
    ensures RotateRightI32(RotateLeftI32(a, n), n) == a
  {
    UnsignedSigned(RotateLeft(Unsigned(a), n));
    RotateRightLeft(Unsigned(a), n);
    SignedUnsigned(a);
  }
}
