/** Machine integers as the generated codec uses them: bytes, 64-bit words, and
    Go's `&`, `|`, `<<`, `>>` on them, defined bit by bit over the naturals. */
module Bits {
  const TWO_63: int := 0x8000_0000_0000_0000
  const TWO_64: int := 0x1_0000_0000_0000_0000

  type byte = x: int | 0 <= x < 0x100
  type uint64 = x: int | 0 <= x < TWO_64
  type Bytes = seq<byte>

  function Pow2(n: nat): (p: nat)
    ensures p >= 1
  {
    if n == 0 then 1 else 2 * Pow2(n - 1)
  }

  function And(a: nat, b: nat): nat
  {
    if a == 0 || b == 0 then 0
    else (if a % 2 == 1 && b % 2 == 1 then 1 else 0) + 2 * And(a / 2, b / 2)
  }

  function Or(a: nat, b: nat): nat
  {
    if a == 0 then b
    else if b == 0 then a
    else (if a % 2 == 1 || b % 2 == 1 then 1 else 0) + 2 * Or(a / 2, b / 2)
  }

  /** `uint64(x) << s`: bits shifted past the 64th are lost. */
  function Shl(x: nat, s: nat): uint64
  {
    (x * Pow2(s)) % TWO_64
  }

  function Shr(x: nat, s: nat): nat
  {
    if s == 0 then x else Shr(x / 2, s - 1)
  }

  /** `bits.Len64`: the number of bits needed to write `x`, 0 for 0. */
  function Len64(x: nat): nat
  {
    if x == 0 then 0 else 1 + Len64(x / 2)
  }

  /** The value of a 64-bit pattern read as Go's signed `int`. */
  function ToInt64(x: uint64): int
  {
    if x < TWO_63 then x else x - TWO_64
  }

  /** Signed 64-bit addition wraps around. */
  function WrapInt64(x: int): int
  {
    (x + TWO_63) % TWO_64 - TWO_63
  }

  /** `int32(x)` keeps the low 32 bits and reads them as a signed number. */
  function ToInt32(x: nat): int
  {
    var low := x % 0x1_0000_0000;
    if low < 0x8000_0000 then low else low - 0x1_0000_0000
  }

  /** The binary digit of weight 2^k. */
  function Bit(x: nat, k: nat): nat
  {
    if k == 0 then x % 2 else Bit(x / 2, k - 1)
  }

  lemma {:induction false} BitOfZero(k: nat)
    ensures Bit(0, k) == 0
  {
    if k > 0 { BitOfZero(k - 1); }
  }

  lemma AndOrHalves(a: nat, b: nat)
    requires a != 0 && b != 0
    ensures And(a, b) / 2 == And(a / 2, b / 2) && Or(a, b) / 2 == Or(a / 2, b / 2)
    ensures And(a, b) % 2 == 1 <==> a % 2 == 1 && b % 2 == 1
    ensures Or(a, b) % 2 == 1 <==> a % 2 == 1 || b % 2 == 1
  {
  }

  /** What the operators do to each binary digit. */
  lemma {:induction false} BitwiseAndOr(a: nat, b: nat, k: nat)
    ensures Bit(And(a, b), k) == 1 <==> Bit(a, k) == 1 && Bit(b, k) == 1
    ensures Bit(Or(a, b), k) == 1 <==> Bit(a, k) == 1 || Bit(b, k) == 1
    decreases k
  {
    BitOfZero(k);
    if a != 0 && b != 0 {
      AndOrHalves(a, b);
      hide And, Or;
      if k > 0 { BitwiseAndOr(a / 2, b / 2, k - 1); }
    }
  }

  lemma {:induction false} ShiftedBits(x: nat, s: nat, k: nat)
    ensures Bit(Shr(x, s), k) == Bit(x, s + k)
    decreases s
  {
    if s > 0 { ShiftedBits(x / 2, s - 1, k); }
  }

  lemma {:induction false} Len64Exactly(x: nat)
    requires x > 0
    ensures Len64(x) >= 1 && Pow2(Len64(x) - 1) <= x < Pow2(Len64(x))
  {
    if x > 1 { Len64Exactly(x / 2); }
  }

  ghost predicate Congruent(x: int, y: int, m: int)
    requires m > 0
  {
    (x - y) % m == 0
  }

  /** Go's conversions and its addition keep the value modulo the width, within the signed
      range. */
  lemma SignedReadings(x: nat, y: uint64, z: int)
    ensures -0x8000_0000 <= ToInt32(x) < 0x8000_0000 && Congruent(x, ToInt32(x), 0x1_0000_0000)
    ensures -TWO_63 <= ToInt64(y) < TWO_63 && Congruent(y, ToInt64(y), TWO_64)
    ensures -TWO_63 <= WrapInt64(z) < TWO_63 && Congruent(z, WrapInt64(z), TWO_64)
  {
  }

  lemma OrHalves(low: nat, high: nat)
    ensures Or(low, 2 * high) == low % 2 + 2 * Or(low / 2, high)
  {
  }

  lemma MulAssociates(a: int, b: int, c: int)
    ensures a * b * c == a * (b * c)
  {
  }

  lemma MulCommutes(a: int, b: int)
    ensures a * b == b * a
  {
  }

  /** Or-ing a number below 2^s with a multiple of 2^s adds the two. */
  lemma {:induction false} OrIsSum(low: nat, high: nat, s: nat)
    requires low < Pow2(s)
    ensures Or(low, high * Pow2(s)) == low + high * Pow2(s)
  {
    if s == 0 {
    } else {
      OrIsSum(low / 2, high, s - 1);
      MulCommutes(high, Pow2(s));
      MulAssociates(2, Pow2(s - 1), high);
      MulCommutes(high, Pow2(s - 1));
      OrHalves(low, high * Pow2(s - 1));
    }
  }

  function Ones(s: nat): nat
  {
    if s == 0 then 0 else 2 * Ones(s - 1) + 1
  }

  function LowBits(x: nat, s: nat): nat
  {
    if s == 0 then 0 else x % 2 + 2 * LowBits(x / 2, s - 1)
  }

  lemma AndHalves(x: nat, m: nat)
    ensures And(x, 2 * m + 1) == x % 2 + 2 * And(x / 2, m)
  {
  }

  lemma {:induction false} MaskIsLowBits(x: nat, s: nat)
    ensures And(x, Ones(s)) == LowBits(x, s)
  {
    if s > 0 {
      MaskIsLowBits(x / 2, s - 1);
      AndHalves(x, Ones(s - 1));
    }
  }

  lemma RemainderUnique(x: int, m: int, q: int, r: int)
    requires 0 <= r < m && x == m * q + r
    ensures x % m == r && x / m == q
  {
    var d := x / m - q;
    assert m * d == r - x % m;
    assert -m < m * d < m;
  }

  lemma HalfRemainder(x: nat, p: nat)
    requires p > 0
    ensures x % (2 * p) == 2 * ((x / 2) % p) + x % 2
  {
    var q, r := (x / 2) / p, (x / 2) % p;
    MulAssociates(2, p, q);
    RemainderUnique(x, 2 * p, q, 2 * r + x % 2);
  }

  lemma {:induction false} LowIsRemainder(x: nat, s: nat, p: nat)
    requires p == Pow2(s)
    ensures LowBits(x, s) == x % p
  {
    if s > 0 {
      LowIsRemainder(x / 2, s - 1, Pow2(s - 1));
      HalfRemainder(x, Pow2(s - 1));
    }
  }

  /** Masking with 0x7F is the remainder modulo 0x80. */
  lemma MaskIsRemainder(x: nat)
    ensures And(x, 0x7F) == x % 0x80
  {
    MaskIsLowBits(x, 7);
    assert Ones(7) == 0x7F;
    LowIsRemainder(x, 7, 0x80);
  }

  /** The wire type `wire & 0x7`. */
  lemma LowThreeBits(x: nat)
    ensures And(x, 0x7) == x % 8
  {
    MaskIsLowBits(x, 3);
    assert Ones(3) == 0x7;
    LowIsRemainder(x, 3, 8);
  }

  lemma MulDistributes(a: int, b: int, p: int)
    ensures (a + b) * p == a * p + b * p
  {
  }

  lemma MulMonotone(a: nat, b: nat, p: nat)
    requires a <= b
    ensures a * p <= b * p
  {
    MulDistributes(a, b - a, p);
    assert (b - a) * p >= 0;
  }

  lemma ShiftedOut(acc: nat, digit: nat, p: nat, n: nat)
    requires acc < p && n > 0 && p * n == TWO_64
    ensures (digit * p) % TWO_64 == (digit % n) * p
    ensures (acc + digit * p) % TWO_64 == acc + (digit % n) * p
  {
    var q, r := digit / n, digit % n;
    assert digit * p == TWO_64 * q + r * p by {
      MulDistributes(n * q, r, p);
      assert (n * q) * p == (p * n) * q;
    }
    assert r * p + p <= TWO_64 by {
      MulDistributes(r, 1, p);
      MulMonotone(r + 1, n, p);
    }
    assert 0 <= r * p;
    RemainderUnique(digit * p, TWO_64, q, r * p);
    RemainderUnique(acc + digit * p, TWO_64, q, acc + r * p);
  }

  lemma {:induction false} Pow2Adds(a: nat, b: nat)
    ensures Pow2(a + b) == Pow2(a) * Pow2(b)
  {
    if a == 0 {
    } else {
      Pow2Adds(a - 1, b);
      assert Pow2(a) * Pow2(b) == 2 * (Pow2(a - 1) * Pow2(b));
    }
  }

  lemma Pow2Of16()
    ensures Pow2(7) == 0x80 && Pow2(16) == 0x1_0000
  {
    assert Pow2(4) == 16;
    Pow2Adds(3, 4);
    Pow2Adds(4, 4);
    Pow2Adds(8, 8);
  }

  lemma Pow2Of64()
    ensures Pow2(7) == 0x80 && Pow2(63) == TWO_63 && Pow2(64) == TWO_64
  {
    Pow2Of16();
    Pow2Adds(16, 16);
    Pow2Adds(32, 32);
    assert Pow2(64) == 2 * Pow2(63);
  }

  /** One step of the decoding loop: `acc |= digit << s` adds modulo 2^64. */
  lemma OrShiftIsSum(acc: nat, digit: nat, s: nat)
    requires acc < Pow2(s) && s <= 63
    ensures Or(acc, Shl(digit, s)) == (acc + Pow2(s) * digit) % TWO_64
  {
    var n := Pow2(64 - s);
    Pow2Adds(s, 64 - s);
    Pow2Of64();
    ShiftedOut(acc, digit, Pow2(s), n);
    MulCommutes(Pow2(s), digit);
    MulCommutes(Pow2(s), digit % n);
    OrIsSum(acc, digit % n, s);
  }
}
