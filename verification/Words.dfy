/** Fixed-width unsigned words, the arithmetic macros of the descriptor code, and the few
    facts about division that the other modules share. */
module Words {
  const TWO16: nat := 0x1_0000
  const TWO32: nat := 0x1_0000_0000
  const TWO64: nat := 0x1_0000_0000_0000_0000

  type u8 = x: int | 0 <= x < 0x100
  type u16 = x: int | 0 <= x < 0x1_0000
  type u32 = x: int | 0 <= x < 0x1_0000_0000
  type u64 = x: int | 0 <= x < 0x1_0000_0000_0000_0000

  /** Truncation to a word, and the upper half of a 64-bit word. */
  function W16(x: int): u16 {
    x % 0x1_0000
  }

  function W32(x: int): u32 {
    x % 0x1_0000_0000
  }

  function W64(x: int): u64 {
    x % 0x1_0000_0000_0000_0000
  }

  function Hi32(x: u64): u32 {
    x / 0x1_0000_0000
  }

  lemma {:induction false} W32Fits(x: int)
    requires 0 <= x < TWO32
    ensures W32(x) == x
  {
  }

  lemma {:induction false} W64Fits(x: int)
    requires 0 <= x < TWO64
    ensures W64(x) == x
  {
  }

  lemma {:induction false} W32Add(x: int, y: int)
    ensures W32(W32(x) + y) == W32(x + y)
  {
  }

  lemma {:induction false} SplitHalves(x: u64)
    ensures x == Hi32(x) * TWO32 + W32(x)
  {
  }

  function Min(a: int, b: int): int {
    if a > b then b else a
  }

  function Max(a: int, b: int): int {
    if a > b then a else b
  }

  /** The exact ceiling of n / d. */
  function CeilDiv(n: nat, d: nat): nat
    requires d > 0
  {
    (n + d - 1) / d
  }

  /** TPCE_DIV_ROUND_UP on two uint32_t operands: the sum n + d - 1 wraps at 32 bits. */
  function DivRoundUp32(n: u32, d: u32): u32
    requires d > 0
  {
    DivLe(W32(n + d - 1), d);
    W32(n + d - 1) / d
  }

  lemma {:induction false} DivLe(x: nat, d: nat)
    requires d > 0
    ensures 0 <= x / d <= x
  {
    assert x == d * (x / d) + x % d;
    if x / d > x {
      MulMono(1, d, x / d);
    }
  }

  lemma {:induction false} MulMono(a: nat, b: nat, c: nat)
    requires a <= b
    ensures a * c <= b * c
  {
    assert b * c == a * c + (b - a) * c;
  }

  /** Quotient and remainder are determined by x == q * d + r. */
  lemma {:induction false} DivModUnique(x: int, q: int, r: int, d: nat)
    requires d > 0 && x == q * d + r && 0 <= r < d
    ensures x / d == q && x % d == r
  {
    var q', r' := x / d, x % d;
    assert x == d * q' + r';
    assert (q - q') * d == r' - r;
    assert (q' - q) * d == r - r';
    if q > q' {
      MulMono(1, q - q', d);
    } else if q < q' {
      MulMono(1, q' - q, d);
    }
  }

  /** Adding a multiple of d changes the quotient and keeps the remainder. */
  lemma {:induction false} AddMultiple(x: int, k: int, d: nat)
    requires d > 0
    ensures (x + k * d) / d == x / d + k
    ensures (x + k * d) % d == x % d
  {
    assert x == (x / d) * d + x % d;
    assert x + k * d == (x / d + k) * d + x % d by {
      assert (x / d + k) * d == (x / d) * d + k * d;
    }
    DivModUnique(x + k * d, x / d + k, x % d, d);
  }

  /** If d divides y then x + y and x - y have the remainder of x. */
  lemma {:induction false} AddDivisible(x: int, y: int, d: nat)
    requires d > 0 && y % d == 0
    ensures (x + y) % d == x % d
    ensures (x - y) % d == x % d
  {
    var k := y / d;
    assert y == k * d;
    AddMultiple(x, k, d);
    AddMultiple(x, -k, d);
    assert (-k) * d == -(k * d);
  }

  lemma {:induction false} ModModAdd(x: int, y: int, d: nat)
    requires d > 0
    ensures (x % d + y) % d == (x + y) % d
    ensures (x + y % d) % d == (x + y) % d
  {
    AddMultiple(x % d + y, x / d, d);
    assert x % d + y + (x / d) * d == x + y;
    AddMultiple(x + y % d, y / d, d);
    assert x + y % d + (y / d) * d == x + y;
  }

  /** Division is monotone. */
  lemma {:induction false} DivMono(x: int, y: int, d: nat)
    requires d > 0 && x <= y
    ensures x / d <= y / d
  {
    var p, q := x / d, y / d;
    assert x == p * d + x % d && y == q * d + y % d;
    assert (p - q) * d == p * d - q * d;
    if p > q {
      MulMono(1, p - q, d);
    }
  }

  lemma {:induction false} SmallMod(x: nat, d: nat)
    requires x < d
    ensures x % d == x && x / d == 0
  {
    DivModUnique(x, 0, x, d);
  }

  /** The size of x descriptors of b bytes. */
  function Bytes(b: nat, x: nat): nat {
    b * x
  }

  lemma {:induction false} BytesAdd(b: nat, x: nat, y: nat)
    ensures Bytes(b, x + y) == Bytes(b, x) + Bytes(b, y)
  {
  }

  lemma {:induction false} BytesMono(b: nat, x: nat, y: nat)
    requires x <= y
    ensures Bytes(b, x) <= Bytes(b, y)
  {
    MulMono(x, y, b);
  }
}
