/** Bitwise operators on naturals, bit by bit, and what the masks of the driver compute. */
module Bits {
  import opened Words

  function Pow2(k: nat): nat
    ensures Pow2(k) > 0
  {
    if k == 0 then 1 else 2 * Pow2(k - 1)
  }

  function And(x: nat, y: nat): nat {
    if x == 0 || y == 0 then 0 else 2 * And(x / 2, y / 2) + (x % 2) * (y % 2)
  }

  function Or(x: nat, y: nat): nat
    decreases x + y
  {
    if x == 0 then y else if y == 0 then x
    else 2 * Or(x / 2, y / 2) + (if x % 2 == 1 || y % 2 == 1 then 1 else 0)
  }

  /** ~x on a 32-bit word. */
  function Not32(x: u32): u32 {
    TWO32 - 1 - x
  }

  /** is_power_of_2 of the kernel: non-zero and no bit in common with its predecessor. */
  predicate IsPowerOf2(n: nat) {
    n != 0 && And(n, n - 1) == 0
  }

  lemma {:induction false} Pow2Add(a: nat, b: nat)
    ensures Pow2(a + b) == Pow2(a) * Pow2(b)
  {
    if a > 0 {
      Pow2Add(a - 1, b);
      assert Pow2(a + b) == 2 * Pow2(a - 1 + b);
      assert Pow2(a) * Pow2(b) == 2 * (Pow2(a - 1) * Pow2(b));
    }
  }

  lemma {:induction false} Pow2Values()
    ensures Pow2(2) == 4 && Pow2(3) == 8 && Pow2(16) == TWO16
    ensures Pow2(18) == 262144 && Pow2(32) == TWO32 && Pow2(64) == TWO64
  {
    assert Pow2(8) == 256;
    Pow2Add(8, 8);
    Pow2Add(16, 2);
    Pow2Add(16, 16);
    Pow2Add(32, 32);
  }

  /** Halving commutes with taking the remainder by a power of two. */
  lemma {:induction false} HalveMod(x: nat, k: nat)
    requires k > 0
    ensures x % Pow2(k) == 2 * ((x / 2) % Pow2(k - 1)) + x % 2
  {
    var m := Pow2(k - 1);
    var q, r := (x / 2) / m, (x / 2) % m;
    assert x / 2 == q * m + r;
    assert x == 2 * (x / 2) + x % 2;
    assert x == q * Pow2(k) + (2 * r + x % 2) by {
      assert q * (2 * m) == 2 * (q * m);
    }
    DivModUnique(x, q, 2 * r + x % 2, Pow2(k));
  }

  /** A mask of the k low bits keeps the remainder by 2^k. */
  lemma {:induction false} AndLowMask(x: nat, k: nat)
    ensures And(x, Pow2(k) - 1) == x % Pow2(k)
  {
    if k == 0 {
      assert x % 1 == 0;
    } else if x == 0 {
      SmallMod(0, Pow2(k));
    } else {
      AndLowMask(x / 2, k - 1);
      HalveMod(x, k);
      assert (Pow2(k) - 1) / 2 == Pow2(k - 1) - 1 && (Pow2(k) - 1) % 2 == 1;
    }
  }

  /** A mask of all but the k low bits of a w-bit word clears the remainder by 2^k. */
  lemma {:induction false} AndHighMask(x: nat, w: nat, k: nat)
    requires k <= w && x < Pow2(w)
    ensures Pow2(k) <= Pow2(w) && And(x, Pow2(w) - Pow2(k)) == x - x % Pow2(k)
  {
    Pow2Add(k, w - k);
    MulMono(1, Pow2(w - k), Pow2(k));
    if x == 0 {
      SmallMod(0, Pow2(k));
    } else if k == w {
      SmallMod(x, Pow2(k));
    } else if k == 0 {
      AndLowMask(x, w);
      SmallMod(x, Pow2(w));
      assert x % 1 == 0;
    } else {
      AndHighMask(x / 2, w - 1, k - 1);
      HalveMod(x, k);
      var y := Pow2(w) - Pow2(k);
      assert y == 2 * (Pow2(w - 1) - Pow2(k - 1));
      assert y / 2 == Pow2(w - 1) - Pow2(k - 1) && y % 2 == 0;
      assert (x % 2) * 0 == 0;
      assert x == 2 * (x / 2) + x % 2;
    }
  }

  /** Or of a number shifted left by k bits and a k-bit number is their sum. */
  lemma {:induction false} OrShifted(s: nat, o: nat, k: nat)
    requires o < Pow2(k)
    ensures Or(s * Pow2(k), o) == s * Pow2(k) + o
  {
    if k > 0 && s > 0 && o > 0 {
      var x := s * Pow2(k);
      assert x == 2 * (s * Pow2(k - 1));
      OrShifted(s, o / 2, k - 1);
      assert x > 0 by { MulMono(1, s, Pow2(k)); }
    } else if s == 0 {
      assert s * Pow2(k) == 0;
    }
  }

  /** Powers of two, and only they, pass IsPowerOf2. */
  lemma {:induction false} PowersOfTwo(k: nat)
    ensures IsPowerOf2(Pow2(k))
  {
    AndLowMask(Pow2(k), k);
    DivModUnique(Pow2(k), 1, 0, Pow2(k));
  }

  lemma {:induction false} PowerOfTwoExponent(n: nat) returns (k: nat)
    requires IsPowerOf2(n)
    ensures n == Pow2(k)
  {
    if n == 1 {
      k := 0;
    } else if n % 2 == 0 {
      assert (n - 1) / 2 == n / 2 - 1 && (n - 1) % 2 == 1;
      assert And(n, n - 1) == 2 * And(n / 2, n / 2 - 1) + (n % 2) * ((n - 1) % 2);
      var j := PowerOfTwoExponent(n / 2);
      k := j + 1;
    } else {
      // the upper bits are common to n and n - 1
      assert (n - 1) / 2 == n / 2 && (n - 1) % 2 == 0;
      assert And(n, n - 1) == 2 * And(n / 2, n / 2) + 1 * 0;
      AndSelf(n / 2);
      assert false;
    }
  }

  lemma {:induction false} AndSelf(x: nat)
    ensures And(x, x) == x
  {
    if x != 0 {
      AndSelf(x / 2);
      assert x == 2 * (x / 2) + x % 2;
      assert (x % 2) * (x % 2) == x % 2;
    }
  }

  // ----- Single bits ------------------------------------------------------------------------------

  /** Bit i of x. */
  predicate BitOf(x: nat, i: nat) {
    if i == 0 then x % 2 == 1 else BitOf(x / 2, i - 1)
  }

  lemma {:induction false} BitOfDiv(x: nat, i: nat)
    ensures BitOf(x, i) <==> x / Pow2(i) % 2 == 1
  {
    if i > 0 {
      BitOfDiv(x / 2, i - 1);
      HalfOfDiv(x, Pow2(i - 1));
    }
  }

  lemma {:induction false} HalfOfDiv(x: nat, m: nat)
    requires m > 0
    ensures x / (2 * m) == (x / 2) / m
  {
    var y, b := x / 2, x % 2;
    var q, r := y / m, y % m;
    assert y == q * m + r && x == 2 * y + b;
    DoubleProduct(q, m);
    DivModUnique(x, q, 2 * r + b, 2 * m);
  }

  lemma {:induction false} DoubleProduct(q: nat, m: nat)
    ensures q * (2 * m) == 2 * (q * m)
  {
  }

  /** ~x on a 16-bit word. */
  function Not16(x: u16): u16 {
    TWO16 - 1 - x
  }

  lemma {:induction false} BitOfZero(i: nat)
    ensures !BitOf(0, i)
  {
    if i > 0 {
      BitOfZero(i - 1);
    }
  }

  lemma {:induction false} BitOfOr(x: nat, y: nat, i: nat)
    ensures BitOf(Or(x, y), i) <==> BitOf(x, i) || BitOf(y, i)
  {
    BitOfZero(i);
    if x != 0 && y != 0 && i > 0 {
      BitOfOr(x / 2, y / 2, i - 1);
      assert Or(x, y) / 2 == Or(x / 2, y / 2);
    }
  }

  lemma {:induction false} BitOfAnd(x: nat, y: nat, i: nat)
    ensures BitOf(And(x, y), i) <==> BitOf(x, i) && BitOf(y, i)
  {
    BitOfZero(i);
    if x != 0 && y != 0 {
      assert (x % 2) * (y % 2) == if x % 2 == 1 && y % 2 == 1 then 1 else 0;
      if i > 0 {
        BitOfAnd(x / 2, y / 2, i - 1);
        assert And(x, y) / 2 == And(x / 2, y / 2);
      }
    }
  }

  lemma {:induction false} BitOfPow2(k: nat, i: nat)
    ensures BitOf(Pow2(k), i) <==> i == k
  {
    if k == 0 {
      if i > 0 {
        BitOfZero(i - 1);
      }
    } else if i > 0 {
      assert Pow2(k) / 2 == Pow2(k - 1);
      BitOfPow2(k - 1, i - 1);
    }
  }

  lemma {:induction false} BitOfComplement(x: nat, w: nat, i: nat)
    requires x < Pow2(w) && i < w
    ensures BitOf(Pow2(w) - 1 - x, i) <==> !BitOf(x, i)
  {
    if i > 0 {
      assert (Pow2(w) - 1 - x) / 2 == Pow2(w - 1) - 1 - x / 2;
      BitOfComplement(x / 2, w - 1, i - 1);
    }
  }

  /** x & (1 << i) is non-zero exactly when bit i of x is set. */
  lemma {:induction false} TestBit(x: nat, i: nat)
    ensures And(x, Pow2(i)) != 0 <==> BitOf(x, i)
  {
    BitOfZero(i);
    if x != 0 {
      if i == 0 {
        assert Pow2(0) / 2 == 0;
      } else {
        TestBit(x / 2, i - 1);
        assert Pow2(i) / 2 == Pow2(i - 1) && Pow2(i) % 2 == 0;
      }
    }
  }

  lemma {:induction false} OrFits(x: nat, y: nat, w: nat)
    requires x < Pow2(w) && y < Pow2(w)
    ensures Or(x, y) < Pow2(w)
  {
    if w > 0 && x != 0 && y != 0 {
      OrFits(x / 2, y / 2, w - 1);
    }
  }

  lemma {:induction false} AndFits(x: nat, y: nat)
    ensures And(x, y) <= x
  {
    if x != 0 && y != 0 {
      AndFits(x / 2, y / 2);
      assert (x % 2) * (y % 2) <= x % 2;
      assert x == 2 * (x / 2) + x % 2;
    }
  }

  /** The lowest set bit of an odd number shifted left by n is bit n. */
  lemma {:induction false} LowestSetBit(x: nat, n: nat, j: nat)
    requires x % 2 == 1 && j <= n
    ensures BitOf(x * Pow2(n), j) <==> j == n
  {
    if n == 0 {
      assert x * Pow2(0) == x;
    } else {
      var y := x * Pow2(n - 1);
      assert x * Pow2(n) == 2 * y;
      if j > 0 {
        LowestSetBit(x, n - 1, j - 1);
      }
    }
  }

  lemma {:induction false} Pow2Mono(a: nat, b: nat)
    ensures a < b ==> Pow2(a) < Pow2(b)
    ensures Pow2(a) < Pow2(b) ==> a < b
  {
    if a < b {
      if a < b - 1 {
        Pow2Mono(a, b - 1);
      }
    } else if b < a {
      Pow2Mono(b, a);
    }
  }
}
