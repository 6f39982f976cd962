/** Euclid's algorithm and the scan that folds it over the sizes of a scatter list. */
module Gcd {
  import opened Words

  /** d divides x. */
  predicate Divides(d: nat, x: nat)
    requires d > 0
  {
    x % d == 0
  }

  /** g has exactly the common divisors of a and b. Since every positive number divides 0,
      this determines g also when both are 0. */
  ghost predicate IsGcd(g: nat, a: nat, b: nat) {
    forall d: nat | d > 0 :: Divides(d, g) <==> Divides(d, a) && Divides(d, b)
  }

  /** d divides every size. */
  predicate DividesAll(d: nat, sizes: seq<u32>)
    requires d > 0
  {
    forall i | 0 <= i < |sizes| :: Divides(d, sizes[i])
  }

  /** One round of Euclid's loop keeps the common divisors. */
  lemma {:induction false} DivisorsStep(d: nat, a: nat, b: nat)
    requires d > 0 && b > 0
    ensures Divides(d, a) && Divides(d, b) <==> Divides(d, b) && Divides(d, a % b)
  {
    var q, r := a / b, a % b;
    assert a == q * b + r;
    if Divides(d, b) {
      var k := b / d;
      assert b == k * d;
      assert a == r + (q * k) * d by {
        assert q * (k * d) == (q * k) * d;
      }
      AddMultiple(r, q * k, d);
    }
  }

  lemma {:induction false} EveryDivides0(d: nat)
    requires d > 0
    ensures Divides(d, 0)
  {
    SmallMod(0, d);
  }

  /** Two numbers with the same divisors are equal, so IsGcd has one solution. */
  lemma {:induction false} GcdUnique(g: nat, h: nat, a: nat, b: nat)
    requires IsGcd(g, a, b) && IsGcd(h, a, b)
    ensures g == h
  {
    forall x: nat, y: nat | IsGcd(x, a, b) && IsGcd(y, a, b) && x > 0
      ensures 0 < y <= x || y == 0
      ensures y != 0
    {
      if y == 0 {
        EveryDivides0(x + 1);
        assert Divides(x + 1, y) && Divides(x + 1, x);
        SmallMod(x, x + 1);
      } else {
        DivModUnique(y, 1, 0, y);
        assert Divides(y, y) && Divides(y, x);
        if x < y {
          SmallMod(x, y);
        }
      }
    }
  }

  /** gcd(): the loop of linux/dma_descriptors.c. */
  method Gcd(a0: u32, b0: u32) returns (g: u32)
    ensures IsGcd(g, a0, b0)
  {
    var a, b := a0, b0;
    while b > 0
      invariant forall d: nat | d > 0 ::
                  Divides(d, a) && Divides(d, b) <==> Divides(d, a0) && Divides(d, b0)
      decreases b
    {
      forall d: nat | d > 0
        ensures Divides(d, a) && Divides(d, b) <==> Divides(d, b) && Divides(d, a % b)
      {
        DivisorsStep(d, a, b);
      }
      var t := a % b;
      a := b;
      b := t;
    }
    forall d: nat | d > 0 ensures Divides(d, 0) { EveryDivides0(d); }
    g := a;
  }

  /** gcd_dma_page_sizes(): folds gcd over the sizes, skipping a size equal to its
      predecessor. The skip loses nothing: the result has exactly the divisors common to all
      sizes (0 for an empty list, which every number divides). */
  method GcdPageSizes(sizes: seq<u32>) returns (g: u32)
    ensures |sizes| == 0 ==> g == 0
    ensures forall d: nat | d > 0 :: Divides(d, g) <==> DividesAll(d, sizes)
  {
    if |sizes| == 0 {
      forall d: nat | d > 0 ensures Divides(d, 0) { EveryDivides0(d); }
      return 0;
    }
    var res, prev := sizes[0], sizes[0];
    var i := 1;
    while i < |sizes|
      invariant 1 <= i <= |sizes|
      invariant prev == sizes[i - 1]
      invariant forall d: nat | d > 0 :: Divides(d, res) <==> DividesAll(d, sizes[..i])
    {
      var curr := sizes[i];
      assert sizes[..i + 1] == sizes[..i] + [curr];
      if prev != curr {
        res := Gcd(res, curr);
        prev := curr;
      } else {
        assert sizes[..i][i - 1] == curr;
      }
      i := i + 1;
    }
    assert sizes[..i] == sizes;
    g := res;
  }
}
