/** Powers of two, exclusive or, and aligned blocks, all by halving. */
module Binary {

  function Pow2(k: nat): (p: nat)
    ensures p >= 1
  {
    if k == 0 then 1 else 2 * Pow2(k - 1)
  }

  // The binary logarithm, rounded down.
  function Log2(n: nat): nat
  {
    if n < 2 then 0 else 1 + Log2(n / 2)
  }

  lemma {:induction false} Log2Bound(k: nat, n: nat)
    requires Pow2(k) <= n
    ensures k <= Log2(n)
  {
    if k == 0 {
    } else {
      Log2Bound(k - 1, n / 2);
    }
  }

  // How often 1 must be doubled to reach n.
  function Rounds(n: nat): (r: nat)
    requires n > 0
    ensures n <= Pow2(r) && (r > 0 ==> Pow2(r - 1) < n)
  {
    RoundsFrom(0, n)
  }

  function RoundsFrom(k: nat, n: nat): (r: nat)
    requires k > 0 ==> Pow2(k - 1) < n
    ensures n <= Pow2(r) && (r > 0 ==> Pow2(r - 1) < n)
    decreases n - Pow2(k)
  {
    if n <= Pow2(k) then k else RoundsFrom(k + 1, n)
  }

  lemma RoundsIs(n: nat, r: nat)
    requires 0 < n <= Pow2(r) && (r > 0 ==> Pow2(r - 1) < n)
    ensures r == Rounds(n)
  {
    var q := Rounds(n);
    if r > 0 { Pow2Strict(r - 1, q); }
    if q > 0 { Pow2Strict(q - 1, r); }
  }

  lemma {:induction false} Pow2Mono(a: nat, b: nat)
    requires a <= b
    ensures Pow2(a) <= Pow2(b)
  {
    if a == b {
    } else {
      Pow2Mono(a, b - 1);
    }
  }

  lemma {:induction false} Pow2Strict(a: nat, b: nat)
    requires Pow2(a) < Pow2(b)
    ensures a < b
  {
    if a >= b { Pow2Mono(b, a); }
  }

  // The bitwise exclusive or of C.
  function Xor(a: nat, b: nat): nat
  {
    if a == 0 then b else if b == 0 then a else 2 * Xor(a / 2, b / 2) + (a + b) % 2
  }

  // The first number of the aligned block of 2^k numbers that r lies in.
  function Lo(r: nat, k: nat): nat
    decreases k
  {
    if k == 0 then r else 2 * Lo(r / 2, k - 1)
  }

  lemma {:induction false} BlockIs(r: nat, s: nat, k: nat)
    ensures Lo(s, k) == Lo(r, k) <==> Lo(r, k) <= s < Lo(r, k) + Pow2(k)
    decreases k
  {
    if k == 0 {
    } else {
      BlockIs(r / 2, s / 2, k - 1);
    }
  }

  lemma InOwnBlock(r: nat, k: nat)
    ensures Lo(r, k) <= r < Lo(r, k) + Pow2(k)
  {
    BlockIs(r, r, k);
  }

  lemma {:induction false} WholeBlock(r: nat, k: nat)
    requires r < Pow2(k)
    ensures Lo(r, k) == 0
    decreases k
  {
    if k == 0 {
    } else {
      WholeBlock(r / 2, k - 1);
    }
  }

  lemma DoubledProduct(q: nat, p: nat)
    ensures q * (2 * p) == 2 * (q * p)
  {
  }

  lemma HalvedMod(r: nat, p: nat)
    requires p >= 1
    ensures r % (2 * p) == 2 * ((r / 2) % p) + r % 2
  {
    var q, m := (r / 2) / p, (r / 2) % p;
    DivMod(r / 2, p);
    DoubledProduct(q, p);
    ModIs(r, 2 * p, q, 2 * m + r % 2);
  }

  lemma DivMod(r: nat, d: nat)
    requires d >= 1
    ensures r == (r / d) * d + r % d && 0 <= r % d < d
  {
  }

  // Block starts are multiples: this is how the source computes them.
  lemma {:induction false} LoMod(r: nat, k: nat)
    ensures Lo(r, k) == r - r % Pow2(k)
    decreases k
  {
    if k == 0 {
    } else {
      LoMod(r / 2, k - 1);
      HalvedMod(r, Pow2(k - 1));
    }
  }

  lemma MulAtLeast(a: nat, d: nat)
    requires a >= 1
    ensures a * d >= d
  {
    assert a * d == (a - 1) * d + d;
  }

  lemma ModIs(r: nat, d: nat, q: nat, m: nat)
    requires 0 <= m < d && r == q * d + m
    ensures r % d == m && r / d == q
  {
    var q', m' := r / d, r % d;
    assert q' * d + m' == q * d + m;
    if q > q' {
      assert (q - q') * d == q * d - q' * d;
      MulAtLeast(q - q', d);
    }
    if q < q' {
      assert (q' - q) * d == q' * d - q * d;
      MulAtLeast(q' - q, d);
    }
  }

  lemma {:induction false} PartnerBack(r: nat, k: nat)
    ensures Xor(Xor(r, Pow2(k)), Pow2(k)) == r
    decreases k
  {
    if k == 0 {
      PartnerOne(r);
      PartnerOne(Xor(r, 1));
    } else {
      PartnerBack(r / 2, k - 1);
      XorPow2(r, k);
      XorPow2(Xor(r, Pow2(k)), k);
    }
  }

  lemma PartnerOne(r: nat)
    ensures Xor(r, 1) == if r % 2 == 0 then r + 1 else r - 1
  {
  }

  lemma {:induction false} PartnerBlocks(r: nat, k: nat)
    ensures var p := Xor(r, Pow2(k)); Lo(p, k) != Lo(r, k) && Lo(p, k + 1) == Lo(r, k + 1)
    decreases k
  {
    var p := Xor(r, Pow2(k));
    if k == 0 {
      PartnerOne(r);
    } else {
      PartnerBlocks(r / 2, k - 1);
      XorPow2(r, k);
      assert Lo(r, k + 1) == 2 * Lo(r / 2, k) && Lo(p, k + 1) == 2 * Lo(p / 2, k);
    }
  }

  lemma {:induction false} PartnerNear(r: nat, k: nat)
    ensures var p := Xor(r, Pow2(k)); p == r + Pow2(k) || r == p + Pow2(k)
    decreases k
  {
    if k == 0 {
      PartnerOne(r);
    } else {
      PartnerNear(r / 2, k - 1);
      XorPow2(r, k);
    }
  }

  // Flipping bit k leads to the sibling block and back.
  lemma PartnerIs(r: nat, k: nat)
    ensures var p := Xor(r, Pow2(k));
      && Xor(p, Pow2(k)) == r
      && Lo(p, k) != Lo(r, k) && Lo(p, k + 1) == Lo(r, k + 1)
      && (p == r + Pow2(k) || r == p + Pow2(k))
  {
    PartnerBack(r, k);
    PartnerBlocks(r, k);
    PartnerNear(r, k);
  }

  lemma XorEven(r: nat, c: nat)
    requires c > 0
    ensures Xor(r, 2 * c) == 2 * Xor(r / 2, c) + r % 2
  {
    assert (2 * c) / 2 == c && (r + 2 * c) % 2 == r % 2;
  }

  lemma HalfOf(x: nat, b: nat)
    requires b < 2
    ensures (2 * x + b) / 2 == x && (2 * x + b) % 2 == b
  {
  }

  // Flipping a bit other than the lowest leaves the lowest alone.
  lemma XorPow2(r: nat, k: nat)
    requires k > 0
    ensures Xor(r, Pow2(k)) == 2 * Xor(r / 2, Pow2(k - 1)) + r % 2
    ensures Xor(r, Pow2(k)) / 2 == Xor(r / 2, Pow2(k - 1)) && Xor(r, Pow2(k)) % 2 == r % 2
  {
    XorEven(r, Pow2(k - 1));
    HalfOf(Xor(r / 2, Pow2(k - 1)), r % 2);
  }

  // The double block consists of the two sibling blocks.
  lemma {:induction false} DoubleBlock(r: nat, k: nat)
    ensures Lo(r, k) == Lo(r, k + 1) || Lo(r, k) == Lo(r, k + 1) + Pow2(k)
    decreases k
  {
    if k == 0 {
    } else {
      DoubleBlock(r / 2, k - 1);
      assert Lo(r, k + 1) == 2 * Lo(r / 2, k);
    }
  }

  // Siblings: one block starts where the other ends.
  lemma Siblings(r: nat, s: nat, k: nat)
    requires Lo(r, k) < Lo(s, k) && Lo(r, k + 1) == Lo(s, k + 1)
    ensures Lo(r, k) == Lo(r, k + 1) && Lo(s, k) == Lo(r, k) + Pow2(k)
  {
    DoubleBlock(r, k);
    DoubleBlock(s, k);
  }

  // Once two numbers share a block they share every larger one.
  lemma {:induction false} SharedStays(r: nat, s: nat, j: nat, k: nat)
    requires Lo(r, j) == Lo(s, j) && j <= k
    ensures Lo(r, k) == Lo(s, k)
    decreases k
  {
    if j == k {
    } else {
      SharedStays(r, s, j, k - 1);
      OneLevelUp(r, s, k - 1);
    }
  }

  lemma {:induction false} OneLevelUp(r: nat, s: nat, k: nat)
    requires Lo(r, k) == Lo(s, k)
    ensures Lo(r, k + 1) == Lo(s, k + 1)
    decreases k
  {
    if k == 0 {
      assert r == s;
    } else {
      OneLevelUp(r / 2, s / 2, k - 1);
    }
  }

  // Flipping a bit below K stays below 2^K.
  lemma PartnerBelow(r: nat, k: nat, K: nat)
    requires r < Pow2(K) && k < K
    ensures Xor(r, Pow2(k)) < Pow2(K)
  {
    var p := Xor(r, Pow2(k));
    PartnerIs(r, k);
    SharedStays(r, p, k + 1, K);
    WholeBlock(r, K);
    BlockIs(r, p, K);
  }
}
