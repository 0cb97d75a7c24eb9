/** Bitwise operations on machine words held as bounded integers, bit by bit. */
module Bits {

  function Pow2(w: nat): (p: nat)
    ensures p > 0
  {
    if w == 0 then 1 else 2 * Pow2(w - 1)
  }

  type BitOp = (bool, bool) -> bool

  function BitXor(): BitOp { (x, y) => x != y }
  function BitAnd(): BitOp { (x, y) => x && y }

  /** The operation applied to the `w` low-order bits of both words. */
  function Bitwise(f: BitOp, a: nat, b: nat, w: nat): (r: nat)
  {
    if w == 0 then 0 else (if f(a % 2 == 1, b % 2 == 1) then 1 else 0) + 2 * Bitwise(f, a / 2, b / 2, w - 1)
  }

  function Xor(a: nat, b: nat, w: nat): nat { Bitwise(BitXor(), a, b, w) }
  function And(a: nat, b: nat, w: nat): nat { Bitwise(BitAnd(), a, b, w) }

  /** All ones but those of `a`. */
  function Not(a: nat, w: nat): nat
    requires a < Pow2(w)
  {
    Pow2(w) - 1 - a
  }

  lemma {:induction false} BitwiseBound(f: BitOp, a: nat, b: nat, w: nat)
    ensures Bitwise(f, a, b, w) < Pow2(w)
  {
    if w > 0 {
      BitwiseBound(f, a / 2, b / 2, w - 1);
    }
  }

  lemma {:induction false} XorTwice(a: nat, b: nat, w: nat)
    requires a < Pow2(w)
    ensures Xor(Xor(a, b, w), b, w) == a
  {
    if w > 0 {
      XorTwice(a / 2, b / 2, w - 1);
      var x := Xor(a, b, w);
      assert x / 2 == Xor(a / 2, b / 2, w - 1);
      assert x % 2 == (if (a % 2 == 1) != (b % 2 == 1) then 1 else 0);
    }
  }

  lemma Pow2Values()
    ensures Pow2(8) == 0x100 && Pow2(16) == 0x1_0000 && Pow2(32) == 0x1_0000_0000
  {
    assert Pow2(4) == 16 && Pow2(12) == 4096;
    assert Pow2(20) == 1048576 && Pow2(24) == 16777216 && Pow2(28) == 268435456;
  }

  // ---- Masks

  lemma AtLeastOnce(k: int, d: nat)
    requires k >= 1
    ensures k * d >= d
  {
  }

  lemma DivModUnique(x: nat, q: nat, r: nat, d: nat)
    requires r < d && x == q * d + r
    ensures x / d == q && x % d == r
  {
    var k := x / d - q;
    assert k * d == r - x % d;
    if k >= 1 {
      AtLeastOnce(k, d);
    } else if k <= -1 {
      AtLeastOnce(-k, d);
    }
  }

  lemma HalfOfQuotient(a: nat, d: nat)
    requires d > 0
    ensures a / 2 / d == a / (2 * d) && a % (2 * d) == a % 2 + 2 * (a / 2 % d)
  {
    var h := a / 2;
    var q, r := h / d, h % d;
    assert h == q * d + r;
    assert a == q * (2 * d) + (2 * r + a % 2) by {
      assert q * (2 * d) == 2 * (q * d);
    }
    DivModUnique(a, q, 2 * r + a % 2, 2 * d);
  }

  function Ones(w: nat): nat { Pow2(w) - 1 }

  lemma {:induction false} AndOnes(a: nat, w: nat)
    ensures And(a, Ones(w), w) == a % Pow2(w)
  {
    if w > 0 {
      AndOnes(a / 2, w - 1);
      HalfOfQuotient(a, Pow2(w - 1));
      assert Ones(w) / 2 == Ones(w - 1) && Ones(w) % 2 == 1;
    }
  }

  lemma {:induction false} Pow2Monotone(k: nat, w: nat)
    requires k <= w
    ensures Pow2(k) <= Pow2(w)
  {
    if k < w {
      Pow2Monotone(k, w - 1);
    }
  }

  lemma AndEven(x: nat, m: nat, w: nat)
    requires w > 0 && m % 2 == 0
    ensures And(x, m, w) == 2 * And(x / 2, m / 2, w - 1)
  {
  }

  lemma MaskHalf(k: nat, w: nat)
    requires 0 < k <= w
    ensures Ones(k) < Pow2(w) && Ones(k - 1) < Pow2(w - 1)
    ensures Not(Ones(k), w) % 2 == 0 && Not(Ones(k), w) / 2 == Not(Ones(k - 1), w - 1)
  {
    Pow2Monotone(k - 1, w - 1);
  }

  /** Masking a word of `w` bits with all ones but the lowest `k` clears its remainder modulo `2^k`. */
  lemma {:induction false} MaskRoundsDown(x: nat, k: nat, w: nat)
    requires k <= w && x < Pow2(w)
    ensures Ones(k) < Pow2(w) && And(x, Not(Ones(k), w), w) == x - x % Pow2(k)
    decreases k
  {
    if k == 0 {
      AndOnes(x, w);
      WholeWord(x, Pow2(w));
    } else {
      MaskHalf(k, w);
      AndEven(x, Not(Ones(k), w), w);
      MaskRoundsDown(x / 2, k - 1, w - 1);
      HalfOfQuotient(x, Pow2(k - 1));
    }
  }

  lemma WholeWord(x: nat, d: nat)
    requires x < d
    ensures x % d == x
  {
  }
}
