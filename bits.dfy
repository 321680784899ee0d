/** Bitwise arithmetic on unbounded non-negative integers, the way the
    register values behave in the campaign script (its integers have no
    fixed width). Every operation is defined by recursion on the binary
    digits, and each comes with a lemma saying what it does to bit `i`;
    `BitsEqual` then turns "same bits everywhere" into equality. */
module Bits {

  /** 2 to the power `k`. */
  function Pow2(k: nat): (p: nat)
    ensures p >= 1
  {
    if k == 0 then 1 else 2 * Pow2(k - 1)
  }

  /** Bit `i` of `x` is one. */
  predicate Bit(x: nat, i: nat)
    decreases i
  {
    if i == 0 then x % 2 == 1 else Bit(x / 2, i - 1)
  }

  /** `x << k` */
  function Shl(x: nat, k: nat): nat
  {
    if k == 0 then x else 2 * Shl(x, k - 1)
  }

  /** `x >> k` */
  function Shr(x: nat, k: nat): nat
  {
    if k == 0 then x else Shr(x / 2, k - 1)
  }

  /** `x | y` */
  function Or(x: nat, y: nat): nat
    decreases x + y
  {
    if x == 0 && y == 0 then 0
    else 2 * Or(x / 2, y / 2) + (if x % 2 == 1 || y % 2 == 1 then 1 else 0)
  }

  /** `x & ~m` for non-negative `x` and `m`: the bits of `x` that `m` does not have. */
  function AndNot(x: nat, m: nat): nat
    decreases x
  {
    if x == 0 then 0
    else 2 * AndNot(x / 2, m / 2) + (if x % 2 == 1 && m % 2 == 0 then 1 else 0)
  }

  /** The low `w` bits of `x`, that is `x & (2^w - 1)`. */
  function Low(x: nat, w: nat): nat
  {
    if w == 0 then 0 else 2 * Low(x / 2, w - 1) + x % 2
  }

  lemma {:induction false} BitZero(i: nat)
    ensures !Bit(0, i)
  {
    if i > 0 { BitZero(i - 1); }
  }

  lemma {:induction false} BitOne(i: nat)
    ensures Bit(1, i) <==> i == 0
  {
    if i > 0 { BitZero(i - 1); }
  }

  /** Two numbers with the same bits are equal. */
  lemma {:induction false} BitsEqual(x: nat, y: nat)
    requires forall i: nat :: Bit(x, i) == Bit(y, i)
    ensures x == y
    decreases x + y
  {
    if x != 0 || y != 0 {
      assert Bit(x, 0) == Bit(y, 0);
      forall i: nat
        ensures Bit(x / 2, i) == Bit(y / 2, i)
      {
        assert Bit(x, i + 1) == Bit(y, i + 1);
      }
      BitsEqual(x / 2, y / 2);
    }
  }

  lemma {:induction false} BitShl(x: nat, k: nat, i: nat)
    ensures Bit(Shl(x, k), i) <==> k <= i && Bit(x, i - k)
  {
    if k > 0 {
      var s := Shl(x, k - 1);
      assert Shl(x, k) == 2 * s;
      assert (2 * s) % 2 == 0 && (2 * s) / 2 == s;
      if i > 0 {
        BitShl(x, k - 1, i - 1);
      }
    }
  }

  lemma {:induction false} BitShr(x: nat, k: nat, i: nat)
    ensures Bit(Shr(x, k), i) <==> Bit(x, i + k)
  {
    if k > 0 {
      BitShr(x / 2, k - 1, i);
    }
  }

  lemma {:induction false} BitOr(x: nat, y: nat, i: nat)
    ensures Bit(Or(x, y), i) <==> Bit(x, i) || Bit(y, i)
    decreases x + y
  {
    if x == 0 && y == 0 {
      BitZero(i);
    } else {
      var q := Or(x / 2, y / 2);
      var d := if x % 2 == 1 || y % 2 == 1 then 1 else 0;
      assert Or(x, y) == 2 * q + d;
      assert (2 * q + d) % 2 == d && (2 * q + d) / 2 == q;
      if i > 0 {
        BitOr(x / 2, y / 2, i - 1);
      }
    }
  }

  lemma {:induction false} BitAndNot(x: nat, m: nat, i: nat)
    ensures Bit(AndNot(x, m), i) <==> Bit(x, i) && !Bit(m, i)
    decreases x
  {
    if x == 0 {
      BitZero(i);
    } else {
      var q := AndNot(x / 2, m / 2);
      var d := if x % 2 == 1 && m % 2 == 0 then 1 else 0;
      assert AndNot(x, m) == 2 * q + d;
      assert (2 * q + d) % 2 == d && (2 * q + d) / 2 == q;
      if i > 0 {
        BitAndNot(x / 2, m / 2, i - 1);
      }
    }
  }

  lemma {:induction false} BitLow(x: nat, w: nat, i: nat)
    ensures Bit(Low(x, w), i) <==> i < w && Bit(x, i)
  {
    if w == 0 {
      BitZero(i);
    } else {
      var q := Low(x / 2, w - 1);
      assert Low(x, w) == 2 * q + x % 2;
      assert (2 * q + x % 2) % 2 == x % 2 && (2 * q + x % 2) / 2 == q;
      if i > 0 {
        BitLow(x / 2, w - 1, i - 1);
      }
    }
  }

  /** `2^w - 1` has exactly its low `w` bits set. */
  lemma {:induction false} BitOnes(w: nat, i: nat)
    ensures Bit(Pow2(w) - 1, i) <==> i < w
  {
    if w == 0 {
      BitZero(i);
    } else {
      var q := Pow2(w - 1) - 1;
      assert Pow2(w) - 1 == 2 * q + 1;
      assert (2 * q + 1) % 2 == 1 && (2 * q + 1) / 2 == q;
      if i > 0 {
        BitOnes(w - 1, i - 1);
      }
    }
  }

  /** A number below `2^w` has no bit at position `w` or above. */
  lemma {:induction false} BitAbove(x: nat, w: nat, i: nat)
    requires x < Pow2(w) && w <= i
    ensures !Bit(x, i)
  {
    if w == 0 {
      assert x == 0;
      BitZero(i);
    } else {
      BitAbove(x / 2, w - 1, i - 1);
    }
  }
}
