/** Bitwise arithmetic on natural numbers, as C's unsigned operators have it. */
module Bits {

  type byte = b: int | 0 <= b < 256

  function Pow2(n: nat): (p: nat)
    ensures p >= 1
  {
    if n == 0 then 1 else 2 * Pow2(n - 1)
  }

  /** The bit of weight 2^j. */
  predicate BitAt(x: nat, j: nat) { if j == 0 then x % 2 == 1 else BitAt(x / 2, j - 1) }

  function And(x: nat, y: nat): nat {
    if x == 0 then 0 else 2 * And(x / 2, y / 2) + x % 2 * (y % 2)
  }

  function Or(x: nat, y: nat): nat {
    if x == 0 then y else 2 * Or(x / 2, y / 2) + (if x % 2 == 1 || y % 2 == 1 then 1 else 0)
  }

  lemma {:induction false} NoBits(j: nat)
    ensures !BitAt(0, j)
  {
    if j > 0 { NoBits(j - 1); }
  }

  lemma {:induction false} BitAnd(x: nat, y: nat, j: nat)
    ensures BitAt(And(x, y), j) <==> BitAt(x, j) && BitAt(y, j)
  {
    if x == 0 {
      NoBits(j);
    } else if j > 0 {
      BitAnd(x / 2, y / 2, j - 1);
      assert And(x, y) / 2 == And(x / 2, y / 2);
    }
  }

  lemma {:induction false} BitOr(x: nat, y: nat, j: nat)
    ensures BitAt(Or(x, y), j) <==> BitAt(x, j) || BitAt(y, j)
  {
    if x == 0 {
      NoBits(j);
    } else if j > 0 {
      BitOr(x / 2, y / 2, j - 1);
      assert Or(x, y) / 2 == Or(x / 2, y / 2);
    }
  }

  /** x >> k */
  function Shr(x: nat, k: nat): nat { if k == 0 then x else Shr(x / 2, k - 1) }

  /** x << k */
  function Shl(x: nat, k: nat): nat { if k == 0 then x else 2 * Shl(x, k - 1) }

  /** The low n bits of x. */
  function Low(x: nat, n: nat): nat { if n == 0 then 0 else 2 * Low(x / 2, n - 1) + x % 2 }

  lemma {:induction false} BitShr(x: nat, k: nat, j: nat)
    ensures BitAt(Shr(x, k), j) <==> BitAt(x, j + k)
    decreases k
  {
    if k > 0 { BitShr(x / 2, k - 1, j); }
  }

  lemma {:induction false} BitShl(x: nat, k: nat, j: nat)
    ensures BitAt(Shl(x, k), j) <==> j >= k && BitAt(x, j - k)
    decreases k
  {
    if k > 0 && j > 0 { BitShl(x, k - 1, j - 1); }
  }

  lemma {:induction false} BitLow(x: nat, n: nat, j: nat)
    ensures BitAt(Low(x, n), j) <==> j < n && BitAt(x, j)
    decreases n
  {
    if n == 0 { NoBits(j); } else if j > 0 { BitLow(x / 2, n - 1, j - 1); }
  }

  lemma {:induction false} LowBound(x: nat, n: nat)
    ensures Low(x, n) < Pow2(n)
  {
    if n > 0 { LowBound(x / 2, n - 1); }
  }

  lemma {:induction false} HighAndLow(x: nat, n: nat)
    ensures x == Shr(x, n) * Pow2(n) + Low(x, n)
  {
    if n > 0 {
      HighAndLow(x / 2, n - 1);
      assert 2 * (Shr(x / 2, n - 1) * Pow2(n - 1)) == Shr(x, n) * Pow2(n);
    }
  }

  /** Conversion to an unsigned char: x & 0xff. */
  function Char(x: nat): (b: byte) { x % 256 }

  lemma {:induction false} BitChar(x: nat, j: nat)
    ensures BitAt(Char(x), j) <==> j < 8 && BitAt(x, j)
  {
    CharIsLow(x, 8);
    BitLow(x, 8, j);
  }

  lemma {:induction false} CharIsLow(x: nat, n: nat)
    requires n == 8
    ensures Char(x) == Low(x, n)
  {
    HighAndLow(x, n);
    LowBound(x, n);
    PowEight();
  }

  lemma {:induction false} ShlOne(n: nat)
    ensures Shl(1, n) == Pow2(n)
  {
    if n > 0 { ShlOne(n - 1); }
  }

  lemma {:induction false} PowEight()
    ensures Pow2(8) == 256
  {
    assert Pow2(4) == 16;
    assert Pow2(8) == 2 * Pow2(7) == 4 * Pow2(6) == 8 * Pow2(5) == 16 * Pow2(4);
  }

  lemma {:induction false} PowGrows(m: nat, n: nat)
    requires m <= n
    ensures Pow2(m) <= Pow2(n)
  {
    if m > 0 { PowGrows(m - 1, n - 1); }
  }

  lemma {:induction false} BitOnes(n: nat, j: nat)
    ensures BitAt(Pow2(n) - 1, j) <==> j < n
  {
    if n == 0 {
      NoBits(j);
    } else if j > 0 {
      BitOnes(n - 1, j - 1);
      assert (Pow2(n) - 1) / 2 == Pow2(n - 1) - 1;
    }
  }

  lemma {:induction false} BitNot(x: nat, n: nat, j: nat)
    requires x < Pow2(n) && j < n
    ensures BitAt(Pow2(n) - 1 - x, j) <==> !BitAt(x, j)
  {
    if j > 0 {
      BitNot(x / 2, n - 1, j - 1);
      assert (Pow2(n) - 1 - x) / 2 == Pow2(n - 1) - 1 - x / 2;
    }
  }

  /** A number is its bits. */
  lemma {:induction false} BitsDetermine(x: nat, y: nat, n: nat)
    requires x < Pow2(n) && y < Pow2(n) && forall j :: 0 <= j < n ==> (BitAt(x, j) <==> BitAt(y, j))
    ensures x == y
    decreases n
  {
    if n > 0 {
      assert BitAt(x, 0) <==> BitAt(y, 0);
      forall j | 0 <= j < n - 1
        ensures BitAt(x / 2, j) <==> BitAt(y / 2, j)
      {
        assert BitAt(x, j + 1) <==> BitAt(y, j + 1);
      }
      BitsDetermine(x / 2, y / 2, n - 1);
    }
  }

  lemma {:induction false} AndBound(x: nat, y: nat)
    ensures And(x, y) <= x
  {
    if x > 0 { AndBound(x / 2, y / 2); }
  }

  lemma {:induction false} OrBound(x: nat, y: nat, n: nat)
    requires x < Pow2(n) && y < Pow2(n)
    ensures Or(x, y) < Pow2(n)
  {
    if x > 0 {
      assert n > 0;
      OrBound(x / 2, y / 2, n - 1);
    }
  }
}
