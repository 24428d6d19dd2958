/** Bitwise operations on natural numbers. */
module Bits {
  import opened Arithmetic

  function Pow2(k: nat): (p: nat)
    ensures p > 0
  {
    if k == 0 then 1 else 2 * Pow2(k - 1)
  }

  /** Bit k of x. */
  predicate Bit(x: nat, k: nat)
    decreases k
  {
    if k == 0 then x % 2 == 1 else Bit(x / 2, k - 1)
  }

  function And(x: nat, y: nat): (z: nat)
    ensures z <= x && z <= y
  {
    if x == 0 || y == 0 then 0 else 2 * And(x / 2, y / 2) + (if x % 2 == 1 && y % 2 == 1 then 1 else 0)
  }

  function Or(x: nat, y: nat): nat
    decreases x + y
  {
    if x == 0 then y else if y == 0 then x
    else 2 * Or(x / 2, y / 2) + (if x % 2 == 1 || y % 2 == 1 then 1 else 0)
  }

  lemma {:induction false} BitAnd(x: nat, y: nat, k: nat)
    ensures Bit(And(x, y), k) <==> Bit(x, k) && Bit(y, k)
    decreases k
  {
    if x == 0 || y == 0 {
      BitZero(k);
    } else {
      assert And(x, y) / 2 == And(x / 2, y / 2);
      if k > 0 { BitAnd(x / 2, y / 2, k - 1); }
    }
  }

  lemma {:induction false} BitOr(x: nat, y: nat, k: nat)
    ensures Bit(Or(x, y), k) <==> Bit(x, k) || Bit(y, k)
    decreases k
  {
    if x == 0 || y == 0 {
      BitZero(k);
    } else if k > 0 {
      BitOr(x / 2, y / 2, k - 1);
    }
  }

  lemma {:induction false} BitZero(k: nat)
    ensures !Bit(0, k)
  {
    if k > 0 { BitZero(k - 1); }
  }

  lemma {:induction false} BitPow2(p: nat, k: nat)
    ensures Bit(Pow2(p), k) <==> k == p
    decreases p
  {
    if p == 0 {
      if k > 0 { BitZero(k - 1); }
    } else if k > 0 {
      BitPow2(p - 1, k - 1);
    }
  }

  lemma AndOdd(x: nat, p: nat)
    requires p > 0
    ensures And(x, 2 * p - 1) == 2 * And(x / 2, p - 1) + x % 2
  {
    var y := 2 * p - 1;
    assert y / 2 == p - 1 && y % 2 == 1;
  }

  /** q << k */
  function Shl(q: nat, k: nat): nat
  {
    if k == 0 then q else 2 * Shl(q, k - 1)
  }

  lemma {:induction false} ShlPow2(q: nat, k: nat)
    ensures Shl(q, k) == Pow2(k) * q
    decreases k
  {
    if k > 0 {
      ShlPow2(q, k - 1);
      assert 2 * Pow2(k - 1) * q == 2 * (Pow2(k - 1) * q);
    }
  }

  lemma {:induction false} AndMaskQuotient(x: nat, k: nat) returns (q: nat)
    ensures x == Shl(q, k) + And(x, Pow2(k) - 1)
    decreases k
  {
    if k == 0 {
      q := x;
    } else {
      q := AndMaskQuotient(x / 2, k - 1);
      AndOdd(x, Pow2(k - 1));
    }
  }

  /** x & (2^k - 1) is what remains of x on division by 2^k. */
  lemma AndMask(x: nat, k: nat)
    ensures And(x, Pow2(k) - 1) == x % Pow2(k)
  {
    var q := AndMaskQuotient(x, k);
    ShlPow2(q, k);
    DivModUnique(x, Pow2(k), q, And(x, Pow2(k) - 1));
  }

  lemma TwiceProduct(x: nat, y: nat)
    ensures x * (2 * y) == 2 * (x * y)
  {
  }

  lemma {:induction false} Pow2Add(a: nat, b: nat)
    ensures Pow2(a + b) == Pow2(a) * Pow2(b)
    decreases b
  {
    if b > 0 {
      Pow2Add(a, b - 1);
      TwiceProduct(Pow2(a), Pow2(b - 1));
    }
  }

  /** A word and its complement have no bit in common. */
  lemma {:induction false} AndComplement(x: nat, k: nat)
    requires x < Pow2(k)
    ensures And(x, Pow2(k) - 1 - x) == 0
    decreases k
  {
    if k > 0 {
      var p, y := Pow2(k - 1), Pow2(k) - 1 - x;
      assert y / 2 == p - 1 - x / 2 && (x % 2 == 0 || y % 2 == 0);
      AndComplement(x / 2, k - 1);
    }
  }

  ghost predicate IsPower(x: nat, k: nat)
  {
    exists i: nat :: i < k && x == Pow2(i)
  }

  lemma PowerHalf(x: nat, k: nat)
    requires k > 0 && x % 2 == 0
    ensures IsPower(x, k) <==> IsPower(x / 2, k - 1)
  {
    if IsPower(x, k) {
      var i: nat :| i < k && x == Pow2(i);
      assert i > 0 && x / 2 == Pow2(i - 1);
    }
    if IsPower(x / 2, k - 1) {
      var i: nat :| i < k - 1 && x / 2 == Pow2(i);
      assert x == Pow2(i + 1);
    }
  }

  lemma PowerOdd(x: nat, k: nat)
    requires k > 0 && x % 2 == 1
    ensures IsPower(x, k) <==> x == 1
  {
    assert Pow2(0) == 1;
  }

  /** num & -num == num, on nonzero k-bit words, just for the powers of two. */
  lemma {:induction false} LowestBitAlone(x: nat, k: nat)
    requires 0 < x < Pow2(k)
    ensures And(x, Pow2(k) - x) == x <==> IsPower(x, k)
    decreases k
  {
    var p, y := Pow2(k - 1), Pow2(k) - x;
    if x % 2 == 1 {
      assert y / 2 == p - 1 - x / 2 && y % 2 == 1;
      AndComplement(x / 2, k - 1);
      PowerOdd(x, k);
    } else {
      assert y / 2 == p - x / 2 && y % 2 == 0;
      LowestBitAlone(x / 2, k - 1);
      PowerHalf(x, k);
    }
  }
}
