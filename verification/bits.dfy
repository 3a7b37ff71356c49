/** A result that may be absent: the NULL of the C code. */
module Options {
  datatype Option<+T> = None | Some(value: T)
}

/** Sizes of finite sets. */
module SetSizes {
  lemma SubsetCount<T>(s: set<T>, t: set<T>)
    requires s <= t
    ensures |s| <= |t|
  {
    assert t == s + (t - s);
  }
}

/** Bitwise arithmetic on machine words.

    A 64-bit word is the natural number it denotes.  The operators of C are defined one
    bit at a time, and the lemmas below say what each mask of the kernel selects. */
module Bits {

  const TWO64: nat := 0x1_0000_0000_0000_0000

  function Pow2(k: nat): (p: nat)
    ensures p > 0
  {
    if k == 0 then 1 else 2 * Pow2(k - 1)
  }

  /** a & b */
  function And(a: nat, b: nat): nat {
    if a == 0 || b == 0 then 0
    else 2 * And(a / 2, b / 2) + (if a % 2 == 1 && b % 2 == 1 then 1 else 0)
  }

  /** a | b */
  function Or(a: nat, b: nat): nat {
    if a == 0 then b else if b == 0 then a
    else 2 * Or(a / 2, b / 2) + (if a % 2 == 1 || b % 2 == 1 then 1 else 0)
  }

  /** a & ~b */
  function AndNot(a: nat, b: nat): nat {
    if a == 0 then 0
    else 2 * AndNot(a / 2, b / 2) + (if a % 2 == 1 && b % 2 == 0 then 1 else 0)
  }

  /** a >> k */
  function Shr(a: nat, k: nat): nat {
    if k == 0 then a else Shr(a / 2, k - 1)
  }

  /** a << k, without truncation */
  function Shl(a: nat, k: nat): nat {
    if k == 0 then a else 2 * Shl(a, k - 1)
  }

  /** Whether bit k of a is set. */
  predicate Bit(a: nat, k: nat) {
    if k == 0 then a % 2 == 1 else Bit(a / 2, k - 1)
  }

  // --- single bits -------------------------------------------------------------

  lemma {:induction false} BitOfPow2(j: nat, k: nat)
    ensures Bit(Pow2(j), k) <==> j == k
  {
    if j == 0 {
      if k > 0 { BitOfZero(k - 1); }
    } else if k > 0 {
      BitOfPow2(j - 1, k - 1);
    }
  }

  lemma {:induction false} BitOfZero(k: nat)
    ensures !Bit(0, k)
  {
    if k > 0 { BitOfZero(k - 1); }
  }

  lemma {:induction false} BitOfOr(a: nat, b: nat, k: nat)
    ensures Bit(Or(a, b), k) <==> Bit(a, k) || Bit(b, k)
  {
    BitOfZero(k);
    if a != 0 && b != 0 && k > 0 {
      BitOfOr(a / 2, b / 2, k - 1);
    }
  }

  lemma {:induction false} BitOfAndNot(a: nat, b: nat, k: nat)
    ensures Bit(AndNot(a, b), k) <==> Bit(a, k) && !Bit(b, k)
  {
    BitOfZero(k);
    if a != 0 && k > 0 {
      BitOfAndNot(a / 2, b / 2, k - 1);
    }
  }

  /** Testing a word against a one-bit mask. */
  lemma {:induction false} BitOfAnd(a: nat, b: nat, k: nat)
    ensures Bit(And(a, b), k) <==> Bit(a, k) && Bit(b, k)
  {
    if a == 0 || b == 0 {
      BitOfZero(k);
    } else {
      AndHalves(a, b);
      if k > 0 { BitOfAnd(a / 2, b / 2, k - 1); }
    }
  }

  lemma {:induction false} BitOfShl(a: nat, j: nat, k: nat)
    ensures Bit(Shl(a, j), k) <==> k >= j && Bit(a, k - j)
  {
    if j > 0 && k > 0 { BitOfShl(a, j - 1, k - 1); }
  }

  lemma {:induction false} BitAbove(a: nat, n: nat, k: nat)
    requires a < Pow2(n) && n <= k
    ensures !Bit(a, k)
    decreases n
  {
    if n == 0 {
      BitOfZero(k);
    } else {
      BitAbove(a / 2, n - 1, k - 1);
    }
  }

  lemma {:induction false} AndPow2(a: nat, k: nat)
    ensures And(a, Pow2(k)) != 0 <==> Bit(a, k)
  {
    BitOfZero(k);
    if a != 0 && k > 0 {
      AndPow2(a / 2, k - 1);
    } else if a != 0 {
      assert And(a / 2, 0) == 0;
    }
  }

  lemma {:induction false} AllOnes(k: nat, n: nat)
    requires k < n
    ensures Bit(Pow2(n) - 1, k)
  {
    assert Pow2(n) - 1 == 2 * (Pow2(n - 1) - 1) + 1;
    if k > 0 { AllOnes(k - 1, n - 1); }
  }

  lemma {:induction false} OrBelow(a: nat, b: nat, n: nat)
    requires a < Pow2(n) && b < Pow2(n)
    ensures Or(a, b) < Pow2(n)
  {
    if a != 0 && b != 0 { OrBelow(a / 2, b / 2, n - 1); }
  }

  lemma {:induction false} AndNotBelow(a: nat, b: nat)
    ensures AndNot(a, b) <= a
  {
    if a != 0 { AndNotBelow(a / 2, b / 2); }
  }

  lemma {:induction false} AndBelow(a: nat, b: nat)
    ensures And(a, b) <= a && And(a, b) <= b
  {
    if a != 0 && b != 0 { AndBelow(a / 2, b / 2); }
  }

  // --- masks ---------------------------------------------------------------------

  lemma {:induction false} ShrShr(a: nat, j: nat, k: nat)
    ensures Shr(Shr(a, j), k) == Shr(a, j + k)
  {
    if j > 0 { ShrShr(a / 2, j - 1, k); }
  }

  /** A mask with j low zeros ignores the j low bits. */
  lemma {:induction false} AndShl(a: nat, m: nat, j: nat)
    ensures And(a, Shl(m, j)) == Shl(And(Shr(a, j), m), j)
  {
    if j > 0 {
      AndShl(a / 2, m, j - 1);
      AndEven(a, Shl(m, j - 1));
    }
  }

  lemma {:induction false} AndEven(a: nat, half: nat)
    ensures And(a, 2 * half) == 2 * And(a / 2, half)
  {
  }

  /** Joining bits that do not overlap adds them. */
  lemma {:induction false} OrShl(h: nat, l: nat, j: nat)
    requires l < Pow2(j)
    ensures Or(Shl(h, j), l) == Shl(h, j) + l
  {
    if j > 0 && l > 0 {
      OrShl(h, l / 2, j - 1);
      OrEven(Shl(h, j - 1), l);
    } else {
      OrZero(Shl(h, j));
    }
  }

  lemma {:induction false} OrEven(half: nat, l: nat)
    ensures Or(2 * half, l) == 2 * Or(half, l / 2) + l % 2
  {
  }

  lemma OrZero(a: nat)
    ensures Or(a, 0) == a && Or(0, a) == a
  {
  }

  lemma {:induction false} AndIdempotent(a: nat)
    ensures And(a, a) == a
  {
    if a != 0 { AndIdempotent(a / 2); }
  }

  lemma {:induction false} OrIdempotent(a: nat)
    ensures Or(a, a) == a
  {
    if a != 0 { OrIdempotent(a / 2); }
  }

  lemma {:induction false} AndOrDistribute(a: nat, b: nat, m: nat)
    ensures And(Or(a, b), m) == Or(And(a, m), And(b, m))
  {
    OrZero(And(a, m));
    OrZero(And(b, m));
    if a != 0 && b != 0 && m != 0 {
      AndOrDistribute(a / 2, b / 2, m / 2);
      OrHalves(a, b);
      AndHalves(Or(a, b), m);
      AndHalves(a, m);
      AndHalves(b, m);
      OrHalves(And(a, m), And(b, m));
    }
  }

  lemma OrHalves(a: nat, b: nat)
    ensures Or(a, b) == 2 * Or(a / 2, b / 2) + (if a % 2 == 1 || b % 2 == 1 then 1 else 0)
    ensures Or(a, b) / 2 == Or(a / 2, b / 2)
    ensures Or(a, b) % 2 == 1 <==> a % 2 == 1 || b % 2 == 1
  {
    OrZero(a / 2);
    OrZero(b / 2);
  }

  lemma AndHalves(a: nat, b: nat)
    ensures And(a, b) == 2 * And(a / 2, b / 2) + (if a % 2 == 1 && b % 2 == 1 then 1 else 0)
    ensures And(a, b) / 2 == And(a / 2, b / 2)
    ensures And(a, b) % 2 == 1 <==> a % 2 == 1 && b % 2 == 1
  {
  }

  lemma {:induction false} AndAssociate(a: nat, b: nat, m: nat)
    ensures And(And(a, b), m) == And(a, And(b, m))
  {
    if a != 0 && b != 0 && m != 0 {
      AndAssociate(a / 2, b / 2, m / 2);
      AndHalves(a, b);
      AndHalves(b, m);
      AndHalves(And(a, b), m);
      AndHalves(a, And(b, m));
    }
  }

  /** Two masks without a common bit select nothing together. */
  lemma {:induction false} AndShlBelow(a: nat, m: nat, j: nat)
    requires a < Pow2(j)
    ensures And(a, Shl(m, j)) == 0
  {
    AndShl(a, m, j);
    ShrBelow(a, j);
    ShlZero(j);
  }

  lemma {:induction false} ShrBelow(a: nat, j: nat)
    requires a < Pow2(j)
    ensures Shr(a, j) == 0
  {
    if j > 0 { ShrBelow(a / 2, j - 1); }
  }

  lemma {:induction false} ShlZero(j: nat)
    ensures Shl(0, j) == 0
  {
    if j > 0 { ShlZero(j - 1); }
  }

  lemma {:induction false} ShrShl(m: nat, j: nat)
    ensures Shr(Shl(m, j), j) == m
  {
    if j > 0 { ShrShl(m, j - 1); }
  }

  // --- the widths the kernel uses -------------------------------------------------

  lemma Shr3(a: nat)
    ensures Shr(a, 3) == a / 8
  {
    assert Shr(a / 2 / 2, 1) == a / 2 / 2 / 2;
    assert Shr(a / 2, 2) == a / 2 / 2 / 2;
  }

  lemma Shr9(a: nat)
    ensures Shr(a, 9) == a / 512
  {
    Shr3(a);
    Shr3(a / 8);
    Shr3(a / 64);
    ShrShr(a, 3, 3);
    ShrShr(a, 6, 3);
  }

  lemma Shr12(a: nat)
    ensures Shr(a, 12) == a / 4096
  {
    Shr9(a);
    Shr3(a / 512);
    ShrShr(a, 9, 3);
  }

  lemma Shl3(a: nat)
    ensures Shl(a, 3) == a * 8
  {
    assert Shl(a, 1) == 2 * a;
    assert Shl(a, 2) == 4 * a;
  }

  lemma {:induction false} ShlShl(a: nat, j: nat, k: nat)
    ensures Shl(Shl(a, j), k) == Shl(a, j + k)
  {
    if k > 0 { ShlShl(a, j, k - 1); }
  }

  lemma Shl12(a: nat)
    ensures Shl(a, 12) == a * 4096
  {
    Shl3(a);
    Shl3(a * 8);
    Shl3(a * 64);
    Shl3(a * 512);
    ShlShl(a, 3, 3);
    ShlShl(a, 6, 3);
    ShlShl(a, 9, 3);
  }

  lemma {:induction false} Pow2Shl(j: nat, k: nat)
    ensures Pow2(j + k) == Shl(Pow2(j), k)
  {
    if k > 0 { Pow2Shl(j, k - 1); }
  }

  lemma Pow2Values()
    ensures Pow2(3) == 8 && Pow2(9) == 512 && Pow2(12) == 4096 && Pow2(40) == 0x100_0000_0000 && Pow2(64) == TWO64
  {
    assert Pow2(4) == 16;
    Pow2Shl(4, 12);
    Shl12(16);
    Pow2Shl(16, 12);
    Shl12(0x1_0000);
    Pow2Shl(28, 12);
    Shl12(0x1000_0000);
    Pow2Shl(40, 12);
    Shl12(0x100_0000_0000);
    Pow2Shl(52, 12);
    Shl12(0x10_0000_0000_0000);
    Pow2Shl(0, 9);
    Shl3(1);
    Shl3(8);
    Shl3(64);
    ShlShl(1, 3, 3);
    ShlShl(1, 6, 3);
    Pow2Shl(0, 12);
    Shl12(1);
  }

  /** A mask of k low ones takes the remainder. */
  lemma {:induction false} AndLow(a: nat, k: nat)
    ensures a == Shl(Shr(a, k), k) + And(a, Pow2(k) - 1)
    ensures And(a, Pow2(k) - 1) < Pow2(k)
  {
    if k > 0 {
      AndLow(a / 2, k - 1);
      AndHalves(a, Pow2(k) - 1);
      assert (Pow2(k) - 1) / 2 == Pow2(k - 1) - 1 && (Pow2(k) - 1) % 2 == 1;
    }
  }
}
