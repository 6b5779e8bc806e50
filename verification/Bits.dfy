/** Python's bitwise operators on nonnegative integers of any size. */
module Bits {

  function Pow2(k: nat): (p: nat)
    ensures p >= 1
  {
    if k == 0 then 1 else 2 * Pow2(k - 1)
  }

  /** `a ^ b` */
  function Xor(a: nat, b: nat): nat
    decreases a + b
  {
    if a == 0 && b == 0 then 0 else 2 * Xor(a / 2, b / 2) + (a + b) % 2
  }

  /** `a | b` */
  function Or(a: nat, b: nat): nat
    decreases a + b
  {
    if a == 0 && b == 0 then 0 else 2 * Or(a / 2, b / 2) + if a % 2 == 1 || b % 2 == 1 then 1 else 0
  }

  /** `a & b` */
  function And(a: nat, b: nat): nat
    decreases a + b
  {
    if a == 0 && b == 0 then 0 else 2 * And(a / 2, b / 2) + if a % 2 == 1 && b % 2 == 1 then 1 else 0
  }

  /** `a >> k` */
  function Shr(a: nat, k: nat): (r: nat)
    ensures r <= a && (k > 0 && a > 0 ==> r < a)
    decreases a, k
  {
    if k == 0 then a else Shr(a / 2, k - 1)
  }

  /** `a << k` */
  function Shl(a: nat, k: nat): nat {
    a * Pow2(k)
  }

  /** `a & (2**k - 1)` */
  function Lo(a: nat, k: nat): nat
    decreases a, k
  {
    if k == 0 then 0 else 2 * Lo(a / 2, k - 1) + a % 2
  }

  // ---- Exclusive or ---------------------------------------------------------------

  lemma XorHalf(a: nat, b: nat)
    ensures Xor(a, b) / 2 == Xor(a / 2, b / 2)
    ensures Xor(a, b) % 2 == (a + b) % 2
  {
  }

  lemma {:induction false} XorComm(a: nat, b: nat)
    ensures Xor(a, b) == Xor(b, a)
    decreases a + b
  {
    if a + b > 0 { XorComm(a / 2, b / 2); }
  }

  lemma {:induction false} XorZero(a: nat)
    ensures Xor(a, 0) == a && Xor(0, a) == a
  {
    if a > 0 { XorZero(a / 2); }
  }

  lemma {:induction false} XorSelf(a: nat)
    ensures Xor(a, a) == 0
  {
    if a > 0 { XorSelf(a / 2); }
  }

  lemma {:induction false} XorCancel(a: nat, b: nat)
    ensures Xor(Xor(a, b), b) == a
    decreases a + b
  {
    var x := Xor(a, b);
    XorHalf(a, b);
    XorHalf(x, b);
    XorZero(0);
    hide Xor;
    if a + b > 0 {
      XorCancel(a / 2, b / 2);
      SameParity(a, b, x, Xor(x, b));
    }
  }

  lemma SameParity(a: nat, b: nat, x: nat, r: nat)
    requires x % 2 == (a + b) % 2 && r % 2 == (x + b) % 2 && r / 2 == a / 2
    ensures r == a
  {
  }

  /** Each operand of `^` is determined by the other and the result. */
  lemma XorInjective(a: nat, b: nat, c: nat)
    ensures Xor(a, c) == Xor(b, c) <==> a == b
    ensures Xor(c, a) == Xor(c, b) <==> a == b
  {
    XorCancel(a, c);
    XorCancel(b, c);
    XorComm(a, c);
    XorComm(b, c);
  }

  /** The inner operands of a four-fold xor may be exchanged. */
  lemma {:induction false} XorSwap(a: nat, b: nat, c: nat, d: nat)
    ensures Xor(Xor(a, b), Xor(c, d)) == Xor(Xor(a, c), Xor(b, d))
    decreases a + b + c + d
  {
    if a + b + c + d > 0 {
      XorSwap(a / 2, b / 2, c / 2, d / 2);
      var x, y := Xor(Xor(a, b), Xor(c, d)), Xor(Xor(a, c), Xor(b, d));
      assert x / 2 == y / 2 && x % 2 == y % 2 by {
        HalfOfFour(a, b, c, d);
        HalfOfFour(a, c, b, d);
      }
    }
  }

  lemma HalfOfFour(a: nat, b: nat, c: nat, d: nat)
    ensures Xor(Xor(a, b), Xor(c, d)) / 2 == Xor(Xor(a / 2, b / 2), Xor(c / 2, d / 2))
    ensures Xor(Xor(a, b), Xor(c, d)) % 2 == (a + b + c + d) % 2
  {
    hide Xor;
    XorHalf(a, b);
    XorHalf(c, d);
    XorHalf(Xor(a, b), Xor(c, d));
    SumParity(Xor(a, b), Xor(c, d), a + b, c + d);
  }

  /** Shifts and low bits work on each operand. */
  lemma {:induction false} XorShr(a: nat, b: nat, k: nat)
    ensures Shr(Xor(a, b), k) == Xor(Shr(a, k), Shr(b, k))
    decreases k
  {
    if k > 0 {
      XorHalf(a, b);
      XorShr(a / 2, b / 2, k - 1);
    }
  }

  lemma {:induction false} XorLo(a: nat, b: nat, k: nat)
    ensures Lo(Xor(a, b), k) == Xor(Lo(a, k), Lo(b, k))
    decreases k
  {
    if k > 0 {
      var x, y, z := Lo(a, k), Lo(b, k), Xor(a, b);
      LoHalf(a, k);
      LoHalf(b, k);
      LoHalf(z, k);
      XorHalf(a, b);
      XorHalf(x, y);
      XorLo(a / 2, b / 2, k - 1);
      assert Lo(z, k) / 2 == Xor(x, y) / 2;
      SumParity(a, b, x, y);
    }
  }

  lemma LoHalf(a: nat, k: nat)
    requires k > 0
    ensures Lo(a, k) / 2 == Lo(a / 2, k - 1) && Lo(a, k) % 2 == a % 2
  {
  }

  lemma SumParity(a: nat, b: nat, x: nat, y: nat)
    requires x % 2 == a % 2 && y % 2 == b % 2
    ensures (x + y) % 2 == (a + b) % 2
  {
  }

  /** `x ^ (x >> k)` determines x. */
  lemma {:induction false} XorShiftInjective(x: nat, y: nat, k: nat)
    requires k > 0 && Xor(x, Shr(x, k)) == Xor(y, Shr(y, k))
    ensures x == y
    decreases x + y
  {
    if x + y > 0 {
      XorShr(x, Shr(x, k), k);
      XorShr(y, Shr(y, k), k);
      XorShiftInjective(Shr(x, k), Shr(y, k), k);
      XorInjective(x, y, Shr(x, k));
    }
  }

  // ---- Low bits and shifts as arithmetic ------------------------------------------

  lemma {:induction false} Split(a: nat, k: nat)
    ensures a == Shr(a, k) * Pow2(k) + Lo(a, k) && Lo(a, k) < Pow2(k)
    decreases k
  {
    if k > 0 {
      Split(a / 2, k - 1);
      Recompose(a, Shr(a / 2, k - 1), Pow2(k - 1), Lo(a / 2, k - 1));
    }
  }

  lemma Recompose(a: nat, s: nat, p: nat, l: nat)
    requires a / 2 == s * p + l && l < p
    ensures a == s * (2 * p) + (2 * l + a % 2) && 2 * l + a % 2 < 2 * p
  {
    assert s * (2 * p) == 2 * (s * p);
  }

  lemma {:induction false} LoSmall(a: nat, k: nat)
    requires a < Pow2(k)
    ensures Lo(a, k) == a && Shr(a, k) == 0
    decreases k
  {
    if k > 0 { LoSmall(a / 2, k - 1); }
  }

  lemma {:induction false} XorBound(a: nat, b: nat, k: nat)
    requires a < Pow2(k) && b < Pow2(k)
    ensures Xor(a, b) < Pow2(k)
    decreases k
  {
    if k > 0 && a + b > 0 { XorBound(a / 2, b / 2, k - 1); }
  }

  lemma {:induction false} OrLaws(a: nat, b: nat, c: nat)
    ensures Or(Or(a, b), c) == Or(a, Or(b, c)) && Or(a, b) == Or(b, a) && Or(a, a) == a
    decreases a + b + c
  {
    OrParts(a, b);
    OrParts(b, a);
    OrParts(a, a);
    OrParts(b, c);
    OrParts(Or(a, b), c);
    OrParts(a, Or(b, c));
    hide Or;
    if a + b + c > 0 {
      OrLaws(a / 2, b / 2, c / 2);
    } else {
      OrZero(0);
    }
  }

  lemma OrParts(a: nat, b: nat)
    ensures Or(a, b) == 2 * Or(a / 2, b / 2) + if a % 2 == 1 || b % 2 == 1 then 1 else 0
    ensures Or(a, b) / 2 == Or(a / 2, b / 2) && (Or(a, b) % 2 == 1 <==> a % 2 == 1 || b % 2 == 1)
  {
  }

  /** `|` works on the low and the high part of a number by itself. */
  lemma {:induction false} OrConcat(a: nat, b: nat, c: nat, d: nat, k: nat)
    requires b < Pow2(k) && d < Pow2(k)
    ensures Or(a * Pow2(k) + b, c * Pow2(k) + d) == Or(a, c) * Pow2(k) + Or(b, d)
    decreases k
  {
    hide Or;
    if k == 0 {
      OrZero(0);
    } else {
      var p, x, y := Pow2(k - 1), a * Pow2(k) + b, c * Pow2(k) + d;
      HalfOfSum(a, p, b);
      HalfOfSum(c, p, d);
      HalfOfSum(Or(a, c), p, Or(b, d));
      OrConcat(a, b / 2, c, d / 2, k - 1);
      OrParts(x, y);
      OrParts(b, d);
    }
  }

  lemma HalfOfSum(a: nat, p: nat, b: nat)
    ensures (a * (2 * p) + b) / 2 == a * p + b / 2 && (a * (2 * p) + b) % 2 == b % 2
  {
    assert a * (2 * p) == 2 * (a * p);
  }

  lemma {:induction false} OrBound(a: nat, b: nat, k: nat)
    requires a < Pow2(k) && b < Pow2(k)
    ensures Or(a, b) < Pow2(k)
    decreases k
  {
    if k > 0 && a + b > 0 { OrBound(a / 2, b / 2, k - 1); }
  }

  lemma {:induction false} AndSmall(a: nat, b: nat, k: nat)
    requires a < Pow2(k) && b < Pow2(k)
    ensures And(a, b) < Pow2(k)
    decreases k
  {
    if k > 0 && a + b > 0 { AndSmall(a / 2, b / 2, k - 1); }
  }

  lemma {:induction false} AndOnes(a: nat, k: nat)
    requires a < Pow2(k)
    ensures And(a, Pow2(k) - 1) == a && And(a, 0) == 0
    decreases k
  {
    if k > 0 { AndOnes(a / 2, k - 1); }
  }

  /** On disjoint bits `|` and `^` are both addition. */
  lemma {:induction false} DisjointSum(a: nat, b: nat, k: nat)
    requires b < Pow2(k)
    ensures Or(Shl(a, k), b) == Or(b, Shl(a, k)) == Xor(Shl(a, k), b) == Shl(a, k) + b
    decreases k
  {
    hide Or, Xor;
    if k == 0 {
      OrZero(a);
      XorZero(a);
      assert Shl(a, 0) == a;
    } else {
      assert a * (2 * Pow2(k - 1)) == 2 * (a * Pow2(k - 1));
      Doubled(a * Pow2(k - 1), b);
      DisjointSum(a, b / 2, k - 1);
    }
  }

  lemma Doubled(x: nat, b: nat)
    ensures Or(2 * x, b) == 2 * Or(x, b / 2) + b % 2
    ensures Or(b, 2 * x) == 2 * Or(b / 2, x) + b % 2
    ensures Xor(2 * x, b) == 2 * Xor(x, b / 2) + b % 2
  {
    hide Or, Xor;
    OrEven(2 * x, x, b, b / 2);
    XorEven(2 * x, x, b, b / 2);
  }

  lemma OrEven(a: nat, x: nat, b: nat, y: nat)
    requires a == 2 * x && y == b / 2
    ensures Or(a, b) == 2 * Or(x, y) + b % 2 && Or(b, a) == 2 * Or(y, x) + b % 2
  {
    assert a / 2 == x && a % 2 == 0;
  }

  lemma XorEven(a: nat, x: nat, b: nat, y: nat)
    requires a == 2 * x && y == b / 2
    ensures Xor(a, b) == 2 * Xor(x, y) + b % 2
  {
    assert a / 2 == x && (a + b) % 2 == b % 2;
  }

  lemma {:induction false} OrZero(a: nat)
    ensures Or(a, 0) == a && Or(0, a) == a
  {
    if a > 0 { OrZero(a / 2); }
  }

  lemma {:induction false} PowSum(j: nat, k: nat)
    ensures Pow2(j + k) == Pow2(j) * Pow2(k)
  {
    if j > 0 {
      PowSum(j - 1, k);
      Twice(Pow2(j - 1), Pow2(k));
    }
  }

  lemma Twice(p: nat, q: nat)
    ensures 2 * (p * q) == 2 * p * q
  {
  }

  lemma Powers()
    ensures Pow2(0) == 1 && Pow2(8) == 0x100 && Pow2(16) == 0x1_0000 && Pow2(24) == 0x100_0000 && Pow2(32) == 0x1_0000_0000
  {
    assert Pow2(4) == 16;
    assert Pow2(8) == 256;
    assert Pow2(12) == 4096;
    assert Pow2(16) == 65536;
    assert Pow2(20) == 1048576;
    assert Pow2(24) == 16777216;
    assert Pow2(28) == 268435456;
  }
}
