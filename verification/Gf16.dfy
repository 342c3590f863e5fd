/** The field of 16 elements that mem.c's check nibbles are computed in: polynomials over one bit
    modulo x^4 + x + 1 (the primitive polynomial 0x13), addition being exclusive or. */
module Gf16 {
  /** Multiplication by x. */
  function XTime(a: bv4): bv4 {
    if a & 8 == 0 then a << 1 else (a << 1) ^ 3
  }

  function Pick(p: bool, x: bv4): bv4 {
    if p then x else 0
  }

  /** The product of a and the n low bits of b. */
  function MulBits(a: bv4, b: bv4, n: nat): bv4
    decreases n
  {
    if n == 0 then 0 else Pick(b & 1 != 0, a) ^ MulBits(XTime(a), b >> 1, n - 1)
  }

  function Width(): nat {
    4
  }

  function Mul(a: bv4, b: bv4): bv4 {
    MulBits(a, b, Width())
  }

  lemma XTimeAdd(a: bv4, b: bv4)
    ensures XTime(a ^ b) == XTime(a) ^ XTime(b)
  {
  }

  lemma {:induction false} AddLeft(a: bv4, c: bv4, b: bv4, n: nat)
    ensures MulBits(a ^ c, b, n) == MulBits(a, b, n) ^ MulBits(c, b, n)
    decreases n
  {
    if n > 0 {
      XTimeAdd(a, c);
      AddLeft(XTime(a), XTime(c), b >> 1, n - 1);
    }
  }

  lemma {:induction false} AddRight(a: bv4, b: bv4, c: bv4, n: nat)
    ensures MulBits(a, b ^ c, n) == MulBits(a, b, n) ^ MulBits(a, c, n)
    decreases n
  {
    if n > 0 {
      assert (b ^ c) >> 1 == (b >> 1) ^ (c >> 1);
      AddRight(XTime(a), b >> 1, c >> 1, n - 1);
    }
  }

  lemma DistributesLeft(a: bv4, b: bv4, c: bv4)
    ensures Mul(a ^ b, c) == Mul(a, c) ^ Mul(b, c)
  {
    AddLeft(a, b, c, Width());
  }

  lemma DistributesRight(a: bv4, b: bv4, c: bv4)
    ensures Mul(a, b ^ c) == Mul(a, b) ^ Mul(a, c)
  {
    AddRight(a, b, c, Width());
  }

  /** The product bit by bit. */
  function Expanded(a: bv4, b: bv4): bv4 {
    Pick(b & 1 != 0, a) ^ Pick(b & 2 != 0, XTime(a))
      ^ Pick(b & 4 != 0, XTime(XTime(a))) ^ Pick(b & 8 != 0, XTime(XTime(XTime(a))))
  }

  lemma Unrolled(a: bv4, b: bv4)
    ensures Mul(a, b) == Expanded(a, b)
  {
    var a1, b1 := XTime(a), b >> 1;
    var a2, b2 := XTime(a1), b1 >> 1;
    var a3, b3 := XTime(a2), b2 >> 1;
    assert MulBits(a3, b3, 1) == Pick(b3 & 1 != 0, a3);
    assert MulBits(a2, b2, 2) == Pick(b2 & 1 != 0, a2) ^ MulBits(a3, b3, 1);
    assert MulBits(a1, b1, 3) == Pick(b1 & 1 != 0, a1) ^ MulBits(a2, b2, 2);
    assert (b1 & 1 == 0) == (b & 2 == 0) && (b2 & 1 == 0) == (b & 4 == 0) && (b3 & 1 == 0) == (b & 8 == 0);
  }

  lemma ExpandedCommutes(a: bv4, b: bv4)
    ensures Expanded(a, b) == Expanded(b, a)
  {
  }

  lemma Commutes(a: bv4, b: bv4)
    ensures Mul(a, b) == Mul(b, a)
  {
    Unrolled(a, b);
    Unrolled(b, a);
    ExpandedCommutes(a, b);
  }

  lemma ExpandedUnit(a: bv4, b: bv4)
    ensures b == 0 ==> Expanded(a, b) == 0
    ensures b == 1 ==> Expanded(a, b) == a
  {
  }

  lemma TimesUnit(a: bv4, b: bv4)
    ensures b == 0 ==> Mul(a, b) == 0
    ensures b == 1 ==> Mul(a, b) == a
  {
    Unrolled(a, b);
    ExpandedUnit(a, b);
  }

  lemma Units(a: bv4)
    ensures Mul(a, 0) == 0 == Mul(0, a)
    ensures Mul(a, 1) == a == Mul(1, a)
  {
    TimesUnit(a, 0);
    TimesUnit(a, 1);
    Commutes(a, 0);
    Commutes(a, 1);
  }

  lemma ExpandedShift(a: bv4, b: bv4)
    ensures Expanded(a, XTime(b)) == XTime(Expanded(a, b))
  {
  }

  lemma ShiftRight(a: bv4, b: bv4)
    ensures Mul(a, XTime(b)) == XTime(Mul(a, b))
  {
    Unrolled(a, b);
    Unrolled(a, XTime(b));
    ExpandedShift(a, b);
  }

  /** With m = a b: a (b c) = m c. */
  ghost predicate AssociatesAt(a: bv4, b: bv4, m: bv4, c: bv4) {
    Mul(a, Mul(b, c)) == Mul(m, c)
  }

  lemma AddProducts(a: bv4, m: bv4, c: bv4, d: bv4, x: bv4, y: bv4)
    requires Mul(a, x) == Mul(m, c) && Mul(a, y) == Mul(m, d)
    ensures Mul(a, x ^ y) == Mul(m, c ^ d)
  {
    DistributesRight(a, x, y);
    DistributesRight(m, c, d);
  }

  lemma AssociatesAdd(a: bv4, b: bv4, m: bv4, c: bv4, d: bv4)
    requires AssociatesAt(a, b, m, c) && AssociatesAt(a, b, m, d)
    ensures AssociatesAt(a, b, m, c ^ d)
  {
    DistributesRight(b, c, d);
    AddProducts(a, m, c, d, Mul(b, c), Mul(b, d));
  }

  /** The product with x, x^2 or x^3. */
  function Power(a: bv4, c: bv4): bv4 {
    if c == 2 then XTime(a) else if c == 4 then XTime(XTime(a)) else XTime(XTime(XTime(a)))
  }

  lemma Doubled(a: bv4, c: bv4)
    requires c == 2 || c == 4 || c == 8
    ensures Mul(a, c) == Power(a, c)
  {
    Unrolled(a, c);
  }

  lemma PowerShifts(a: bv4, b: bv4, m: bv4, c: bv4)
    requires m == Mul(a, b)
    ensures Mul(a, Power(b, c)) == Power(m, c)
  {
    ShiftRight(a, b);
    ShiftRight(a, XTime(b));
    ShiftRight(a, XTime(XTime(b)));
  }

  lemma AssociatesPower(a: bv4, b: bv4, m: bv4, c: bv4)
    requires m == Mul(a, b) && (c == 2 || c == 4 || c == 8)
    ensures AssociatesAt(a, b, m, c)
  {
    PowerShifts(a, b, m, c);
    Doubled(b, c);
    Doubled(m, c);
  }

  lemma AssociatesUnits(a: bv4, b: bv4, m: bv4)
    requires m == Mul(a, b)
    ensures AssociatesAt(a, b, m, 0) && AssociatesAt(a, b, m, 1)
  {
    Units(a);
    Units(b);
    Units(m);
  }

  lemma SplitBits(c: bv4) returns (p: bv4, q: bv4, r: bv4, s: bv4)
    ensures c == p ^ q ^ r ^ s
    ensures (p == 0 || p == 1) && (q == 0 || q == 2) && (r == 0 || r == 4) && (s == 0 || s == 8)
  {
    p, q, r, s := c & 1, c & 2, c & 4, c & 8;
  }

  lemma AssociatesBit(a: bv4, b: bv4, m: bv4, c: bv4)
    requires m == Mul(a, b) && (c == 0 || c == 1 || c == 2 || c == 4 || c == 8)
    ensures AssociatesAt(a, b, m, c)
  {
    if c == 0 || c == 1 {
      AssociatesUnits(a, b, m);
    } else {
      AssociatesPower(a, b, m, c);
    }
  }

  lemma Associates(a: bv4, b: bv4, c: bv4)
    ensures Mul(a, Mul(b, c)) == Mul(Mul(a, b), c)
  {
    var m := Mul(a, b);
    var p, q, r, s := SplitBits(c);
    AssociatesBit(a, b, m, p);
    AssociatesBit(a, b, m, q);
    AssociatesBit(a, b, m, r);
    AssociatesBit(a, b, m, s);
    AssociatesAdd(a, b, m, p, q);
    AssociatesAdd(a, b, m, p ^ q, r);
    AssociatesAdd(a, b, m, p ^ q ^ r, s);
  }

  /** The multiplicative inverse, as the coefficient table of mem.c lists it. */
  function Inverse(a: bv4): bv4 {
    if a == 1 then 1 else if a == 2 then 9 else if a == 3 then 14 else if a == 4 then 13
    else if a == 5 then 11 else if a == 6 then 7 else if a == 7 then 6 else if a == 8 then 15
    else if a == 9 then 2 else if a == 10 then 12 else if a == 11 then 5 else if a == 12 then 10
    else if a == 13 then 4 else if a == 14 then 3 else if a == 15 then 8 else 0
  }

  lemma ExpandedInverse(a: bv4)
    requires a != 0
    ensures Expanded(a, Inverse(a)) == 1
  {
  }

  lemma InverseCorrect(a: bv4)
    requires a != 0
    ensures Mul(a, Inverse(a)) == 1 == Mul(Inverse(a), a)
  {
    Unrolled(a, Inverse(a));
    ExpandedInverse(a);
    Commutes(a, Inverse(a));
  }

  /** A product vanishes only if a factor does. */
  lemma ZeroProduct(a: bv4, b: bv4)
    requires Mul(a, b) == 0
    ensures a == 0 || b == 0
  {
    if a != 0 {
      InverseCorrect(a);
      Associates(Inverse(a), a, b);
      Units(Inverse(a));
      Units(b);
    }
  }

  /** A nonzero factor on the right can be cancelled. */
  lemma CancelRight(p: bv4, q: bv4, w: bv4)
    requires Mul(p, w) == Mul(q, w)
    ensures p == q || w == 0
  {
    AddLeft(p, q, w, Width());
    ZeroProduct(p ^ q, w);
  }

  /** Squaring is additive. */
  lemma SquareAdd(a: bv4, b: bv4)
    ensures Mul(a ^ b, a ^ b) == Mul(a, a) ^ Mul(b, b)
  {
    DistributesLeft(a, b, a ^ b);
    DistributesRight(a, a, b);
    DistributesRight(b, a, b);
    Commutes(a, b);
    CrossTerms(Mul(a, a), Mul(a, b), Mul(b, b));
  }

  lemma CrossTerms(p: bv4, q: bv4, r: bv4)
    ensures (p ^ q) ^ (q ^ r) == p ^ r
  {
  }

  lemma SameIfSumZero(a: bv4, b: bv4)
    ensures a ^ b == 0 <==> a == b
  {
  }

  lemma SquareInjective(a: bv4, b: bv4)
    requires Mul(a, a) == Mul(b, b)
    ensures a == b
  {
    SquareAdd(a, b);
    SameIfSumZero(Mul(a, a), Mul(b, b));
    ZeroProduct(a ^ b, a ^ b);
    SameIfSumZero(a, b);
  }

  /** x times x^3 is x + 1. */
  lemma FourthPower()
    ensures Mul(2, 8) == 3
  {
    Unrolled(2, 8);
  }
}
