/** The columns of mem.c's `hamming`: 32 data nibbles and 4 check nibbles over the field of 16
    elements. Nibble i of a word of 36 has the column (p1, p2, p3, p4) of weights with which it
    enters the four checks. Any three different columns are linearly independent. */
module NibbleColumns {
  import opened Gf16

  const DATA := 32
  const LENGTH := 36

  /** The first and fourth check weigh a nibble, the second and third take it or leave it. */
  datatype Column = Column(p1: bv4, p2: bool, p3: bool, p4: bv4)

  /** The coefficients that the loops of `hamming` count through for nibbles 0..14 and 15..29. */
  const NUMBER: seq<bv4> := [1, 2, 3, 4, 5, 6, 7, 8, 9, 10, 11, 12, 13, 14, 15]

  function ColumnOf(i: nat): Column
    requires i < LENGTH
  {
    if i < 15 then Column(NUMBER[i], true, false, Inverse(NUMBER[i]))
    else if i < 30 then Column(NUMBER[i - 15], false, true, Inverse(NUMBER[i - 15]))
    else if i == 30 then Column(0, true, true, 1)
    else if i == 31 then Column(1, true, true, 0)
    else if i == 32 then Column(1, false, false, 0)
    else if i == 33 then Column(0, true, false, 0)
    else if i == 34 then Column(0, false, true, 0)
    else Column(0, false, false, 1)
  }

  // ---------------------------------------------------------------- any three columns are independent

  predicate Zero(p: bv4, q: bv4, r: bv4) {
    p ^ q ^ r == 0
  }

  /** The weighted sum of three columns is zero. */
  ghost predicate Cancel(c: Column, x: bv4, d: Column, y: bv4, e: Column, z: bv4) {
    && Zero(Mul(c.p1, x), Mul(d.p1, y), Mul(e.p1, z))
    && Zero(Pick(c.p2, x), Pick(d.p2, y), Pick(e.p2, z))
    && Zero(Pick(c.p3, x), Pick(d.p3, y), Pick(e.p3, z))
    && Zero(Mul(c.p4, x), Mul(d.p4, y), Mul(e.p4, z))
  }

  /** With w = x / a: a w = x and a (a w) = a x. */
  lemma Quotient(a: bv4, ia: bv4, x: bv4)
    requires Mul(a, ia) == 1
    ensures Mul(a, Mul(ia, x)) == x
    ensures Mul(Mul(a, a), Mul(ia, x)) == Mul(a, x)
  {
    Associates(a, ia, x);
    Units(x);
    Associates(a, a, Mul(ia, x));
  }

  /** If a x = b y and x / a = y / b for different a and b, then x and y are zero. */
  lemma TwoPoints(a: bv4, ia: bv4, b: bv4, ib: bv4, x: bv4, y: bv4)
    requires Mul(a, ia) == 1 && Mul(b, ib) == 1 && a != b
    requires Mul(a, x) == Mul(b, y) && Mul(ia, x) == Mul(ib, y)
    ensures x == 0 && y == 0
  {
    var w := Mul(ia, x);
    Quotient(a, ia, x);
    Quotient(b, ib, y);
    CancelRight(Mul(a, a), Mul(b, b), w);
    if w != 0 {
      SquareInjective(a, b);
    }
    Units(a);
    Units(b);
  }

  lemma Regroup(p: bv4, q: bv4, t: bv4, r: bv4, s: bv4, pr: bv4, qs: bv4)
    requires p ^ q ^ t == 0 && t == r ^ s && pr == p ^ r && qs == q ^ s
    ensures pr == qs
  {
  }

  /** With z = x + y, the sum a x + b y + c z vanishes only if (a + c) x = (b + c) y. */
  lemma Eliminate(a: bv4, b: bv4, c: bv4, x: bv4, y: bv4, z: bv4)
    requires z == x ^ y && Mul(a, x) ^ Mul(b, y) ^ Mul(c, z) == 0
    ensures Mul(a ^ c, x) == Mul(b ^ c, y)
  {
    DistributesRight(c, x, y);
    DistributesLeft(a, c, x);
    DistributesLeft(b, c, y);
    Regroup(Mul(a, x), Mul(b, y), Mul(c, z), Mul(c, x), Mul(c, y), Mul(a ^ c, x), Mul(b ^ c, y));
  }

  /** 1/a + 1/c = (a + c) / (a c). */
  lemma ReciprocalSum(a: bv4, ia: bv4, c: bv4, ic: bv4)
    requires Mul(a, ia) == 1 && Mul(c, ic) == 1
    ensures Mul(Mul(a, c), ia ^ ic) == a ^ c
  {
    var ac := Mul(a, c);
    DistributesRight(ac, ia, ic);
    assert Mul(ac, ic) == a by {
      Associates(a, c, ic);
      Units(a);
    }
    assert Mul(ac, ia) == c by {
      Commutes(a, c);
      Associates(c, a, ia);
      Units(c);
    }
  }

  lemma ReciprocalDiffers(a: bv4, ia: bv4, c: bv4, ic: bv4)
    requires Mul(a, ia) == 1 && Mul(c, ic) == 1 && a != c
    ensures ia ^ ic != 0 && ia != 0 && a != 0
  {
    Units(a);
    Commutes(a, ia);
    Units(ia);
    if ia == ic {
      CancelRight(a, c, ia);
    }
  }

  /** m (r x) = (m r) x on both sides of r x = s y. */
  lemma Scaled(m: bv4, n: bv4, r: bv4, s: bv4, p: bv4, q: bv4, x: bv4, y: bv4)
    requires Mul(m, r) == p && Mul(n, s) == q && Mul(p, x) == Mul(q, y) && Mul(r, x) == Mul(s, y)
    ensures Mul(m, Mul(r, x)) == Mul(n, Mul(r, x))
  {
    Associates(m, r, x);
    Associates(n, s, y);
  }

  lemma ThreePointsReduced(a: bv4, ia: bv4, b: bv4, ib: bv4, c: bv4, ic: bv4, x: bv4, y: bv4)
    requires Mul(a, ia) == 1 && Mul(b, ib) == 1 && Mul(c, ic) == 1 && a != b && b != c && a != c
    requires Mul(a ^ c, x) == Mul(b ^ c, y) && Mul(ia ^ ic, x) == Mul(ib ^ ic, y)
    ensures x == 0 && y == 0
  {
    var r, s := ia ^ ic, ib ^ ic;
    var t := Mul(r, x);
    assert Mul(Mul(a, c), t) == Mul(Mul(b, c), t) by {
      ReciprocalSum(a, ia, c, ic);
      ReciprocalSum(b, ib, c, ic);
      Scaled(Mul(a, c), Mul(b, c), r, s, a ^ c, b ^ c, x, y);
    }
    ReciprocalDiffers(a, ia, c, ic);
    ReciprocalDiffers(b, ib, c, ic);
    ReciprocalDiffers(c, ic, a, ia);
    CommonFactor(a, b, c, t);
    ZeroProduct(r, x);
    ZeroProduct(s, y);
  }

  lemma CommonFactor(a: bv4, b: bv4, c: bv4, t: bv4)
    requires Mul(Mul(a, c), t) == Mul(Mul(b, c), t) && a != b && c != 0
    ensures t == 0
  {
    CancelRight(Mul(a, c), Mul(b, c), t);
    if t != 0 {
      CancelRight(a, b, c);
    }
  }

  /** Three points of the curve (a, 1, 1/a) are independent. */
  lemma ThreePoints(a: bv4, ia: bv4, b: bv4, ib: bv4, c: bv4, ic: bv4, x: bv4, y: bv4, z: bv4)
    requires Mul(a, ia) == 1 && Mul(b, ib) == 1 && Mul(c, ic) == 1 && a != b && b != c && a != c
    requires z == x ^ y && Mul(a, x) ^ Mul(b, y) ^ Mul(c, z) == 0
    requires Mul(ia, x) ^ Mul(ib, y) ^ Mul(ic, z) == 0
    ensures x == 0 && y == 0
  {
    Eliminate(a, b, c, x, y, z);
    Eliminate(ia, ib, ic, x, y, z);
    ThreePointsReduced(a, ia, b, ib, c, ic, x, y);
  }

  lemma NonZero(a: bv4, ia: bv4, x: bv4)
    requires Mul(a, ia) == 1
    ensures Mul(a, x) == 0 <==> x == 0
    ensures Mul(ia, x) == 0 <==> x == 0
  {
    Units(a);
    Units(ia);
    if Mul(a, x) == 0 {
      ZeroProduct(a, x);
    }
    if Mul(ia, x) == 0 {
      ZeroProduct(ia, x);
    }
  }

  lemma SameReciprocal(a: bv4, ia: bv4, b: bv4, ib: bv4)
    requires Mul(a, ia) == 1 && Mul(b, ib) == 1
    ensures a == b <==> ia == ib
  {
    Units(a);
    Units(ia);
    Commutes(a, ia);
    Commutes(b, ib);
    if ia == ib {
      CancelRight(a, b, ia);
    }
    if a == b {
      CancelRight(ia, ib, a);
    }
  }

  /** Two points of the same curve with equal weights cancel in no row unless the weight is zero. */
  lemma EqualWeights(a: bv4, ia: bv4, b: bv4, ib: bv4, x: bv4)
    requires Mul(a, ia) == 1 && Mul(b, ib) == 1 && a != b
    ensures Mul(a, x) == Mul(b, x) ==> x == 0
    ensures Mul(ia, x) == Mul(ib, x) ==> x == 0
  {
    SameReciprocal(a, ia, b, ib);
    if Mul(a, x) == Mul(b, x) {
      CancelRight(a, b, x);
    }
    if Mul(ia, x) == Mul(ib, x) {
      CancelRight(ia, ib, x);
    }
  }

  lemma SumOfTwo(p: bv4, q: bv4, r: bv4)
    requires Zero(p, q, r) && r == 0
    ensures p == q
  {
  }

  /** A column of one of the two curves (a, 1, 0, 1/a) and (a, 0, 1, 1/a). */
  ghost predicate Point(c: Column) {
    Mul(c.p1, c.p4) == 1 && c.p2 != c.p3
  }

  /** Two nibbles of one curve and one of the other, as the second and third check see them. */
  lemma TwoAndOneRows(x: bv4, y: bv4, z: bv4, p: bool)
    requires Zero(Pick(p, x), Pick(p, y), Pick(!p, z)) && Zero(Pick(!p, x), Pick(!p, y), Pick(p, z))
    ensures z == 0 && x == y
  {
  }

  lemma EqualAndCancelled(a: bv4, ia: bv4, b: bv4, ib: bv4, x: bv4, y: bv4, e: bv4, z: bv4)
    requires Mul(a, ia) == 1 && Mul(b, ib) == 1 && a != b && x == y && z == 0
    requires Zero(Mul(a, x), Mul(b, y), Mul(e, z))
    ensures x == 0
  {
    Units(e);
    SumOfTwo(Mul(a, x), Mul(b, y), Mul(e, z));
    EqualWeights(a, ia, b, ib, x);
  }

  /** Two points of one curve, one of the other. */
  lemma TwoAndOne(c: Column, x: bv4, d: Column, y: bv4, e: Column, z: bv4)
    requires Point(c) && Point(d) && Point(e) && c.p1 != d.p1 && Cancel(c, x, d, y, e, z)
    requires c.p2 == d.p2 != e.p2
    ensures x == 0 && y == 0 && z == 0
  {
    TwoAndOneRows(x, y, z, c.p2);
    EqualAndCancelled(c.p1, c.p4, d.p1, d.p4, x, y, e.p1, z);
  }

  lemma SumOfThree(x: bv4, y: bv4, z: bv4, p: bool)
    requires Zero(Pick(p, x), Pick(p, y), Pick(p, z)) && Zero(Pick(!p, x), Pick(!p, y), Pick(!p, z))
    ensures z == x ^ y
  {
  }

  /** Three points of one curve. */
  lemma ThreeOfOne(c: Column, x: bv4, d: Column, y: bv4, e: Column, z: bv4)
    requires Point(c) && Point(d) && Point(e) && c.p2 == d.p2 == e.p2 && Cancel(c, x, d, y, e, z)
    requires c.p1 != d.p1 && d.p1 != e.p1 && c.p1 != e.p1
    ensures x == 0 && y == 0 && z == 0
  {
    SumOfThree(x, y, z, c.p2);
    ThreePoints(c.p1, c.p4, d.p1, d.p4, e.p1, e.p4, x, y, z);
  }

  /** The columns of nibbles 30 and 31 and of the check nibbles: all weights are 0 or 1. */
  predicate Base(c: Column) {
    || c == Column(0, true, true, 1) || c == Column(1, true, true, 0)
    || c == Column(1, false, false, 0) || c == Column(0, true, false, 0)
    || c == Column(0, false, true, 0) || c == Column(0, false, false, 1)
  }

  lemma BaseProducts(e: Column, z: bv4)
    requires Base(e)
    ensures Mul(e.p1, z) == Pick(e.p1 == 1, z) && Mul(e.p4, z) == Pick(e.p4 == 1, z)
  {
    Units(z);
  }

  function Row(c: Column, second: bool): bool {
    if second then c.p2 else c.p3
  }

  /** The second and third row, the one of curve `p` first. */
  lemma Rows(c: Column, x: bv4, d: Column, y: bv4, e: Column, z: bv4, p: bool)
    requires Cancel(c, x, d, y, e, z)
    ensures Zero(Pick(Row(c, p), x), Pick(Row(d, p), y), Pick(Row(e, p), z))
    ensures Zero(Pick(Row(c, !p), x), Pick(Row(d, !p), y), Pick(Row(e, !p), z))
  {
  }

  /** What is left when two points of one curve meet a base column. */
  lemma TwoAndBaseRows(x: bv4, y: bv4, z: bv4, e: Column, p: bool)
    requires Base(e) && Zero(x, y, Pick(Row(e, p), z)) && Zero(0, 0, Pick(Row(e, !p), z))
    ensures Row(e, !p) ==> z == 0 && x == y
    ensures !Row(e, p) && !Row(e, !p) ==> x == y && e.p1 != e.p4
    ensures Row(e, p) && !Row(e, !p) ==> e.p1 == 0 == e.p4
    ensures x == 0 && y == 0 && Row(e, p) ==> z == 0
  {
  }

  lemma LastOne(p: bv4, q: bv4, r: bv4)
    requires Zero(p, q, r) && p == 0 && q == 0
    ensures r == 0
  {
  }

  /** x = y, and a first or fourth row in which the base column has no part. */
  lemma EqualAndFree(a: bv4, ia: bv4, b: bv4, ib: bv4, x: bv4, y: bv4, o1: bv4, o4: bv4)
    requires Mul(a, ia) == 1 && Mul(b, ib) == 1 && a != b && x == y
    requires Zero(Mul(a, x), Mul(b, y), o1) && Zero(Mul(ia, x), Mul(ib, y), o4)
    requires o1 == 0 || o4 == 0
    ensures x == 0
  {
    EqualWeights(a, ia, b, ib, x);
    if o1 == 0 {
      SumOfTwo(Mul(a, x), Mul(b, y), o1);
    } else {
      SumOfTwo(Mul(ia, x), Mul(ib, y), o4);
    }
  }

  lemma FreeOfBoth(a: bv4, ia: bv4, b: bv4, ib: bv4, x: bv4, y: bv4, o1: bv4, o4: bv4)
    requires Mul(a, ia) == 1 && Mul(b, ib) == 1 && a != b
    requires Zero(Mul(a, x), Mul(b, y), o1) && Zero(Mul(ia, x), Mul(ib, y), o4) && o1 == 0 == o4
    ensures x == 0 && y == 0
  {
    SumOfTwo(Mul(a, x), Mul(b, y), o1);
    SumOfTwo(Mul(ia, x), Mul(ib, y), o4);
    TwoPoints(a, ia, b, ib, x, y);
  }

  lemma BothZero(a: bv4, b: bv4, x: bv4, y: bv4)
    requires x == 0 && y == 0
    ensures Mul(a, x) == 0 && Mul(b, y) == 0
  {
    Units(a);
    Units(b);
  }

  lemma TwoAndBaseEqual(c: Column, x: bv4, d: Column, y: bv4, e: Column, z: bv4)
    requires Point(c) && Point(d) && Base(e) && c.p1 != d.p1 && c.p2 == d.p2 && Cancel(c, x, d, y, e, z)
    requires Row(e, !c.p2) || !Row(e, c.p2)
    ensures x == 0 && y == 0
  {
    Rows(c, x, d, y, e, z, c.p2);
    TwoAndBaseRows(x, y, z, e, c.p2);
    BaseProducts(e, z);
    EqualAndFree(c.p1, c.p4, d.p1, d.p4, x, y, Mul(e.p1, z), Mul(e.p4, z));
  }

  lemma TwoAndBaseFree(c: Column, x: bv4, d: Column, y: bv4, e: Column, z: bv4)
    requires Point(c) && Point(d) && Base(e) && c.p1 != d.p1 && c.p2 == d.p2 && Cancel(c, x, d, y, e, z)
    requires !Row(e, !c.p2) && Row(e, c.p2)
    ensures x == 0 && y == 0
  {
    BaseProducts(e, z);
    FreeOfBoth(c.p1, c.p4, d.p1, d.p4, x, y, Mul(e.p1, z), Mul(e.p4, z));
  }

  /** Two points of one curve and a base column. */
  lemma TwoAndBase(c: Column, x: bv4, d: Column, y: bv4, e: Column, z: bv4)
    requires Point(c) && Point(d) && Base(e) && c.p1 != d.p1 && c.p2 == d.p2 && Cancel(c, x, d, y, e, z)
    ensures x == 0 && y == 0 && z == 0
  {
    if Row(e, !c.p2) || !Row(e, c.p2) {
      TwoAndBaseEqual(c, x, d, y, e, z);
    } else {
      TwoAndBaseFree(c, x, d, y, e, z);
    }
    TwoAndBaseEnd(c, x, d, y, e, z);
  }

  lemma TwoAndBaseEnd(c: Column, x: bv4, d: Column, y: bv4, e: Column, z: bv4)
    requires x == 0 && y == 0 && Base(e) && Cancel(c, x, d, y, e, z)
    ensures z == 0
  {
    BaseProducts(e, z);
    BothZero(c.p1, d.p1, x, y);
    BothZero(c.p4, d.p4, x, y);
    LastOne(Pick(c.p2, x), Pick(d.p2, y), Pick(e.p2, z));
    LastOne(Pick(c.p3, x), Pick(d.p3, y), Pick(e.p3, z));
    LastOne(Mul(c.p1, x), Mul(d.p1, y), Mul(e.p1, z));
    LastOne(Mul(c.p4, x), Mul(d.p4, y), Mul(e.p4, z));
  }

  /** What is left when a point of each curve meets a base column: m1, n1 and m4, n4 are the first
      and fourth products of the two points. */
  lemma OneEachRows(x: bv4, y: bv4, z: bv4, e: Column, p: bool, m1: bv4, n1: bv4, m4: bv4, n4: bv4)
    requires Base(e) && Zero(x, 0, Pick(Row(e, p), z)) && Zero(0, y, Pick(Row(e, !p), z))
    requires Zero(m1, n1, Pick(e.p1 == 1, z)) && Zero(m4, n4, Pick(e.p4 == 1, z))
    requires (x == 0 <==> m1 == 0) && (x == 0 <==> m4 == 0) && (y == 0 <==> n1 == 0) && (y == 0 <==> n4 == 0)
    requires x == y ==> (m1 == n1 <==> m4 == n4) || x == 0
    ensures x == 0 && y == 0 && z == 0
  {
  }

  lemma EqualTogether(a: bv4, ia: bv4, b: bv4, ib: bv4, x: bv4, y: bv4)
    requires Mul(a, ia) == 1 && Mul(b, ib) == 1 && x == y && x != 0
    ensures Mul(a, x) == Mul(b, y) <==> Mul(ia, x) == Mul(ib, y)
  {
    SameReciprocal(a, ia, b, ib);
    if Mul(a, x) == Mul(b, y) {
      CancelRight(a, b, x);
    }
    if Mul(ia, x) == Mul(ib, y) {
      CancelRight(ia, ib, x);
    }
  }

  /** The rows of a point of each curve and a base column. */
  lemma OneEachFacts(c: Column, x: bv4, d: Column, y: bv4, e: Column, z: bv4)
    requires Point(c) && Point(d) && Base(e) && c.p2 != d.p2 && Cancel(c, x, d, y, e, z)
    ensures Zero(x, 0, Pick(Row(e, c.p2), z)) && Zero(0, y, Pick(Row(e, !c.p2), z))
    ensures Zero(Mul(c.p1, x), Mul(d.p1, y), Pick(e.p1 == 1, z)) && Zero(Mul(c.p4, x), Mul(d.p4, y), Pick(e.p4 == 1, z))
  {
    Rows(c, x, d, y, e, z, c.p2);
    BaseProducts(e, z);
  }

  lemma OneEachProducts(c: Column, x: bv4, d: Column, y: bv4)
    requires Point(c) && Point(d)
    ensures (x == 0 <==> Mul(c.p1, x) == 0) && (x == 0 <==> Mul(c.p4, x) == 0)
    ensures (y == 0 <==> Mul(d.p1, y) == 0) && (y == 0 <==> Mul(d.p4, y) == 0)
    ensures x == y ==> (Mul(c.p1, x) == Mul(d.p1, y) <==> Mul(c.p4, x) == Mul(d.p4, y)) || x == 0
  {
    NonZero(c.p1, c.p4, x);
    NonZero(d.p1, d.p4, y);
    if x == y && x != 0 {
      EqualTogether(c.p1, c.p4, d.p1, d.p4, x, y);
    }
  }

  /** A point of each curve and a base column. */
  lemma OneEachAndBase(c: Column, x: bv4, d: Column, y: bv4, e: Column, z: bv4)
    requires Point(c) && Point(d) && Base(e) && c.p2 != d.p2 && Cancel(c, x, d, y, e, z)
    ensures x == 0 && y == 0 && z == 0
  {
    OneEachFacts(c, x, d, y, e, z);
    OneEachProducts(c, x, d, y);
    OneEachRows(x, y, z, e, c.p2, Mul(c.p1, x), Mul(d.p1, y), Mul(c.p4, x), Mul(d.p4, y));
  }

  lemma OneAndBasesRows(x: bv4, y: bv4, z: bv4, d: Column, e: Column, p: bool, m1: bv4, m4: bv4)
    requires Base(d) && Base(e) && d != e
    requires Zero(x, Pick(Row(d, p), y), Pick(Row(e, p), z)) && Zero(0, Pick(Row(d, !p), y), Pick(Row(e, !p), z))
    requires Zero(m1, Pick(d.p1 == 1, y), Pick(e.p1 == 1, z)) && Zero(m4, Pick(d.p4 == 1, y), Pick(e.p4 == 1, z))
    requires (x == 0 <==> m1 == 0) && (x == 0 <==> m4 == 0)
    ensures x == 0 && y == 0 && z == 0
  {
  }

  /** A point and two base columns. */
  lemma OneAndBases(c: Column, x: bv4, d: Column, y: bv4, e: Column, z: bv4)
    requires Point(c) && Base(d) && Base(e) && d != e && Cancel(c, x, d, y, e, z)
    ensures x == 0 && y == 0 && z == 0
  {
    Rows(c, x, d, y, e, z, c.p2);
    BaseProducts(d, y);
    BaseProducts(e, z);
    NonZero(c.p1, c.p4, x);
    OneAndBasesRows(x, y, z, d, e, c.p2, Mul(c.p1, x), Mul(c.p4, x));
  }

  predicate BaseSums(x: bv4, y: bv4, z: bv4, c: Column, d: Column, e: Column) {
    && Zero(Pick(c.p1 == 1, x), Pick(d.p1 == 1, y), Pick(e.p1 == 1, z))
    && Zero(Pick(c.p2, x), Pick(d.p2, y), Pick(e.p2, z))
    && Zero(Pick(c.p3, x), Pick(d.p3, y), Pick(e.p3, z))
    && Zero(Pick(c.p4 == 1, x), Pick(d.p4 == 1, y), Pick(e.p4 == 1, z))
  }

  predicate Unit(c: Column) {
    Base(c) && !(c.p2 && c.p3)
  }

  lemma UnitAlone(x: bv4, y: bv4, z: bv4, c: Column, d: Column, e: Column)
    requires Unit(c) && Unit(d) && Unit(e) && c != d && c != e && BaseSums(x, y, z, c, d, e)
    ensures x == 0
  {
    if c.p1 == 1 {
      AloneInRow(x, y, z, true, d.p1 == 1, e.p1 == 1);
    } else if c.p4 == 1 {
      AloneInRow(x, y, z, true, d.p4 == 1, e.p4 == 1);
    } else if c.p2 {
      AloneInRow(x, y, z, true, d.p2, e.p2);
    } else {
      AloneInRow(x, y, z, true, d.p3, e.p3);
    }
  }

  lemma AloneInRow(x: bv4, y: bv4, z: bv4, p: bool, q: bool, r: bool)
    requires p && !q && !r && Zero(Pick(p, x), Pick(q, y), Pick(r, z))
    ensures x == 0
  {
  }

  lemma ThreeUnits(x: bv4, y: bv4, z: bv4, c: Column, d: Column, e: Column)
    requires Unit(c) && Unit(d) && Unit(e) && c != d && d != e && c != e && BaseSums(x, y, z, c, d, e)
    ensures x == 0 && y == 0 && z == 0
  {
    BaseSumsTurned(x, y, z, c, d, e);
    BaseSumsTurned(y, z, x, d, e, c);
    UnitAlone(x, y, z, c, d, e);
    UnitAlone(y, z, x, d, e, c);
    UnitAlone(z, x, y, e, c, d);
  }

  lemma TwoUnits(x: bv4, y: bv4, z: bv4, c: Column, d: Column, e: Column)
    requires Base(c) && !Unit(c) && Unit(d) && Unit(e) && d != e && BaseSums(x, y, z, c, d, e)
    ensures x == 0 && y == 0 && z == 0
  {
  }

  lemma OneUnit(x: bv4, y: bv4, z: bv4, c: Column, d: Column, e: Column)
    requires Base(c) && Base(d) && !Unit(c) && !Unit(d) && c != d && Unit(e) && BaseSums(x, y, z, c, d, e)
    ensures x == 0 && y == 0 && z == 0
  {
  }

  lemma BasesRows(x: bv4, y: bv4, z: bv4, c: Column, d: Column, e: Column)
    requires Base(c) && Base(d) && Base(e) && c != d && d != e && c != e && BaseSums(x, y, z, c, d, e)
    ensures x == 0 && y == 0 && z == 0
  {
    BaseSumsTurned(x, y, z, c, d, e);
    BaseSumsTurned(y, z, x, d, e, c);
    if Unit(c) && Unit(d) && Unit(e) {
      ThreeUnits(x, y, z, c, d, e);
    } else if Unit(d) && Unit(e) {
      TwoUnits(x, y, z, c, d, e);
    } else if Unit(e) && Unit(c) {
      TwoUnits(y, z, x, d, e, c);
    } else if Unit(c) && Unit(d) {
      TwoUnits(z, x, y, e, c, d);
    } else if Unit(e) {
      OneUnit(x, y, z, c, d, e);
    } else if Unit(c) {
      OneUnit(y, z, x, d, e, c);
    } else {
      OneUnit(z, x, y, e, c, d);
    }
  }

  lemma BaseSumsTurned(x: bv4, y: bv4, z: bv4, c: Column, d: Column, e: Column)
    requires BaseSums(x, y, z, c, d, e)
    ensures BaseSums(y, z, x, d, e, c)
  {
    ZeroTurned(Pick(c.p1 == 1, x), Pick(d.p1 == 1, y), Pick(e.p1 == 1, z));
    ZeroTurned(Pick(c.p2, x), Pick(d.p2, y), Pick(e.p2, z));
    ZeroTurned(Pick(c.p3, x), Pick(d.p3, y), Pick(e.p3, z));
    ZeroTurned(Pick(c.p4 == 1, x), Pick(d.p4 == 1, y), Pick(e.p4 == 1, z));
  }

  /** Three base columns. */
  lemma ThreeBases(c: Column, x: bv4, d: Column, y: bv4, e: Column, z: bv4)
    requires Base(c) && Base(d) && Base(e) && c != d && d != e && c != e && Cancel(c, x, d, y, e, z)
    ensures x == 0 && y == 0 && z == 0
  {
    BaseProducts(c, x);
    BaseProducts(d, y);
    BaseProducts(e, z);
    BasesRows(x, y, z, c, d, e);
  }

  // ---------------------------------------------------------------- the columns of the code

  lemma Numbers(i: nat, j: nat)
    requires i < j < 15
    ensures NUMBER[i] != NUMBER[j]
  {
  }

  lemma OnCurve(a: bv4, second: bool)
    requires a != 0
    ensures Point(Column(a, second, !second, Inverse(a))) && !Base(Column(a, second, !second, Inverse(a)))
  {
    InverseCorrect(a);
  }

  lemma BaseIsNoPoint(c: Column)
    requires Base(c)
    ensures !Point(c)
  {
    Units(c.p1);
    Units(c.p4);
  }

  /** Which columns can meet without being equal up to a weight. */
  ghost predicate Apart(c: Column, d: Column) {
    && (Point(c) || Base(c)) && (Point(d) || Base(d))
    && (Point(c) && Point(d) && c.p2 == d.p2 ==> c.p1 != d.p1)
    && (Base(c) && Base(d) ==> c != d)
  }

  lemma ColumnsApart(i: nat, j: nat)
    requires i < j < LENGTH
    ensures Apart(ColumnOf(i), ColumnOf(j))
    ensures i < 30 ==> Point(ColumnOf(i))
    ensures j < 30 ==> Point(ColumnOf(j))
    ensures i >= 30 ==> Base(ColumnOf(i)) && !Point(ColumnOf(i))
    ensures j >= 30 ==> Base(ColumnOf(j)) && !Point(ColumnOf(j))
    ensures i < 30 ==> (ColumnOf(i).p2 <==> i < 15) && !Base(ColumnOf(i))
    ensures j < 30 ==> (ColumnOf(j).p2 <==> j < 15) && !Base(ColumnOf(j))
  {
    KindOf(i);
    KindOf(j);
    if j < 15 {
      Numbers(i, j);
    } else if 15 <= i && j < 30 {
      Numbers(i - 15, j - 15);
    }
  }

  lemma KindOf(i: nat)
    requires i < LENGTH
    ensures i < 30 ==> Point(ColumnOf(i)) && !Base(ColumnOf(i)) && (ColumnOf(i).p2 <==> i < 15)
    ensures i < 15 ==> ColumnOf(i).p1 == NUMBER[i]
    ensures 15 <= i < 30 ==> ColumnOf(i).p1 == NUMBER[i - 15]
    ensures i >= 30 ==> Base(ColumnOf(i)) && !Point(ColumnOf(i))
  {
    if i < 30 {
      OnCurve(if i < 15 then NUMBER[i] else NUMBER[i - 15], i < 15);
    } else {
      BaseIsNoPoint(ColumnOf(i));
    }
  }

  /** Three columns that are pairwise apart, points before base columns. */
  lemma IndependentColumns(c: Column, x: bv4, d: Column, y: bv4, e: Column, z: bv4)
    requires Apart(c, d) && Apart(d, e) && Apart(c, e) && Cancel(c, x, d, y, e, z)
    requires (Point(e) ==> Point(d)) && (Point(d) ==> Point(c))
    requires Point(e) ==> (e.p2 ==> d.p2) && (d.p2 ==> c.p2)
    ensures x == 0 && y == 0 && z == 0
  {
    if Point(e) {
      if c.p2 == e.p2 {
        ThreeOfOne(c, x, d, y, e, z);
      } else if c.p2 == d.p2 {
        TwoAndOne(c, x, d, y, e, z);
      } else {
        CancelTurned(c, x, d, y, e, z);
        TwoAndOne(d, y, e, z, c, x);
      }
    } else if Point(d) {
      if c.p2 == d.p2 {
        TwoAndBase(c, x, d, y, e, z);
      } else {
        OneEachAndBase(c, x, d, y, e, z);
      }
    } else if Point(c) {
      OneAndBases(c, x, d, y, e, z);
    } else {
      ThreeBases(c, x, d, y, e, z);
    }
  }

  /** Any three different columns of the code are independent. */
  lemma Independent(i: nat, x: bv4, j: nat, y: bv4, k: nat, z: bv4)
    requires i < j < k < LENGTH && Cancel(ColumnOf(i), x, ColumnOf(j), y, ColumnOf(k), z)
    ensures x == 0 && y == 0 && z == 0
  {
    ColumnsApart(i, j);
    ColumnsApart(j, k);
    ColumnsApart(i, k);
    IndependentColumns(ColumnOf(i), x, ColumnOf(j), y, ColumnOf(k), z);
  }

  lemma ZeroTurned(p: bv4, q: bv4, r: bv4)
    requires Zero(p, q, r)
    ensures Zero(q, r, p)
  {
  }

  lemma CancelTurned(c: Column, x: bv4, d: Column, y: bv4, e: Column, z: bv4)
    requires Cancel(c, x, d, y, e, z)
    ensures Cancel(d, y, e, z, c, x)
  {
    ZeroTurned(Mul(c.p1, x), Mul(d.p1, y), Mul(e.p1, z));
    ZeroTurned(Pick(c.p2, x), Pick(d.p2, y), Pick(e.p2, z));
    ZeroTurned(Pick(c.p3, x), Pick(d.p3, y), Pick(e.p3, z));
    ZeroTurned(Mul(c.p4, x), Mul(d.p4, y), Mul(e.p4, z));
  }
}
