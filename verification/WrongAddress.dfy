/** What a reader of mem.c's check nibbles finds when the address is wrong and a nibble is wrong too. */
module WrongAddress {
  import opened CheckNibbles
  import opened Gf16
  import opened NibbleCode
  import opened NibbleColumns

  const ALL := Checks(0xf, 0xf, 0xf, 0xf)

  /** A syndrome that a reader takes for no or one wrong nibble. */
  ghost predicate OneNibble(s: Checks) {
    exists j: nat, y: bv4 :: j < LENGTH && s == Weigh(ColumnOf(j), y)
  }

  /** With the right address, no or one wrong nibble shows as that. */
  lemma OneNibbleShows(d: Data, odd: bool, i: nat, x: bv4)
    requires i < LENGTH
    ensures OneNibble(Syndrome(StoredWord(d, odd)[i := x], odd))
  {
    SyndromeIsColumn(d, odd, i, x);
  }

  /** With the wrong address, every check is inverted. */
  lemma MismatchInverts(d: Data, written: bool, i: nat, x: bv4)
    requires i < LENGTH
    ensures Syndrome(StoredWord(d, written)[i := x], !written) == Add(Weigh(ColumnOf(i), StoredWord(d, written)[i] ^ x), ALL)
  {
    var v: Word := StoredWord(d, written)[i := x];
    SyndromeIsColumn(d, written, i, x);
    AddMasks(Sum(v, LENGTH), written);
  }

  lemma AddMasks(s: Checks, p: bool)
    ensures Add(s, MaskAll(!p)) == Add(Add(s, MaskAll(p)), ALL)
  {
  }

  // ---------------------------------------------------------------- two columns that add up to a mismatch

  predicate AddUp(p: bv4, q: bv4) {
    p ^ q == 0xf
  }

  ghost predicate Complement(c: Column, x: bv4, d: Column, y: bv4) {
    && AddUp(Mul(c.p1, x), Mul(d.p1, y)) && AddUp(Pick(c.p2, x), Pick(d.p2, y))
    && AddUp(Pick(c.p3, x), Pick(d.p3, y)) && AddUp(Mul(c.p4, x), Mul(d.p4, y))
  }

  lemma Inverted(p: bv4, q: bv4)
    ensures p ^ 0xf == q <==> AddUp(p, q)
  {
  }

  lemma AllInverted(s: Checks)
    ensures Add(s, ALL) == Checks(s.c1 ^ 0xf, s.c2 ^ 0xf, s.c3 ^ 0xf, s.c4 ^ 0xf)
  {
  }

  lemma ComplementOf(s: Checks, t: Checks)
    ensures Add(s, ALL) == t <==> AddUp(s.c1, t.c1) && AddUp(s.c2, t.c2) && AddUp(s.c3, t.c3) && AddUp(s.c4, t.c4)
  {
    AllInverted(s);
    Inverted(s.c1, t.c1);
    Inverted(s.c2, t.c2);
    Inverted(s.c3, t.c3);
    Inverted(s.c4, t.c4);
  }

  lemma ComplementIs(c: Column, x: bv4, d: Column, y: bv4)
    ensures Add(Weigh(c, x), ALL) == Weigh(d, y) <==> Complement(c, x, d, y)
  {
    ComplementOf(Weigh(c, x), Weigh(d, y));
  }

  lemma Turned(p: bv4, q: bv4)
    ensures AddUp(p, q) == AddUp(q, p)
  {
  }

  lemma ComplementTurned(c: Column, x: bv4, d: Column, y: bv4)
    requires Complement(c, x, d, y)
    ensures Complement(d, y, c, x)
  {
    Turned(Mul(c.p1, x), Mul(d.p1, y));
    Turned(Pick(c.p2, x), Pick(d.p2, y));
    Turned(Pick(c.p3, x), Pick(d.p3, y));
    Turned(Mul(c.p4, x), Mul(d.p4, y));
  }

  /** The row of a point's own curve and that of the other. */
  lemma PointRows(x: bv4, y: bv4, own: bool, other: bool)
    requires AddUp(Pick(true, x), Pick(own, y)) && AddUp(Pick(false, x), Pick(other, y))
    ensures y == 0xf && other && x == if own then 0 else 0xf
  {
  }

  lemma PointRowsOf(c: Column, x: bv4, d: Column, y: bv4)
    requires Point(c) && Complement(c, x, d, y)
    ensures y == 0xf && Row(d, !c.p2) && x == if Row(d, c.p2) then 0 else 0xf
  {
    if c.p2 {
      PointRows(x, y, d.p2, d.p3);
    } else {
      PointRows(x, y, d.p3, d.p2);
    }
  }

  /** If a f + b f = f then a + b = 1. */
  lemma SumIsOne(a: bv4, b: bv4, x: bv4)
    requires x == 0xf && AddUp(Mul(a, x), Mul(b, x))
    ensures a ^ b == 1
  {
    DistributesLeft(a, b, x);
    Units(x);
    CancelRight(a ^ b, 1, x);
  }

  /** Reciprocals of numbers that differ by one differ by one only for 6 and 7. */
  lemma SixAndSeven(a: bv4, b: bv4)
    requires a != 0 && b != 0 && a ^ b == 1 && Inverse(a) ^ Inverse(b) == 1
    ensures a == 6 || a == 7
  {
  }

  /** A base column with both middle rows lacks one of the others. */
  lemma BothRows(d: Column, y: bv4)
    requires Base(d) && d.p2 && d.p3
    ensures Mul(d.p1, y) == 0 || Mul(d.p4, y) == 0
  {
    BaseProducts(d, y);
  }

  /** A base column with one middle row has no other. */
  lemma OneRow(d: Column, y: bv4)
    requires Base(d) && d.p2 != d.p3
    ensures d.p1 == 0 == d.p4
  {
  }

  lemma PointIsOff(c: Column, x: bv4, d: Column, y: bv4)
    requires Point(c) && (Point(d) || Base(d)) && Complement(c, x, d, y)
    ensures x == 0xf == y && Row(d, !c.p2) && !Row(d, c.p2)
  {
    PointRowsOf(c, x, d, y);
    if Row(d, c.p2) {
      BothRows(d, y);
      Units(c.p1);
      Units(c.p4);
    }
  }

  /** A point and another column: the wrong nibble is off by 0xf, and the numbers add up to one. */
  lemma PointComplement(c: Column, x: bv4, d: Column, y: bv4)
    requires Point(c) && (Point(d) || Base(d)) && Complement(c, x, d, y)
    ensures x == 0xf && c.p1 ^ d.p1 == 1 && c.p4 ^ d.p4 == 1
  {
    PointIsOff(c, x, d, y);
    SumIsOne(c.p1, d.p1, x);
    SumIsOne(c.p4, d.p4, x);
  }

  predicate BaseComplement(x: bv4, y: bv4, c: Column, d: Column) {
    && AddUp(Pick(c.p1 == 1, x), Pick(d.p1 == 1, y)) && AddUp(Pick(c.p2, x), Pick(d.p2, y))
    && AddUp(Pick(c.p3, x), Pick(d.p3, y)) && AddUp(Pick(c.p4 == 1, x), Pick(d.p4 == 1, y))
  }

  lemma BaseRows(x: bv4, y: bv4, c: Column, d: Column)
    requires Base(c) && Base(d) && BaseComplement(x, y, c, d)
    ensures x == 0xf
  {
  }

  lemma BasesComplement(c: Column, x: bv4, d: Column, y: bv4)
    requires Base(c) && Base(d) && Complement(c, x, d, y)
    ensures x == 0xf
  {
    BaseProducts(c, x);
    BaseProducts(d, y);
    BaseRows(x, y, c, d);
  }

  // ---------------------------------------------------------------- the exact set

  /** Nibble i off by e looks like another wrong nibble when the address is wrong too. */
  predicate Confused(i: nat, e: bv4) {
    e == 0xf && (i >= 30 || i % 15 == 0 || i % 15 == 5 || i % 15 == 6)
  }

  /** The nibble that it looks like, also off by 0xf. */
  function Partner(i: nat): (j: nat)
    requires i < LENGTH && Confused(i, 0xf)
    ensures j < LENGTH && Confused(j, 0xf)
  {
    if i == 0 then 34 else if i == 34 then 0 else if i == 15 then 33 else if i == 33 then 15
    else if i == 5 then 21 else if i == 21 then 5 else if i == 6 then 20 else if i == 20 then 6
    else if i == 30 then 32 else if i == 32 then 30 else if i == 31 then 35 else 31
  }

  lemma WhichNumber(i: nat)
    requires i < 30
    ensures var a := ColumnOf(i).p1;
      a != 0 && ColumnOf(i).p4 == Inverse(a) && ((a == 1 || a == 6 || a == 7) ==> Confused(i, 0xf))
  {
    KindOf(i);
    FourthOfColumn(i);
    NumberAt(if i < 15 then i else i - 15);
  }

  lemma NumberAt(n: nat)
    requires n < 15
    ensures NUMBER[n] != 0 && (NUMBER[n] == 1 ==> n == 0) && (NUMBER[n] == 6 ==> n == 5) && (NUMBER[n] == 7 ==> n == 6)
  {
  }

  lemma FromOne(a: bv4, b: bv4)
    requires a ^ b == 1 && b == 0
    ensures a == 1
  {
  }

  /** A data nibble of one of the curves. */
  lemma PointConfused(i: nat, e: bv4, j: nat, y: bv4)
    requires i < 30 && j < LENGTH && Complement(ColumnOf(i), e, ColumnOf(j), y)
    ensures Confused(i, e)
  {
    var c, d := ColumnOf(i), ColumnOf(j);
    KindOf(i);
    KindOf(j);
    PointComplement(c, e, d, y);
    PointIsOff(c, e, d, y);
    WhichNumber(i);
    if j < 30 {
      WhichNumber(j);
      SixAndSeven(c.p1, d.p1);
    } else {
      OneRow(d, y);
      FromOne(c.p1, d.p1);
    }
  }

  lemma OnlyConfused(i: nat, e: bv4, j: nat, y: bv4)
    requires i < LENGTH && j < LENGTH && Complement(ColumnOf(i), e, ColumnOf(j), y)
    ensures Confused(i, e)
  {
    KindOf(i);
    KindOf(j);
    if i < 30 {
      PointConfused(i, e, j, y);
    } else if j < 30 {
      ComplementTurned(ColumnOf(i), e, ColumnOf(j), y);
      PointIsOff(ColumnOf(j), y, ColumnOf(i), e);
    } else {
      BasesComplement(ColumnOf(i), e, ColumnOf(j), y);
    }
  }

  /** A point and the unit column of the other curve. */
  lemma OneAndUnit(c: Column, d: Column, x: bv4)
    requires x == 0xf && c.p1 == 1 == c.p4 && d.p1 == 0 == d.p4 && c.p2 != c.p3 && d.p2 == c.p3 && d.p3 == c.p2
    ensures Complement(c, x, d, x)
  {
    Units(x);
  }

  /** The points 6 and 7 of the two curves, which are each other's reciprocals. */
  lemma SixAndSevenAddUp(x: bv4)
    requires x == 0xf
    ensures AddUp(Mul(6, x), Mul(7, x)) && AddUp(Mul(7, x), Mul(6, x))
  {
    DistributesLeft(6, 7, x);
    Units(x);
  }

  lemma SixAndSevenPoints(c: Column, d: Column, x: bv4)
    requires x == 0xf && c.p2 != c.p3 && d.p2 == c.p3 && d.p3 == c.p2
    requires (c.p1 == 6 && c.p4 == 7 && d.p1 == 7 && d.p4 == 6) || (c.p1 == 7 && c.p4 == 6 && d.p1 == 6 && d.p4 == 7)
    ensures Complement(c, x, d, x)
  {
    SixAndSevenAddUp(x);
  }

  lemma BasePair(c: Column, d: Column, x: bv4)
    requires x == 0xf && Base(c) && Base(d) && BaseComplement(x, x, c, d)
    ensures Complement(c, x, d, x)
  {
    BaseProducts(c, x);
    BaseProducts(d, x);
  }

  /** One of each pair. */
  predicate Chosen(i: nat) {
    i == 0 || i == 5 || i == 6 || i == 15 || i == 30 || i == 31
  }

  lemma PartnerTwice(i: nat)
    requires i < LENGTH && Confused(i, 0xf)
    ensures Partner(Partner(i)) == i && (Chosen(i) || Chosen(Partner(i)))
  {
  }

  lemma PartnerAddsUp(i: nat)
    requires Chosen(i)
    ensures Complement(ColumnOf(i), 0xf, ColumnOf(Partner(i)), 0xf)
  {
    var c, d := ColumnOf(i), ColumnOf(Partner(i));
    if i == 0 || i == 15 {
      OneAndUnit(c, d, 0xf);
    } else if i < 30 {
      SixAndSevenPoints(c, d, 0xf);
    } else {
      BasePair(c, d, 0xf);
    }
  }

  lemma PartnerComplements(i: nat)
    requires i < LENGTH && Confused(i, 0xf)
    ensures Complement(ColumnOf(i), 0xf, ColumnOf(Partner(i)), 0xf)
  {
    var j := Partner(i);
    PartnerTwice(i);
    if Chosen(i) {
      PartnerAddsUp(i);
    } else {
      PartnerAddsUp(j);
      ComplementTurned(ColumnOf(j), 0xf, ColumnOf(i), 0xf);
    }
  }

  /** A wrong address together with nibble i off by e is taken for a single wrong nibble, or for none,
      if and only if e is 0xf and i is one of twelve nibbles; it is then taken for their partners. */
  lemma MismatchAndWrongNibble(d: Data, written: bool, i: nat, x: bv4)
    requires i < LENGTH
    ensures OneNibble(Syndrome(StoredWord(d, written)[i := x], !written)) <==> Confused(i, StoredWord(d, written)[i] ^ x)
  {
    var e := StoredWord(d, written)[i] ^ x;
    var s := Syndrome(StoredWord(d, written)[i := x], !written);
    MismatchInverts(d, written, i, x);
    if OneNibble(s) {
      var j: nat, y: bv4 :| j < LENGTH && s == Weigh(ColumnOf(j), y);
      ComplementIs(ColumnOf(i), e, ColumnOf(j), y);
      OnlyConfused(i, e, j, y);
    }
    if Confused(i, e) {
      PartnerComplements(i);
      ComplementIs(ColumnOf(i), e, ColumnOf(Partner(i)), e);
    }
  }
}
