/** The check nibbles of mem.c's `hamming` as a code: 36 nibbles whose four weighted sums vanish.
    Two different codewords differ in at least four nibbles. */
module NibbleCode {
  import opened Gf16
  import opened NibbleColumns
  import opened Distances

  /** The four checks. */
  datatype Checks = Checks(c1: bv4, c2: bv4, c3: bv4, c4: bv4)

  const NONE := Checks(0, 0, 0, 0)

  function Add(s: Checks, t: Checks): Checks {
    Checks(s.c1 ^ t.c1, s.c2 ^ t.c2, s.c3 ^ t.c3, s.c4 ^ t.c4)
  }

  /** What a nibble of column c with value x adds to the checks. */
  function Weigh(c: Column, x: bv4): Checks {
    Checks(Mul(c.p1, x), Pick(c.p2, x), Pick(c.p3, x), Mul(c.p4, x))
  }

  /** The checks over the first n nibbles. */
  function Sum(w: seq<bv4>, n: nat): Checks
    requires n <= |w| && n <= LENGTH
  {
    if n == 0 then NONE else Add(Sum(w, n - 1), Weigh(ColumnOf(n - 1), w[n - 1]))
  }

  type Word = w: seq<bv4> | |w| == LENGTH witness seq(LENGTH, _ => 0)

  type Data = w: seq<bv4> | |w| == DATA witness seq(DATA, _ => 0)

  ghost predicate Codeword(w: Word) {
    Sum(w, LENGTH) == NONE
  }

  // ---------------------------------------------------------------- addition of checks

  lemma AddUnit(s: Checks)
    ensures Add(s, NONE) == s == Add(NONE, s)
  {
  }

  lemma Exchange(a: bv4, b: bv4, c: bv4, d: bv4)
    ensures (a ^ b) ^ (c ^ d) == (a ^ c) ^ (b ^ d)
  {
  }

  lemma AddExchange(s: Checks, t: Checks, u: Checks, v: Checks)
    ensures Add(Add(s, t), Add(u, v)) == Add(Add(s, u), Add(t, v))
  {
    Exchange(s.c1, t.c1, u.c1, v.c1);
    Exchange(s.c2, t.c2, u.c2, v.c2);
    Exchange(s.c3, t.c3, u.c3, v.c3);
    Exchange(s.c4, t.c4, u.c4, v.c4);
  }

  lemma AddSelf(s: Checks)
    ensures Add(s, s) == NONE
  {
  }

  lemma PickAdd(p: bool, x: bv4, y: bv4)
    ensures Pick(p, x ^ y) == Pick(p, x) ^ Pick(p, y)
  {
  }

  lemma WeighAdd(c: Column, x: bv4, y: bv4)
    ensures Weigh(c, x ^ y) == Add(Weigh(c, x), Weigh(c, y))
  {
    DistributesRight(c.p1, x, y);
    DistributesRight(c.p4, x, y);
    PickAdd(c.p2, x, y);
    PickAdd(c.p3, x, y);
  }

  lemma WeighZero(c: Column)
    ensures Weigh(c, 0) == NONE
  {
    Units(c.p1);
    Units(c.p4);
  }

  // ---------------------------------------------------------------- linearity

  function Xor(u: seq<bv4>, v: seq<bv4>): (w: seq<bv4>)
    requires |u| == |v|
    ensures |w| == |u|
  {
    seq(|u|, i requires 0 <= i < |u| => u[i] ^ v[i])
  }

  /** The checks are linear. */
  lemma {:induction false} SumAdd(u: seq<bv4>, v: seq<bv4>, n: nat)
    requires |u| == |v| && n <= |u| && n <= LENGTH
    ensures Sum(Xor(u, v), n) == Add(Sum(u, n), Sum(v, n))
  {
    if n == 0 {
      AddSelf(NONE);
    } else {
      var c := ColumnOf(n - 1);
      SumAdd(u, v, n - 1);
      WeighAdd(c, u[n - 1], v[n - 1]);
      AddExchange(Sum(u, n - 1), Sum(v, n - 1), Weigh(c, u[n - 1]), Weigh(c, v[n - 1]));
    }
  }

  // ---------------------------------------------------------------- words of few nibbles

  ghost predicate ZeroFrom(w: seq<bv4>, a: nat, b: nat) {
    b <= |w| && forall i :: a <= i < b ==> w[i] == 0
  }

  lemma {:induction false} ZeroRun(w: seq<bv4>, a: nat, b: nat)
    requires a <= b <= |w| && b <= LENGTH && ZeroFrom(w, a, b)
    ensures Sum(w, b) == Sum(w, a)
  {
    if a < b {
      ZeroRun(w, a, b - 1);
      WeighZero(ColumnOf(b - 1));
      AddUnit(Sum(w, b - 1));
    }
  }

  /** The checks of a word with at most three nibbles are the sum of what the three add. */
  lemma ThreeNibbles(w: Word, i: nat, j: nat, k: nat)
    requires i < j < k < LENGTH
    requires forall x :: 0 <= x < LENGTH && x != i && x != j && x != k ==> w[x] == 0
    ensures Sum(w, LENGTH)
         == Add(Add(Weigh(ColumnOf(i), w[i]), Weigh(ColumnOf(j), w[j])), Weigh(ColumnOf(k), w[k]))
  {
    var x, y, z := Weigh(ColumnOf(i), w[i]), Weigh(ColumnOf(j), w[j]), Weigh(ColumnOf(k), w[k]);
    assert Sum(w, i + 1) == x by {
      OneMore(w, 0, i);
      AddUnit(x);
    }
    assert Sum(w, j + 1) == Add(x, y) by {
      OneMore(w, i + 1, j);
    }
    assert Sum(w, k + 1) == Add(Add(x, y), z) by {
      OneMore(w, j + 1, k);
    }
    ZeroRun(w, k + 1, LENGTH);
  }

  lemma OneMore(w: seq<bv4>, a: nat, i: nat)
    requires a <= i < |w| && i < LENGTH && ZeroFrom(w, a, i)
    ensures Sum(w, i + 1) == Add(Sum(w, a), Weigh(ColumnOf(i), w[i]))
  {
    ZeroRun(w, a, i);
  }

  lemma AddThree(s: Checks, t: Checks, u: Checks)
    requires Add(Add(s, t), u) == NONE
    ensures Zero(s.c1, t.c1, u.c1) && Zero(s.c2, t.c2, u.c2) && Zero(s.c3, t.c3, u.c3) && Zero(s.c4, t.c4, u.c4)
  {
  }

  lemma SumCancels(c: Column, x: bv4, d: Column, y: bv4, e: Column, z: bv4)
    requires Add(Add(Weigh(c, x), Weigh(d, y)), Weigh(e, z)) == NONE
    ensures Cancel(c, x, d, y, e, z)
  {
    AddThree(Weigh(c, x), Weigh(d, y), Weigh(e, z));
  }

  /** No codeword but zero has fewer than four nibbles. */
  lemma LightCodeword(w: Word, i: nat, j: nat, k: nat)
    requires Codeword(w) && i < j < k < LENGTH
    requires forall x :: 0 <= x < LENGTH && x != i && x != j && x != k ==> w[x] == 0
    ensures forall x :: 0 <= x < LENGTH ==> w[x] == 0
  {
    ThreeNibbles(w, i, j, k);
    SumCancels(ColumnOf(i), w[i], ColumnOf(j), w[j], ColumnOf(k), w[k]);
    Independent(i, w[i], j, w[j], k, w[k]);
  }

  lemma XorZero(x: bv4, y: bv4)
    ensures x ^ y == 0 <==> x == y
  {
  }

  /** Words with equal checks are equal or differ in at least four nibbles. */
  lemma CosetDistance(u: Word, v: Word)
    requires Sum(u, LENGTH) == Sum(v, LENGTH) && Distance(u, v) <= 3
    ensures u == v
  {
    var i, j, k := CoveredByThree(Differ(u, v), LENGTH);
    var w: Word := Xor(u, v);
    SumAdd(u, v, LENGTH);
    AddSelf(Sum(u, LENGTH));
    forall x | 0 <= x < LENGTH
      ensures w[x] == 0 <==> x !in Differ(u, v)
    {
      XorZero(u[x], v[x]);
    }
    LightCodeword(w, i, j, k);
  }

  /** Different codewords differ in at least four nibbles. */
  lemma MinimumDistance(u: Word, v: Word)
    requires Codeword(u) && Codeword(v) && u != v
    ensures Distance(u, v) >= 4
  {
    if Distance(u, v) <= 3 {
      CosetDistance(u, v);
    }
  }

  /** One wrong nibble is corrected to the codeword sent, two wrong nibbles are never taken for none
      or for one. */
  lemma Corrects(u: Word, v: Word, r: Word)
    requires Codeword(u) && Codeword(v) && Distance(r, u) <= 1 && Distance(r, v) <= 2
    ensures u == v
  {
    if u != v {
      MinimumDistance(u, v);
    }
    UniqueNearest(u, v, r);
  }

  // ---------------------------------------------------------------- encoding

  function CheckNibbles(d: Data): seq<bv4> {
    var s := Sum(d, DATA);
    [s.c1, s.c2, s.c3, s.c4]
  }

  /** Data followed by the check nibbles. */
  function Encode(d: Data): Word {
    d + CheckNibbles(d)
  }

  lemma {:induction false} SumOfPrefix(u: seq<bv4>, v: seq<bv4>, n: nat)
    requires n <= |u| && n <= |v| && n <= LENGTH && u[..n] == v[..n]
    ensures Sum(u, n) == Sum(v, n)
  {
    if n > 0 {
      assert u[..n - 1] == u[..n][..n - 1] && v[..n - 1] == v[..n][..n - 1];
      assert u[n - 1] == u[..n][n - 1] && v[n - 1] == v[..n][n - 1];
      SumOfPrefix(u, v, n - 1);
    }
  }

  lemma WeighUnits(x: bv4, y: bv4, z: bv4, t: bv4)
    ensures Weigh(ColumnOf(32), x) == Checks(x, 0, 0, 0)
    ensures Weigh(ColumnOf(33), y) == Checks(0, y, 0, 0)
    ensures Weigh(ColumnOf(34), z) == Checks(0, 0, z, 0)
    ensures Weigh(ColumnOf(35), t) == Checks(0, 0, 0, t)
  {
    Units(x);
    Units(y);
    Units(z);
    Units(t);
  }

  lemma SumOfTwo(w: Word, s: Checks)
    requires s == Sum(w, DATA)
    ensures Sum(w, DATA + 2) == s.(c1 := s.c1 ^ w[32], c2 := s.c2 ^ w[33])
  {
    WeighUnits(w[32], w[33], w[34], w[35]);
    AddFirst(s, w[32]);
    AddSecond(Sum(w, DATA + 1), w[33]);
  }

  lemma SumOfFour(w: Word, s: Checks)
    requires s == Sum(w, DATA + 2)
    ensures Sum(w, LENGTH) == s.(c3 := s.c3 ^ w[34], c4 := s.c4 ^ w[35])
  {
    WeighUnits(w[32], w[33], w[34], w[35]);
    AddThird(s, w[34]);
    AddFourth(Sum(w, DATA + 3), w[35]);
  }

  /** The checks over a whole word are those over its data plus the stored check nibbles. */
  lemma SumOfWord(w: Word)
    ensures Sum(w, LENGTH) == Add(Sum(w, DATA), Checks(w[32], w[33], w[34], w[35]))
  {
    SumOfTwo(w, Sum(w, DATA));
    SumOfFour(w, Sum(w, DATA + 2));
  }

  lemma PlusZero(x: bv4, y: bv4)
    ensures y == 0 ==> x ^ y == x
  {
  }

  lemma AddFirst(s: Checks, x: bv4)
    ensures Add(s, Checks(x, 0, 0, 0)) == s.(c1 := s.c1 ^ x)
  {
    PlusZero(s.c2, 0);
    PlusZero(s.c3, 0);
    PlusZero(s.c4, 0);
  }

  lemma AddSecond(s: Checks, x: bv4)
    ensures Add(s, Checks(0, x, 0, 0)) == s.(c2 := s.c2 ^ x)
  {
    PlusZero(s.c1, 0);
    PlusZero(s.c3, 0);
    PlusZero(s.c4, 0);
  }

  lemma AddThird(s: Checks, x: bv4)
    ensures Add(s, Checks(0, 0, x, 0)) == s.(c3 := s.c3 ^ x)
  {
    PlusZero(s.c1, 0);
    PlusZero(s.c2, 0);
    PlusZero(s.c4, 0);
  }

  lemma AddFourth(s: Checks, x: bv4)
    ensures Add(s, Checks(0, 0, 0, x)) == s.(c4 := s.c4 ^ x)
  {
    PlusZero(s.c1, 0);
    PlusZero(s.c2, 0);
    PlusZero(s.c3, 0);
  }

  lemma EncodeIsCodeword(d: Data)
    ensures Codeword(Encode(d))
  {
    var w := Encode(d);
    assert d[..DATA] == w[..DATA];
    SumOfPrefix(d, w, DATA);
    SumOfWord(w);
    AddSelf(Sum(d, DATA));
  }

  /** Different data words, each with its check nibbles, differ in at least four of 36 nibbles. */
  lemma HammingDistance(d: Data, e: Data)
    requires d != e
    ensures Distance(Encode(d), Encode(e)) >= 4
  {
    EncodeIsCodeword(d);
    EncodeIsCodeword(e);
    assert d == Encode(d)[..DATA] && e == Encode(e)[..DATA];
    MinimumDistance(Encode(d), Encode(e));
  }

  // ---------------------------------------------------------------- one wrong nibble

  predicate SomeZero(s: Checks) {
    s.c1 == 0 || s.c2 == 0 || s.c3 == 0 || s.c4 == 0
  }

  lemma ColumnMissesACheck(i: nat, x: bv4)
    requires i < LENGTH
    ensures SomeZero(Weigh(ColumnOf(i), x))
  {
    if i == 30 || i == 31 {
      Units(x);
    } else {
      assert !ColumnOf(i).p2 || !ColumnOf(i).p3;
    }
  }
}
