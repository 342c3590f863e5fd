/** Binary linear codes given by the columns of their check matrix. If all columns are different and
    have an odd number of ones, different words with equal checks differ in at least four bits. */
module LinearCode {
  import opened Distances

  type Bits = seq<bool>

  // ---------------------------------------------------------------- vectors of bits

  function Zeros(m: nat): (z: Bits)
    ensures |z| == m
  {
    seq(m, _ => false)
  }

  function Add(u: Bits, v: Bits): (w: Bits)
    requires |u| == |v|
    ensures |w| == |u|
  {
    seq(|u|, i requires 0 <= i < |u| => u[i] != v[i])
  }

  /** Whether an odd number of bits are set. */
  function Odd(v: Bits): bool {
    v != [] && (Odd(v[..|v| - 1]) != v[|v| - 1])
  }

  lemma AddUnit(u: Bits)
    ensures Add(u, Zeros(|u|)) == u == Add(Zeros(|u|), u)
  {
  }

  lemma AddSelf(u: Bits)
    ensures Add(u, u) == Zeros(|u|)
  {
  }

  lemma AddExchange(a: Bits, b: Bits, c: Bits, d: Bits)
    requires |a| == |b| == |c| == |d|
    ensures Add(Add(a, b), Add(c, d)) == Add(Add(a, c), Add(b, d))
  {
  }

  lemma AddZero(u: Bits, v: Bits)
    requires |u| == |v| && Add(u, v) == Zeros(|u|)
    ensures u == v
  {
    forall i | 0 <= i < |u|
      ensures u[i] == v[i]
    {
      assert !Add(u, v)[i];
    }
  }

  lemma {:induction false} OddAdd(u: Bits, v: Bits)
    requires |u| == |v|
    ensures Odd(Add(u, v)) == (Odd(u) != Odd(v))
  {
    if u != [] {
      var n := |u| - 1;
      assert Add(u, v)[..n] == Add(u[..n], v[..n]);
      OddAdd(u[..n], v[..n]);
    }
  }

  lemma {:induction false} OddZeros(m: nat)
    ensures !Odd(Zeros(m))
  {
    if m > 0 {
      assert Zeros(m)[..m - 1] == Zeros(m - 1);
      OddZeros(m - 1);
    }
  }

  // ---------------------------------------------------------------- checks

  ghost predicate Columns(cols: seq<Bits>, m: nat) {
    forall i :: 0 <= i < |cols| ==> |cols[i]| == m
  }

  function Take(p: bool, c: Bits): (r: Bits)
    ensures |r| == |c|
  {
    if p then c else Zeros(|c|)
  }

  /** The sum of the columns at which the first n bits of w are set. */
  function Checks(cols: seq<Bits>, m: nat, w: Bits, n: nat): (s: Bits)
    requires Columns(cols, m) && n <= |w| && n <= |cols|
    ensures |s| == m
  {
    if n == 0 then Zeros(m) else Add(Checks(cols, m, w, n - 1), Take(w[n - 1], cols[n - 1]))
  }

  lemma ChecksStep(cols: seq<Bits>, m: nat, w: Bits, n: nat, c: Bits, r: nat)
    requires Columns(cols, m) && 0 < n <= |w| && n <= |cols| && c == cols[n - 1] && r < m
    ensures Checks(cols, m, w, n)[r] == (Checks(cols, m, w, n - 1)[r] != (w[n - 1] && c[r]))
  {
  }

  lemma TakeAdd(p: bool, q: bool, c: Bits)
    ensures Take(p != q, c) == Add(Take(p, c), Take(q, c))
  {
    AddUnit(c);
    AddSelf(c);
    AddSelf(Zeros(|c|));
  }

  /** The checks are linear. */
  lemma {:induction false} ChecksAdd(cols: seq<Bits>, m: nat, u: Bits, v: Bits, n: nat)
    requires Columns(cols, m) && |u| == |v| && n <= |u| && n <= |cols|
    ensures Checks(cols, m, Add(u, v), n) == Add(Checks(cols, m, u, n), Checks(cols, m, v, n))
  {
    if n == 0 {
      AddSelf(Zeros(m));
    } else {
      ChecksAdd(cols, m, u, v, n - 1);
      TakeAdd(u[n - 1], v[n - 1], cols[n - 1]);
      AddExchange(Checks(cols, m, u, n - 1), Checks(cols, m, v, n - 1), Take(u[n - 1], cols[n - 1]), Take(v[n - 1], cols[n - 1]));
    }
  }

  lemma {:induction false} ZeroRun(cols: seq<Bits>, m: nat, w: Bits, a: nat, b: nat)
    requires Columns(cols, m) && a <= b <= |w| && b <= |cols| && forall i :: a <= i < b ==> !w[i]
    ensures Checks(cols, m, w, b) == Checks(cols, m, w, a)
  {
    if a < b {
      ZeroRun(cols, m, w, a, b - 1);
      AddUnit(Checks(cols, m, w, b - 1));
    }
  }

  lemma OneMore(cols: seq<Bits>, m: nat, w: Bits, a: nat, i: nat)
    requires Columns(cols, m) && a <= i < |w| && i < |cols| && forall x :: a <= x < i ==> !w[x]
    ensures Checks(cols, m, w, i + 1) == Add(Checks(cols, m, w, a), Take(w[i], cols[i]))
  {
    ZeroRun(cols, m, w, a, i);
  }

  /** All columns are different and odd. */
  ghost predicate SecDed(cols: seq<Bits>, m: nat) {
    && Columns(cols, m)
    && (forall i :: 0 <= i < |cols| ==> Odd(cols[i]))
    && (forall i, j :: 0 <= i < j < |cols| ==> cols[i] != cols[j])
  }

  /** The parity of the checks is the parity of the word. */
  lemma {:induction false} ParityOfChecks(cols: seq<Bits>, m: nat, w: Bits, n: nat)
    requires SecDed(cols, m) && n <= |w| && n <= |cols|
    ensures Odd(Checks(cols, m, w, n)) == Odd(w[..n])
  {
    OddZeros(m);
    if n > 0 {
      ParityOfChecks(cols, m, w, n - 1);
      OddAdd(Checks(cols, m, w, n - 1), Take(w[n - 1], cols[n - 1]));
      assert w[..n][..n - 1] == w[..n - 1];
    }
  }

  // ---------------------------------------------------------------- words of few bits

  lemma ThreeBits(cols: seq<Bits>, m: nat, w: Bits, i: nat, j: nat, k: nat)
    requires Columns(cols, m) && |w| == |cols| && i < j < k < |w|
    requires forall x :: 0 <= x < |w| && x != i && x != j && x != k ==> !w[x]
    ensures Checks(cols, m, w, |w|) == Add(Add(Take(w[i], cols[i]), Take(w[j], cols[j])), Take(w[k], cols[k]))
  {
    OneMore(cols, m, w, 0, i);
    AddUnit(Take(w[i], cols[i]));
    OneMore(cols, m, w, i + 1, j);
    OneMore(cols, m, w, j + 1, k);
    ZeroRun(cols, m, w, k + 1, |w|);
  }

  /** Three different odd columns, or some of them, do not cancel. */
  lemma NoCancelling(c: Bits, d: Bits, e: Bits, x: bool, y: bool, z: bool)
    requires |c| == |d| == |e| && Odd(c) && Odd(d) && Odd(e) && c != d && d != e && c != e
    requires Add(Add(Take(x, c), Take(y, d)), Take(z, e)) == Zeros(|c|)
    ensures !x && !y && !z
  {
    var m := |c|;
    OddZeros(m);
    OddAdd(Take(x, c), Take(y, d));
    OddAdd(Add(Take(x, c), Take(y, d)), Take(z, e));
    if x && y {
      AddUnit(Add(c, d));
      AddZero(c, d);
    } else if x && z {
      AddUnit(c);
      AddZero(c, e);
    } else if y && z {
      AddUnit(d);
      AddZero(d, e);
    }
  }

  lemma LightWord(cols: seq<Bits>, m: nat, w: Bits, i: nat, j: nat, k: nat)
    requires SecDed(cols, m) && |w| == |cols| && Checks(cols, m, w, |w|) == Zeros(m) && i < j < k < |w|
    requires forall x :: 0 <= x < |w| && x != i && x != j && x != k ==> !w[x]
    ensures forall x :: 0 <= x < |w| ==> !w[x]
  {
    ThreeBits(cols, m, w, i, j, k);
    NoCancelling(cols[i], cols[j], cols[k], w[i], w[j], w[k]);
  }

  /** Words with equal checks are equal or differ in at least four bits. */
  lemma CosetDistance(cols: seq<Bits>, m: nat, u: Bits, v: Bits)
    requires SecDed(cols, m) && |u| == |v| == |cols| >= 3
    requires Checks(cols, m, u, |u|) == Checks(cols, m, v, |v|) && u != v
    ensures Distance(u, v) >= 4
  {
    if Distance(u, v) <= 3 {
      CloseWords(cols, m, u, v);
    }
  }

  lemma CloseWords(cols: seq<Bits>, m: nat, u: Bits, v: Bits)
    requires SecDed(cols, m) && |u| == |v| == |cols| >= 3
    requires Checks(cols, m, u, |u|) == Checks(cols, m, v, |v|) && Distance(u, v) <= 3
    ensures u == v
  {
    var i, j, k := CoveredByThree(Differ(u, v), |u|);
    var w := Add(u, v);
    ChecksAdd(cols, m, u, v, |u|);
    AddSelf(Checks(cols, m, u, |u|));
    LightWord(cols, m, w, i, j, k);
    forall x | 0 <= x < |u|
      ensures u[x] == v[x]
    {
      assert !w[x];
    }
  }

  lemma OneBit(cols: seq<Bits>, m: nat, w: Bits, i: nat)
    requires Columns(cols, m) && |w| == |cols| && i < |w| && w[i]
    requires forall x :: 0 <= x < |w| && x != i ==> !w[x]
    ensures Checks(cols, m, w, |w|) == cols[i]
  {
    OneMore(cols, m, w, 0, i);
    AddUnit(cols[i]);
    ZeroRun(cols, m, w, i + 1, |w|);
  }

  function Flip(w: Bits, i: nat): (r: Bits)
    requires i < |w|
    ensures |r| == |w|
  {
    w[i := !w[i]]
  }

  /** Flipping a bit adds its column to the checks. */
  lemma FlipAddsColumn(cols: seq<Bits>, m: nat, w: Bits, i: nat)
    requires Columns(cols, m) && |w| == |cols| && i < |w|
    ensures Checks(cols, m, Flip(w, i), |w|) == Add(Checks(cols, m, w, |w|), cols[i])
  {
    var e := Zeros(|w|)[i := true];
    assert Flip(w, i) == Add(w, e);
    ChecksAdd(cols, m, w, e, |w|);
    OneBit(cols, m, e, i);
  }

  ghost predicate Codeword(cols: seq<Bits>, m: nat, w: Bits) {
    Columns(cols, m) && |w| == |cols| && Checks(cols, m, w, |w|) == Zeros(m)
  }

  /** One wrong bit shows as the bit's own column: odd, not zero, and different for each bit. */
  lemma OneWrong(cols: seq<Bits>, m: nat, w: Bits, i: nat)
    requires SecDed(cols, m) && Codeword(cols, m, w) && i < |w|
    ensures Checks(cols, m, Flip(w, i), |w|) == cols[i]
    ensures Odd(Checks(cols, m, Flip(w, i), |w|))
    ensures forall j :: 0 <= j < |w| && j != i ==> Checks(cols, m, Flip(w, i), |w|) != cols[j]
  {
    FlipAddsColumn(cols, m, w, i);
    AddUnit(cols[i]);
  }

  /** Two wrong bits show as an even syndrome that is not zero. */
  lemma TwoWrong(cols: seq<Bits>, m: nat, w: Bits, i: nat, j: nat)
    requires SecDed(cols, m) && Codeword(cols, m, w) && i < j < |w|
    ensures !Odd(Checks(cols, m, Flip(Flip(w, i), j), |w|))
    ensures Checks(cols, m, Flip(Flip(w, i), j), |w|) != Zeros(m)
  {
    OneWrong(cols, m, w, i);
    FlipAddsColumn(cols, m, Flip(w, i), j);
    OddAdd(cols[i], cols[j]);
    if Add(cols[i], cols[j]) == Zeros(m) {
      AddZero(cols[i], cols[j]);
    }
  }

  // ---------------------------------------------------------------- check bits before data bits

  function Unit(m: nat, i: nat): (u: Bits)
    requires i < m
    ensures |u| == m
  {
    Zeros(m)[i := true]
  }

  /** The first m columns belong to the check bits. */
  ghost predicate UnitsFirst(cols: seq<Bits>, m: nat) {
    Columns(cols, m) && m <= |cols| && forall i :: 0 <= i < m ==> cols[i] == Unit(m, i)
  }

  lemma UnitStep(a: Bits, m: nat, p: bool)
    requires |a| < m
    ensures Add(a + Zeros(m - |a|), Take(p, Unit(m, |a|))) == a + [p] + Zeros(m - |a| - 1)
  {
  }

  /** The sum over check bits is the check bits themselves. */
  lemma {:induction false} SumOfUnits(cols: seq<Bits>, m: nat, w: Bits, k: nat)
    requires UnitsFirst(cols, m) && k <= m <= |w|
    ensures Checks(cols, m, w, k) == w[..k] + Zeros(m - k)
  {
    if k > 0 {
      SumOfUnits(cols, m, w, k - 1);
      UnitStep(w[..k - 1], m, w[k - 1]);
      assert w[..k] == w[..k - 1] + [w[k - 1]];
    }
  }

  lemma AddRegroup(a: Bits, b: Bits, c: Bits)
    requires |a| == |b| == |c|
    ensures Add(Add(a, b), c) == Add(a, Add(b, c))
  {
  }

  /** The checks of a word are its check bits plus the checks of its data. */
  lemma {:induction false} SumOfWord(cols: seq<Bits>, m: nat, rest: seq<Bits>, w: Bits, a: Bits, d: Bits, n: nat, k: nat)
    requires UnitsFirst(cols, m) && cols[m..] == rest && Columns(rest, m)
    requires w == a + d && |a| == m && n <= |d| && k == m + n <= |cols|
    ensures Checks(cols, m, w, k) == Add(a, Checks(rest, m, d, n))
    decreases n
  {
    if n == 0 {
      SumOfUnits(cols, m, w, k);
      assert w[..m] + Zeros(0) == a;
      AddUnit(a);
    } else {
      SumOfWord(cols, m, rest, w, a, d, n - 1, k - 1);
      AddRegroup(a, Checks(rest, m, d, n - 1), Take(d[n - 1], rest[n - 1]));
    }
  }

  lemma Halves(w: Bits, m: nat)
    requires m <= |w|
    ensures w == w[..m] + w[m..]
  {
  }
}
