/** Hamming-numbered codes with an extra parity check: data bit j stands at the j-th position that is
    not a power of two, check bit r at the r-th power of two, the parity bit at position zero. */
module HammingCode {
  import opened Distances
  import opened LinearCode

  /** How many check and data bits, and whether the parity bit is the first or the last check. */
  datatype Layout = Layout(checks: nat, data: nat, parityFirst: bool)

  function Power(n: nat): (p: nat)
    ensures p > 0
  {
    if n == 0 then 1 else 2 * Power(n - 1)
  }

  /** The positions 3, 5, 6, 7, 9, ... of the data bits. */
  function Position(j: nat): nat {
    if j < 1 then j + 3 else if j < 4 then j + 4 else if j < 11 then j + 5 else if j < 26 then j + 6
    else if j < 57 then j + 7 else j + 8
  }

  ghost predicate Valid(lay: Layout) {
    2 <= lay.checks <= 8 && lay.data > 0 && lay.data <= 64 && Position(lay.data - 1) < Power(lay.checks - 1)
  }

  // ---------------------------------------------------------------- numbers as bits

  /** The n low bits of x, least significant first. */
  function BitsOf(x: int, n: nat): (s: Bits)
    ensures |s| == n
    decreases n
  {
    if n == 0 then [] else [x % 2 == 1] + BitsOf(x / 2, n - 1)
  }

  function Value(s: Bits): nat {
    if s == [] then 0 else (if s[0] then 1 else 0) + 2 * Value(s[1..])
  }

  lemma {:induction false} ValueOfBits(x: nat, n: nat)
    requires x < Power(n)
    ensures Value(BitsOf(x, n)) == x
    decreases n
  {
    if n > 0 {
      ValueOfBits(x / 2, n - 1);
      assert BitsOf(x, n)[1..] == BitsOf(x / 2, n - 1);
    }
  }

  lemma {:induction false} BitsOfValue(s: Bits)
    ensures BitsOf(Value(s), |s|) == s && Value(s) < Power(|s|)
  {
    if s != [] {
      BitsOfValue(s[1..]);
    }
  }

  /** Bit r of x. */
  function BitAt(x: int, r: nat): bool
    decreases r
  {
    if r == 0 then x % 2 == 1 else BitAt(x / 2, r - 1)
  }

  lemma {:induction false} BitsOfAt(x: int, n: nat, r: nat)
    requires r < n
    ensures BitsOf(x, n)[r] == BitAt(x, r)
    decreases n
  {
    if r > 0 {
      BitsOfAt(x / 2, n - 1, r - 1);
    }
  }

  // ---------------------------------------------------------------- columns

  /** The column of a position: its bits and the parity that makes the column odd. */
  function Column(lay: Layout, p: nat): (c: Bits)
    requires lay.checks > 0
    ensures |c| == lay.checks
  {
    var b := BitsOf(p, lay.checks - 1);
    if lay.parityFirst then [!Odd(b)] + b else b + [!Odd(b)]
  }

  /** The position of bit i of a word: check bits first, then data bits. */
  function PositionOf(lay: Layout, i: nat): nat
    requires lay.checks > 0
  {
    if i >= lay.checks then Position(i - lay.checks)
    else if lay.parityFirst then if i == 0 then 0 else Power(i - 1)
    else if i == lay.checks - 1 then 0 else Power(i)
  }

  function CheckColumns(lay: Layout): (cols: seq<Bits>)
    requires lay.checks > 0
    ensures |cols| == lay.checks && Columns(cols, lay.checks)
  {
    seq(lay.checks, i requires 0 <= i < lay.checks => Column(lay, PositionOf(lay, i)))
  }

  function DataColumns(lay: Layout): (cols: seq<Bits>)
    requires lay.checks > 0
    ensures |cols| == lay.data && Columns(cols, lay.checks)
  {
    seq(lay.data, j requires 0 <= j < lay.data => Column(lay, Position(j)))
  }

  function ColumnsOf(lay: Layout): (cols: seq<Bits>)
    requires lay.checks > 0
    ensures |cols| == lay.checks + lay.data && Columns(cols, lay.checks)
  {
    CheckColumns(lay) + DataColumns(lay)
  }

  lemma ColumnAt(lay: Layout, i: nat)
    requires lay.checks > 0 && i < lay.checks + lay.data
    ensures ColumnsOf(lay)[i] == Column(lay, PositionOf(lay, i))
  {
  }

  lemma {:induction false} OddCons(p: bool, b: Bits)
    ensures Odd([p] + b) == (p != Odd(b))
  {
    if b == [] {
      assert [p] + b == [p];
      assert [p][..0] == [];
    } else {
      var n := |b| - 1;
      assert ([p] + b)[..n + 1] == [p] + b[..n];
      OddCons(p, b[..n]);
    }
  }

  lemma ColumnIsOdd(lay: Layout, p: nat)
    requires lay.checks > 0
    ensures Odd(Column(lay, p))
  {
    var b := BitsOf(p, lay.checks - 1);
    OddCons(!Odd(b), b);
    assert (b + [!Odd(b)])[..|b|] == b;
  }

  lemma ColumnInjective(lay: Layout, p: nat, q: nat)
    requires lay.checks > 0 && p < Power(lay.checks - 1) && q < Power(lay.checks - 1)
    requires Column(lay, p) == Column(lay, q)
    ensures p == q
  {
    var n := lay.checks - 1;
    var b, c := BitsOf(p, n), BitsOf(q, n);
    assert b == c by {
      if lay.parityFirst {
        assert b == Column(lay, p)[1..] && c == Column(lay, q)[1..];
      } else {
        assert b == Column(lay, p)[..n] && c == Column(lay, q)[..n];
      }
    }
    ValueOfBits(p, n);
    ValueOfBits(q, n);
  }

  lemma {:induction false} PowerGrows(i: nat, j: nat)
    requires i < j
    ensures Power(i) < Power(j)
  {
    if i < j - 1 {
      PowerGrows(i, j - 1);
    }
  }

  lemma PositionIsNoPower(j: nat, k: nat)
    requires j < 64 && k < 8
    ensures Position(j) != Power(k) && Position(j) > 0
  {
    assert Power(0) == 1 && Power(1) == 2 && Power(2) == 4 && Power(3) == 8;
    assert Power(4) == 16 && Power(5) == 32 && Power(6) == 64 && Power(7) == 128;
  }

  lemma PositionBound(lay: Layout, i: nat)
    requires Valid(lay) && i < lay.checks + lay.data
    ensures PositionOf(lay, i) < Power(lay.checks - 1)
  {
    if i < lay.checks {
      var k := if lay.parityFirst then i - 1 else i;
      if 0 <= k < lay.checks - 1 {
        PowerGrows(k, lay.checks - 1);
      }
    }
  }

  lemma PositionsDiffer(lay: Layout, i: nat, j: nat)
    requires Valid(lay) && i < j < lay.checks + lay.data
    ensures PositionOf(lay, i) != PositionOf(lay, j)
  {
    if i < lay.checks {
      var k := if lay.parityFirst then i - 1 else i;
      if j >= lay.checks {
        PositionIsNoPower(j - lay.checks, if k < 0 then 0 else k);
      } else {
        var l := if lay.parityFirst then j - 1 else j;
        if 0 <= k {
          PowerGrows(k, l);
        }
      }
    }
  }

  /** Every valid layout is a code of distance four. */
  lemma LayoutIsSecDed(lay: Layout)
    requires Valid(lay)
    ensures SecDed(ColumnsOf(lay), lay.checks)
  {
    var cols := ColumnsOf(lay);
    forall i | 0 <= i < |cols|
      ensures Odd(cols[i])
    {
      ColumnAt(lay, i);
      ColumnIsOdd(lay, PositionOf(lay, i));
    }
    forall i, j | 0 <= i < j < |cols|
      ensures cols[i] != cols[j]
    {
      ColumnAt(lay, i);
      ColumnAt(lay, j);
      PositionBound(lay, i);
      PositionBound(lay, j);
      PositionsDiffer(lay, i, j);
      if cols[i] == cols[j] {
        ColumnInjective(lay, PositionOf(lay, i), PositionOf(lay, j));
      }
    }
  }

  // ---------------------------------------------------------------- encoding

  /** The check bits of a data word. */
  function Check(lay: Layout, d: Bits): (s: Bits)
    requires 0 < lay.checks && |d| == lay.data
    ensures |s| == lay.checks
  {
    Checks(DataColumns(lay), lay.checks, d, |d|)
  }

  /** Check bits, then data bits. */
  function Encode(lay: Layout, d: Bits): (w: Bits)
    requires 0 < lay.checks && |d| == lay.data
    ensures |w| == lay.checks + lay.data
  {
    Check(lay, d) + d
  }

  /** The syndrome that a reader computes: the stored check bits against those of the stored data. */
  function Syndrome(lay: Layout, w: Bits): (s: Bits)
    requires 0 < lay.checks && |w| == lay.checks + lay.data
    ensures |s| == lay.checks
  {
    Add(w[..lay.checks], Check(lay, w[lay.checks..]))
  }

  lemma {:induction false} BitsOfZero(n: nat)
    ensures BitsOf(0, n) == Zeros(n)
  {
    if n > 0 {
      BitsOfZero(n - 1);
    }
  }

  lemma {:induction false} BitsOfPower(k: nat, n: nat)
    requires k < n
    ensures BitsOf(Power(k), n) == Zeros(n)[k := true]
    decreases n
  {
    if k == 0 {
      BitsOfZero(n - 1);
    } else {
      BitsOfPower(k - 1, n - 1);
    }
  }

  lemma {:induction false} OddUnit(k: nat, n: nat)
    requires k < n
    ensures Odd(Zeros(n)[k := true])
    decreases n
  {
    var u := Zeros(n)[k := true];
    if k == n - 1 {
      assert u[..n - 1] == Zeros(n - 1);
      OddZeros(n - 1);
    } else {
      assert u[..n - 1] == Zeros(n - 1)[k := true];
      OddUnit(k, n - 1);
    }
  }

  /** The column of a check bit has a single one. */
  lemma CheckColumn(lay: Layout, i: nat)
    requires i < lay.checks
    ensures Column(lay, PositionOf(lay, i)) == Unit(lay.checks, i)
  {
    var n := lay.checks - 1;
    var k := if lay.parityFirst then i - 1 else i;
    if 0 <= k < n {
      BitsOfPower(k, n);
      OddUnit(k, n);
    } else {
      BitsOfZero(n);
      OddZeros(n);
    }
  }

  lemma ChecksFirst(lay: Layout)
    requires lay.checks > 0
    ensures UnitsFirst(ColumnsOf(lay), lay.checks)
    ensures ColumnsOf(lay)[lay.checks..] == DataColumns(lay)
  {
    forall i | 0 <= i < lay.checks
      ensures ColumnsOf(lay)[i] == Unit(lay.checks, i)
    {
      ColumnAt(lay, i);
      CheckColumn(lay, i);
    }
  }

  lemma ChecksOfParts(lay: Layout, w: Bits, a: Bits, d: Bits)
    requires 0 < lay.checks == |a| && |d| == lay.data && w == a + d
    ensures Checks(ColumnsOf(lay), lay.checks, w, |w|) == Add(a, Check(lay, d))
  {
    ChecksFirst(lay);
    SumOfWord(ColumnsOf(lay), lay.checks, DataColumns(lay), w, a, d, |d|, |w|);
  }

  lemma SyndromeIsChecks(lay: Layout, w: Bits)
    requires 0 < lay.checks && |w| == lay.checks + lay.data
    ensures Checks(ColumnsOf(lay), lay.checks, w, |w|) == Syndrome(lay, w)
  {
    Halves(w, lay.checks);
    ChecksOfParts(lay, w, w[..lay.checks], w[lay.checks..]);
  }

  /** A word is a codeword exactly if its check bits are the checks of its data. */
  lemma CodewordIffEncoded(lay: Layout, w: Bits)
    requires 0 < lay.checks && |w| == lay.checks + lay.data
    ensures Codeword(ColumnsOf(lay), lay.checks, w) <==> w == Encode(lay, w[lay.checks..])
  {
    SyndromeIsChecks(lay, w);
    var a, d := w[..lay.checks], w[lay.checks..];
    Halves(w, lay.checks);
    if Syndrome(lay, w) == Zeros(lay.checks) {
      AddZero(a, Check(lay, d));
    }
    if w == Encode(lay, d) {
      SamePrefix(a, Check(lay, d), d);
      AddSelf(a);
    }
  }

  lemma SamePrefix(a: Bits, b: Bits, d: Bits)
    requires a + d == b + d
    ensures a == b
  {
    assert |a + d| == |a| + |d| && |b + d| == |b| + |d|;
    assert (a + d)[..|a|] == a && (b + d)[..|b|] == b;
  }

  lemma EncodeIsCodeword(lay: Layout, d: Bits)
    requires 0 < lay.checks && |d| == lay.data
    ensures Codeword(ColumnsOf(lay), lay.checks, Encode(lay, d))
  {
    var w := Encode(lay, d);
    assert w[lay.checks..] == d;
    CodewordIffEncoded(lay, w);
  }

  /** Different data words with their check bits differ in at least four bits, and every word has
      even parity. */
  lemma EncodedDistance(lay: Layout, d: Bits, e: Bits)
    requires Valid(lay) && |d| == |e| == lay.data
    ensures d != e ==> Distance(Encode(lay, d), Encode(lay, e)) >= 4
    ensures !Odd(Encode(lay, d))
  {
    LayoutIsSecDed(lay);
    EncodeIsCodeword(lay, d);
    EncodeIsCodeword(lay, e);
    var u, v := Encode(lay, d), Encode(lay, e);
    assert u[lay.checks..] == d && v[lay.checks..] == e;
    if d != e {
      CosetDistance(ColumnsOf(lay), lay.checks, u, v);
    }
    ParityOfChecks(ColumnsOf(lay), lay.checks, u, |u|);
    OddZeros(lay.checks);
    assert u[..|u|] == u;
  }

  /** One wrong bit of a codeword has the odd syndrome of its position, which no other bit has; two
      have an even syndrome that is not zero. */
  lemma SyndromeOfErrors(lay: Layout, d: Bits, i: nat, j: nat)
    requires Valid(lay) && |d| == lay.data && i < j < lay.checks + lay.data
    ensures var w := Encode(lay, d);
      && Syndrome(lay, w) == Zeros(lay.checks)
      && Syndrome(lay, Flip(w, i)) == Column(lay, PositionOf(lay, i))
      && Syndrome(lay, Flip(w, j)) == Column(lay, PositionOf(lay, j))
      && Odd(Syndrome(lay, Flip(w, i))) && Odd(Syndrome(lay, Flip(w, j)))
      && Syndrome(lay, Flip(w, i)) != Syndrome(lay, Flip(w, j))
      && !Odd(Syndrome(lay, Flip(Flip(w, i), j)))
      && Syndrome(lay, Flip(Flip(w, i), j)) != Zeros(lay.checks)
  {
    var w := Encode(lay, d);
    var cols := ColumnsOf(lay);
    LayoutIsSecDed(lay);
    EncodeIsCodeword(lay, d);
    SyndromeIsChecks(lay, w);
    SyndromeIsChecks(lay, Flip(w, i));
    SyndromeIsChecks(lay, Flip(w, j));
    SyndromeIsChecks(lay, Flip(Flip(w, i), j));
    OneWrong(cols, lay.checks, w, i);
    OneWrong(cols, lay.checks, w, j);
    TwoWrong(cols, lay.checks, w, i, j);
  }
}
