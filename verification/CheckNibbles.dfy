/** mem.c's `hamming` and `addr_parity`, loop by loop, and what they have to do with the code. */
module CheckNibbles {
  import opened Gf16
  import opened NibbleColumns
  import opened NibbleCode
  import opened Distances

  // ---------------------------------------------------------------- bits of a byte

  function Wide(x: bv4): bv8 {
    x as bv8
  }

  function Low(x: bv8): bv4 {
    (x & 0xf) as bv4
  }

  function High(x: bv8): bv4 {
    ((x >> 4) & 0xf) as bv4
  }

  function ShiftLeft(x: bv8, n: nat): bv8
    requires n < 4
  {
    if n == 0 then x else if n == 1 then x << 1 else if n == 2 then x << 2 else x << 3
  }

  function Bit(x: bv8, n: nat): bool
    requires n < 8
  {
    if n == 0 then x & 1 != 0 else if n == 1 then x & 2 != 0 else if n == 2 then x & 4 != 0
    else if n == 3 then x & 8 != 0 else if n == 4 then x & 16 != 0 else if n == 5 then x & 32 != 0
    else if n == 6 then x & 64 != 0 else x & 128 != 0
  }

  // ---------------------------------------------------------------- multiply, then reduce

  /** What bit n of b adds to the product. */
  function PartAt(a: bv8, b: bv8, n: nat): bv8
    requires n < 4
  {
    if Bit(b, n) then ShiftLeft(a, n) else 0
  }

  /** The carry-less product of a and the n low bits of b. */
  function CarryLess(a: bv8, b: bv8, n: nat): bv8
    requires n <= 4
  {
    if n == 0 then 0 else CarryLess(a, b, n - 1) ^ PartAt(a, b, n - 1)
  }

  /** m after n steps of division by the primitive polynomial. */
  function Reduced(m: bv8, n: nat): bv8
    requires n <= 4
  {
    if n == 0 then m
    else
      var d := Reduced(m, n - 1);
      if d & 0xf0 != 0 && Bit(d, 8 - n) then d ^ ShiftLeft(0x13, 4 - n) else d
  }

  lemma CarryLessStep(a: bv8, b: bv8, n: nat)
    requires 0 < n <= 4
    ensures CarryLess(a, b, n) == CarryLess(a, b, n - 1) ^ PartAt(a, b, n - 1)
  {
  }

  lemma CarryLessOne(a: bv8, b: bv8, n: nat)
    requires n == 1
    ensures CarryLess(a, b, n) == PartAt(a, b, n - 1)
  {
    var zero, part: bv8 := 0, PartAt(a, b, n - 1);
    assert zero ^ part == part;
  }

  lemma CarryLessTwo(a: bv8, b: bv8, n: nat)
    requires n == 2
    ensures CarryLess(a, b, n) == PartAt(a, b, n - 2) ^ PartAt(a, b, n - 1)
  {
    CarryLessOne(a, b, n - 1);
    CarryLessStep(a, b, n);
  }

  lemma CarryLessThree(a: bv8, b: bv8, n: nat)
    requires n == 3
    ensures CarryLess(a, b, n) == PartAt(a, b, n - 3) ^ PartAt(a, b, n - 2) ^ PartAt(a, b, n - 1)
  {
    CarryLessTwo(a, b, n - 1);
    CarryLessStep(a, b, n);
  }

  lemma CarryLessUnrolled(a: bv8, b: bv8, n: nat)
    requires n == 4
    ensures CarryLess(a, b, n)
      == PartAt(a, b, n - 4) ^ PartAt(a, b, n - 3) ^ PartAt(a, b, n - 2) ^ PartAt(a, b, n - 1)
  {
    CarryLessThree(a, b, n - 1);
    CarryLessStep(a, b, n);
  }

  lemma BitByBit(a: bv8, b: bv8, n: nat)
    requires n == 4
    ensures PartAt(a, b, n - 4) == if b & 1 != 0 then a else 0
    ensures PartAt(a, b, n - 3) == if b & 2 != 0 then a << 1 else 0
    ensures PartAt(a, b, n - 2) == if b & 4 != 0 then a << 2 else 0
    ensures PartAt(a, b, n - 1) == if b & 8 != 0 then a << 3 else 0
  {
  }

  function Step7(d: bv8): bv8 {
    if d & 128 != 0 then d ^ 0x98 else d
  }

  function Step6(d: bv8): bv8 {
    if d & 64 != 0 then d ^ 0x4c else d
  }

  function Step5(d: bv8): bv8 {
    if d & 32 != 0 then d ^ 0x26 else d
  }

  function Step4(d: bv8): bv8 {
    if d & 16 != 0 then d ^ 0x13 else d
  }

  lemma ReducedUnrolled(m: bv8, n: nat)
    requires n == 4
    ensures Reduced(m, n) == Step4(Step5(Step6(Step7(m))))
  {
    assert Reduced(m, n - 3) == Step7(m);
    assert Reduced(m, n - 2) == Step6(Step7(m));
    assert Reduced(m, n - 1) == Step5(Step6(Step7(m)));
  }

  lemma ReducesToProduct(a: bv4, b: bv4, n: nat)
    requires n == 4
    ensures Reduced(CarryLess(Wide(a), Wide(b), n), n) == Wide(Mul(a, b))
  {
    CarryLessUnrolled(Wide(a), Wide(b), n);
    BitByBit(Wide(a), Wide(b), n);
    ReducedUnrolled(CarryLess(Wide(a), Wide(b), n), n);
    Unrolled(a, b);
  }

  method MultiplyBits(coefficient: bv8, nibble: bv8, n: nat) returns (product: bv8)
    requires n == 4
    ensures product == CarryLess(coefficient, nibble, n)
  {
    product := 0;
    for k := 0 to n
      invariant product == CarryLess(coefficient, nibble, k)
    {
      if Bit(nibble, k) {
        product := product ^ ShiftLeft(coefficient, k);
      }
    }
  }

  method Divide(product: bv8, n: nat) returns (remainder: bv8)
    requires n == 4
    ensures remainder == Reduced(product, n)
  {
    remainder := product;
    for k := 0 to n
      invariant remainder == Reduced(product, k)
    {
      if remainder & 0xf0 != 0 && Bit(remainder, 7 - k) {
        remainder := remainder ^ ShiftLeft(0x13, 3 - k);
      }
    }
  }

  /** The product of two nibbles in the field. */
  method Multiply(coefficient: bv8, nibble: bv4, ghost a: bv4) returns (product: bv4)
    requires coefficient == Wide(a)
    ensures product == Mul(a, nibble)
  {
    var whole := MultiplyBits(coefficient, Wide(nibble), 4);
    var remainder := Divide(whole, 4);
    ReducesToProduct(a, nibble, 4);
    WideLow(Mul(a, nibble));
    product := Low(remainder);
  }

  // ---------------------------------------------------------------- the coefficients

  /** The coefficient the first check counts to, less one. */
  function CountOf(i: nat): nat
    requires i < DATA && i != 30
  {
    if i > 14 then if i == 31 then 0 else i - 15 else i
  }

  /** The coefficient of the fourth check, less one, as tabulated in the source. */
  function InverseCountOf(i: nat): nat
    requires i < 31
  {
    if i == 0 || i == 15 || i == 30 then 0
    else if i == 1 || i == 16 then 8
    else if i == 2 || i == 17 then 13
    else if i == 3 || i == 18 then 12
    else if i == 4 || i == 19 then 10
    else if i == 5 || i == 20 then 6
    else if i == 6 || i == 21 then 5
    else if i == 7 || i == 22 then 14
    else if i == 8 || i == 23 then 1
    else if i == 9 || i == 24 then 11
    else if i == 10 || i == 25 then 4
    else if i == 11 || i == 26 then 9
    else if i == 12 || i == 27 then 3
    else if i == 13 || i == 28 then 2
    else 7
  }

  function Coefficient(n: nat): bv8
    requires n < 15
  {
    (n + 1) as bv8
  }

  lemma CoefficientIsNumber(n: nat)
    requires n < 15
    ensures Coefficient(n) == Wide(NUMBER[n])
  {
    if n < 8 {
      SmallCoefficient(n);
    } else {
      LargeCoefficient(n);
    }
  }

  lemma SmallCoefficient(n: nat)
    requires n < 8
    ensures Coefficient(n) == Wide(NUMBER[n])
  {
  }

  lemma LargeCoefficient(n: nat)
    requires 8 <= n < 15
    ensures Coefficient(n) == Wide(NUMBER[n])
  {
  }

  lemma TabulatedInverse(n: nat)
    requires n < 15
    ensures NUMBER[InverseCountOf(n)] == Inverse(NUMBER[n])
  {
  }

  lemma CountIsColumn(i: nat)
    requires i < DATA && i != 30
    ensures Coefficient(CountOf(i)) == Wide(ColumnOf(i).p1)
  {
    CoefficientIsNumber(CountOf(i));
  }

  lemma FourthOfColumn(i: nat)
    requires i < 31
    ensures i < 15 ==> ColumnOf(i).p4 == Inverse(NUMBER[i])
    ensures 15 <= i < 30 ==> ColumnOf(i).p4 == Inverse(NUMBER[i - 15]) && InverseCountOf(i) == InverseCountOf(i - 15)
    ensures i == 30 ==> ColumnOf(i).p4 == 1 == NUMBER[InverseCountOf(i)]
  {
  }

  lemma InverseCountIsColumn(i: nat)
    requires i < 31
    ensures NUMBER[InverseCountOf(i)] == ColumnOf(i).p4
  {
    FourthOfColumn(i);
    if i < 30 {
      TabulatedInverse(if i < 15 then i else i - 15);
    }
  }

  // ---------------------------------------------------------------- hamming

  lemma WideLow(x: bv4)
    ensures Low(Wide(x)) == x
  {
  }

  /** The 32 nibbles of 16 bytes, the last byte first and its low nibble before its high one. */
  function Nibbles(word: seq<bv8>): Data
    requires |word| == 16
  {
    seq(DATA, i requires 0 <= i < DATA => if i % 2 == 0 then Low(word[15 - i / 2]) else High(word[15 - i / 2]))
  }

  lemma NibblesOfByte(x: bv8, y: bv8)
    requires Low(x) == Low(y) && High(x) == High(y)
    ensures x == y
  {
  }

  /** Every byte is made of its two nibbles, the low one before the high one, the last byte first. */
  lemma NibblesOfWord(word: seq<bv8>, c: nat)
    requires |word| == 16 && c < 16
    ensures word[c] == Wide(Nibbles(word)[30 - 2 * c]) | (Wide(Nibbles(word)[31 - 2 * c]) << 4)
  {
  }

  lemma NibblesInjective(u: seq<bv8>, v: seq<bv8>)
    requires |u| == |v| == 16 && u != v
    ensures Nibbles(u) != Nibbles(v)
  {
    var c :| 0 <= c < 16 && u[c] != v[c];
    var i := 30 - 2 * c;
    if Nibbles(u)[i] == Nibbles(v)[i] && Nibbles(u)[i + 1] == Nibbles(v)[i + 1] {
      NibblesOfByte(u[c], v[c]);
    }
  }

  method SplitWord(word: seq<bv8>) returns (hword: array<bv4>)
    requires |word| == 16
    ensures fresh(hword) && hword.Length == DATA && hword[..] == Nibbles(word)
  {
    hword := new bv4[DATA];
    for count := 0 to 16
      invariant forall i :: 32 - 2 * count <= i < 32 ==> hword[i] == Nibbles(word)[i]
    {
      hword[31 - count * 2 - 1] := Low(word[count]);
      hword[31 - count * 2] := High(word[count]);
    }
  }

  lemma SumStep(w: Data, n: nat)
    requires n < DATA
    ensures var s, t, c := Sum(w, n + 1), Sum(w, n), ColumnOf(n);
      && s.c1 == t.c1 ^ Mul(c.p1, w[n])
      && s.c2 == t.c2 ^ Pick(c.p2, w[n])
      && s.c3 == t.c3 ^ Pick(c.p3, w[n])
      && s.c4 == t.c4 ^ Mul(c.p4, w[n])
  {
  }

  lemma SumStart(w: Data)
    ensures Sum(w, 0) == NONE
  {
  }

  /** Nibble 30 has no part in the first check, nibble 31 none in the fourth. */
  lemma Unweighed(w: Data, n: nat)
    requires n == 30
    ensures Sum(w, n + 1).c1 == Sum(w, n).c1
    ensures Sum(w, n + 2).c4 == Sum(w, n + 1).c4
  {
    SumStep(w, n);
    SumStep(w, n + 1);
    Units(w[n]);
    Units(w[n + 1]);
    PlusZero(Sum(w, n).c1, 0);
    PlusZero(Sum(w, n + 1).c4, 0);
  }

  lemma FirstWeight(w: Data, n: nat) returns (c: bv4)
    requires n < DATA && n != 30
    ensures Coefficient(CountOf(n)) == Wide(c)
    ensures Sum(w, n + 1).c1 == Sum(w, n).c1 ^ Mul(c, w[n])
  {
    CountIsColumn(n);
    SumStep(w, n);
    c := ColumnOf(n).p1;
  }

  method AddFirstProduct(parity: bv4, count: nat, nibble: bv4, ghost w: Data) returns (next: bv4)
    requires count < DATA && nibble == w[count] && parity == Sum(w, count).c1
    ensures next == Sum(w, count + 1).c1
  {
    if count == 30 {
      Unweighed(w, count);
      return parity;
    }
    ghost var weight := FirstWeight(w, count);
    var product := Multiply(Coefficient(CountOf(count)), nibble, weight);
    next := parity ^ product;
  }

  method FirstParity(hword: array<bv4>, ghost w: Data) returns (parity: bv4)
    requires hword[..] == w
    ensures parity == Sum(w, |w|).c1
  {
    parity := 0;
    SumStart(w);
    for count := 0 to hword.Length
      invariant parity == Sum(w, count).c1
    {
      parity := AddFirstProduct(parity, count, hword[count], w);
    }
  }

  method FourthCoefficient(n: nat, ghost w: Data) returns (k: bv8, ghost c: bv4)
    requires n < 31
    ensures k == Wide(c)
    ensures Sum(w, n + 1).c4 == Sum(w, n).c4 ^ Mul(c, w[n])
  {
    InverseCountIsColumn(n);
    CoefficientIsNumber(InverseCountOf(n));
    SumStep(w, n);
    k, c := Coefficient(InverseCountOf(n)), ColumnOf(n).p4;
  }

  method AddFourthProduct(parity: bv4, count: nat, nibble: bv4, ghost w: Data) returns (next: bv4)
    requires count < 31 && nibble == w[count] && parity == Sum(w, count).c4
    ensures next == Sum(w, count + 1).c4
  {
    var k, weight := FourthCoefficient(count, w);
    var product := Multiply(k, nibble, weight);
    next := parity ^ product;
  }

  method FourthParity(hword: array<bv4>, ghost w: Data) returns (parity: bv4)
    requires hword[..] == w
    ensures parity == Sum(w, |w|).c4
  {
    parity := 0;
    SumStart(w);
    for count := 0 to hword.Length - 1
      invariant parity == Sum(w, count).c4
    {
      parity := AddFourthProduct(parity, count, hword[count], w);
    }
    Unweighed(w, |w| - 2);
  }

  /** The nibbles that enter the second and third check do so unweighed. */
  lemma PlainStep(w: Data, n: nat)
    requires n < DATA
    ensures Sum(w, n + 1).c2 == if n < 15 || n >= 30 then Sum(w, n).c2 ^ w[n] else Sum(w, n).c2
    ensures Sum(w, n + 1).c3 == if n < 15 then Sum(w, n).c3 else Sum(w, n).c3 ^ w[n]
  {
    SumStep(w, n);
    assert ColumnOf(n).p2 == (n < 15 || 30 <= n < 32) && ColumnOf(n).p3 == (15 <= n < 32);
    PlusZero(Sum(w, n).c2, 0);
    PlusZero(Sum(w, n).c3, 0);
  }

  /** Nibbles 15 to 29 have no part in the second check, 0 to 14 none in the third. */
  lemma {:induction false} UncheckedRun(w: Data, a: nat, n: nat)
    requires a == 15 && n <= 30
    ensures n <= a ==> Sum(w, n).c3 == 0
    ensures a <= n ==> Sum(w, n).c2 == Sum(w, a).c2
  {
    if n > 0 {
      UncheckedRun(w, a, n - 1);
      PlainStep(w, n - 1);
    }
  }

  method SecondParity(hword: array<bv4>, ghost w: Data) returns (parity: bv4)
    requires hword[..] == w
    ensures parity == Sum(w, |w|).c2
  {
    parity := 0;
    SumStart(w);
    var n := hword.Length;
    for count := 0 to n - 17
      invariant parity == Sum(w, count).c2
    {
      PlainStep(w, count);
      parity := parity ^ hword[count];
    }
    UncheckedRun(w, n - 17, n - 2);
    PlainStep(w, n - 2);
    PlainStep(w, n - 1);
    parity := parity ^ hword[30] ^ hword[31];
  }

  method ThirdParity(hword: array<bv4>, ghost w: Data) returns (parity: bv4)
    requires hword[..] == w
    ensures parity == Sum(w, |w|).c3
  {
    parity := 0;
    var n := hword.Length;
    UncheckedRun(w, n - 17, n - 17);
    for count := n - 17 to n
      invariant parity == Sum(w, count).c3
    {
      PlainStep(w, count);
      parity := parity ^ hword[count];
    }
  }

  /** The check nibbles of 16 bytes, in the order in which they are stored. */
  method Hamming(word: seq<bv8>) returns (ecc: seq<bv4>)
    requires |word| == 16
    ensures ecc == Stored(Sum(Nibbles(word), DATA))
  {
    var hword := SplitWord(word);
    ghost var w: Data := hword[..];
    var parity1 := FirstParity(hword, w);
    var parity2 := SecondParity(hword, w);
    var parity3 := ThirdParity(hword, w);
    var parity4 := FourthParity(hword, w);
    ecc := [parity2, parity1, parity4, parity3];
  }

  /** ecc[1] holds the first check, ecc[0] the second, ecc[3] the third and ecc[2] the fourth. */
  function Stored(s: Checks): (ecc: seq<bv4>)
    ensures |ecc| == 4
  {
    [s.c2, s.c1, s.c4, s.c3]
  }

  // ---------------------------------------------------------------- addr_parity

  /** Whether an odd number of the n low bits of an address are set. */
  function OddBits(addr: bv64, n: nat): bool
    decreases n
  {
    n > 0 && ((addr & 1 == 1) != OddBits(addr >> 1, n - 1))
  }

  function Shifted(addr: bv64, n: nat): bv64
    decreases n
  {
    if n == 0 then addr else Shifted(addr >> 1, n - 1)
  }

  /** The address bits that enter the parity: 32 of them, or 33 with two channels. */
  function AddressParity(addr: bv64, start: nat, ch2: nat): bool
    requires start + ch2 <= 8 && ch2 <= 1
  {
    OddBits(Shifted(addr, 8 - (start + ch2)), 32 + ch2)
  }

  function Mask(odd: bool): bv4 {
    if odd then 0xf else 0
  }

  /** Every check nibble is inverted if the address has odd parity. */
  method AddrParity(data: seq<bv4>, addr: bv64, start: nat, ch2: nat) returns (ecc: seq<bv4>)
    requires |data| == 4 && start + ch2 <= 8 && ch2 <= 1
    ensures ecc == Folded(data, Mask(AddressParity(addr, start, ch2)))
  {
    var rest := ShiftOut(addr, 8 - (start + ch2));
    var odd := ParityOf(rest, 40 - (8 - ch2));
    var mask := SpreadBit(odd);
    ecc := [data[0] ^ mask, data[1] ^ mask, data[2] ^ mask, data[3] ^ mask];
  }

  method ShiftOut(addr: bv64, n: nat) returns (rest: bv64)
    ensures rest == Shifted(addr, n)
  {
    rest := addr;
    for i := 0 to n
      invariant Shifted(rest, n - i) == Shifted(addr, n)
    {
      rest := rest >> 1;
    }
  }

  method ParityOf(addr: bv64, n: nat) returns (odd: bool)
    ensures odd == OddBits(addr, n)
  {
    odd := false;
    var rest := addr;
    for i := 0 to n
      invariant (odd != OddBits(rest, n - i)) == OddBits(addr, n)
    {
      odd := odd != (rest & 1 == 1);
      rest := rest >> 1;
    }
  }

  /** The parity bit in all bits of a byte, of which a nibble is used. */
  method SpreadBit(odd: bool) returns (mask: bv4)
    ensures mask == Mask(odd)
  {
    var bit: bv8 := if odd then 1 else 0;
    var parity := bit;
    for i := 1 to 8
      invariant parity & 0xf == Spread(odd, i)
    {
      parity := (parity << 1) | bit;
    }
    mask := Low(parity);
  }

  function Spread(odd: bool, i: nat): bv8 {
    if !odd then 0 else if i <= 1 then 1 else if i == 2 then 3 else if i == 3 then 7 else 15
  }

  function Folded(data: seq<bv4>, mask: bv4): (ecc: seq<bv4>)
    requires |data| == 4
    ensures |ecc| == 4
  {
    [data[0] ^ mask, data[1] ^ mask, data[2] ^ mask, data[3] ^ mask]
  }

  // ---------------------------------------------------------------- the checks of a single nibble

  /** Only nibble i of a word is set. */
  ghost predicate OnlyNibble(w: Data, i: nat) {
    i < DATA && forall k :: 0 <= k < DATA && k != i ==> w[k] == 0
  }

  lemma SumOfNibble(w: Data, i: nat)
    requires OnlyNibble(w, i)
    ensures Sum(w, DATA) == Weigh(ColumnOf(i), w[i])
  {
    ZeroRun(w, 0, i);
    ZeroRun(w, i + 1, DATA);
    AddUnit(Weigh(ColumnOf(i), w[i]));
  }

  lemma FirstListed(n: nat)
    requires n < 15
    ensures NUMBER[n] == [1, 2, 3, 4, 5, 6, 7, 8, 9, 10, 11, 12, 13, 14, 15][n]
  {
  }

  lemma SmallListed(n: nat)
    requires n < 8
    ensures Inverse(NUMBER[n]) == [1, 9, 14, 13, 11, 7, 6, 15, 2, 12, 5, 10, 4, 3, 8][n]
  {
  }

  lemma LargeListed(n: nat)
    requires 8 <= n < 15
    ensures Inverse(NUMBER[n]) == [1, 9, 14, 13, 11, 7, 6, 15, 2, 12, 5, 10, 4, 3, 8][n]
  {
  }

  lemma FourthListed(n: nat)
    requires n < 15
    ensures Inverse(NUMBER[n]) == [1, 9, 14, 13, 11, 7, 6, 15, 2, 12, 5, 10, 4, 3, 8][n]
  {
    if n < 8 {
      SmallListed(n);
    } else {
      LargeListed(n);
    }
  }

  /** The checks of a word with a single nibble x: in the first it is weighed by its number and in the fourth by
      the reciprocal, both as listed; nibbles 0 to 14 are in the second check, 15 to 29 in the third; the last
      two are in both, and unweighed in the fourth and in the first. Every word is a sum of such words, and the
      checks are linear. */
  lemma ChecksOfNibble(w: Data, i: nat, x: bv4)
    requires OnlyNibble(w, i) && x == w[i]
    ensures i < 15 ==>
      Stored(Sum(w, DATA)) == [x, Mul([1, 2, 3, 4, 5, 6, 7, 8, 9, 10, 11, 12, 13, 14, 15][i], x), Mul([1, 9, 14, 13, 11, 7, 6, 15, 2, 12, 5, 10, 4, 3, 8][i], x), 0]
    ensures 15 <= i < 30 ==>
      Stored(Sum(w, DATA)) == [0, Mul([1, 2, 3, 4, 5, 6, 7, 8, 9, 10, 11, 12, 13, 14, 15][i - 15], x), Mul([1, 9, 14, 13, 11, 7, 6, 15, 2, 12, 5, 10, 4, 3, 8][i - 15], x), x]
    ensures i == 30 ==> Stored(Sum(w, DATA)) == [x, 0, x, x]
    ensures i == 31 ==> Stored(Sum(w, DATA)) == [x, x, 0, x]
  {
    SumOfNibble(w, i);
    if i < 30 {
      var n := if i < 15 then i else i - 15;
      FirstListed(n);
      FourthListed(n);
    } else {
      Units(x);
    }
  }

  /** Fifteen zero bytes and a last byte 1. */
  lemma ChecksOfOne(word: seq<bv8>, w: Data)
    requires |word| == 16 && w == Nibbles(word) && word[15] == 1 && forall c :: 0 <= c < 15 ==> word[c] == 0
    ensures Stored(Sum(w, DATA)) == [1, 1, 1, 0]
  {
    forall k | 0 <= k < DATA
      ensures w[k] == if k == 0 then 1 else 0
    {
    }
    ChecksOfNibble(w, 0, 1);
    Units(1);
  }

  // ---------------------------------------------------------------- a wrong address is never a wrong nibble

  function MaskAll(odd: bool): Checks {
    Checks(Mask(odd), Mask(odd), Mask(odd), Mask(odd))
  }

  /** Data nibbles and the check nibbles stored for an address of parity `odd`. */
  function StoredWord(d: Data, odd: bool): Word {
    var s := Add(Sum(d, DATA), MaskAll(odd));
    d + InCheckOrder(s)
  }

  function InCheckOrder(s: Checks): (r: seq<bv4>)
    ensures |r| == 4
  {
    [s.c1, s.c2, s.c3, s.c4]
  }

  lemma FoldedElements(data: seq<bv4>, m: bv4)
    requires |data| == 4
    ensures var ecc := Folded(data, m);
      ecc[0] == data[0] ^ m && ecc[1] == data[1] ^ m && ecc[2] == data[2] ^ m && ecc[3] == data[3] ^ m
  {
  }

  // The same mask is added to a check before or after the checks are put in order.

  lemma FoldedSecond(s: Checks, m: bv4)
    ensures Folded(Stored(s), m)[0] == Add(s, Checks(m, m, m, m)).c2
  {
  }

  lemma FoldedFirst(s: Checks, m: bv4)
    ensures Folded(Stored(s), m)[1] == Add(s, Checks(m, m, m, m)).c1
  {
  }

  lemma FoldedFourth(s: Checks, m: bv4)
    ensures Folded(Stored(s), m)[2] == Add(s, Checks(m, m, m, m)).c4
  {
  }

  lemma FoldedThird(s: Checks, m: bv4)
    ensures Folded(Stored(s), m)[3] == Add(s, Checks(m, m, m, m)).c3
  {
  }

  /** The stored order is a permutation of the checks, which the address parity folds into alike. */
  lemma StoredOrder(d: Data, odd: bool)
    ensures var w, ecc := StoredWord(d, odd), Folded(Stored(Sum(d, DATA)), Mask(odd));
      ecc[0] == w[33] && ecc[1] == w[32] && ecc[2] == w[35] && ecc[3] == w[34]
  {
    var s := Sum(d, DATA);
    FoldedSecond(s, Mask(odd));
    FoldedFirst(s, Mask(odd));
    FoldedFourth(s, Mask(odd));
    FoldedThird(s, Mask(odd));
  }

  /** What a reader at an address of parity `odd` finds wrong. */
  function Syndrome(w: Word, odd: bool): Checks {
    Add(Sum(w, LENGTH), MaskAll(odd))
  }

  lemma SumOfStored(d: Data, odd: bool)
    ensures Sum(StoredWord(d, odd), LENGTH) == MaskAll(odd)
  {
    var w := StoredWord(d, odd);
    assert d[..DATA] == w[..DATA];
    SumOfPrefix(d, w, DATA);
    SumOfWord(w);
    AddAway(Sum(d, DATA), MaskAll(odd));
  }

  lemma AddAway(s: Checks, t: Checks)
    ensures Add(s, Add(s, t)) == t
  {
  }

  /** Reading back what was stored finds nothing wrong exactly if the address parities agree;
      otherwise all four nibbles of the syndrome are 0xf. */
  lemma SyndromeOfStored(d: Data, written: bool, read: bool)
    ensures Syndrome(StoredWord(d, written), read) == if written == read then NONE else Checks(0xf, 0xf, 0xf, 0xf)
  {
    SumOfStored(d, written);
    MaskSum(written, read);
  }

  lemma MaskSum(p: bool, q: bool)
    ensures Add(MaskAll(p), MaskAll(q)) == if p == q then NONE else Checks(0xf, 0xf, 0xf, 0xf)
  {
  }

  lemma SumDiffers(u: Word, v: Word, i: nat)
    requires i < LENGTH && u[i := v[i]] == v
    ensures Add(Sum(u, LENGTH), Sum(v, LENGTH)) == Weigh(ColumnOf(i), u[i] ^ v[i])
  {
    SumAdd(u, v, LENGTH);
    var e: Word := Xor(u, v);
    forall k | 0 <= k < LENGTH && k != i
      ensures e[k] == 0
    {
      XorZero(u[k], v[k]);
    }
    ZeroRun(e, 0, i);
    ZeroRun(e, i + 1, LENGTH);
    AddUnit(Weigh(ColumnOf(i), e[i]));
  }

  /** With the right address, a wrong nibble shows as its column. */
  lemma SyndromeIsColumn(d: Data, odd: bool, i: nat, x: bv4)
    requires i < LENGTH
    ensures Syndrome(StoredWord(d, odd)[i := x], odd) == Weigh(ColumnOf(i), StoredWord(d, odd)[i] ^ x)
  {
    var u := StoredWord(d, odd);
    var v: Word := u[i := x];
    SumOfStored(d, odd);
    SumDiffers(u, v, i);
    AddTurned(MaskAll(odd), Sum(v, LENGTH));
  }

  /** With the right address, a wrong nibble leaves at least one nibble of the syndrome zero, but
      not all four. */
  lemma SyndromeOfWrongNibble(d: Data, odd: bool, i: nat, x: bv4)
    requires i < LENGTH && x != StoredWord(d, odd)[i]
    ensures SomeZero(Syndrome(StoredWord(d, odd)[i := x], odd)) && Syndrome(StoredWord(d, odd)[i := x], odd) != NONE
  {
    var y := StoredWord(d, odd)[i];
    SyndromeIsColumn(d, odd, i, x);
    XorZero(y, x);
    ColumnMissesACheck(i, y ^ x);
    ColumnHasACheck(i, y ^ x);
  }

  lemma AddTurned(s: Checks, t: Checks)
    ensures Add(s, t) == Add(t, s)
  {
  }

  lemma ColumnHasACheck(i: nat, x: bv4)
    requires i < LENGTH && x != 0
    ensures Weigh(ColumnOf(i), x) != NONE
  {
    KindOf(i);
    var c := ColumnOf(i);
    if c.p2 || c.p3 {
      PlainColumn(c, x);
    } else {
      BaseColumn(c, x);
    }
  }

  lemma BaseColumn(c: Column, x: bv4)
    requires Base(c) && !c.p2 && !c.p3 && x != 0
    ensures Weigh(c, x) != NONE
  {
    BaseProducts(c, x);
  }

  lemma PlainColumn(c: Column, x: bv4)
    requires (c.p2 || c.p3) && x != 0
    ensures Weigh(c, x) != NONE
  {
  }

  /** A mismatch of address parity is never taken for a wrong nibble. */
  lemma MismatchIsNoWrongNibble(d: Data, written: bool, e: Data, odd: bool, i: nat, x: bv4)
    requires i < LENGTH
    ensures Syndrome(StoredWord(d, written), !written) != Syndrome(StoredWord(e, odd)[i := x], odd)
  {
    SyndromeOfStored(d, written, !written);
    if x == StoredWord(e, odd)[i] {
      assert StoredWord(e, odd)[i := x] == StoredWord(e, odd);
      SyndromeOfStored(e, odd, odd);
    } else {
      SyndromeOfWrongNibble(e, odd, i, x);
    }
  }

  /** Two 16-byte words, each with its check nibbles for the same address parity, differ in at
      least four of 36 nibbles. */
  lemma StoredDistance(u: seq<bv8>, v: seq<bv8>, odd: bool)
    requires |u| == |v| == 16 && u != v
    ensures Distance(StoredWord(Nibbles(u), odd), StoredWord(Nibbles(v), odd)) >= 4
  {
    var d, e := Nibbles(u), Nibbles(v);
    NibblesInjective(u, v);
    var x, y := StoredWord(d, odd), StoredWord(e, odd);
    SumOfStored(d, odd);
    SumOfStored(e, odd);
    assert d == x[..DATA] && e == y[..DATA];
    if Distance(x, y) <= 3 {
      CosetDistance(x, y);
    }
  }
}
