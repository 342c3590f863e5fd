/** The check nibbles that `store_op` in mem.c makes up for a row it finds empty: the row key is taken for
    address bits, its bank hash is undone in a 32-bit integer, and the parity of that is folded in. The
    parity is linear, so it is compared with that of the address word by word: two words have the same
    parity if their sum is a word and itself moved by one bit. */
module StoreParity {
  import opened CheckNibbles
  import opened DramMap
  import opened NibbleCode
  import NibbleColumns

  /** What is left of a number in a 32-bit integer, with its sign above it. */
  function AsInt(x: bv64): bv64 {
    (x & 0xffff_ffff) | (if BitSet(x >> 31) then 0xffff_ffff_0000_0000 else 0)
  }

  /** The bank bits of a row key, hashed once more. */
  function KeyBank(way: bv64, bits: bv64): bv64 {
    (((way & 0xffff_ffff) >> 2) & bits) ^ (((way & 0xffff_ffff) >> 12) & bits) ^ (((way & 0xffff_ffff) >> 22) & bits)
  }

  /** The row key with the bank hash undone. */
  function UnhashedWide(way: bv64, eight: bool): bv64 {
    if eight then (way & 0xff_ffff_ffe3) | (KeyBank(way, 7) << 2)
    else (way & 0xff_ffff_fff3) | (KeyBank(way, 3) << 2)
  }

  /** The same as it is kept, in an integer. */
  function Unhashed(way: bv64, eight: bool): bv64 {
    AsInt(UnhashedWide(way, eight))
  }

  // ---------------------------------------------------------------- parity of bits

  predicate BitSet(x: bv64) {
    x & 1 == 1
  }

  lemma {:induction false} ShiftedTwice(x: bv64, y: bv64, z: bv64, m: nat, n: nat)
    requires Shifted(x, m) == y && Shifted(y, n) == z
    ensures Shifted(x, m + n) == z
    decreases m
  {
    if m > 0 {
      ShiftedTwice(x >> 1, y, z, m - 1, n);
    }
  }

  lemma ShiftSums(x: bv64)
    ensures (x >> 1) >> 1 == x >> 2 && (x >> 2) >> 2 == x >> 4 && (x >> 4) >> 4 == x >> 8
    ensures (x >> 8) >> 8 == x >> 16 && (x >> 16) >> 16 == x >> 32
  {
  }

  lemma ShiftedTwo(x: bv64, n: nat)
    requires n == 2
    ensures Shifted(x, n) == x >> 2
  {
    assert Shifted(x, n) == Shifted(x >> 1, n - 1);
    assert Shifted(x >> 1, n - 1) == Shifted((x >> 1) >> 1, n - 2);
    ShiftSums(x);
  }

  lemma ShiftedFour(x: bv64, n: nat)
    requires n == 4
    ensures Shifted(x, n) == x >> 4
  {
    ShiftedTwo(x, n - 2);
    ShiftedTwo(x >> 2, n - 2);
    ShiftSums(x);
    ShiftedTwice(x, x >> 2, x >> 4, n - 2, n - 2);
  }

  lemma ShiftedEight(x: bv64, n: nat)
    requires n == 8
    ensures Shifted(x, n) == x >> 8
  {
    ShiftedFour(x, n - 4);
    ShiftedFour(x >> 4, n - 4);
    ShiftSums(x);
    ShiftedTwice(x, x >> 4, x >> 8, n - 4, n - 4);
  }

  lemma ShiftedSixteen(x: bv64, n: nat)
    requires n == 16
    ensures Shifted(x, n) == x >> 16
  {
    ShiftedEight(x, n - 8);
    ShiftedEight(x >> 8, n - 8);
    ShiftSums(x);
    ShiftedTwice(x, x >> 8, x >> 16, n - 8, n - 8);
  }

  lemma ShiftedThirtyTwo(x: bv64, n: nat)
    requires n == 32
    ensures Shifted(x, n) == x >> 32
  {
    ShiftedSixteen(x, n - 16);
    ShiftedSixteen(x >> 16, n - 16);
    ShiftSums(x);
    ShiftedTwice(x, x >> 16, x >> 32, n - 16, n - 16);
  }

  /** z is the sum of x and y. */
  predicate IsSum(x: bv64, y: bv64, z: bv64) {
    z == x ^ y
  }

  /** The same for the n low bits, one by one. */
  predicate AddBits(x: bv64, y: bv64, z: bv64, n: nat)
    decreases n
  {
    n == 0 || (BitSet(z) == (BitSet(x) != BitSet(y)) && AddBits(x >> 1, y >> 1, z >> 1, n - 1))
  }

  lemma XorStep(x: bv64, y: bv64, z: bv64)
    requires IsSum(x, y, z)
    ensures BitSet(z) == (BitSet(x) != BitSet(y)) && IsSum(x >> 1, y >> 1, z >> 1)
  {
  }

  lemma {:induction false} SumAddsBits(x: bv64, y: bv64, z: bv64, n: nat)
    requires IsSum(x, y, z)
    ensures AddBits(x, y, z, n)
    decreases n
  {
    if n > 0 {
      XorStep(x, y, z);
      SumAddsBits(x >> 1, y >> 1, z >> 1, n - 1);
    }
  }

  lemma {:induction false} OddOfBits(x: bv64, y: bv64, z: bv64, n: nat)
    requires AddBits(x, y, z, n)
    ensures OddBits(z, n) == (OddBits(x, n) != OddBits(y, n))
    decreases n
  {
    if n > 0 {
      OddOfBits(x >> 1, y >> 1, z >> 1, n - 1);
    }
  }

  /** The parity of a sum. */
  lemma OddXor(x: bv64, y: bv64, z: bv64, n: nat)
    requires IsSum(x, y, z)
    ensures OddBits(z, n) == (OddBits(x, n) != OddBits(y, n))
  {
    SumAddsBits(x, y, z, n);
    OddOfBits(x, y, z, n);
  }

  lemma {:induction false} BitsTelescope(x: bv64, y: bv64, n: nat)
    requires AddBits(y, y >> 1, x, n)
    ensures OddBits(x, n) == (BitSet(y) != BitSet(Shifted(y, n)))
    decreases n
  {
    if n > 0 {
      BitsTelescope(x >> 1, y >> 1, n - 1);
    }
  }

  // ---------------------------------------------------------------- which address bits count

  /** e has bit j and no other, or none if j is negative. */
  predicate OnlyBit(e: bv64, j: int)
    decreases if j < 0 then 0 else j
  {
    if j < 0 then e == 0 else if j == 0 then e == 1 else e & 1 == 0 && OnlyBit(e >> 1, j - 1)
  }

  lemma OneIsGone(e: bv64)
    ensures e == 1 || e == 0 ==> e >> 1 == 0
    ensures e == 1 ==> BitSet(e)
    ensures e == 0 || e & 1 == 0 ==> !BitSet(e)
  {
  }

  lemma NextBit(e: bv64, j: int)
    requires OnlyBit(e, j)
    ensures OnlyBit(e >> 1, if j < 0 then j else j - 1) && BitSet(e) == (j == 0)
  {
    OneIsGone(e);
  }

  lemma {:induction false} OddOfOne(e: bv64, j: int, n: nat)
    requires OnlyBit(e, j)
    ensures OddBits(e, n) == (0 <= j < n)
    decreases n
  {
    if n > 0 {
      NextBit(e, j);
      OddOfOne(e >> 1, if j < 0 then j else j - 1, n - 1);
    }
  }

  lemma {:induction false} FlipShifted(x: bv64, y: bv64, e: bv64, j: int, s: nat, n: nat)
    requires AddBits(x, e, y, s + n) && OnlyBit(e, j)
    ensures OddBits(Shifted(y, s), n) == (OddBits(Shifted(x, s), n) != (j >= 0 && s <= j < s + n))
    decreases s
  {
    if s == 0 {
      OddOfBits(x, e, y, n);
      OddOfOne(e, j, n);
    } else {
      NextBit(e, j);
      FlipShifted(x >> 1, y >> 1, e >> 1, if j < 0 then j else j - 1, s - 1, n);
    }
  }

  /** Flipping bit j of an address flips its parity if the bit counts: for a direct store the 32 bits from bit 8 on,
      with two channels the 33 from bit 7 on, and for a row key the 32 from bit 2 on. */
  lemma BitsThatCount(addr: bv64, y: bv64, e: bv64, j: nat, start: nat, ch2: nat)
    requires OnlyBit(e, j) && IsSum(addr, e, y) && start + ch2 <= 8 && ch2 <= 1
    ensures AddressParity(y, start, ch2) == (AddressParity(addr, start, ch2) != (8 - start - ch2 <= j < 40 - start))
  {
    SumAddsBits(addr, e, y, 40 - start);
    FlipShifted(addr, y, e, j, 8 - (start + ch2), 32 + ch2);
  }

  /** In the sum of a word and itself moved by one bit all bits cancel but the first and the last. */
  lemma TelescopesTo(x: bv64, y: bv64, n: nat)
    requires IsSum(y, y >> 1, x) && n == 32
    ensures OddBits(x, n) == (BitSet(y) != BitSet(y >> 32))
  {
    SumAddsBits(y, y >> 1, x, n);
    BitsTelescope(x, y, n);
    ShiftedThirtyTwo(y, n);
  }

  lemma SameParity(x: bv64, z: bv64, y: bv64, e: bv64, n: nat)
    requires IsSum(x, z, e) && IsSum(y, y >> 1, e) && y & 1 == 0 && y >> 32 == 0 && n == 32
    ensures OddBits(x, n) == OddBits(z, n)
  {
    OddXor(x, z, e, n);
    TelescopesTo(e, y, n);
    NoBits(y);
  }

  lemma NoBits(y: bv64)
    requires y & 1 == 0 && y >> 32 == 0
    ensures !BitSet(y) && !BitSet(y >> 32)
  {
  }

  /** The parity of three bits. */
  lemma SmallParity(w: bv64, n: nat)
    requires w & 7 == w && n == 32
    ensures OddBits(w, n) == (BitSet(w) != (BitSet(w >> 1) != BitSet(w >> 2)))
  {
    var y := w ^ (w >> 1) ^ (w >> 2);
    SmallSums(w);
    TelescopesTo(w, y, n);
  }

  lemma SmallSums(w: bv64)
    requires w & 7 == w
    ensures var y := w ^ (w >> 1) ^ (w >> 2);
      w == y ^ (y >> 1) && BitSet(y) == (BitSet(w) != (BitSet(w >> 1) != BitSet(w >> 2))) && !BitSet(y >> 32)
  {
  }

  // ---------------------------------------------------------------- what the integer loses

  /** How the integer and the number differ: in what the two bits above the integer are, and in the
      copies of the sign above those. */
  function Lost(sign: bool, p: bool, q: bool): bv64 {
    (if sign != p then 0x4000_0000 else 0) ^ (if sign != q then 0x8000_0000 else 0)
      ^ (if sign then 0x3fff_ffff_0000_0000 else 0)
  }

  lemma PlusLoses(w: bv64, x: bv64, sign: bool, p: bool, q: bool)
    requires w >> 34 == 0 && x == AsInt(w) && sign == BitSet(w >> 31) && p == BitSet(w >> 32) && q == BitSet(w >> 33) && !sign
    ensures IsSum(x >> 2, w >> 2, Lost(sign, p, q))
  {
  }

  lemma MinusLoses(w: bv64, x: bv64, sign: bool, p: bool, q: bool)
    requires w >> 34 == 0 && x == AsInt(w) && sign == BitSet(w >> 31) && p == BitSet(w >> 32) && q == BitSet(w >> 33) && sign
    ensures IsSum(x >> 2, w >> 2, Lost(sign, p, q))
  {
  }

  lemma LostParity(sign: bool, p: bool, q: bool, n: nat)
    requires n == 32
    ensures OddBits(Lost(sign, p, q), n) == (p != q)
  {
    var y: bv64 := (if sign != p then 0x8000_0000 else 0) ^ (if p != q then 0xffff_ffff else 0)
      ^ (if sign then 0x2aaa_aaaa_0000_0000 else 0);
    LostSums(sign, p, q, y);
    TelescopesTo(Lost(sign, p, q), y, n);
  }

  lemma LostSums(sign: bool, p: bool, q: bool, y: bv64)
    requires y == (if sign != p then 0x8000_0000 else 0) ^ (if p != q then 0xffff_ffff else 0)
      ^ (if sign then 0x2aaa_aaaa_0000_0000 else 0)
    ensures Lost(sign, p, q) == y ^ (y >> 1) && BitSet(y) == (p != q) && !BitSet(y >> 32)
  {
  }

  /** Two copies of the sign take the place of bits 32 and 33. */
  lemma IntParity(w: bv64, x: bv64, n: nat)
    requires w >> 34 == 0 && x == AsInt(w) && n == 32
    ensures OddBits(x >> 2, n) == (OddBits(w >> 2, n) != (BitSet(w >> 32) != BitSet(w >> 33)))
  {
    var sign, p, q := BitSet(w >> 31), BitSet(w >> 32), BitSet(w >> 33);
    if sign {
      MinusLoses(w, x, sign, p, q);
    } else {
      PlusLoses(w, x, sign, p, q);
    }
    OddXor(x >> 2, w >> 2, Lost(sign, p, q), n);
    LostParity(sign, p, q, n);
  }

  // ---------------------------------------------------------------- the bits of the row key

  /** A word whose sum with itself moved by one bit is the row key, as far as it counts, added to the
      address bits it was made from. */
  function Moves(a: bv64, ranks: Ranks, three: bool): bv64 {
    match ranks
    case Single => 0
    case Stacked =>
      if three then (a & 0xffff_fff0) ^ (if BitSet(a >> 3) then 0xfff_fff0 else 0)
      else (a & 0xffff_fff8) ^ (if BitSet(a >> 2) then 0xfff_fff8 else 0)
    case Ranked =>
      if three then (a & 0xffff_fff0) ^ (if BitSet(a >> 3) then 0x1fff_fff0 else 0)
      else (a & 0xffff_fff8) ^ (if BitSet(a >> 2) then 0x1fff_fff8 else 0)
    case StackedRanked =>
      if three then
        (a & 0xffff_ffe0) ^ ((a & 0xffff_ffe0) >> 1) ^ (if BitSet(a >> 3) then 0xfff_fff0 else 0)
          ^ (if BitSet(a >> 4) then 0x1fff_ffe0 else 0)
      else
        (a & 0xffff_fff0) ^ ((a & 0xffff_fff0) >> 1) ^ (if BitSet(a >> 2) then 0xfff_fff8 else 0)
          ^ (if BitSet(a >> 3) then 0x1fff_fff0 else 0)
  }

  /** The sum of two words is that of a word and itself moved by one bit. */
  ghost predicate MovedBy(r: bv64, a: bv64, y: bv64) {
    IsSum(r, a, y ^ (y >> 1)) && y & 1 == 0 && y >> 32 == 0
  }

  lemma MovedParity(r: bv64, a: bv64, y: bv64, n: nat)
    requires MovedBy(r, a, y) && n == 32
    ensures OddBits(r, n) == OddBits(a, n)
  {
    SameParity(r, a, y, y ^ (y >> 1), n);
  }

  lemma SingleMoves(h: bv64, ranks: Ranks, three: bool)
    requires ranks == Single && InRange(h, ranks)
    ensures Row(h, ranks, three) >> 2 == h >> 8
  {
  }

  lemma StackedThree(h: bv64, ranks: Ranks, three: bool, y: bv64)
    requires ranks == Stacked && three && InRange(h, ranks) && y == Moves(h >> 8, ranks, three)
    ensures MovedBy(Row(h, ranks, three) >> 2, h >> 8, y)
  {
  }

  lemma StackedTwo(h: bv64, ranks: Ranks, three: bool, y: bv64)
    requires ranks == Stacked && !three && InRange(h, ranks) && y == Moves(h >> 8, ranks, three)
    ensures MovedBy(Row(h, ranks, three) >> 2, h >> 8, y)
  {
  }

  lemma RankedThree(h: bv64, ranks: Ranks, three: bool, y: bv64)
    requires ranks == Ranked && three && InRange(h, ranks) && y == Moves(h >> 8, ranks, three)
    ensures MovedBy(Row(h, ranks, three) >> 2, h >> 8, y)
  {
  }

  lemma RankedTwo(h: bv64, ranks: Ranks, three: bool, y: bv64)
    requires ranks == Ranked && !three && InRange(h, ranks) && y == Moves(h >> 8, ranks, three)
    ensures MovedBy(Row(h, ranks, three) >> 2, h >> 8, y)
  {
  }

  lemma StackedRankedThree(h: bv64, ranks: Ranks, three: bool, y: bv64)
    requires ranks == StackedRanked && three && InRange(h, ranks) && y == Moves(h >> 8, ranks, three)
    ensures MovedBy(Row(h, ranks, three) >> 2, h >> 8, y)
  {
  }

  lemma StackedRankedTwo(h: bv64, ranks: Ranks, three: bool, y: bv64)
    requires ranks == StackedRanked && !three && InRange(h, ranks) && y == Moves(h >> 8, ranks, three)
    ensures MovedBy(Row(h, ranks, three) >> 2, h >> 8, y)
  {
  }

  lemma RowMoves(h: bv64, ranks: Ranks, three: bool, y: bv64)
    requires ranks != Single && InRange(h, ranks) && y == Moves(h >> 8, ranks, three)
    ensures MovedBy(Row(h, ranks, three) >> 2, h >> 8, y)
  {
    match ranks
    case Stacked => if three { StackedThree(h, ranks, three, y); } else { StackedTwo(h, ranks, three, y); }
    case Ranked => if three { RankedThree(h, ranks, three, y); } else { RankedTwo(h, ranks, three, y); }
    case StackedRanked => if three { StackedRankedThree(h, ranks, three, y); } else { StackedRankedTwo(h, ranks, three, y); }
  }

  lemma RowParityBy(h: bv64, ranks: Ranks, three: bool, r: bv64, y: bv64, n: nat)
    requires InRange(h, ranks) && r == Row(h, ranks, three) >> 2 && y == Moves(h >> 8, ranks, three) && n == 32
    ensures OddBits(r, n) == OddBits(h >> 8, n)
  {
    if ranks == Single {
      SingleMoves(h, ranks, three);
    } else {
      RowMoves(h, ranks, three, y);
      MovedParity(r, h >> 8, y, n);
    }
  }

  /** `row` is the row key of h. The definition is asked for with `Probe`, which keeps it away from the bits of
      the parity. */
  ghost predicate IsRow(h: bv64, ranks: Ranks, three: bool, row: bv64) {
    forall x {:trigger Probe(x)} :: x == h ==> row == Row(x, ranks, three)
  }

  predicate Probe(x: bv64) {
    true
  }

  lemma KeyParity(h: bv64, ranks: Ranks, three: bool, row: bv64, n: nat)
    requires InRange(h, ranks) && IsRow(h, ranks, three, row) && n == 32
    ensures OddBits(row >> 2, n) == OddBits(h >> 8, n)
  {
    assert Probe(h);
    RowParityBy(h, ranks, three, row >> 2, Moves(h >> 8, ranks, three), n);
  }

  lemma RowIs(h: bv64, ranks: Ranks, three: bool, row: bv64)
    requires row == Row(h, ranks, three)
    ensures IsRow(h, ranks, three, row)
  {
  }

  /** The row key has the parity of the address bits it was made from. */
  lemma RowParity(h: bv64, ranks: Ranks, three: bool, row: bv64, n: nat)
    requires InRange(h, ranks) && row == Row(h, ranks, three) && n == 32
    ensures OddBits(row >> 2, n) == OddBits(h >> 8, n)
  {
    RowIs(h, ranks, three, row);
    KeyParity(h, ranks, three, row, n);
  }

  // ---------------------------------------------------------------- the two hashes

  /** Two groups of bits, ten apart, added up. */
  function GroupsOf(x: bv64, eight: bool): bv64 {
    if eight then (x & 7) ^ ((x >> 10) & 7) else (x & 3) ^ ((x >> 10) & 3)
  }

  /** What the hash adds to the bank bits of an address. */
  function Groups(addr: bv64, eight: bool): bv64 {
    GroupsOf(addr >> 18, eight)
  }

  /** What undoing it adds to those of a row key. */
  function KeyGroups(row: bv64, eight: bool): bv64 {
    GroupsOf(row >> 12, eight)
  }

  lemma EightHash(addr: bv64, eight: bool, h: bv64)
    requires addr >> 40 == 0 && eight && h == Hashed(addr, eight)
    ensures IsSum(addr >> 8, Groups(addr, eight), h >> 8)
  {
  }

  lemma FourHash(addr: bv64, eight: bool, h: bv64)
    requires addr >> 40 == 0 && !eight && h == Hashed(addr, eight)
    ensures IsSum(addr >> 8, Groups(addr, eight), h >> 8)
  {
  }

  lemma EightUnhash(row: bv64, eight: bool, wide: bv64)
    requires row >> 34 == 0 && eight && wide == UnhashedWide(row, eight)
    ensures IsSum(row >> 2, KeyGroups(row, eight), wide >> 2)
  {
  }

  lemma FourUnhash(row: bv64, eight: bool, wide: bv64)
    requires row >> 34 == 0 && !eight && wide == UnhashedWide(row, eight)
    ensures IsSum(row >> 2, KeyGroups(row, eight), wide >> 2)
  {
  }

  lemma UnhashRange(row: bv64, eight: bool, wide: bv64)
    requires row >> 34 == 0 && wide == UnhashedWide(row, eight)
    ensures wide >> 34 == 0
    ensures BitSet(wide >> 32) == BitSet(row >> 32) && BitSet(wide >> 33) == BitSet(row >> 33)
  {
  }

  lemma SingleRange(h: bv64, ranks: Ranks, three: bool, row: bv64)
    requires InRange(h, ranks) && ranks == Single && row == Row(h, ranks, three)
    ensures row >> 34 == 0 && BitSet(row >> 32) == BitSet(h >> 38) && BitSet(row >> 33) == BitSet(h >> 39)
  {
  }

  lemma StackedRange(h: bv64, ranks: Ranks, three: bool, row: bv64)
    requires InRange(h, ranks) && ranks == Stacked && row == Row(h, ranks, three)
    ensures row >> 32 == 0
  {
  }

  lemma RankedRange(h: bv64, ranks: Ranks, three: bool, row: bv64)
    requires InRange(h, ranks) && ranks == Ranked && row == Row(h, ranks, three)
    ensures row >> 32 == 0
  {
  }

  lemma StackedRankedRange(h: bv64, ranks: Ranks, three: bool, row: bv64)
    requires InRange(h, ranks) && ranks == StackedRanked && row == Row(h, ranks, three)
    ensures row >> 32 == 0
  {
  }

  lemma NothingAbove(x: bv64)
    requires x >> 32 == 0
    ensures x >> 34 == 0 && !BitSet(x >> 32) && !BitSet(x >> 33)
  {
  }

  /** Whether the two bits that the integer loses differ. */
  function Loss(h: bv64, ranks: Ranks): bool {
    ranks == Single && BitSet(h >> 38) != BitSet(h >> 39)
  }

  lemma RowRange(h: bv64, ranks: Ranks, three: bool, row: bv64)
    requires InRange(h, ranks) && row == Row(h, ranks, three)
    ensures row >> 34 == 0 && (BitSet(row >> 32) != BitSet(row >> 33)) == Loss(h, ranks)
  {
    match ranks
    case Single =>
      SingleRange(h, ranks, three, row);
    case Stacked =>
      StackedRange(h, ranks, three, row);
      NothingAbove(row);
    case Ranked =>
      RankedRange(h, ranks, three, row);
      NothingAbove(row);
    case StackedRanked =>
      StackedRankedRange(h, ranks, three, row);
      NothingAbove(row);
  }

  lemma HashRange(addr: bv64, eight: bool, ranks: Ranks)
    requires InRange(addr, ranks)
    ensures InRange(Hashed(addr, eight), ranks)
  {
  }

  /** The groups of address bits that undoing the hash finds in a row key: those of the hash, unless rank or
      stack bits were taken out below them. */
  function FoundGroups(addr: bv64, ranks: Ranks, eight: bool): bv64 {
    FoundOf(addr >> 18, ranks, eight)
  }

  function FoundOf(x: bv64, ranks: Ranks, eight: bool): bv64 {
    match ranks
    case Single => GroupsOf(x, eight)
    case StackedRanked => GroupsOf(x >> 2, eight)
    case _ => GroupsOf(x >> 1, eight)
  }

  lemma SingleGroups(h: bv64, ranks: Ranks, three: bool, eight: bool, row: bv64)
    requires InRange(h, ranks) && ranks == Single && row == Row(h, ranks, three)
    ensures KeyGroups(row, eight) == FoundGroups(h, ranks, eight)
  {
  }

  lemma StackedGroups(h: bv64, ranks: Ranks, three: bool, eight: bool, row: bv64)
    requires InRange(h, ranks) && ranks == Stacked && row == Row(h, ranks, three)
    ensures KeyGroups(row, eight) == FoundGroups(h, ranks, eight)
  {
  }

  lemma RankedGroups(h: bv64, ranks: Ranks, three: bool, eight: bool, row: bv64)
    requires InRange(h, ranks) && ranks == Ranked && row == Row(h, ranks, three)
    ensures KeyGroups(row, eight) == FoundGroups(h, ranks, eight)
  {
  }

  lemma StackedRankedGroups(h: bv64, ranks: Ranks, three: bool, eight: bool, row: bv64)
    requires InRange(h, ranks) && ranks == StackedRanked && row == Row(h, ranks, three)
    ensures KeyGroups(row, eight) == FoundGroups(h, ranks, eight)
  {
  }

  lemma RowGroups(h: bv64, ranks: Ranks, three: bool, eight: bool, row: bv64)
    requires InRange(h, ranks) && row == Row(h, ranks, three)
    ensures KeyGroups(row, eight) == FoundGroups(h, ranks, eight)
  {
    match ranks
    case Single => SingleGroups(h, ranks, three, eight, row);
    case StackedRanked => StackedRankedGroups(h, ranks, three, eight, row);
    case Stacked => StackedGroups(h, ranks, three, eight, row);
    case Ranked => RankedGroups(h, ranks, three, eight, row);
  }

  lemma HashKeepsAbove(addr: bv64, eight: bool)
    requires addr >> 40 == 0
    ensures Hashed(addr, eight) >> 18 == addr >> 18
  {
  }

  lemma SameAbove(h: bv64, addr: bv64)
    requires h >> 18 == addr >> 18
    ensures h >> 38 == addr >> 38 && h >> 39 == addr >> 39
  {
  }

  lemma ShortAddress(addr: bv64, ranks: Ranks)
    requires InRange(addr, ranks)
    ensures addr >> 40 == 0
  {
  }

  // ---------------------------------------------------------------- all together

  lemma HashParity(addr: bv64, eight: bool, h: bv64, n: nat)
    requires addr >> 40 == 0 && h == Hashed(addr, eight)
    ensures OddBits(h >> 8, n) == (OddBits(addr >> 8, n) != OddBits(Groups(addr, eight), n))
  {
    if eight {
      EightHash(addr, eight, h);
    } else {
      FourHash(addr, eight, h);
    }
    OddXor(addr >> 8, Groups(addr, eight), h >> 8, n);
  }

  lemma UnhashParity(row: bv64, eight: bool, wide: bv64, n: nat)
    requires row >> 34 == 0 && wide == UnhashedWide(row, eight)
    ensures OddBits(wide >> 2, n) == (OddBits(row >> 2, n) != OddBits(KeyGroups(row, eight), n))
  {
    if eight {
      EightUnhash(row, eight, wide);
    } else {
      FourUnhash(row, eight, wide);
    }
    OddXor(row >> 2, KeyGroups(row, eight), wide >> 2, n);
  }

  lemma IntegerParity(row: bv64, eight: bool, wide: bv64, x: bv64, n: nat)
    requires row >> 34 == 0 && wide == UnhashedWide(row, eight) && x == AsInt(wide) && n == 32
    ensures OddBits(x >> 2, n)
      == ((OddBits(row >> 2, n) != OddBits(KeyGroups(row, eight), n)) != (BitSet(row >> 32) != BitSet(row >> 33)))
  {
    UnhashRange(row, eight, wide);
    IntParity(wide, x, n);
    UnhashParity(row, eight, wide, n);
  }

  lemma RowIsKey(h: bv64, ranks: Ranks, three: bool, eight: bool, row: bv64, n: nat)
    requires InRange(h, ranks) && row == Row(h, ranks, three) && n == 32
    ensures row >> 34 == 0 && (BitSet(row >> 32) != BitSet(row >> 33)) == Loss(h, ranks)
    ensures OddBits(row >> 2, n) == OddBits(h >> 8, n) && KeyGroups(row, eight) == FoundGroups(h, ranks, eight)
  {
    RowRange(h, ranks, three, row);
    RowParity(h, ranks, three, row, n);
    RowGroups(h, ranks, three, eight, row);
  }

  lemma HashRangeAs(addr: bv64, eight: bool, ranks: Ranks, h: bv64)
    requires InRange(addr, ranks) && h == Hashed(addr, eight)
    ensures InRange(h, ranks)
  {
    HashRange(addr, eight, ranks);
  }

  lemma HashAbove(addr: bv64, eight: bool, h: bv64)
    requires addr >> 40 == 0 && h == Hashed(addr, eight)
    ensures h >> 18 == addr >> 18
  {
    HashKeepsAbove(addr, eight);
  }

  lemma AboveGroups(addr: bv64, h: bv64, ranks: Ranks, eight: bool)
    requires h >> 18 == addr >> 18
    ensures FoundGroups(h, ranks, eight) == FoundGroups(addr, ranks, eight)
  {
    FoundSame(h >> 18, addr >> 18, ranks, eight);
  }

  lemma FoundSame(x: bv64, y: bv64, ranks: Ranks, eight: bool)
    requires x == y
    ensures FoundOf(x, ranks, eight) == FoundOf(y, ranks, eight)
  {
  }

  lemma AboveLoss(addr: bv64, h: bv64, ranks: Ranks)
    requires h >> 18 == addr >> 18
    ensures Loss(h, ranks) == Loss(addr, ranks)
  {
    SameAbove(h, addr);
  }

  lemma HashFacts(addr: bv64, eight: bool, ranks: Ranks, h: bv64, n: nat)
    requires InRange(addr, ranks) && h == Hashed(addr, eight)
    ensures InRange(h, ranks) && OddBits(h >> 8, n) == (OddBits(addr >> 8, n) != OddBits(Groups(addr, eight), n))
    ensures FoundGroups(h, ranks, eight) == FoundGroups(addr, ranks, eight) && Loss(h, ranks) == Loss(addr, ranks)
  {
    ShortAddress(addr, ranks);
    HashRangeAs(addr, eight, ranks, h);
    HashParity(addr, eight, h, n);
    HashAbove(addr, eight, h);
    AboveGroups(addr, h, ranks, eight);
    AboveLoss(addr, h, ranks);
  }

  /** From the row key of a hashed address to the integer. */
  lemma KeyToInteger(h: bv64, ranks: Ranks, three: bool, eight: bool, row: bv64, wide: bv64, x: bv64, n: nat)
    requires InRange(h, ranks) && row == Row(h, ranks, three) && wide == UnhashedWide(row, eight) && x == AsInt(wide) && n == 32
    ensures OddBits(x >> 2, n) == ((OddBits(h >> 8, n) != OddBits(FoundGroups(h, ranks, eight), n)) != Loss(h, ranks))
  {
    RowIsKey(h, ranks, three, eight, row, n);
    IntegerParity(row, eight, wide, x, n);
  }

  /** Whether `store_op` gets the parity of an address wrong. For an unstacked memory of one rank it does if the
      two bits that the integer loses differ; with rank or stack bits it undoes the hash with the wrong groups
      of bits, which matters if those of the hash and those it finds have different parities. */
  function Wrong(addr: bv64, ranks: Ranks, eight: bool): bool {
    if ranks == Single then BitSet(addr >> 38) != BitSet(addr >> 39)
    else OddThree(Groups(addr, eight)) != OddThree(FoundGroups(addr, ranks, eight))
  }

  /** The parity of three bits. */
  function OddThree(w: bv64): bool {
    BitSet(w) != (BitSet(w >> 1) != BitSet(w >> 2))
  }

  lemma GroupsParity(x: bv64, eight: bool, w: bv64, n: nat)
    requires w == GroupsOf(x, eight) && n == 32
    ensures OddBits(w, n) == OddThree(w)
  {
    GroupsSmall(x, eight);
    SmallParity(w, n);
  }

  lemma GroupsSmall(x: bv64, eight: bool)
    ensures GroupsOf(x, eight) & 7 == GroupsOf(x, eight)
  {
  }

  lemma FoundParity(addr: bv64, ranks: Ranks, eight: bool, w: bv64, n: nat)
    requires w == FoundGroups(addr, ranks, eight) && n == 32
    ensures OddBits(w, n) == OddThree(w)
  {
    match ranks
    case Single => GroupsParity(addr >> 18, eight, w, n);
    case StackedRanked => GroupsParity((addr >> 18) >> 2, eight, w, n);
    case _ => GroupsParity((addr >> 18) >> 1, eight, w, n);
  }

  /** x is the integer made of the row key of h. */
  ghost predicate IsRestored(h: bv64, c: Config, x: bv64) {
    forall z {:trigger Probe(z)} :: z == h ==> x == Unhashed(Row(z, c.ranks, c.three), c.eight)
  }

  lemma KeyParities(h: bv64, c: Config, x: bv64, f: bool, loss: bool, n: nat)
    requires InRange(h, c.ranks) && IsRestored(h, c, x)
    requires f == OddBits(FoundGroups(h, c.ranks, c.eight), n) && loss == Loss(h, c.ranks) && n == 32
    ensures OddBits(x >> 2, n) == ((OddBits(h >> 8, n) != f) != loss)
  {
    assert Probe(h);
    var row := Row(h, c.ranks, c.three);
    KeyToInteger(h, c.ranks, c.three, c.eight, row, UnhashedWide(row, c.eight), x, n);
  }

  lemma FromHashed(addr: bv64, c: Config, h: bv64, x: bv64, n: nat)
    requires InRange(h, c.ranks) && OddBits(h >> 8, n) == (OddBits(addr >> 8, n) != OddBits(Groups(addr, c.eight), n))
    requires FoundGroups(h, c.ranks, c.eight) == FoundGroups(addr, c.ranks, c.eight) && Loss(h, c.ranks) == Loss(addr, c.ranks)
    requires IsRestored(h, c, x) && n == 32
    ensures OddBits(x >> 2, n) == OddBits(addr >> 8, n)
      <==> (OddBits(Groups(addr, c.eight), n) != OddBits(FoundGroups(addr, c.ranks, c.eight), n)) == Loss(addr, c.ranks)
  {
    KeyParities(h, c, x, OddBits(FoundGroups(addr, c.ranks, c.eight), n), Loss(addr, c.ranks), n);
    Compose(OddBits(x >> 2, n), OddBits(h >> 8, n), OddBits(addr >> 8, n), OddBits(Groups(addr, c.eight), n),
            OddBits(FoundGroups(addr, c.ranks, c.eight), n), Loss(addr, c.ranks));
  }

  lemma StepsParity(addr: bv64, c: Config, h: bv64, x: bv64, n: nat)
    requires InRange(addr, c.ranks) && h == Hashed(addr, c.eight) && IsRestored(h, c, x) && n == 32
    ensures OddBits(x >> 2, n) == OddBits(addr >> 8, n)
      <==> (OddBits(Groups(addr, c.eight), n) != OddBits(FoundGroups(addr, c.ranks, c.eight), n)) == Loss(addr, c.ranks)
  {
    HashFacts(addr, c.eight, c.ranks, h, n);
    FromHashed(addr, c, h, x, n);
  }

  lemma Compose(x: bool, h: bool, a: bool, g: bool, f: bool, loss: bool)
    requires x == ((h != f) != loss) && h == (a != g)
    ensures x == a <==> (g != f) == loss
  {
  }

  lemma WrongIs(addr: bv64, ranks: Ranks, eight: bool, n: nat)
    requires n == 32
    ensures Wrong(addr, ranks, eight)
      <==> (OddBits(Groups(addr, eight), n) != OddBits(FoundGroups(addr, ranks, eight), n)) != Loss(addr, ranks)
  {
    GroupsParity(addr >> 18, eight, Groups(addr, eight), n);
    FoundParity(addr, ranks, eight, FoundGroups(addr, ranks, eight), n);
  }

  lemma AddressParities(x: bv64, addr: bv64, n: nat, ch2: nat)
    requires n == 32 && ch2 == 0
    ensures AddressParity(x, 6, ch2) == OddBits(x >> 2, n) && AddressParity(addr, 0, ch2) == OddBits(addr >> 8, n)
  {
    ShiftedTwo(x, 8 - (6 + ch2));
    ShiftedEight(addr, 8 - (0 + ch2));
  }

  lemma ParityAgrees(addr: bv64, c: Config, x: bv64, n: nat, ch2: nat)
    requires InRange(addr, c.ranks) && IsRestored(Hashed(addr, c.eight), c, x) && n == 32 && ch2 == 0
    ensures AddressParity(x, 6, ch2) == AddressParity(addr, 0, ch2) <==> !Wrong(addr, c.ranks, c.eight)
  {
    StepsParity(addr, c, Hashed(addr, c.eight), x, n);
    WrongIs(addr, c.ranks, c.eight, n);
    AddressParities(x, addr, n, ch2);
  }

  lemma Restored(h: bv64, c: Config, x: bv64)
    requires x == Unhashed(Row(h, c.ranks, c.three), c.eight)
    ensures IsRestored(h, c, x)
  {
  }

  /** With four channels and the old position of the rank and stack bits, the parity that `store_op` computes
      from the row key of an address is that of a direct store exactly if it is not `Wrong`. */
  lemma StoreParityAgrees(addr: bv64, c: Config, x: bv64, ch2: nat)
    requires InRange(addr, c.ranks) && x == Unhashed(Row(Hashed(addr, c.eight), c.ranks, c.three), c.eight) && ch2 == 0
    ensures AddressParity(x, 6, ch2) == AddressParity(addr, 0, ch2) <==> !Wrong(addr, c.ranks, c.eight)
  {
    Restored(Hashed(addr, c.eight), c, x);
    ParityAgrees(addr, c, x, 32, ch2);
  }

  /** The bits that decide, in every mode. */
  lemma WrongBits(addr: bv64, ranks: Ranks, eight: bool)
    ensures ranks == Single ==> (Wrong(addr, ranks, eight) <==> ((addr >> 38) ^ (addr >> 39)) & 1 == 1)
    ensures (ranks == Stacked || ranks == Ranked) && eight ==>
      (Wrong(addr, ranks, eight) <==> ((addr >> 18) ^ (addr >> 21) ^ (addr >> 28) ^ (addr >> 31)) & 1 == 1)
    ensures (ranks == Stacked || ranks == Ranked) && !eight ==>
      (Wrong(addr, ranks, eight) <==> ((addr >> 18) ^ (addr >> 20) ^ (addr >> 28) ^ (addr >> 30)) & 1 == 1)
    ensures ranks == StackedRanked && eight ==>
      (Wrong(addr, ranks, eight) <==> ((addr >> 18) ^ (addr >> 19) ^ (addr >> 21) ^ (addr >> 22) ^ (addr >> 28) ^ (addr >> 29) ^ (addr >> 31) ^ (addr >> 32)) & 1 == 1)
    ensures ranks == StackedRanked && !eight ==>
      (Wrong(addr, ranks, eight) <==> ((addr >> 18) ^ (addr >> 19) ^ (addr >> 20) ^ (addr >> 21) ^ (addr >> 28) ^ (addr >> 29) ^ (addr >> 30) ^ (addr >> 31)) & 1 == 1)
  {
  }

  /** For every memory an address in range whose parity `store_op` gets wrong. */
  function Unlucky(ranks: Ranks): bv64 {
    if ranks == Single then 0x40_0000_0000 else 0x4_0000
  }

  lemma UnluckyIsWrong(c: Config)
    ensures InRange(Unlucky(c.ranks), c.ranks) && Wrong(Unlucky(c.ranks), c.ranks, c.eight)
  {
  }

  lemma XorMask(x: bv4)
    ensures x ^ Mask(true) != x ^ Mask(false)
  {
  }

  /** Folding in different parities gives different check nibbles. */
  lemma FoldedApart(data: seq<bv4>, p: bool, q: bool)
    requires |data| == 4
    ensures Folded(data, Mask(p)) == Folded(data, Mask(q)) <==> p == q
  {
    if p != q {
      XorMask(data[0]);
      FoldedElements(data, Mask(p));
      FoldedElements(data, Mask(q));
    }
  }

  /** The check nibbles that `store_op` makes up for sixteen bytes of a row. */
  method StoreChecks(d_buf: seq<bv8>, row: bv64, eight: bool, ch2: nat) returns (ecc: seq<bv4>)
    requires |d_buf| == 16 && ch2 == 0
    ensures ecc == Folded(Stored(Sum(Nibbles(d_buf), NibbleColumns.DATA)), Mask(AddressParity(Unhashed(row, eight), 6, ch2)))
  {
    var dexor_addr := Unhashed(row, eight);
    ecc := Fold(d_buf, dexor_addr, ch2);
  }

  method Fold(d_buf: seq<bv8>, dexor: bv64, ch2: nat) returns (ecc: seq<bv4>)
    requires |d_buf| == 16 && ch2 == 0
    ensures ecc == Folded(Stored(Sum(Nibbles(d_buf), NibbleColumns.DATA)), Mask(AddressParity(dexor, 6, ch2)))
  {
    var pre_xor_ecc := Hamming(d_buf);
    ecc := AddrParity(pre_xor_ecc, dexor, 6, ch2);
  }

  /** Storing sixteen bytes through the row key of an address gives the check nibbles of a direct store
      to that address exactly if its parity is not `Wrong`. */
  method StoreBothWays(d_buf: seq<bv8>, addr: bv64, c: Config, ch2: nat) returns (made: seq<bv4>, direct: seq<bv4>)
    requires |d_buf| == 16 && ch2 == 0 && InRange(addr, c.ranks)
    ensures made == direct <==> !Wrong(addr, c.ranks, c.eight)
  {
    var row := Row(Hashed(addr, c.eight), c.ranks, c.three);
    made := StoreChecks(d_buf, row, c.eight, ch2);
    direct := Direct(d_buf, addr, ch2);
    StoreParityAgrees(addr, c, Unhashed(row, c.eight), ch2);
    FoldedApart(Stored(Sum(Nibbles(d_buf), NibbleColumns.DATA)), AddressParity(Unhashed(row, c.eight), 6, ch2), AddressParity(addr, 0, ch2));
  }

  method Direct(d_buf: seq<bv8>, addr: bv64, ch2: nat) returns (ecc: seq<bv4>)
    requires |d_buf| == 16 && ch2 == 0
    ensures ecc == Folded(Stored(Sum(Nibbles(d_buf), NibbleColumns.DATA)), Mask(AddressParity(addr, 0, ch2)))
  {
    var pre_xor_ecc := Hamming(d_buf);
    ecc := AddrParity(pre_xor_ecc, addr, 0, ch2);
  }
}
