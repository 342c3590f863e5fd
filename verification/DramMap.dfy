/** Where mem.c places an address in the DRAM model (`cal_4channel`): a row key and a cell offset. */
module DramMap {
  const ADDRESS: bv64 := 0xff_ffff_ffff

  /** Three groups of address bits added up. */
  function BankOf(addr: bv64, bits: bv64): bv64 {
    Mixed(((addr & ADDRESS) >> 8) & bits, ((addr & ADDRESS) >> 18) & bits, ((addr & ADDRESS) >> 28) & bits)
  }

  function Mixed(x: bv64, y: bv64, z: bv64): bv64 {
    x ^ y ^ z
  }

  /** The bank bits exchanged for their exclusive or with two higher groups of address bits. */
  function Hashed(addr: bv64, eight: bool): bv64 {
    if eight then WithBank(addr, 0xff_ffff_f8ff, BankOf(addr, 7)) else WithBank(addr, 0xff_ffff_fcff, BankOf(addr, 3))
  }

  function WithBank(addr: bv64, rest: bv64, bank: bv64): bv64 {
    (addr & rest) | (bank << 8)
  }

  lemma MixedBack(x: bv64, y: bv64, z: bv64)
    ensures Mixed(Mixed(x, y, z), y, z) == x
  {
  }

  lemma MixedInField(x: bv64, y: bv64, z: bv64, bits: bv64)
    ensures Mixed(x & bits, y & bits, z & bits) & bits == Mixed(x & bits, y & bits, z & bits)
  {
  }

  lemma EightBank(addr: bv64, b: bv64)
    requires b & 7 == b
    ensures ((WithBank(addr, 0xff_ffff_f8ff, b) & ADDRESS) >> 8) & 7 == b
  {
  }

  lemma EightAbove(addr: bv64, b: bv64)
    requires b & 7 == b
    ensures ((WithBank(addr, 0xff_ffff_f8ff, b) & ADDRESS) >> 18) & 7 == ((addr & ADDRESS) >> 18) & 7
    ensures ((WithBank(addr, 0xff_ffff_f8ff, b) & ADDRESS) >> 28) & 7 == ((addr & ADDRESS) >> 28) & 7
  {
  }

  lemma EightPutBack(addr: bv64, b: bv64)
    requires addr >> 40 == 0 && b & 7 == b
    ensures WithBank(WithBank(addr, 0xff_ffff_f8ff, b), 0xff_ffff_f8ff, ((addr & ADDRESS) >> 8) & 7) == addr
  {
  }

  lemma EightBankTwice(addr: bv64, b: bv64, h: bv64)
    requires b == BankOf(addr, 7) && h == WithBank(addr, 0xff_ffff_f8ff, b)
    ensures b & 7 == b && BankOf(h, 7) == ((addr & ADDRESS) >> 8) & 7
  {
    MixedInField((addr & ADDRESS) >> 8, (addr & ADDRESS) >> 18, (addr & ADDRESS) >> 28, 7);
    EightBank(addr, b);
    EightAbove(addr, b);
    MixedBack(((addr & ADDRESS) >> 8) & 7, ((addr & ADDRESS) >> 18) & 7, ((addr & ADDRESS) >> 28) & 7);
  }

  lemma FourBank(addr: bv64, b: bv64)
    requires b & 3 == b
    ensures ((WithBank(addr, 0xff_ffff_fcff, b) & ADDRESS) >> 8) & 3 == b
  {
  }

  lemma FourAbove(addr: bv64, b: bv64)
    requires b & 3 == b
    ensures ((WithBank(addr, 0xff_ffff_fcff, b) & ADDRESS) >> 18) & 3 == ((addr & ADDRESS) >> 18) & 3
    ensures ((WithBank(addr, 0xff_ffff_fcff, b) & ADDRESS) >> 28) & 3 == ((addr & ADDRESS) >> 28) & 3
  {
  }

  lemma FourPutBack(addr: bv64, b: bv64)
    requires addr >> 40 == 0 && b & 3 == b
    ensures WithBank(WithBank(addr, 0xff_ffff_fcff, b), 0xff_ffff_fcff, ((addr & ADDRESS) >> 8) & 3) == addr
  {
  }

  lemma FourBankTwice(addr: bv64, b: bv64, h: bv64)
    requires b == BankOf(addr, 3) && h == WithBank(addr, 0xff_ffff_fcff, b)
    ensures b & 3 == b && BankOf(h, 3) == ((addr & ADDRESS) >> 8) & 3
  {
    MixedInField((addr & ADDRESS) >> 8, (addr & ADDRESS) >> 18, (addr & ADDRESS) >> 28, 3);
    FourBank(addr, b);
    FourAbove(addr, b);
    MixedBack(((addr & ADDRESS) >> 8) & 3, ((addr & ADDRESS) >> 18) & 3, ((addr & ADDRESS) >> 28) & 3);
  }

  /** The hash is its own inverse. */
  lemma HashTwice(addr: bv64, eight: bool)
    requires addr >> 40 == 0
    ensures Hashed(Hashed(addr, eight), eight) == addr
  {
    if eight {
      EightBankTwice(addr, BankOf(addr, 7), Hashed(addr, eight));
      EightPutBack(addr, BankOf(addr, 7));
    } else {
      FourBankTwice(addr, BankOf(addr, 3), Hashed(addr, eight));
      FourPutBack(addr, BankOf(addr, 3));
    }
  }

  lemma HashInjective(a: bv64, b: bv64, eight: bool)
    requires a >> 40 == 0 && b >> 40 == 0 && Hashed(a, eight) == Hashed(b, eight)
    ensures a == b
  {
    HashTwice(a, eight);
    HashTwice(b, eight);
  }

  /** Row and column bits with the old position of the rank and stack bits. */
  function Way(addr: bv64): bv64 {
    WayIn(addr, ADDRESS)
  }

  function WayIn(addr: bv64, mask: bv64): bv64 {
    (((addr & mask) >> 8) << 2) | ((addr >> 4) & 3)
  }

  datatype Ranks = Single | Stacked | Ranked | StackedRanked

  function Squeezed(way: bv64, ranks: Ranks, three: bool): bv64 {
    match ranks
    case Single => way
    case StackedRanked => if three then (way & 0x1f) | ((way >> 7) << 5) else (way & 0xf) | ((way >> 6) << 4)
    case _ => if three then (way & 0x1f) | ((way >> 6) << 5) else (way & 0xf) | ((way >> 5) << 4)
  }

  function ChipSelect(addr: bv64, ranks: Ranks, three: bool): bv64 {
    match ranks
    case Single => 0
    case Stacked => if three then (addr >> 11) & 1 else (addr >> 10) & 1
    case Ranked => if three then (addr >> 10) & 2 else (addr >> 9) & 2
    case StackedRanked => if three then (addr >> 11) & 3 else (addr >> 10) & 3
  }

  function Row(addr: bv64, ranks: Ranks, three: bool): bv64 {
    WithSelect(Squeezed(Way(addr), ranks, three), ChipSelect(addr, ranks, three))
  }

  function WithSelect(way: bv64, cs: bv64): bv64 {
    way | (cs << 29)
  }

  /** Addresses of 40, 36 or 37 bits. */
  predicate InRange(addr: bv64, ranks: Ranks) {
    match ranks
    case Single => addr >> 40 == 0
    case Stacked => addr >> 36 == 0
    case _ => addr >> 37 == 0
  }

  // ---------------------------------------------------------------- the way back

  /** The row and column bits from a row key. */
  function Unsqueezed(row: bv64, ranks: Ranks, three: bool): bv64 {
    match ranks
    case Single => row
    case Stacked =>
      var way := row & 0x1fff_ffff;
      if three then (way & 0x1f) | (((row >> 29) & 1) << 5) | ((way >> 5) << 6)
      else (way & 0xf) | (((row >> 29) & 1) << 4) | ((way >> 4) << 5)
    case Ranked =>
      var way := row & 0x3fff_ffff;
      if three then (way & 0x1f) | (((row >> 30) & 1) << 5) | ((way >> 5) << 6)
      else (way & 0xf) | (((row >> 30) & 1) << 4) | ((way >> 4) << 5)
    case StackedRanked =>
      var way := row & 0x1fff_ffff;
      if three then (way & 0x1f) | (((row >> 29) & 3) << 5) | ((way >> 5) << 7)
      else (way & 0xf) | (((row >> 29) & 3) << 4) | ((way >> 4) << 6)
  }

  lemma StackedWay(a: bv64, three: bool)
    requires InRange(a, Stacked)
    ensures Unsqueezed(Row(a, Stacked, three), Stacked, three) == Way(a)
  {
  }

  lemma RankedWay(a: bv64, three: bool)
    requires InRange(a, Ranked)
    ensures Unsqueezed(Row(a, Ranked, three), Ranked, three) == Way(a)
  {
  }

  lemma StackedRankedWay(a: bv64, three: bool)
    requires InRange(a, StackedRanked)
    ensures Unsqueezed(Row(a, StackedRanked, three), StackedRanked, three) == Way(a)
  {
  }

  /** The address from its row and column bits, its bank and its half line. */
  function Address(way: bv64, bank: bv64, half: bv64): bv64 {
    ((way >> 2) << 8) | (bank << 6) | ((way & 3) << 4) | half
  }

  lemma AddressOfWay(a: bv64)
    requires a >> 40 == 0 && a & 7 == 0
    ensures Address(Way(a), (a >> 6) & 3, a & 8) == a
  {
  }

  // ---------------------------------------------------------------- placement

  /** The row key and the cell offset of an address. */
  datatype Place = Place(row: bv64, cell: bv64)

  /** Which memory is configured: eight banks, which ranks and stacks, three bank bits. */
  datatype Config = Config(eight: bool, ranks: Ranks, three: bool)

  /** Banks are 32 cells apart, the halves of a line 16. */
  function PlaceOf(addr: bv64, c: Config): Place {
    var h := Hashed(addr, c.eight);
    Place(Row(h, c.ranks, c.three), CellOf(h))
  }

  function CellOf(addr: bv64): bv64 {
    (((addr >> 6) & 3) << 5) + ((addr & 8) << 1)
  }

  lemma CellFields(p: bv64, q: bv64, r: bv64, t: bv64)
    requires p <= 3 && r <= 3 && (q == 0 || q == 8) && (t == 0 || t == 8) && (p << 5) + (q << 1) == (r << 5) + (t << 1)
    ensures p == r && q == t
  {
  }

  /** The hash leaves alone the bits outside the bank, and stays below a limit above bit 10. */
  lemma HashKeeps(a: bv64, eight: bool, ranks: Ranks)
    requires InRange(a, ranks)
    ensures InRange(Hashed(a, eight), ranks) && Hashed(a, eight) >> 40 == 0 && Hashed(a, eight) & 15 == a & 15
  {
  }

  lemma WayOfRow(a: bv64, ranks: Ranks, three: bool)
    requires InRange(a, ranks)
    ensures Unsqueezed(Row(a, ranks, three), ranks, three) == Way(a)
  {
    match ranks
    case Single =>
    case Stacked => StackedWay(a, three);
    case Ranked => RankedWay(a, three);
    case StackedRanked => StackedRankedWay(a, three);
  }

  lemma Aligned(h: bv64, a: bv64)
    requires h & 15 == a & 15 && a & 7 == 0
    ensures h & 7 == 0 && h & 8 == a & 8
  {
  }

  lemma WayFrom(a: bv64, row: bv64, way: bv64, ranks: Ranks, three: bool)
    requires InRange(a, ranks) && row == Row(a, ranks, three) && way == Unsqueezed(row, ranks, three)
    ensures way == Way(a)
  {
    WayOfRow(a, ranks, three);
  }

  lemma AddressFrom(a: bv64, way: bv64, bank: bv64, half: bv64, addr: bv64)
    requires a >> 40 == 0 && a & 7 == 0 && way == Way(a) && bank == (a >> 6) & 3 && half == a & 8 && addr == Address(way, bank, half)
    ensures addr == a
  {
    AddressOfWay(a);
  }

  lemma RowAndCellInjective(a: bv64, b: bv64, row: bv64, bank: bv64, half: bv64, ranks: Ranks, three: bool)
    requires InRange(a, ranks) && InRange(b, ranks) && a >> 40 == 0 && b >> 40 == 0 && a & 7 == 0 && b & 7 == 0
    requires row == Row(a, ranks, three) && row == Row(b, ranks, three)
    requires bank == (a >> 6) & 3 && bank == (b >> 6) & 3 && half == a & 8 && half == b & 8
    ensures a == b
  {
    var way := Unsqueezed(row, ranks, three);
    WayFrom(a, row, way, ranks, three);
    WayFrom(b, row, way, ranks, three);
    var addr := Address(way, bank, half);
    AddressFrom(a, way, bank, half, addr);
    AddressFrom(b, way, bank, half, addr);
  }

  /** Below the limit, different aligned addresses have different places. */
  lemma PlaceInjective(a: bv64, b: bv64, c: Config)
    requires InRange(a, c.ranks) && InRange(b, c.ranks) && a & 7 == 0 && b & 7 == 0 && PlaceOf(a, c) == PlaceOf(b, c)
    ensures a == b
  {
    HashedInjective(a, b, Hashed(a, c.eight), Hashed(b, c.eight), c);
  }

  lemma HashFacts(a: bv64, h: bv64, eight: bool, ranks: Ranks)
    requires InRange(a, ranks) && a & 7 == 0 && h == Hashed(a, eight)
    ensures InRange(h, ranks) && h >> 40 == 0 && a >> 40 == 0 && h & 7 == 0 && h & 8 == a & 8
  {
    BelowAddress(a, ranks);
    HashKeeps(a, eight, ranks);
    Aligned(h, a);
  }

  lemma BelowAddress(a: bv64, ranks: Ranks)
    requires InRange(a, ranks)
    ensures a >> 40 == 0
  {
  }

  lemma SameHash(h: bv64, k: bv64, ranks: Ranks, three: bool)
    requires InRange(h, ranks) && h >> 40 == 0 && h & 7 == 0 && InRange(k, ranks) && k >> 40 == 0 && k & 7 == 0
    requires Row(h, ranks, three) == Row(k, ranks, three)
    requires CellOf(h) == CellOf(k)
    ensures h == k
  {
    CellFields((h >> 6) & 3, h & 8, (k >> 6) & 3, k & 8);
    RowAndCellInjective(h, k, Row(h, ranks, three), (h >> 6) & 3, h & 8, ranks, three);
  }

  lemma SameHashed(a: bv64, b: bv64, h: bv64, k: bv64, c: Config)
    requires InRange(a, c.ranks) && InRange(b, c.ranks) && a & 7 == 0 && b & 7 == 0
    requires h == Hashed(a, c.eight) && k == Hashed(b, c.eight) && Row(h, c.ranks, c.three) == Row(k, c.ranks, c.three)
    requires CellOf(h) == CellOf(k)
    ensures h == k
  {
    HashFacts(a, h, c.eight, c.ranks);
    HashFacts(b, k, c.eight, c.ranks);
    SameHash(h, k, c.ranks, c.three);
  }

  lemma HashedInjective(a: bv64, b: bv64, h: bv64, k: bv64, c: Config)
    requires InRange(a, c.ranks) && InRange(b, c.ranks) && a & 7 == 0 && b & 7 == 0
    requires h == Hashed(a, c.eight) && k == Hashed(b, c.eight) && Row(h, c.ranks, c.three) == Row(k, c.ranks, c.three)
    requires CellOf(h) == CellOf(k)
    ensures a == b
  {
    SameHashed(a, b, h, k, c);
    BelowAddress(a, c.ranks);
    BelowAddress(b, c.ranks);
    HashInjective(a, b, c.eight);
  }

  /** The least address out of range. */
  function FirstBeyond(ranks: Ranks): bv64 {
    match ranks
    case Single => 0x100_0000_0000
    case Stacked => 0x10_0000_0000
    case _ => 0x20_0000_0000
  }

  /** An address in range that has the same place. */
  function Partner(c: Config): bv64 {
    if c.ranks == Single then 0 else if c.three then 0x800 else 0x400
  }

  /** The ranges cannot be extended: the least aligned address out of range shares its place. */
  lemma RangeIsExact(c: Config)
    ensures !InRange(FirstBeyond(c.ranks), c.ranks) && InRange(FirstBeyond(c.ranks) - 8, c.ranks) && InRange(Partner(c), c.ranks)
    ensures FirstBeyond(c.ranks) & 7 == 0 && Partner(c) & 7 == 0
    ensures PlaceOf(FirstBeyond(c.ranks), c) == PlaceOf(Partner(c), c)
  {
  }

  // ---------------------------------------------------------------- cal_4channel

  function ConfigOf(dram_type: bv32): Config {
    Config(dram_type & 0x1000 != 0,
      if dram_type & 0xc0 == 0 then Single else if dram_type & 0xc0 == 0x40 then Stacked
      else if dram_type & 0xc0 == 0x80 then Ranked else StackedRanked,
      dram_type & 2 != 0)
  }

  /** Row key with the rank and stack bits right above the row, of which there are 24 + k bits. */
  function HighRow(addr: bv64, k: nat, stacked: bool): bv64 {
    WithSelect(WayIn(addr, HighMask(k)), HighSelect(addr, k, stacked))
  }

  /** 0xffffffffff >> (8 - k): the address bits below the rank and stack bits. */
  function HighMask(k: nat): bv64 {
    if k == 0 then 0xffff_ffff
    else if k == 1 then 0x1_ffff_ffff
    else if k == 2 then 0x3_ffff_ffff
    else if k == 3 then 0x7_ffff_ffff
    else if k == 4 then 0xf_ffff_ffff
    else if k == 5 then 0x1f_ffff_ffff
    else if k == 6 then 0x3f_ffff_ffff
    else if k == 7 then 0x7f_ffff_ffff
    else 0xff_ffff_ffff
  }

  /** addr >> (32 + k). */
  function AboveRow(addr: bv64, k: nat): bv64 {
    ShiftedBy(addr >> 32, k)
  }

  function ShiftedBy(x: bv64, k: nat): bv64 {
    if k == 0 then x else if k == 1 then x >> 1 else if k == 2 then x >> 2 else if k == 3 then x >> 3
    else if k == 4 then x >> 4 else if k == 5 then x >> 5 else if k == 6 then x >> 6 else if k == 7 then x >> 7 else x >> 8
  }

  function HighSelect(addr: bv64, k: nat, stacked: bool): bv64 {
    if stacked then AboveRow(addr, k) & 3 else ((AboveRow(addr, k) & 1) << 1) & 2
  }

  method HashBank(addr: bv64, eight: bool) returns (a: bv64)
    ensures a == Hashed(addr, eight)
  {
    a := addr;
    var tmp := a & 0xff_ffff_ffff;
    if eight {
      var b_new := ((tmp >> 8) & 7) ^ ((tmp >> 18) & 7) ^ ((tmp >> 28) & 7);
      a := (a & 0xff_ffff_f8ff) | (b_new << 8);
    } else {
      var b_new := ((tmp >> 8) & 3) ^ ((tmp >> 18) & 3) ^ ((tmp >> 28) & 3);
      a := (a & 0xff_ffff_fcff) | (b_new << 8);
    }
  }

  /** Rank and stack bits at their old place, taken out of the row key. */
  method TakeOut(way: bv64, a: bv64, c: Config) returns (d_way: bv64, cs: bv64)
    ensures d_way == Squeezed(way, c.ranks, c.three) && cs == ChipSelect(a, c.ranks, c.three)
  {
    d_way := way;
    match c.ranks {
      case Single =>
        cs := 0;
      case Stacked =>
        if c.three {
          d_way := (d_way & 0x1f) | ((d_way >> 6) << 5);
          cs := (a >> 11) & 1;
        } else {
          d_way := (d_way & 0xf) | ((d_way >> 5) << 4);
          cs := (a >> 10) & 1;
        }
      case Ranked =>
        if c.three {
          d_way := (d_way & 0x1f) | ((d_way >> 6) << 5);
          cs := (a >> 10) & 2;
        } else {
          d_way := (d_way & 0xf) | ((d_way >> 5) << 4);
          cs := (a >> 9) & 2;
        }
      case StackedRanked =>
        if c.three {
          d_way := (d_way & 0x1f) | ((d_way >> 7) << 5);
          cs := (a >> 11) & 3;
        } else {
          d_way := (d_way & 0xf) | ((d_way >> 6) << 4);
          cs := (a >> 10) & 3;
        }
    }
  }

  /** The address bits of the row key and of the column. */
  method RowAndColumn(a: bv64, mask: bv64) returns (d_way: bv64)
    ensures d_way == WayIn(a, mask)
  {
    d_way := (a & mask) >> 8;
    d_way := (d_way << 2) | ((a >> 4) & 3);
  }

  method OldPosition(a: bv64, c: Config) returns (d_way: bv64)
    ensures d_way == Row(a, c.ranks, c.three)
  {
    var way := RowAndColumn(a, ADDRESS);
    var cs;
    d_way, cs := TakeOut(way, a, c);
    d_way := WithSelect(d_way, cs);
  }

  /** Rank and stack bits right above the row. */
  method NewPosition(a: bv64, k: nat, stacked: bool) returns (d_way: bv64)
    requires k <= 8
    ensures d_way == HighRow(a, k, stacked)
  {
    var way := RowAndColumn(a, HighMask(k));
    d_way := WithSelect(way, HighSelect(a, k, stacked));
  }

  /** The row key, the bank and the first cell of the bank; k is the low digit of dram_type, a shift
      amount when the rank and stack bits are above the row. */
  method Cal4Channel(addr: bv64, dram_type: bv32, k: nat) returns (d_way: bv64, bank_s: bv64, bank: bv64)
    requires dram_type & 0x100 == 0 ==> k <= 8 && k == (dram_type & 0xf) as nat
    ensures dram_type & 0x100 != 0 ==> Place(d_way, bank + ((addr & 8) << 1)) == PlaceOf(addr, ConfigOf(dram_type))
    ensures dram_type & 0x100 == 0 ==>
      Place(d_way, bank + ((addr & 8) << 1)) == HighPlaceOf(addr, dram_type & 0x1000 != 0, k, dram_type & 0x40 != 0)
    ensures bank_s <= 3 && bank == bank_s << 5
  {
    var c := ConfigOf(dram_type);
    var a := HashBank(addr, c.eight);
    if dram_type & 0x100 != 0 {
      d_way := OldPosition(a, c);
    } else {
      d_way := NewPosition(a, k, dram_type & 0x40 != 0);
    }
    bank_s := (a >> 6) & 3;
    bank := bank_s * 32;
    TimesBank(bank_s);
    HashHalf(addr, c.eight);
  }

  lemma TimesBank(b: bv64)
    requires b <= 3
    ensures b * 32 == b << 5
  {
  }

  lemma HashHalf(a: bv64, eight: bool)
    ensures Hashed(a, eight) & 8 == a & 8
  {
  }

  // ---------------------------------------------------------------- rank and stack bits above the row

  /** The place of an address with its rank and stack bits above the row. */
  function HighPlaceOf(addr: bv64, eight: bool, k: nat, stacked: bool): Place {
    var h := Hashed(addr, eight);
    Place(HighRow(h, k, stacked), CellOf(h))
  }

  /** Addresses of 34 + k bits, or of 33 + k bits without stacks. */
  predicate HighRange(addr: bv64, k: nat, stacked: bool) {
    if stacked then AboveRow(addr, k) >> 2 == 0 else AboveRow(addr, k) >> 1 == 0
  }

  lemma StackedBack0(h: bv64)
    requires HighRange(h, 0, true) && h & 7 == 0
    ensures HighBack(HighRow(h, 0, true), (h >> 6) & 3, h & 8, 0, true) == h
  {
  }

  lemma StackedBack1(h: bv64)
    requires HighRange(h, 1, true) && h & 7 == 0
    ensures HighBack(HighRow(h, 1, true), (h >> 6) & 3, h & 8, 1, true) == h
  {
  }

  lemma StackedBack2(h: bv64)
    requires HighRange(h, 2, true) && h & 7 == 0
    ensures HighBack(HighRow(h, 2, true), (h >> 6) & 3, h & 8, 2, true) == h
  {
  }

  lemma StackedBack3(h: bv64)
    requires HighRange(h, 3, true) && h & 7 == 0
    ensures HighBack(HighRow(h, 3, true), (h >> 6) & 3, h & 8, 3, true) == h
  {
  }

  lemma FlatBack0(h: bv64)
    requires HighRange(h, 0, false) && h & 7 == 0
    ensures HighBack(HighRow(h, 0, false), (h >> 6) & 3, h & 8, 0, false) == h
  {
  }

  lemma FlatBack1(h: bv64)
    requires HighRange(h, 1, false) && h & 7 == 0
    ensures HighBack(HighRow(h, 1, false), (h >> 6) & 3, h & 8, 1, false) == h
  {
  }

  lemma FlatBack2(h: bv64)
    requires HighRange(h, 2, false) && h & 7 == 0
    ensures HighBack(HighRow(h, 2, false), (h >> 6) & 3, h & 8, 2, false) == h
  {
  }

  lemma FlatBack3(h: bv64)
    requires HighRange(h, 3, false) && h & 7 == 0
    ensures HighBack(HighRow(h, 3, false), (h >> 6) & 3, h & 8, 3, false) == h
  {
  }

  lemma FlatBack4(h: bv64)
    requires HighRange(h, 4, false) && h & 7 == 0
    ensures HighBack(HighRow(h, 4, false), (h >> 6) & 3, h & 8, 4, false) == h
  {
  }

  /** The rank and stack bits do not meet the row, whose 26 + k bits are below bit 29 or 30, or there
      are none: with k = 8 they would be above the 40 bits of an address. */
  predicate Separate(k: nat, stacked: bool) {
    k == 8 || (k <= 4 && (stacked ==> k <= 3))
  }

  function HighBack(row: bv64, bank: bv64, half: bv64, k: nat, stacked: bool): bv64 {
    if k == 8 then Address(row, bank, half)
    else if stacked && k == 0 then Address(row & 0x1fff_ffff, bank, half) | (((row >> 29) & 3) << 32)
    else if stacked && k == 1 then Address(row & 0x1fff_ffff, bank, half) | (((row >> 29) & 3) << 33)
    else if stacked && k == 2 then Address(row & 0x1fff_ffff, bank, half) | (((row >> 29) & 3) << 34)
    else if stacked && k == 3 then Address(row & 0x1fff_ffff, bank, half) | (((row >> 29) & 3) << 35)
    else if k == 0 then Address(row & 0x3fff_ffff, bank, half) | (((row >> 30) & 1) << 32)
    else if k == 1 then Address(row & 0x3fff_ffff, bank, half) | (((row >> 30) & 1) << 33)
    else if k == 2 then Address(row & 0x3fff_ffff, bank, half) | (((row >> 30) & 1) << 34)
    else if k == 3 then Address(row & 0x3fff_ffff, bank, half) | (((row >> 30) & 1) << 35)
    else Address(row & 0x3fff_ffff, bank, half) | (((row >> 30) & 1) << 36)
  }

  lemma HighBackIs(h: bv64, k: nat, stacked: bool)
    requires Separate(k, stacked) && HighRange(h, k, stacked) && h & 7 == 0 && h >> 40 == 0
    ensures HighBack(HighRow(h, k, stacked), (h >> 6) & 3, h & 8, k, stacked) == h
  {
    if k == 8 {
      PlainBack(h, stacked);
    } else if stacked {
      StackedBackIs(h, k);
    } else {
      FlatBackIs(h, k);
    }
  }

  lemma PlainBack(h: bv64, stacked: bool)
    requires h >> 40 == 0 && h & 7 == 0
    ensures HighBack(HighRow(h, 8, stacked), (h >> 6) & 3, h & 8, 8, stacked) == h
  {
    NoSelect(h, stacked);
    AddressOfWay(h);
  }

  lemma NoSelect(h: bv64, stacked: bool)
    requires h >> 40 == 0
    ensures HighRow(h, 8, stacked) == Way(h)
  {
    assert (h >> 32) >> 8 == h >> 40;
  }

  lemma StackedBackIs(h: bv64, k: nat)
    requires k <= 3 && HighRange(h, k, true) && h & 7 == 0
    ensures HighBack(HighRow(h, k, true), (h >> 6) & 3, h & 8, k, true) == h
  {
    if k == 0 {
      StackedBack0(h);
    } else if k == 1 {
      StackedBack1(h);
    } else if k == 2 {
      StackedBack2(h);
    } else {
      StackedBack3(h);
    }
  }

  lemma FlatBackIs(h: bv64, k: nat)
    requires k <= 4 && HighRange(h, k, false) && h & 7 == 0
    ensures HighBack(HighRow(h, k, false), (h >> 6) & 3, h & 8, k, false) == h
  {
    if k == 0 {
      FlatBack0(h);
    } else if k == 1 {
      FlatBack1(h);
    } else if k == 2 {
      FlatBack2(h);
    } else if k == 3 {
      FlatBack3(h);
    } else {
      FlatBack4(h);
    }
  }

  lemma BackFrom(h: bv64, row: bv64, bank: bv64, half: bv64, addr: bv64, k: nat, stacked: bool)
    requires Separate(k, stacked) && HighRange(h, k, stacked) && h & 7 == 0 && h >> 40 == 0
    requires row == HighRow(h, k, stacked) && bank == (h >> 6) & 3 && half == h & 8 && addr == HighBack(row, bank, half, k, stacked)
    ensures addr == h
  {
    HighBackIs(h, k, stacked);
  }

  lemma SameHighHash(h: bv64, g: bv64, k: nat, stacked: bool)
    requires Separate(k, stacked) && HighRange(h, k, stacked) && h & 7 == 0 && HighRange(g, k, stacked) && g & 7 == 0
    requires h >> 40 == 0 && g >> 40 == 0
    requires HighRow(h, k, stacked) == HighRow(g, k, stacked) && CellOf(h) == CellOf(g)
    ensures h == g
  {
    CellFields((h >> 6) & 3, h & 8, (g >> 6) & 3, g & 8);
    var row, bank, half := HighRow(h, k, stacked), (h >> 6) & 3, h & 8;
    var addr := HighBack(row, bank, half, k, stacked);
    BackFrom(h, row, bank, half, addr, k, stacked);
    BackFrom(g, row, bank, half, addr, k, stacked);
  }

  /** The hash leaves alone all bits above bit 10, below bit 4, and nothing is above bit 39. */
  lemma HashKeepsHigh(a: bv64, eight: bool)
    requires a >> 40 == 0
    ensures Hashed(a, eight) >> 32 == a >> 32 && Hashed(a, eight) & 15 == a & 15 && Hashed(a, eight) >> 40 == 0
  {
  }

  lemma HighHashFacts(a: bv64, h: bv64, eight: bool, k: nat, stacked: bool)
    requires a >> 40 == 0 && HighRange(a, k, stacked) && a & 7 == 0 && h == Hashed(a, eight)
    ensures HighRange(h, k, stacked) && h & 7 == 0 && h >> 40 == 0
  {
    HashKeepsHigh(a, eight);
    Aligned(h, a);
  }

  lemma SameHighHashed(a: bv64, b: bv64, h: bv64, g: bv64, eight: bool, k: nat, stacked: bool)
    requires Separate(k, stacked) && a >> 40 == 0 && b >> 40 == 0 && a & 7 == 0 && b & 7 == 0
    requires HighRange(a, k, stacked) && HighRange(b, k, stacked) && h == Hashed(a, eight) && g == Hashed(b, eight)
    requires HighRow(h, k, stacked) == HighRow(g, k, stacked) && CellOf(h) == CellOf(g)
    ensures h == g
  {
    HighHashFacts(a, h, eight, k, stacked);
    HighHashFacts(b, g, eight, k, stacked);
    SameHighHash(h, g, k, stacked);
  }

  /** With the rank and stack bits above the row and apart from it, different aligned addresses in
      range have different places. */
  lemma HighPlaceInjective(a: bv64, b: bv64, eight: bool, k: nat, stacked: bool)
    requires Separate(k, stacked) && a >> 40 == 0 && b >> 40 == 0 && a & 7 == 0 && b & 7 == 0
    requires HighRange(a, k, stacked) && HighRange(b, k, stacked)
    requires HighPlaceOf(a, eight, k, stacked) == HighPlaceOf(b, eight, k, stacked)
    ensures a == b
  {
    SameHighHashed(a, b, Hashed(a, eight), Hashed(b, eight), eight, k, stacked);
    HashInjective(a, b, eight);
  }

  /** The bit 32 + k. */
  function FirstSelect(k: nat): bv64 {
    if k == 4 then 0x10_0000_0000 else if k == 5 then 0x20_0000_0000 else if k == 6 then 0x40_0000_0000 else 0x80_0000_0000
  }

  /** The row bit that ends up at the same place of the key. */
  function UnderSelect(stacked: bool): bv64 {
    if stacked then 0x8_0000_0000 else 0x10_0000_0000
  }

  /** For every other k two aligned addresses in range share a place. */
  lemma HighCollision(eight: bool, k: nat, stacked: bool)
    requires k <= 8 && !Separate(k, stacked)
    ensures var a, b := UnderSelect(stacked), FirstSelect(k);
      && a != b && a >> 40 == 0 && b >> 40 == 0 && a & 7 == 0 && b & 7 == 0
      && HighRange(a, k, stacked) && HighRange(b, k, stacked)
      && HighPlaceOf(a, eight, k, stacked) == HighPlaceOf(b, eight, k, stacked)
  {
    assert k == 4 || k == 5 || k == 6 || k == 7;
  }

  /** The least address out of range. */
  function HighBeyond(k: nat, stacked: bool): bv64 {
    if k == 8 then 0x100_0000_0000
    else if stacked then (if k == 0 then 0x4_0000_0000 else if k == 1 then 0x8_0000_0000 else if k == 2 then 0x10_0000_0000 else 0x20_0000_0000)
    else if k == 0 then 0x2_0000_0000 else if k == 1 then 0x4_0000_0000 else if k == 2 then 0x8_0000_0000
    else if k == 3 then 0x10_0000_0000 else 0x20_0000_0000
  }

  /** These ranges cannot be extended either: the least address out of range shares the place of 0. */
  lemma HighRangeIsExact(eight: bool, k: nat, stacked: bool)
    requires Separate(k, stacked)
    ensures var a := HighBeyond(k, stacked);
      && a & 7 == 0 && !(a >> 40 == 0 && HighRange(a, k, stacked))
      && (a - 8) >> 40 == 0 && HighRange(a - 8, k, stacked)
      && HighPlaceOf(a, eight, k, stacked) == HighPlaceOf(0, eight, k, stacked)
  {
    assert k == 8 || k == 0 || k == 1 || k == 2 || k == 3 || k == 4;
  }

  // ---------------------------------------------------------------- what each address bit does

  /** The hash adds the second and third group of bits to the bank bits, and changes nothing else. */
  lemma EightHashBank(a: bv64, b: bv64)
    requires b & 7 == b
    ensures Hashed(a ^ (b << 8), true) == Hashed(a, true) ^ (b << 8)
  {
  }

  lemma EightHashMiddle(a: bv64, b: bv64)
    requires b & 7 == b
    ensures Hashed(a ^ (b << 18), true) == Hashed(a, true) ^ (b << 18) ^ (b << 8)
  {
  }

  lemma EightHashHigh(a: bv64, b: bv64)
    requires b & 7 == b
    ensures Hashed(a ^ (b << 28), true) == Hashed(a, true) ^ (b << 28) ^ (b << 8)
  {
  }

  lemma EightHashOthers(a: bv64, m: bv64)
    requires m & 0xff_8fe3_f8ff == m
    ensures Hashed(a ^ m, true) == Hashed(a, true) ^ m
  {
  }

  lemma FourHashBank(a: bv64, b: bv64)
    requires b & 3 == b
    ensures Hashed(a ^ (b << 8), false) == Hashed(a, false) ^ (b << 8)
  {
  }

  lemma FourHashMiddle(a: bv64, b: bv64)
    requires b & 3 == b
    ensures Hashed(a ^ (b << 18), false) == Hashed(a, false) ^ (b << 18) ^ (b << 8)
  {
  }

  lemma FourHashHigh(a: bv64, b: bv64)
    requires b & 3 == b
    ensures Hashed(a ^ (b << 28), false) == Hashed(a, false) ^ (b << 28) ^ (b << 8)
  {
  }

  lemma FourHashOthers(a: bv64, m: bv64)
    requires m & 0xff_cff3_fcff == m
    ensures Hashed(a ^ m, false) == Hashed(a, false) ^ m
  {
  }

  lemma HashOfZero(eight: bool)
    ensures Hashed(0, eight) == 0
  {
  }

  /** Bank and half line: address bits 6 and 7 select one of four banks of 32 cells, bit 3 the upper half. */
  lemma CellBits(h: bv64)
    ensures CellOf(h) == ((h & 0xc0) >> 1) | ((h & 8) << 1)
  {
  }

  // The row key, wire by wire: the column bits 4 and 5 become its lowest, the bank bits follow, the rank and
  // stack bits go to the top, and the row bits close up.

  lemma SingleWires(h: bv64, three: bool)
    requires InRange(h, Single)
    ensures Row(h, Single, three) == ((h & 0x30) >> 4) | ((h & 0xff_ffff_ff00) >> 6)
  {
  }

  lemma StackedThreeWires(h: bv64)
    requires InRange(h, Stacked)
    ensures Row(h, Stacked, true) == ((h & 0x30) >> 4) | ((h & 0x700) >> 6)
      | ((h & 0xf_ffff_f000) >> 7) | ((h & 0x800) << 18)
  {
  }

  lemma StackedTwoWires(h: bv64)
    requires InRange(h, Stacked)
    ensures Row(h, Stacked, false) == ((h & 0x30) >> 4) | ((h & 0x300) >> 6)
      | ((h & 0xf_ffff_f800) >> 7) | ((h & 0x400) << 19)
  {
  }

  lemma RankedThreeWires(h: bv64)
    requires InRange(h, Ranked)
    ensures Row(h, Ranked, true) == ((h & 0x30) >> 4) | ((h & 0x700) >> 6)
      | ((h & 0x1f_ffff_f000) >> 7) | ((h & 0x800) << 19)
  {
  }

  lemma RankedTwoWires(h: bv64)
    requires InRange(h, Ranked)
    ensures Row(h, Ranked, false) == ((h & 0x30) >> 4) | ((h & 0x300) >> 6)
      | ((h & 0x1f_ffff_f800) >> 7) | ((h & 0x400) << 20)
  {
  }

  lemma StackedRankedThreeWires(h: bv64)
    requires InRange(h, StackedRanked)
    ensures Row(h, StackedRanked, true) == ((h & 0x30) >> 4) | ((h & 0x700) >> 6)
      | ((h & 0x1f_ffff_e000) >> 8) | ((h & 0x1800) << 18)
  {
  }

  lemma StackedRankedTwoWires(h: bv64)
    requires InRange(h, StackedRanked)
    ensures Row(h, StackedRanked, false) == ((h & 0x30) >> 4) | ((h & 0x300) >> 6)
      | ((h & 0x1f_ffff_f000) >> 8) | ((h & 0xc00) << 19)
  {
  }

  // ---------------------------------------------------------------- what dram_type selects

  // Where each bit of the hashed address goes: the column bits 4 and 5 become the lowest of the row key, the
  // bank bits follow, the rank and stack bits go to the top, and the row bits close up.

  lemma SingleType(addr: bv64, dram_type: bv32, h: bv64)
    requires dram_type & 0xc0 == 0 && addr >> 40 == 0 && h == Hashed(addr, dram_type & 0x1000 != 0)
    ensures PlaceOf(addr, ConfigOf(dram_type)).row
              == ((h & 0x30) >> 4) | ((h & 0xff_ffff_ff00) >> 6)
    ensures PlaceOf(addr, ConfigOf(dram_type)).cell == ((h & 0xc0) >> 1) | ((h & 8) << 1)
  {
    HashKeeps(addr, dram_type & 0x1000 != 0, Single);
    SingleWires(h, dram_type & 2 != 0);
    CellBits(h);
  }

  lemma StackedThreeType(addr: bv64, dram_type: bv32, h: bv64)
    requires dram_type & 0xc2 == 0x42 && addr >> 36 == 0 && h == Hashed(addr, dram_type & 0x1000 != 0)
    ensures PlaceOf(addr, ConfigOf(dram_type)).row
              == ((h & 0x30) >> 4) | ((h & 0x700) >> 6)
                 | ((h & 0xf_ffff_f000) >> 7) | ((h & 0x800) << 18)
    ensures PlaceOf(addr, ConfigOf(dram_type)).cell == ((h & 0xc0) >> 1) | ((h & 8) << 1)
  {
    HashKeeps(addr, dram_type & 0x1000 != 0, Stacked);
    StackedThreeWires(h);
    CellBits(h);
  }

  lemma StackedTwoType(addr: bv64, dram_type: bv32, h: bv64)
    requires dram_type & 0xc2 == 0x40 && addr >> 36 == 0 && h == Hashed(addr, dram_type & 0x1000 != 0)
    ensures PlaceOf(addr, ConfigOf(dram_type)).row
              == ((h & 0x30) >> 4) | ((h & 0x300) >> 6)
                 | ((h & 0xf_ffff_f800) >> 7) | ((h & 0x400) << 19)
    ensures PlaceOf(addr, ConfigOf(dram_type)).cell == ((h & 0xc0) >> 1) | ((h & 8) << 1)
  {
    HashKeeps(addr, dram_type & 0x1000 != 0, Stacked);
    StackedTwoWires(h);
    CellBits(h);
  }

  lemma RankedThreeType(addr: bv64, dram_type: bv32, h: bv64)
    requires dram_type & 0xc2 == 0x82 && addr >> 37 == 0 && h == Hashed(addr, dram_type & 0x1000 != 0)
    ensures PlaceOf(addr, ConfigOf(dram_type)).row
              == ((h & 0x30) >> 4) | ((h & 0x700) >> 6)
                 | ((h & 0x1f_ffff_f000) >> 7) | ((h & 0x800) << 19)
    ensures PlaceOf(addr, ConfigOf(dram_type)).cell == ((h & 0xc0) >> 1) | ((h & 8) << 1)
  {
    HashKeeps(addr, dram_type & 0x1000 != 0, Ranked);
    RankedThreeWires(h);
    CellBits(h);
  }

  lemma RankedTwoType(addr: bv64, dram_type: bv32, h: bv64)
    requires dram_type & 0xc2 == 0x80 && addr >> 37 == 0 && h == Hashed(addr, dram_type & 0x1000 != 0)
    ensures PlaceOf(addr, ConfigOf(dram_type)).row
              == ((h & 0x30) >> 4) | ((h & 0x300) >> 6)
                 | ((h & 0x1f_ffff_f800) >> 7) | ((h & 0x400) << 20)
    ensures PlaceOf(addr, ConfigOf(dram_type)).cell == ((h & 0xc0) >> 1) | ((h & 8) << 1)
  {
    HashKeeps(addr, dram_type & 0x1000 != 0, Ranked);
    RankedTwoWires(h);
    CellBits(h);
  }

  lemma StackedRankedThreeType(addr: bv64, dram_type: bv32, h: bv64)
    requires dram_type & 0xc2 == 0xc2 && addr >> 37 == 0 && h == Hashed(addr, dram_type & 0x1000 != 0)
    ensures PlaceOf(addr, ConfigOf(dram_type)).row
              == ((h & 0x30) >> 4) | ((h & 0x700) >> 6)
                 | ((h & 0x1f_ffff_e000) >> 8) | ((h & 0x1800) << 18)
    ensures PlaceOf(addr, ConfigOf(dram_type)).cell == ((h & 0xc0) >> 1) | ((h & 8) << 1)
  {
    HashKeeps(addr, dram_type & 0x1000 != 0, StackedRanked);
    StackedRankedThreeWires(h);
    CellBits(h);
  }

  lemma StackedRankedTwoType(addr: bv64, dram_type: bv32, h: bv64)
    requires dram_type & 0xc2 == 0xc0 && addr >> 37 == 0 && h == Hashed(addr, dram_type & 0x1000 != 0)
    ensures PlaceOf(addr, ConfigOf(dram_type)).row
              == ((h & 0x30) >> 4) | ((h & 0x300) >> 6)
                 | ((h & 0x1f_ffff_f000) >> 8) | ((h & 0xc00) << 19)
    ensures PlaceOf(addr, ConfigOf(dram_type)).cell == ((h & 0xc0) >> 1) | ((h & 8) << 1)
  {
    HashKeeps(addr, dram_type & 0x1000 != 0, StackedRanked);
    StackedRankedTwoWires(h);
    CellBits(h);
  }

  // The same with the rank and stack bits right above the row of 24 + k bits.

  lemma HighWires0(addr: bv64, eight: bool, k: nat, h: bv64)
    requires k == 0 && h == Hashed(addr, eight)
    ensures HighPlaceOf(addr, eight, k, true).row == ((h & 0x30) >> 4) | ((h & 0xffff_ff00) >> 6) | (((h >> 32) & 3) << 29)
    ensures HighPlaceOf(addr, eight, k, false).row == ((h & 0x30) >> 4) | ((h & 0xffff_ff00) >> 6) | (((h >> 32) & 1) << 30)
    ensures HighPlaceOf(addr, eight, k, true).cell == HighPlaceOf(addr, eight, k, false).cell == ((h & 0xc0) >> 1) | ((h & 8) << 1)
  {
    CellBits(h);
  }

  lemma HighWires1(addr: bv64, eight: bool, k: nat, h: bv64)
    requires k == 1 && h == Hashed(addr, eight)
    ensures HighPlaceOf(addr, eight, k, true).row == ((h & 0x30) >> 4) | ((h & 0x1_ffff_ff00) >> 6) | (((h >> 33) & 3) << 29)
    ensures HighPlaceOf(addr, eight, k, false).row == ((h & 0x30) >> 4) | ((h & 0x1_ffff_ff00) >> 6) | (((h >> 33) & 1) << 30)
    ensures HighPlaceOf(addr, eight, k, true).cell == HighPlaceOf(addr, eight, k, false).cell == ((h & 0xc0) >> 1) | ((h & 8) << 1)
  {
    CellBits(h);
  }

  lemma HighWires2(addr: bv64, eight: bool, k: nat, h: bv64)
    requires k == 2 && h == Hashed(addr, eight)
    ensures HighPlaceOf(addr, eight, k, true).row == ((h & 0x30) >> 4) | ((h & 0x3_ffff_ff00) >> 6) | (((h >> 34) & 3) << 29)
    ensures HighPlaceOf(addr, eight, k, false).row == ((h & 0x30) >> 4) | ((h & 0x3_ffff_ff00) >> 6) | (((h >> 34) & 1) << 30)
    ensures HighPlaceOf(addr, eight, k, true).cell == HighPlaceOf(addr, eight, k, false).cell == ((h & 0xc0) >> 1) | ((h & 8) << 1)
  {
    CellBits(h);
  }

  lemma HighWires3(addr: bv64, eight: bool, k: nat, h: bv64)
    requires k == 3 && h == Hashed(addr, eight)
    ensures HighPlaceOf(addr, eight, k, true).row == ((h & 0x30) >> 4) | ((h & 0x7_ffff_ff00) >> 6) | (((h >> 35) & 3) << 29)
    ensures HighPlaceOf(addr, eight, k, false).row == ((h & 0x30) >> 4) | ((h & 0x7_ffff_ff00) >> 6) | (((h >> 35) & 1) << 30)
    ensures HighPlaceOf(addr, eight, k, true).cell == HighPlaceOf(addr, eight, k, false).cell == ((h & 0xc0) >> 1) | ((h & 8) << 1)
  {
    CellBits(h);
  }

  lemma HighWires4(addr: bv64, eight: bool, k: nat, h: bv64)
    requires k == 4 && h == Hashed(addr, eight)
    ensures HighPlaceOf(addr, eight, k, true).row == ((h & 0x30) >> 4) | ((h & 0xf_ffff_ff00) >> 6) | (((h >> 36) & 3) << 29)
    ensures HighPlaceOf(addr, eight, k, false).row == ((h & 0x30) >> 4) | ((h & 0xf_ffff_ff00) >> 6) | (((h >> 36) & 1) << 30)
    ensures HighPlaceOf(addr, eight, k, true).cell == HighPlaceOf(addr, eight, k, false).cell == ((h & 0xc0) >> 1) | ((h & 8) << 1)
  {
    CellBits(h);
  }

  lemma HighWires5(addr: bv64, eight: bool, k: nat, h: bv64)
    requires k == 5 && h == Hashed(addr, eight)
    ensures HighPlaceOf(addr, eight, k, true).row == ((h & 0x30) >> 4) | ((h & 0x1f_ffff_ff00) >> 6) | (((h >> 37) & 3) << 29)
    ensures HighPlaceOf(addr, eight, k, false).row == ((h & 0x30) >> 4) | ((h & 0x1f_ffff_ff00) >> 6) | (((h >> 37) & 1) << 30)
    ensures HighPlaceOf(addr, eight, k, true).cell == HighPlaceOf(addr, eight, k, false).cell == ((h & 0xc0) >> 1) | ((h & 8) << 1)
  {
    CellBits(h);
  }

  lemma HighWires6(addr: bv64, eight: bool, k: nat, h: bv64)
    requires k == 6 && h == Hashed(addr, eight)
    ensures HighPlaceOf(addr, eight, k, true).row == ((h & 0x30) >> 4) | ((h & 0x3f_ffff_ff00) >> 6) | (((h >> 38) & 3) << 29)
    ensures HighPlaceOf(addr, eight, k, false).row == ((h & 0x30) >> 4) | ((h & 0x3f_ffff_ff00) >> 6) | (((h >> 38) & 1) << 30)
    ensures HighPlaceOf(addr, eight, k, true).cell == HighPlaceOf(addr, eight, k, false).cell == ((h & 0xc0) >> 1) | ((h & 8) << 1)
  {
    CellBits(h);
  }

  lemma HighWires7(addr: bv64, eight: bool, k: nat, h: bv64)
    requires k == 7 && h == Hashed(addr, eight)
    ensures HighPlaceOf(addr, eight, k, true).row == ((h & 0x30) >> 4) | ((h & 0x7f_ffff_ff00) >> 6) | (((h >> 39) & 3) << 29)
    ensures HighPlaceOf(addr, eight, k, false).row == ((h & 0x30) >> 4) | ((h & 0x7f_ffff_ff00) >> 6) | (((h >> 39) & 1) << 30)
    ensures HighPlaceOf(addr, eight, k, true).cell == HighPlaceOf(addr, eight, k, false).cell == ((h & 0xc0) >> 1) | ((h & 8) << 1)
  {
    CellBits(h);
  }

  lemma HighWires8(addr: bv64, eight: bool, k: nat, h: bv64)
    requires k == 8 && h == Hashed(addr, eight)
    ensures HighPlaceOf(addr, eight, k, true).row == ((h & 0x30) >> 4) | ((h & 0xff_ffff_ff00) >> 6) | (((h >> 40) & 3) << 29)
    ensures HighPlaceOf(addr, eight, k, false).row == ((h & 0x30) >> 4) | ((h & 0xff_ffff_ff00) >> 6) | (((h >> 40) & 1) << 30)
    ensures HighPlaceOf(addr, eight, k, true).cell == HighPlaceOf(addr, eight, k, false).cell == ((h & 0xc0) >> 1) | ((h & 8) << 1)
  {
    CellBits(h);
  }

  /** One address, and what the configuration makes of it. */
  lemma KeysOfOneAddress(dram_type: bv32)
    ensures dram_type & 0xc2 == 0x40 ==> PlaceOf(0x400, ConfigOf(dram_type)).row == 0x2000_0000
    ensures dram_type & 0xc2 == 0x80 ==> PlaceOf(0x400, ConfigOf(dram_type)).row == 0x4000_0000
    ensures dram_type & 0xc0 == 0 ==> PlaceOf(0x400, ConfigOf(dram_type)).row == 0x10
  {
  }
}
